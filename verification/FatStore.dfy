/**
 fat32_write on a whole volume: the file's chain grows, or comes into being, and its slot follows.
 */
module FatStore {
  import opened Bytes
  import opened FatVolume
  import opened FatChains
  import opened FatSlots
  import opened FatNames
  import opened FatFiles
  import opened FatDirs
  import opened FatTree
  import opened FatOps

  /** The clusters of the file behind a handle. */
  ghost function FileOf(T: Tree, cluster: nat): seq<nat> {
    if cluster != 0 && cluster in T.chains then T.chains[cluster] else []
  }

  /** The picture after a write: the file has chain r, and a chain that is new is named by the file's slot. */
  ghost function Stored(T: Tree, place: (nat, nat), cluster: nat, r: seq<nat>): Tree {
    if cluster == 0 then T
    else Tree(T.chains[cluster := r], if cluster in T.slotOf then T.slotOf else T.slotOf[cluster := place], T.dirs)
  }

  // ---- The file's slot ----

  lemma PatchedSlot(s: Slot, attr: byte, was: nat, cluster: nat, size: nat)
    requires HandleSlot(s, attr, was) && cluster < 0x1_0000_0000 && size < 0x1_0000_0000
    ensures var p := PatchSlot(s, cluster, size);
      && HandleSlot(p, attr, cluster) && p[0] != SLOT_END && AttrOf(p) == AttrOf(s) && SizeOf(p) == size
      && NameIn(p) == if cluster == 0 then None else Some((cluster, IsDirectory(attr)))
  {
    PatchSlotFields(s, cluster, size);
    var p := PatchSlot(s, cluster, size);
    assert NameField(p)[0] == p[0] && NameField(s)[0] == s[0];
    hide PatchSlot, ClusterOf, SizeOf, Parse83;
  }

  /** Directories after a write: only the file's slot changed. */
  lemma StoredDirBytes(d: seq<seq<byte>>, e: seq<seq<byte>>, T: Tree, U: Tree, k: nat, r: seq<nat>, idx: nat,
                       slot: Slot)
    requires Readable(d, T) && Readable(e, U) && |e| == |d| && U.dirs == T.dirs && k in T.dirs
    requires forall g :: g in T.dirs ==> U.chains[g] == T.chains[g] && Disjoint(r, T.chains[g])
    requires AllDisjoint(T.chains)
    requires forall c {:trigger e[c]} :: 0 <= c < |d| && c !in r && c !in T.chains[k] ==> e[c] == d[c]
    requires idx < Slots(Content(d, T.chains[k]))
    requires Content(e, T.chains[k]) == PutSlot(Content(d, T.chains[k]), idx, slot)
    ensures DirBytes(e, U) == DirBytes(d, T)[k := PutSlot(DirBytes(d, T)[k], idx, slot)]
  {
    hide Content, PutSlot, Disjoint;
    forall g | g in T.dirs && g != k ensures Content(e, U.chains[g]) == Content(d, T.chains[g]) {
      ThirdChain(d, e, T.chains[g], r, T.chains[k]);
    }
    DirBytesPut(d, e, T, U, k);
  }

  /** A file that had a chain keeps its name. */
  lemma StoredSame(D: map<nat, seq<byte>>, slotOf: map<nat, (nat, nat)>, root: nat, k: nat, idx: nat, slot: Slot,
                   attr: byte, cluster: nat, size: nat)
    requires Linked(D, slotOf, root) && k in D && idx < Slots(D[k]) && slot == SlotAt(D[k], idx)
    requires HandleSlot(slot, attr, cluster) && cluster < 0x1_0000_0000 && size < 0x1_0000_0000
    ensures Linked(D[k := PutSlot(D[k], idx, PatchSlot(slot, cluster, size))], slotOf, root)
  {
    PatchedSlot(slot, attr, cluster, cluster, size);
    HandleNames(slot, attr, cluster);
    var new_: Slot := PatchSlot(slot, cluster, size);
    assert Tidy(D[k]) && AttrOf(slot) == attr && Live(slot) && AttrOf(new_) != ATTR_LFN;
    hide PatchSlot, SlotAt, PutSlot, NameIn, HandleSlot, Tidy, Linked, ClusterOf, Listed, Live;
    TidyPut(D[k], idx, new_);
    LinkedSame(D, slotOf, root, k, idx, new_);
  }

  /** A file that had no chain is now named. */
  lemma StoredNew(D: map<nat, seq<byte>>, slotOf: map<nat, (nat, nat)>, root: nat, k: nat, idx: nat, slot: Slot,
                  attr: byte, cluster: nat, size: nat)
    requires Linked(D, slotOf, root) && k in D && idx < Slots(D[k]) && slot == SlotAt(D[k], idx)
    requires HandleSlot(slot, attr, 0) && 0 < cluster < 0x1_0000_0000 && size < 0x1_0000_0000
    requires !IsDirectory(attr) && cluster !in slotOf && cluster != root
    ensures Linked(D[k := PutSlot(D[k], idx, PatchSlot(slot, cluster, size))], slotOf[cluster := (k, idx)], root)
  {
    PatchedSlot(slot, attr, 0, cluster, size);
    HandleNames(slot, attr, 0);
    var new_: Slot := PatchSlot(slot, cluster, size);
    assert Tidy(D[k]) && AttrOf(slot) == attr && Live(slot) && AttrOf(new_) != ATTR_LFN;
    assert Tidy([]);
    hide PatchSlot, SlotAt, PutSlot, NameIn, HandleSlot, Tidy, Linked, ClusterOf, Listed, Live, IsDirectory;
    TidyPut(D[k], idx, new_);
    LinkedAdd(D, slotOf, root, k, idx, new_, cluster, []);
  }

  // ---- The table ----

  lemma StoredExact(t: seq<nat>, u: seq<nat>, limit: nat, T: Tree, root: nat, cluster: nat, r: seq<nat>)
    requires Exact(t, limit, T.chains) && Grown(t, u, FileOf(T, cluster), r) && Within(r, limit)
    requires cluster != 0 && r != [] && r[0] == cluster && 0 !in T.chains
    ensures Exact(u, limit, T.chains[cluster := r])
    ensures forall g :: g in T.chains && g != cluster ==> Disjoint(r, T.chains[g])
  {
    hide Chain, Within, Disjoint, Grown, NoneLost, ChainAt, AllChains;
    if cluster in T.chains {
      ExactGrown(t, u, limit, T.chains, cluster, r);
    } else {
      ExactAdded(t, u, limit, T.chains, r);
    }
    var now := T.chains[cluster := r];
    forall g | g in T.chains && g != cluster ensures Disjoint(r, T.chains[g]) {
      assert Disjoint(now[cluster], now[g]);
    }
  }

  /** A handle on one of the volume's files. */
  ghost predicate FileHandle(v: Volume, T: Tree, e: Entry)
    reads v, v.cache, e
  {
    Sound(v, T) && Handle(v, T, e) && !IsDirectory(e.attr) && e.size < 0x1_0000_0000
  }

  /** The file and its directory share no cluster. */
  lemma FileApart(v: Volume, T: Tree, e: Entry)
    requires FileHandle(v, T, e)
    ensures var k := DirStart(v, e.dirCluster);
      && k in T.dirs && k in T.chains && k != e.cluster && ChainFrom(v, k, T.chains[k]) && 0 !in T.chains
      && Disjoint(FileOf(T, e.cluster), T.chains[k]) && Within(T.chains[k], |v.data|)
      && (e.cluster != 0 ==> e.cluster in T.chains && e.cluster in T.slotOf && e.cluster !in T.dirs)
      && FileClusters(v, e.cluster, FileOf(T, e.cluster)) && |v.data| == v.limit
  {
    hide Content, SlotAt, NameIn, HandleSlot, Chain, Linked, Disjoint, Within;
    NoClusterZero(v, T);
    DirChain(v, T, e.dirCluster);
    if e.cluster != 0 {
      HandleChain(v, T, e);
      assert ChainAt(v.fat, v.limit, e.cluster, T.chains[e.cluster]);
    } else {
      NothingDisjoint(T.chains[DirStart(v, e.dirCluster)]);
    }
  }

  /** Chains other than the file's and its directory's are where they were, with the bytes they had. */
  ghost predicate OthersKept(d: seq<seq<byte>>, e: seq<seq<byte>>, T: Tree, U: Tree, k: nat, cluster: nat) {
    && Readable(d, T) && Readable(e, U)
    && forall g :: g in T.chains && g != k && g != cluster ==>
         g in U.chains && U.chains[g] == T.chains[g] && Content(e, U.chains[g]) == Content(d, T.chains[g])
  }

  lemma KeepOthers(d: seq<seq<byte>>, e: seq<seq<byte>>, T: Tree, U: Tree, k: nat, cluster: nat, r: seq<nat>)
    requires Readable(d, T) && Readable(e, U) && |e| == |d| && k in T.chains && AllDisjoint(T.chains)
    requires forall g :: g in T.chains && g != cluster ==>
      g in U.chains && U.chains[g] == T.chains[g] && Disjoint(r, T.chains[g])
    requires forall c {:trigger e[c]} :: 0 <= c < |d| && c !in r && c !in T.chains[k] ==> e[c] == d[c]
    ensures OthersKept(d, e, T, U, k, cluster)
  {
    hide Content, Disjoint;
    forall g | g in T.chains && g != k && g != cluster ensures Content(e, U.chains[g]) == Content(d, T.chains[g]) {
      ThirdChain(d, e, T.chains[g], r, T.chains[k]);
    }
  }

  /** The directory's bytes and the clusters outside file and directory, after a write that patched the slot. */
  ghost predicate DirPatched(d: seq<seq<byte>>, e: seq<seq<byte>>, r: seq<nat>, ds: seq<nat>, idx: nat,
                             cluster: nat, size: nat)
  {
    && |e| == |d| && Within(ds, |d|)
    && (forall c {:trigger e[c]} :: 0 <= c < |d| && c !in r && c !in ds ==> e[c] == d[c])
    && idx < Slots(Content(d, ds))
    && Content(e, ds) == PutSlot(Content(d, ds), idx, PatchSlot(SlotAt(Content(d, ds), idx), cluster, size))
  }

  ghost predicate SlotIs(d: seq<seq<byte>>, ds: seq<nat>, idx: nat, attr: byte, cluster: nat) {
    Within(ds, |d|) && idx < Slots(Content(d, ds)) && HandleSlot(SlotAt(Content(d, ds), idx), attr, cluster)
  }

  lemma PatchedSlotIs(d: seq<seq<byte>>, e: seq<seq<byte>>, r: seq<nat>, ds: seq<nat>, idx: nat, attr: byte,
                      was: nat, cluster: nat, size: nat)
    requires DirPatched(d, e, r, ds, idx, cluster, size) && SlotIs(d, ds, idx, attr, was)
    requires cluster < 0x1_0000_0000 && size < 0x1_0000_0000
    ensures SlotIs(e, ds, idx, attr, cluster)
  {
    hide Content, SlotAt, PutSlot, PatchSlot, HandleSlot;
    var slot := SlotAt(Content(d, ds), idx);
    PatchedSlot(slot, attr, was, cluster, size);
    PutSlotAll(Content(d, ds), idx, PatchSlot(slot, cluster, size));
  }

  lemma FileStart(v: Volume, cluster: nat, r: seq<nat>)
    requires v.Valid() && FileClusters(v, cluster, r)
    ensures if cluster == 0 then r == [] else r != [] && r[0] == cluster && cluster < v.limit < FAT_EOF
  {
    hide Content;
  }

  lemma HandleIs(v: Volume, T: Tree, e: Entry)
    requires Sound(v, T) && HasDir(v, T, e.dirCluster)
    ensures Handle(v, T, e) <==> SlotIs(v.data, T.chains[DirStart(v, e.dirCluster)], e.dirIndex, e.attr, e.cluster)
  {
    hide Content, SlotAt, HandleSlot, Linked, Exact;
  }

  lemma NewCluster(t: seq<nat>, u: seq<nat>, limit: nat, T: Tree, r: seq<nat>)
    requires Exact(t, limit, T.chains) && Grown(t, u, FileOf(T, 0), r) && Within(r, limit) && r != []
    ensures r[0] !in T.chains && FileOf(T, r[0]) == []
  {
    ExactAdded(t, u, limit, T.chains, r);
  }

  /** The chains once the file has chain r. */
  lemma StoredChains(v: Volume, t: seq<nat>, T: Tree, k: nat, r: seq<nat>, was: nat, cluster: nat)
    requires v.Valid() && Exact(t, v.limit, T.chains) && Readable(v.data, T) && 0 !in T.chains && k in T.dirs
    requires Grown(t, v.fat, FileOf(T, was), r) && Within(r, v.limit) && r != [] && r[0] == cluster && cluster != 0
    requires was != 0 ==> cluster == was && cluster in T.chains && cluster !in T.dirs
    ensures Exact(v.fat, v.limit, T.chains[cluster := r]) && AllDisjoint(T.chains) && Within(r, |v.data|)
    ensures forall g :: g in T.chains && g != cluster ==> Disjoint(r, T.chains[g])
    ensures cluster !in T.dirs && (was == 0 ==> cluster !in T.chains)
    ensures k != cluster && (forall p :: Readable(v.data, Stored(T, p, cluster, r)))
  {
    if was == 0 { NewCluster(t, v.fat, v.limit, T, r); }
    hide Chain, Disjoint, Grown, Within, NoneLost, ChainAt, AllChains;
    StoredExact(t, v.fat, v.limit, T, v.rootCluster, cluster, r);
    assert Within(r, |v.data|);
  }

  /** The picture is sound again once the slot records the file's chain. */
  lemma StoredSound(v: Volume, t: seq<nat>, d: seq<seq<byte>>, T: Tree, k: nat, idx: nat, r: seq<nat>,
                    attr: byte, was: nat, cluster: nat, size: nat)
    requires v.Valid() && Exact(t, v.limit, T.chains) && Readable(d, T) && k in T.dirs && 0 !in T.chains
    requires T.chains.Keys == T.slotOf.Keys + {v.rootCluster} && Linked(DirBytes(d, T), T.slotOf, v.rootCluster)
    requires Grown(t, v.fat, FileOf(T, was), r) && Within(r, v.limit) && r != [] && r[0] == cluster
    requires cluster < 0x1_0000_0000 && size < 0x1_0000_0000 && cluster != 0 && !IsDirectory(attr)
    requires was != 0 ==> cluster == was && cluster in T.slotOf && cluster !in T.dirs
    requires DirPatched(d, v.data, r, T.chains[k], idx, cluster, size)
    requires HandleSlot(SlotAt(Content(d, T.chains[k]), idx), attr, was)
    ensures Sound(v, Stored(T, (k, idx), cluster, r))
    ensures OthersKept(d, v.data, T, Stored(T, (k, idx), cluster, r), k, cluster)
    ensures k != cluster
  {
    hide Content, SlotAt, PutSlot, PatchSlot, Linked, Chain, Disjoint, HandleSlot, IsDirectory, Grown, Within, Exact,
      AllDisjoint, FileOf, Volume.StoresFat, Volume.StoresData, Volume.CacheOk;
    var U := Stored(T, (k, idx), cluster, r);
    StoredChains(v, t, T, k, r, was, cluster);
    assert Readable(v.data, U);
    var slot := SlotAt(DirBytes(d, T)[k], idx);
    StoredDirBytes(d, v.data, T, U, k, r, idx, PatchSlot(slot, cluster, size));
    KeepOthers(d, v.data, T, U, k, cluster, r);
    if was == 0 {
      StoredNew(DirBytes(d, T), T.slotOf, v.rootCluster, k, idx, slot, attr, cluster, size);
    } else {
      StoredSame(DirBytes(d, T), T.slotOf, v.rootCluster, k, idx, slot, attr, cluster, size);
    }
    assert U.chains.Keys == U.slotOf.Keys + {v.rootCluster};
  }

  /** The volume was full before anything was written: the chain may have grown, the slot is as it was. */
  lemma FullSound(v: Volume, t: seq<nat>, T: Tree, k: nat, idx: nat, r: seq<nat>, was: nat)
    requires v.Valid() && Exact(t, v.limit, T.chains) && Readable(v.data, T) && k in T.dirs && 0 !in T.chains
    requires T.chains.Keys == T.slotOf.Keys + {v.rootCluster} && Linked(DirBytes(v.data, T), T.slotOf, v.rootCluster)
    requires Grown(t, v.fat, FileOf(T, was), r) && Within(r, v.limit)
    requires if was == 0 then r == [] else r != [] && r[0] == was && was in T.slotOf && was !in T.dirs
    ensures Sound(v, Stored(T, (k, idx), was, r))
    ensures OthersKept(v.data, v.data, T, Stored(T, (k, idx), was, r), k, was)
  {
    hide Content, Linked, Chain, Disjoint, Within, Grown, Exact, DirBytes, Volume.StoresFat, Volume.StoresData,
      Volume.CacheOk;
    var U := Stored(T, (k, idx), was, r);
    if was == 0 {
      GrownFromNothing(t, v.fat);
    } else {
      StoredExact(t, v.fat, v.limit, T, v.rootCluster, was, r);
      assert Within(r, |v.data|);
      LongerFile(v.data, T, was, r);
    }
  }

  /** Directories do not see that a file's chain is longer. */
  lemma LongerFile(d: seq<seq<byte>>, T: Tree, h: nat, r: seq<nat>)
    requires Readable(d, T) && Within(r, |d|) && h in T.chains && h !in T.dirs
    ensures var U := T.(chains := T.chains[h := r]);
      Readable(d, U) && DirBytes(d, U) == DirBytes(d, T) && U.chains.Keys == T.chains.Keys
  {
    hide Content;
  }

  lemma GrownFromNothing(t: seq<nat>, u: seq<nat>)
    requires Grown(t, u, [], [])
    ensures u == t
  {
  }

  lemma WrittenPatches(d: seq<seq<byte>>, v: Volume, r: seq<nat>, ds: seq<nat>, offset: nat, buf: seq<byte>, n: int,
                       idx: nat, cluster: nat, size: nat)
    requires Within(r, |d|) && Within(ds, |d|) && 0 <= n <= |buf|
    requires FileWritten(d, v.data, r, ds, offset, buf[..n], idx, cluster, size)
    ensures DirPatched(d, v.data, r, ds, idx, cluster, size) && BytesStored(d, v, r, offset, buf, n)
  {
    hide Content, PutSlot, PatchSlot, SlotAt, Splice;
  }

  lemma FullPatches(d: seq<seq<byte>>, e: seq<seq<byte>>, r: seq<nat>, ds: seq<nat>, idx: nat,
                    was: nat, cluster: nat, size: nat)
    requires Within(ds, |d|) && OutOfSpace(d, e, ds, idx, was, cluster, size)
    ensures if cluster == was then e == d else DirPatched(d, e, r, ds, idx, cluster, size)
  {
    hide Content, PutSlot, PatchSlot, SlotAt;
  }

  /** The file's slot records its cluster and size, unless neither changed and nothing was stored. */
  ghost predicate SlotFollows(d: seq<seq<byte>>, e: seq<seq<byte>>, r: seq<nat>, ds: seq<nat>, idx: nat, was: nat,
                              cluster: nat, size0: nat, size: nat)
  {
    (e == d && cluster == was && size == size0) || DirPatched(d, e, r, ds, idx, cluster, size)
  }

  ghost predicate SameBytes(d: seq<seq<byte>>, e: seq<seq<byte>>, r: seq<nat>) {
    Within(r, |d|) && Within(r, |e|) && Content(e, r) == Content(d, r)
  }

  lemma FullSameBytes(d: seq<seq<byte>>, e: seq<seq<byte>>, r: seq<nat>, ds: seq<nat>, idx: nat,
                      was: nat, cluster: nat, size: nat)
    requires Within(r, |d|) && Within(ds, |d|) && Disjoint(r, ds) && OutOfSpace(d, e, ds, idx, was, cluster, size)
    ensures SameBytes(d, e, r)
  {
    hide Content, PutSlot, PatchSlot, SlotAt;
    if cluster != was { ContentApart(d, e, r, ds); }
  }

  /** fat32_write on a file of the volume. */
  method Store(v: Volume, e: Entry, buf: seq<byte>, offset: nat, ghost T: Tree)
      returns (res: int, ghost U: Tree, ghost r: seq<nat>)
    requires FileHandle(v, T, e) && offset + |buf| < 0x1_0000_0000
    modifies v`disk, v`cacheDirty, v`cacheLba, v`fat, v`data, v.cache, e`cluster, e`size
    ensures FileHandle(v, U, e) && U == Stored(T, (DirStart(v, e.dirCluster), e.dirIndex), e.cluster, r)
    ensures OthersKept(old(v.data), v.data, T, U, DirStart(v, e.dirCluster), e.cluster)
    ensures FileOf(T, old(e.cluster)) <= r == FileOf(U, e.cluster)
    ensures old(Covers(v.data, FileOf(T, e.cluster), e.size)) ==> Covers(v.data, r, e.size)
    ensures old(e.cluster) != 0 ==> e.cluster == old(e.cluster)
    ensures res == ERR_NOSPACE ==> NoFreeCluster(v.fat) && e.size == old(e.size)
    ensures res != ERR_NOSPACE ==> 0 <= res <= |buf| && (res < |buf| ==> NoFreeCluster(v.fat))
    ensures res != ERR_NOSPACE ==> e.size == if old(e.size) < offset + res then offset + res else old(e.size)
    ensures res != ERR_NOSPACE ==> BytesStored(old(v.data), v, r, offset, buf, res)
    ensures SlotFollows(old(v.data), v.data, r, T.chains[DirStart(v, e.dirCluster)], e.dirIndex, old(e.cluster),
                        e.cluster, old(e.size), e.size)
    ensures res == ERR_NOSPACE ==> SameBytes(old(v.data), v.data, r)
  {
    hide Content, SlotAt, PutSlot, PatchSlot, Linked, Chain, Disjoint, HandleSlot, IsDirectory, Grown, Within, Exact,
      NoFreeCluster;
    ghost var t, d, k, was := v.fat, v.data, DirStart(v, e.dirCluster), e.cluster;
    FileApart(v, T, e);
    HandleIs(v, T, e);
    res, r := Write(v, e, buf, offset, FileOf(T, e.cluster), T.chains[k]);
    U := Stored(T, (k, e.dirIndex), e.cluster, r);
    GrownPrefix(t, v.fat, FileOf(T, was), r);
    FileStart(v, e.cluster, r);
    if res == ERR_NOSPACE {
      FullPatches(d, v.data, r, T.chains[k], e.dirIndex, was, e.cluster, e.size);
      FullSameBytes(d, v.data, r, T.chains[k], e.dirIndex, was, e.cluster, e.size);
    } else {
      WrittenPatches(d, v, r, T.chains[k], offset, buf, res, e.dirIndex, e.cluster, e.size);
    }
    if res == ERR_NOSPACE && e.cluster == was {
      FullSound(v, t, T, k, e.dirIndex, r, was);
    } else {
      StoredSound(v, t, d, T, k, e.dirIndex, r, e.attr, was, e.cluster, e.size);
      PatchedSlotIs(d, v.data, r, T.chains[k], e.dirIndex, e.attr, was, e.cluster, e.size);
    }
    HandleIs(v, U, e);
  }

  ghost predicate BytesStored(d: seq<seq<byte>>, v: Volume, r: seq<nat>, offset: nat, buf: seq<byte>, n: int)
    reads v
  {
    && 0 <= n <= |buf| && Within(r, |d|) && Within(r, |v.data|) && offset + n <= |Content(d, r)|
    && Content(v.data, r) == Splice(Content(d, r), offset, buf[..n])
  }
}
