/**
 The operations of the driver on a whole volume. A Tree is the ghost picture of the volume: the
 chains, the slot that names each, and which of them are directories. Sound says that the picture
 is exact; every operation keeps it so and says how the picture changes.
 */
module FatOps {
  import opened Arith
  import opened Bytes
  import opened FatVolume
  import opened FatChains
  import opened FatSlots
  import opened FatNames
  import opened FatFiles
  import opened FatDirs
  import opened FatTree

  datatype Tree = Tree(chains: map<nat, seq<nat>>, slotOf: map<nat, (nat, nat)>, dirs: set<nat>)

  ghost predicate Readable(d: seq<seq<byte>>, T: Tree) {
    && T.dirs <= T.chains.Keys
    && forall h :: h in T.chains ==> Within(T.chains[h], |d|)
  }

  /** The bytes of every directory. */
  ghost function DirBytes(d: seq<seq<byte>>, T: Tree): (D: map<nat, seq<byte>>)
    requires Readable(d, T)
    ensures D.Keys == T.dirs
  {
    map h | h in T.dirs :: Content(d, T.chains[h])
  }

  /** The chains are exact and each slot names its chain; some chain may not be named yet. */
  ghost predicate Framed(v: Volume, T: Tree)
    reads v, v.cache
  {
    && v.Valid()
    && Exact(v.fat, v.limit, T.chains)
    && Readable(v.data, T)
    && Linked(DirBytes(v.data, T), T.slotOf, v.rootCluster)
  }

  ghost predicate Sound(v: Volume, T: Tree)
    reads v, v.cache
  {
    Framed(v, T) && T.chains.Keys == T.slotOf.Keys + {v.rootCluster}
  }

  /** The directory a handle's dir_cluster means is one of the volume's. */
  ghost predicate HasDir(v: Volume, T: Tree, dirCluster: nat)
    reads v, v.cache
  {
    DirStart(v, dirCluster) in T.dirs
  }

  /** The bytes of directory k. */
  ghost function DirIn(d: seq<seq<byte>>, T: Tree, k: nat): seq<byte> {
    if Readable(d, T) && k in T.dirs then Content(d, T.chains[k]) else []
  }

  /** The bytes of the directory a dir_cluster stands for. */
  ghost function DirOf(v: Volume, T: Tree, dirCluster: nat): seq<byte>
    reads v
  {
    DirIn(v.data, T, DirStart(v, dirCluster))
  }

  lemma DirOfIs(v: Volume, T: Tree, dirCluster: nat)
    requires Readable(v.data, T) && DirStart(v, dirCluster) in T.dirs
    ensures DirOf(v, T, dirCluster) == Content(v.data, T.chains[DirStart(v, dirCluster)])
  {
  }

  lemma TidyDirPlain(v: Volume, T: Tree, dirCluster: nat)
    requires Framed(v, T) && HasDir(v, T, dirCluster)
    ensures Plain(Content(v.data, T.chains[DirStart(v, dirCluster)]))
  {
    hide Chain, Content, Plain, EndsZero;
    assert Tidy(DirBytes(v.data, T)[DirStart(v, dirCluster)]);
  }

  lemma DirChain(v: Volume, T: Tree, dirCluster: nat)
    requires Framed(v, T) && HasDir(v, T, dirCluster)
    ensures ChainFrom(v, DirStart(v, dirCluster), T.chains[DirStart(v, dirCluster)])
    ensures Tidy(Content(v.data, T.chains[DirStart(v, dirCluster)]))
    ensures Plain(Content(v.data, T.chains[DirStart(v, dirCluster)]))
  {
    TidyDirPlain(v, T, dirCluster);
    var k := DirStart(v, dirCluster);
    hide Chain, Content, Tidy;
    assert ChainAt(v.fat, v.limit, k, T.chains[k]);
    assert Tidy(DirBytes(v.data, T)[k]);
  }

  // ---- How the directory bytes follow a change of the disk ----

  lemma DirBytesPut(d: seq<seq<byte>>, e: seq<seq<byte>>, T: Tree, U: Tree, k: nat)
    requires Readable(d, T) && Readable(e, U) && U.dirs == T.dirs && k in T.dirs
    requires forall g :: g in T.dirs && g != k ==> Content(e, U.chains[g]) == Content(d, T.chains[g])
    ensures DirBytes(e, U) == DirBytes(d, T)[k := Content(e, U.chains[k])]
  {
    hide Content;
  }

  /** Clusters changed inside chains a and b only: the bytes of any third chain are the same. */
  lemma ThirdChain(d: seq<seq<byte>>, e: seq<seq<byte>>, s: seq<nat>, a: seq<nat>, b: seq<nat>)
    requires |d| == |e| && Within(s, |d|) && Disjoint(a, s) && Disjoint(b, s)
    requires forall c {:trigger e[c]} :: 0 <= c < |d| && c !in a && c !in b ==> e[c] == d[c]
    ensures Content(e, s) == Content(d, s)
  {
    forall i | 0 <= i < |s| ensures d[s[i]] == e[s[i]] {
      DisjointFlip(a, s);
      DisjointFlip(b, s);
      NotIn(s, a, i);
      NotIn(s, b, i);
    }
    ContentFrame(d, e, s);
  }

  /** One slot of directory k was stored. */
  lemma DirBytesStored(d: seq<seq<byte>>, e: seq<seq<byte>>, T: Tree, k: nat, r: nat, slot: Slot)
    requires Readable(d, T) && |e| == |d| && k in T.dirs && AllDisjoint(T.chains)
    requires SlotStored(d, e, T.chains[k], r, slot)
    ensures r < Slots(DirBytes(d, T)[k])
    ensures DirBytes(e, T) == DirBytes(d, T)[k := PutSlot(DirBytes(d, T)[k], r, slot)]
  {
    hide Content, PutSlot, Disjoint;
    forall g | g in T.dirs && g != k ensures Content(e, T.chains[g]) == Content(d, T.chains[g]) {
      ThirdChain(d, e, T.chains[g], T.chains[k], T.chains[k]);
    }
    DirBytesPut(d, e, T, T, k);
  }

  // ---- Deleting ----

  /** The handle agrees with a listed slot of one of the volume's directories. */
  ghost predicate Handle(v: Volume, T: Tree, e: Entry)
    reads v, v.cache, e
    requires Sound(v, T)
  {
    && HasDir(v, T, e.dirCluster)
    && var c := Content(v.data, T.chains[DirStart(v, e.dirCluster)]);
    && e.dirIndex < Slots(c)
    && HandleSlot(SlotAt(c, e.dirIndex), e.attr, e.cluster)
  }

  predicate HandleSlot(s: Slot, attr: byte, cluster: nat) {
    Listed(s) && !IsDotName(NameOf(s)) && AttrOf(s) == attr && ClusterOf(s) == cluster
  }

  lemma HandleNames(s: Slot, attr: byte, cluster: nat)
    requires HandleSlot(s, attr, cluster)
    ensures NameIn(s) == if cluster != 0 then Some((cluster, IsDirectory(attr))) else None
    ensures s[0] != SLOT_END
  {
  }

  ghost predicate NamesNothing(c: seq<byte>) {
    forall i: nat :: i < Slots(c) ==> NameIn(SlotAt(c, i)).None?
  }

  lemma DeletedSlot(s: Slot)
    ensures NameIn(s[0 := SLOT_DELETED]).None? && !Live(s[0 := SLOT_DELETED])
  {
  }

  /** The chain a handle names, and how it is kept. */
  lemma HandleChain(v: Volume, T: Tree, e: Entry)
    requires Sound(v, T) && Handle(v, T, e) && e.cluster != 0
    ensures e.cluster in T.slotOf && e.cluster in T.chains && e.cluster != v.rootCluster
    ensures T.slotOf[e.cluster] == (DirStart(v, e.dirCluster), e.dirIndex)
    ensures e.cluster in T.dirs <==> IsDirectory(e.attr)
  {
    hide Content, SlotAt, NameIn, HandleSlot, Tidy, Exact;
    var D := DirBytes(v.data, T);
    var k := DirStart(v, e.dirCluster);
    HandleNames(SlotAt(D[k], e.dirIndex), e.attr, e.cluster);
    NameAt(D, k, e.dirIndex);
  }

  /** The picture after chain h and its slot are gone; h == 0 stands for an empty file. */
  ghost function Without(T: Tree, h: nat): Tree {
    if h == 0 then T else Tree(T.chains - {h}, T.slotOf - {h}, T.dirs - {h})
  }

  lemma DirBytesWithout(d: seq<seq<byte>>, T: Tree, h: nat)
    requires Readable(d, T)
    ensures Readable(d, Without(T, h))
    ensures DirBytes(d, Without(T, h)) == if h == 0 then DirBytes(d, T) else DirBytes(d, T) - {h}
  {
    hide Content;
  }

  /** The slots still name exactly the chains after slot r of directory k is deleted and chain h is gone. */
  lemma RemoveLinked(d: seq<seq<byte>>, e: seq<seq<byte>>, T: Tree, root: nat, k: nat, r: nat, slot: Slot, h: nat)
    requires Readable(d, T) && |e| == |d| && k in T.dirs && AllDisjoint(T.chains)
    requires Linked(DirBytes(d, T), T.slotOf, root)
    requires r < Slots(DirBytes(d, T)[k]) && slot == SlotAt(DirBytes(d, T)[k], r) && slot[0] != SLOT_END
    requires if h == 0 then NameIn(slot).None? else NameIn(slot).Some? && NameIn(slot).value.0 == h
    requires h in T.dirs ==> NamesNothing(DirBytes(d, T)[h])
    requires SlotStored(d, e, T.chains[k], r, slot[0 := SLOT_DELETED])
    ensures Readable(e, Without(T, h)) && Linked(DirBytes(e, Without(T, h)), Without(T, h).slotOf, root)
  {
    hide Content, PutSlot, Disjoint, SlotAt, NameIn, Name;
    var gone: Slot := slot[0 := SLOT_DELETED];
    var D := DirBytes(d, T);
    DirBytesStored(d, e, T, k, r, gone);
    DirBytesWithout(e, T, h);
    DeletedSlot(slot);
    TidyPut(D[k], r, gone);
    if h == 0 {
      LinkedSame(D, T.slotOf, root, k, r, gone);
    } else {
      LinkedDrop(D, T.slotOf, root, k, r, gone, h);
    }
  }

  /** Slot idx of directory k is now a deleted one; no other byte of the volume changed. */
  ghost predicate Deleted(d: seq<seq<byte>>, e: seq<seq<byte>>, T: Tree, k: nat, idx: nat) {
    && k in T.chains && Within(T.chains[k], |d|) && idx < Slots(Content(d, T.chains[k]))
    && SlotStored(d, e, T.chains[k], idx, SlotAt(Content(d, T.chains[k]), idx)[0 := SLOT_DELETED])
  }

  /** If h is a directory, its slots name no chain. */
  ghost predicate HoldsNothing(d: seq<seq<byte>>, T: Tree, h: nat) {
    Readable(d, T) && (h in T.dirs ==> NamesNothing(DirBytes(d, T)[h]))
  }

  /** fat_free_chain and mark_deleted together, for a handle whose chain names nothing. */
  method Remove(v: Volume, e: Entry, ghost T: Tree) returns (res: int)
    requires Sound(v, T) && Handle(v, T, e)
    requires HoldsNothing(v.data, T, e.cluster)
    modifies v`disk, v`cacheDirty, v`cacheLba, v`fat, v`data, v.cache
    ensures res == OK && Sound(v, Without(T, e.cluster))
    ensures Deleted(old(v.data), v.data, T, DirStart(v, e.dirCluster), e.dirIndex)
  {
    hide Content, PutSlot, Disjoint, SlotAt, NameIn, HandleSlot, Chain, Linked, Released, SlotStored,
      LinksInside, Volume.StoresFat, Volume.StoresData, Volume.CacheOk;
    ghost var d, t, k := v.data, v.fat, DirStart(v, e.dirCluster);
    ghost var slot := SlotAt(DirBytes(d, T)[k], e.dirIndex);
    HandleNames(slot, e.attr, e.cluster);
    DirChain(v, T, e.dirCluster);
    RemoveTable(v, T, e);
    FreeChain(v, e.cluster);
    assert ChainAt(v.fat, v.limit, k, T.chains[k]);
    res := MarkDeleted(v, e.dirCluster, e.dirIndex, T.chains[k]);
    RemoveLinked(d, v.data, T, v.rootCluster, k, e.dirIndex, slot, e.cluster);
  }

  /** What fat_free_chain does to the picture, before it is called. */
  lemma RemoveTable(v: Volume, T: Tree, e: Entry)
    requires Sound(v, T) && Handle(v, T, e)
    requires HoldsNothing(v.data, T, e.cluster)
    ensures LinksInside(v.fat, v.limit) && (IsLink(e.cluster) ==> e.cluster < v.limit)
    ensures Exact(Released(v.fat, v.limit, e.cluster), v.limit, Without(T, e.cluster).chains)
    ensures DirStart(v, e.dirCluster) in Without(T, e.cluster).chains
    ensures Without(T, e.cluster).chains.Keys == Without(T, e.cluster).slotOf.Keys + {v.rootCluster}
  {
    hide Content, SlotAt, NameIn, HandleSlot, Chain, Linked, Released, Disjoint, Within;
    ExactLinks(v.fat, v.limit, T.chains);
    if e.cluster == 0 {
      ReleasedNothing(v.fat, v.limit, 0);
    } else {
      HandleChain(v, T, e);
      ExactReleased(v.fat, v.limit, T.chains, e.cluster);
      KeepsOwnDirectory(v, T, e);
    }
  }

  /** A directory that names nothing is not named by a slot of its own; a file is no directory. */
  lemma KeepsOwnDirectory(v: Volume, T: Tree, e: Entry)
    requires Sound(v, T) && Handle(v, T, e) && e.cluster != 0
    requires HoldsNothing(v.data, T, e.cluster)
    ensures DirStart(v, e.dirCluster) != e.cluster
  {
    hide Content, SlotAt, NameIn, HandleSlot, Chain, Linked, Disjoint, Within, Exact;
    var D, k := DirBytes(v.data, T), DirStart(v, e.dirCluster);
    HandleNames(SlotAt(D[k], e.dirIndex), e.attr, e.cluster);
  }

  /** fat32_unlink */
  method Unlink(v: Volume, e: Entry, ghost T: Tree) returns (res: int, ghost U: Tree)
    requires Sound(v, T) && Handle(v, T, e)
    modifies v`disk, v`cacheDirty, v`cacheLba, v`fat, v`data, v.cache
    ensures Sound(v, U)
    ensures IsDirectory(e.attr) ==> res == ERR_ISDIR && U == T && v.disk == old(v.disk)
    ensures IsDirectory(e.attr) ==> v.fat == old(v.fat) && v.data == old(v.data)
    ensures !IsDirectory(e.attr) ==> res == OK && U == Without(T, e.cluster)
    ensures res == OK ==> Deleted(old(v.data), v.data, T, DirStart(v, e.dirCluster), e.dirIndex)
  {
    hide Content, SlotAt, NameIn, HandleSlot, Chain, Linked, Exact, Deleted;
    if IsDirectory(e.attr) { return ERR_ISDIR, T; }
    NoClusterZero(v, T);
    if e.cluster != 0 { HandleChain(v, T, e); }
    res := Remove(v, e, T);
    U := Without(T, e.cluster);
  }

  lemma NoClusterZero(v: Volume, T: Tree)
    requires Sound(v, T)
    ensures 0 !in T.chains
  {
    assert 0 in T.chains ==> ChainAt(v.fat, v.limit, 0, T.chains[0]);
  }

  // ---- Removing an empty directory ----

  ghost predicate OnlyDots(c: seq<byte>, from: nat, to: nat)
    requires to <= Slots(c)
  {
    forall i :: from <= i < to && Listed(SlotAt(c, i)) ==> IsDotName(NameOf(SlotAt(c, i)))
  }

  /** Between two listed slots nothing is listed, and nothing is listed after the last one. */
  lemma {:induction false} Unlisted(c: seq<byte>, p: nat)
    requires EndsZero(c) && p <= Slots(c)
    ensures OnlyDots(c, p, if NthListed(c, p, 0).None? then Slots(c) else NthListed(c, p, 0).value)
    decreases Slots(c) - p
  {
    if p < Slots(c) && SlotAt(c, p)[0] != SLOT_END && !Listed(SlotAt(c, p)) {
      Unlisted(c, p + 1);
    }
  }

  /** fat32_rmdir's loop: does the directory list anything but its two dot entries? */
  method ListsOnlyDots(v: Volume, cluster: nat, ghost s: seq<nat>) returns (res: int)
    requires v.Valid() && ChainFrom(v, DirStart(v, cluster), s) && Tidy(Content(v.data, s))
    modifies v`disk, v`cacheDirty, v`cacheLba, v.cache
    ensures v.Valid() && v.disk == old(v.disk)
    ensures res == OK || res == ERR_EXIST
    ensures res == OK <==> OnlyDots(Content(v.data, s), 0, Slots(Content(v.data, s)))
  {
    hide Content, Chain, Plain, Listed, NthListed, Continues, SlotAt, Parse83, EndsZero;
    ghost var c := Content(v.data, s);
    var child := new Entry();
    var i: nat := 0;
    ghost var p: nat := 0;
    ContinuesStart(c);
    while true
      invariant v.Valid() && v.disk == old(v.disk)
      invariant p <= Slots(c) && Continues(c, 0, i, p) && OnlyDots(c, 0, p)
      decreases Slots(c) - p
    {
      res := ReadDir(v, cluster, i, child, s);
      NextListed(c, i, p);
      Unlisted(c, p);
      if res == ERR_NOENT { return OK; }
      ListStep(c, p, []);
      ghost var r := NthListed(c, p, 0).value;
      if child.name != [DOT] && child.name != [DOT, DOT] { return ERR_EXIST; }
      ContinuesOn(c, i, p, r + 1);
      i := i + 1;
      p := r + 1;
    }
  }

  ghost predicate EmptyDir(d: seq<seq<byte>>, T: Tree, k: nat) {
    Readable(d, T) && k in T.dirs && OnlyDots(DirBytes(d, T)[k], 0, Slots(DirBytes(d, T)[k]))
  }

  lemma DotsNameNothing(c: seq<byte>)
    requires OnlyDots(c, 0, Slots(c))
    ensures NamesNothing(c)
  {
    hide SlotAt;
  }

  /** fat32_rmdir */
  method Rmdir(v: Volume, e: Entry, ghost T: Tree) returns (res: int, ghost U: Tree)
    requires Sound(v, T) && Handle(v, T, e)
    modifies v`disk, v`cacheDirty, v`cacheLba, v`fat, v`data, v.cache
    ensures Sound(v, U)
    ensures !IsDirectory(e.attr) ==> res == ERR_NOTDIR
    ensures IsDirectory(e.attr) ==> res == OK || res == ERR_EXIST
    ensures res != OK ==> U == T && v.disk == old(v.disk) && v.fat == old(v.fat) && v.data == old(v.data)
    ensures IsDirectory(e.attr) ==> (res == OK <==> EmptyDir(old(v.data), T, DirStart(v, e.cluster)))
    ensures res == OK ==> U == Without(T, e.cluster)
    ensures res == OK ==> Deleted(old(v.data), v.data, T, DirStart(v, e.dirCluster), e.dirIndex)
  {
    hide Content, SlotAt, NameIn, HandleSlot, Chain, Linked, Exact, Deleted;
    if !IsDirectory(e.attr) { return ERR_NOTDIR, T; }
    NoClusterZero(v, T);
    RootIsDir(v, T);
    if e.cluster != 0 { HandleChain(v, T, e); }
    DirChain(v, T, e.cluster);
    res := ListsOnlyDots(v, e.cluster, T.chains[DirStart(v, e.cluster)]);
    if res != OK { return res, T; }
    DotsNameNothing(DirBytes(v.data, T)[DirStart(v, e.cluster)]);
    res := Remove(v, e, T);
    U := Without(T, e.cluster);
  }

  lemma RootIsDir(v: Volume, T: Tree)
    requires Sound(v, T)
    ensures v.rootCluster in T.dirs
  {
    hide Exact, Content;
  }

  // ---- Entering a name ----

  /** A C string that make_83 turns into a slot that counts: not deleted, not a dot entry. */
  predicate Storable(name: seq<byte>) {
    && 0 !in name
    && Make83(name)[0] != SLOT_DELETED
    && !IsDotName(Parse83(Make83(name)))
  }

  lemma StoredFirstByte(name: seq<byte>)
    requires 0 !in name
    ensures Make83(name)[0] != SLOT_END
  {
    var b := Upper(Base(name));
    assert Make83(name)[0] == Pad(b, 8)[0];
    if b != [] {
      assert b[0] == Up(name[0]) && name[0] in name;
    }
  }

  /** What a new slot names. */
  lemma NewSlotNames(name: seq<byte>, attr: byte, cluster: nat, size: nat)
    requires 0 !in name && !IsVolumeLabel(attr) && cluster < 0x1_0000_0000 && size < 0x1_0000_0000
    ensures var s := NewSlot(Make83(name), attr, cluster, size);
      && s[0] != SLOT_END && AttrOf(s) != ATTR_LFN
      && (cluster == 0 || !Storable(name) ==> NameIn(s).None?)
      && (cluster != 0 && Storable(name) ==> NameIn(s) == Some((cluster, IsDirectory(attr))))
      && (Storable(name) ==> HandleSlot(s, attr, cluster))
      && NameOf(s) == Parse83(Make83(name)) && (Live(s) <==> Make83(name)[0] != SLOT_DELETED) && AttrOf(s) == attr
  {
    hide Make83, Parse83;
    StoredFirstByte(name);
    NewSlotFields(Make83(name), attr, cluster, size);
    var s := NewSlot(Make83(name), attr, cluster, size);
    assert s[0] == NameField(s)[0];
  }

  /** The directory once its first free slot q is ready to be filled. */
  lemma SlotReady(D: map<nat, seq<byte>>, slotOf: map<nat, (nat, nat)>, root: nat, k: nat, n: nat, q: nat, slot: Slot)
    requires Linked(D, slotOf, root) && k in D && n % 32 == 0
    requires q == FirstDead(D[k], 0) < Slots(D[k] + Zeros(n))
    requires slot[0] != SLOT_END && AttrOf(slot) != ATTR_LFN
    ensures var op := D[k] + Zeros(n);
      && Linked(D[k := op], slotOf, root) && NameIn(SlotAt(op, q)).None? && !Live(SlotAt(op, q))
      && Tidy(PutSlot(op, q, slot))
  {
    var op := D[k] + Zeros(n);
    LinkedOpened(D, slotOf, root, k, n);
    ZerosFree(n);
    OpenedRefs(D[k], Zeros(n));
    TidyOpened(D[k], n);
    SlotsAppended(D[k], Zeros(n));
    hide SlotAt, Linked, PutSlot, Tidy;
    if q >= Slots(D[k]) {
      assert SlotAt(op, Slots(D[k]) + (q - Slots(D[k]))) == SlotAt(Zeros(n), q - Slots(D[k]));
      ZeroSlot(n, q - Slots(D[k]));
    }
    FirstDeadLive(D[k]);
    TidyPut(op, q, slot);
  }

  lemma FirstDeadLive(c: seq<byte>)
    ensures forall i :: 0 <= i < FirstDead(c, 0) ==> SlotAt(c, i)[0] != SLOT_END
    ensures FirstDead(c, 0) < Slots(c) ==> !Live(SlotAt(c, FirstDead(c, 0)))
  {
    hide SlotAt;
  }

  lemma ZeroSlot(n: nat, i: nat)
    requires i < Slots(Zeros(n))
    ensures SlotAt(Zeros(n), i)[0] == 0
  {
  }

  /** Directory k's chain grew to r. */
  ghost function Regrown(T: Tree, k: nat, r: seq<nat>): Tree {
    T.(chains := T.chains[k := r])
  }

  lemma DirBytesEntered(d: seq<seq<byte>>, e: seq<seq<byte>>, T: Tree, k: nat, r: seq<nat>, bpc: nat,
                        q: nat, slot: Slot)
    requires Readable(d, T) && k in T.dirs && AllDisjoint(T.chains[k := r])
    requires |e| == |d| && Within(r, |d|) && SlotEntered(d, e, T.chains[k], r, bpc, q, slot)
    ensures Readable(e, Regrown(T, k, r))
    ensures q < Slots(Opened(d, T.chains[k], r, bpc))
    ensures DirBytes(e, Regrown(T, k, r))
      == DirBytes(d, T)[k := PutSlot(Opened(d, T.chains[k], r, bpc), q, slot)]
  {
    hide Content, PutSlot, Disjoint, Opened, FirstDead;
    var U := Regrown(T, k, r);
    forall g | g in T.dirs && g != k ensures Content(e, U.chains[g]) == Content(d, T.chains[g]) {
      assert Disjoint(U.chains[k], U.chains[g]);
      ThirdChain(d, e, T.chains[g], r, r);
    }
    DirBytesPut(d, e, T, U, k);
  }

  lemma SetTwice(D: map<nat, seq<byte>>, k: nat, a: seq<byte>, b: seq<byte>)
    ensures D[k := a][k := b] == D[k := b]
  {
  }

  /** Everything about the slots, once a slot that names nothing new has been entered. */
  lemma EnteredLinked(d: seq<seq<byte>>, e: seq<seq<byte>>, T: Tree, root: nat, k: nat, r: seq<nat>, bpc: nat,
                      q: nat, slot: Slot)
    requires Readable(d, T) && k in T.dirs && AllDisjoint(T.chains[k := r]) && bpc % 32 == 0
    requires |e| == |d| && Within(r, |d|) && SlotEntered(d, e, T.chains[k], r, bpc, q, slot)
    requires Linked(DirBytes(d, T), T.slotOf, root)
    requires slot[0] != SLOT_END && AttrOf(slot) != ATTR_LFN && NameIn(slot).None?
    ensures Readable(e, Regrown(T, k, r)) && Linked(DirBytes(e, Regrown(T, k, r)), T.slotOf, root)
  {
    hide Content, PutSlot, Disjoint, FirstDead, SlotAt, NameIn, Tidy, Linked;
    var D := DirBytes(d, T);
    var n := if |r| > |T.chains[k]| then bpc else 0;
    DirBytesEntered(d, e, T, k, r, bpc, q, slot);
    SlotReady(D, T.slotOf, root, k, n, q, slot);
    LinkedSame(D[k := D[k] + Zeros(n)], T.slotOf, root, k, q, slot);
    SetTwice(D, k, D[k] + Zeros(n), PutSlot(D[k] + Zeros(n), q, slot));
  }

  lemma ExactParts(v: Volume, T: Tree, k: nat)
    requires v.Valid() && Exact(v.fat, v.limit, T.chains) && k in T.chains
    ensures AllDisjoint(T.chains) && ChainFrom(v, k, T.chains[k]) && Within(T.chains[k], |v.data|)
    ensures v.Bpc() % 32 == 0
  {
    hide Chain, Within, Disjoint;
    assert ChainAt(v.fat, v.limit, k, T.chains[k]);
    WholeBlocks(v.spc);
  }

  /** The table and the chains after write_dir_entry. */
  lemma RegrownExact(t: seq<nat>, v: Volume, T: Tree, k: nat, r: seq<nat>)
    requires v.Valid() && Exact(t, v.limit, T.chains) && k in T.chains
    requires Grown(t, v.fat, T.chains[k], r) && Within(r, v.limit)
    ensures Exact(v.fat, v.limit, Regrown(T, k, r).chains)
    ensures AllDisjoint(Regrown(T, k, r).chains) && Within(r, |v.data|) && v.Bpc() % 32 == 0
    ensures ChainFrom(v, k, r)
  {
    hide Chain, Within, Disjoint, Grown;
    ExactGrown(t, v.fat, v.limit, T.chains, k, r);
    ExactParts(v, Regrown(T, k, r), k);
  }

  /** The slot a directory holds at q after it was entered there. */
  lemma EnteredSlot(d: seq<seq<byte>>, e: seq<seq<byte>>, s: seq<nat>, r: seq<nat>, bpc: nat, q: nat, slot: Slot)
    requires Within(s, |d|) && Within(r, |e|) && SlotEntered(d, e, s, r, bpc, q, slot)
    ensures q < Slots(Content(e, r)) && SlotAt(Content(e, r), q) == slot
  {
    hide Content, SlotAt, PutSlot, FirstDead;
    PutSlotAll(Opened(d, s, r, bpc), q, slot);
  }

  // ---- What a search finds once a slot has been entered ----

  /** The search for x passes over the first e slots of the directory. */
  ghost predicate Passes(c: seq<byte>, x: seq<byte>, e: nat) {
    && e <= Slots(c)
    && forall i :: 0 <= i < e ==> SlotAt(c, i)[0] != SLOT_END && !Matches(SlotAt(c, i), x)
  }

  /** Where a search stops: at a match, at a zero byte, or after the last slot. */
  ghost function Stop(c: seq<byte>, from: nat, x: seq<byte>): (e: nat)
    requires from <= Slots(c)
    ensures from <= e <= Slots(c)
    decreases Slots(c) - from
  {
    if from == Slots(c) || SlotAt(c, from)[0] == SLOT_END || Matches(SlotAt(c, from), x) then from
    else Stop(c, from + 1, x)
  }

  lemma {:induction false} StopMeans(c: seq<byte>, from: nat, x: seq<byte>)
    requires Passes(c, x, from)
    ensures var e := Stop(c, from, x);
      && Passes(c, x, e)
      && FirstMatch(c, from, x) == (if e < Slots(c) && Matches(SlotAt(c, e), x) then Some(e) else None)
      && (e < Slots(c) ==> Matches(SlotAt(c, e), x) || SlotAt(c, e)[0] == SLOT_END)
    decreases Slots(c) - from
  {
    hide Matches, SlotAt;
    if from < Slots(c) && SlotAt(c, from)[0] != SLOT_END && !Matches(SlotAt(c, from), x) {
      StopMeans(c, from + 1, x);
    } else if from < Slots(c) && Matches(SlotAt(c, from), x) {
      MatchIsLive(SlotAt(c, from), x);
    }
  }

  lemma MatchIsLive(s: Slot, x: seq<byte>)
    requires Matches(s, x)
    ensures Live(s) && s[0] != SLOT_END
  {
  }

  lemma {:induction false} StopAt(c: seq<byte>, from: nat, x: seq<byte>, e: nat)
    requires Passes(c, x, e) && from <= e
    requires e < Slots(c) ==> Matches(SlotAt(c, e), x) || SlotAt(c, e)[0] == SLOT_END
    ensures Stop(c, from, x) == e
    decreases e - from
  {
    hide Matches, SlotAt;
    if from < e { StopAt(c, from + 1, x, e); }
  }

  /** c with zeroed slots appended and its first free slot q filled. */
  ghost predicate FilledAt(c: seq<byte>, g: seq<byte>, q: nat, slot: Slot) {
    && EndsZero(c) && q == FirstDead(c, 0) < Slots(g) && Slots(c) <= Slots(g)
    && SlotAt(g, q) == slot && slot[0] != SLOT_END
    && (forall i :: 0 <= i < Slots(c) && i != q ==> SlotAt(g, i) == SlotAt(c, i))
    && (forall i :: Slots(c) <= i < Slots(g) && i != q ==> SlotAt(g, i)[0] == SLOT_END)
  }

  /** Every search afterwards finds an earlier match, the new slot, or what it found before. */
  lemma SearchFilled(c: seq<byte>, g: seq<byte>, q: nat, slot: Slot, x: seq<byte>)
    requires FilledAt(c, g, q, slot)
    ensures var m := FirstMatch(c, 0, x);
      FirstMatch(g, 0, x) ==
        if m.Some? && m.value < q then m else if Matches(slot, x) then Some(q) else m
  {
    StopMeans(c, 0, x);
    StopMeans(g, 0, x);
    FirstDeadLive(c);
    var e := Stop(c, 0, x);
    StopFilled(c, g, q, slot, x, e);
  }

  lemma StopFilled(c: seq<byte>, g: seq<byte>, q: nat, slot: Slot, x: seq<byte>, e: nat)
    requires FilledAt(c, g, q, slot) && Passes(c, x, e) && e == Stop(c, 0, x)
    requires e < Slots(c) ==> Matches(SlotAt(c, e), x) || SlotAt(c, e)[0] == SLOT_END
    ensures e != q || q == Slots(c) || SlotAt(c, q)[0] == SLOT_END
    ensures Stop(g, 0, x) == if e < q then e else if Matches(slot, x) then q else if e == q then q + 1 else e
  {
    FirstDeadLive(c);
    if e < Slots(c) && Matches(SlotAt(c, e), x) { MatchIsLive(SlotAt(c, e), x); }
    hide Matches, SlotAt, FirstDead;
    StopAt(g, 0, x, if e < q then e else if Matches(slot, x) then q else if e == q then q + 1 else e);
  }

  lemma ZeroTail(c: seq<byte>, n: nat)
    requires |c| % 32 == 0
    ensures Slots(c) <= Slots(c + Zeros(n))
    ensures forall i :: 0 <= i < Slots(c) ==> SlotAt(c + Zeros(n), i) == SlotAt(c, i)
    ensures forall i :: Slots(c) <= i < Slots(c + Zeros(n)) ==> SlotAt(c + Zeros(n), i)[0] == SLOT_END
  {
    hide SlotAt;
    SlotsAppended(c, Zeros(n));
    forall i | Slots(c) <= i < Slots(c + Zeros(n)) ensures SlotAt(c + Zeros(n), i)[0] == SLOT_END {
      assert SlotAt(c + Zeros(n), Slots(c) + (i - Slots(c))) == SlotAt(Zeros(n), i - Slots(c));
      ZeroSlot(n, i - Slots(c));
    }
  }

  lemma TidyParts(c: seq<byte>)
    requires Tidy(c)
    ensures EndsZero(c) && |c| % 32 == 0
  {
  }

  lemma EnteredFilled(d: seq<seq<byte>>, e: seq<seq<byte>>, s: seq<nat>, r: seq<nat>, bpc: nat, q: nat, slot: Slot)
    requires Within(s, |d|) && Within(r, |e|) && SlotEntered(d, e, s, r, bpc, q, slot)
    requires Tidy(Content(d, s)) && slot[0] != SLOT_END
    ensures FilledAt(Content(d, s), Content(e, r), q, slot)
  {
    hide Content, SlotAt, PutSlot, FirstDead, EndsZero, Tidy;
    var c, n := Content(d, s), if |r| > |s| then bpc else 0;
    TidyParts(c);
    ZeroTail(c, n);
    PutSlotAll(c + Zeros(n), q, slot);
  }

  /** A search does not distinguish upper and lower case. */
  lemma {:induction false} SearchIgnoresCase(c: seq<byte>, from: nat, x: seq<byte>, y: seq<byte>)
    requires SameLetters(x, y)
    ensures FirstMatch(c, from, x) == FirstMatch(c, from, y)
    decreases Slots(c) - from
  {
    hide SlotAt, Listed, NameOf;
    if from < Slots(c) {
      SameNameExact(x, y);
      SearchIgnoresCase(c, from + 1, x, y);
    }
  }

  lemma FoundInAnyCase(c: seq<byte>, name: seq<byte>, i: nat)
    requires FirstMatch(c, 0, name) == Some(i)
    ensures forall x :: SameLetters(x, name) ==> FirstMatch(c, 0, x) == Some(i)
  {
    hide FirstMatch, SameLetters;
    forall x | SameLetters(x, name) ensures FirstMatch(c, 0, x) == Some(i) {
      SearchIgnoresCase(c, 0, x, name);
    }
  }

  /** A new file is found under its name, at the slot the handle records, exactly when the name fits. */
  lemma CreatedIsFound(c: seq<byte>, g: seq<byte>, q: nat, name: seq<byte>, attr: byte, cluster: nat)
    requires FilledAt(c, g, q, NewSlot(Make83(name), attr, cluster, 0)) && 0 !in name
    requires cluster < 0x1_0000_0000 && !IsVolumeLabel(attr) && FirstMatch(c, 0, name).None?
    ensures FirstMatch(g, 0, name) == if Storable(name) && Fits83(name) then Some(q) else None
  {
    hide FilledAt, FirstMatch, Make83, NewSlot, Storable, Fits83, Matches;
    SearchFilled(c, g, q, NewSlot(Make83(name), attr, cluster, 0), name);
    NewSlotMatches(name, attr, cluster);
  }

  lemma FileIsFound(c: seq<byte>, g: seq<byte>, q: nat, name: seq<byte>)
    requires FilledAt(c, g, q, NewSlot(Make83(name), ATTR_ARCHIVE, 0, 0)) && 0 !in name
    requires FirstMatch(c, 0, name).None?
    ensures FirstMatch(g, 0, name) == if Storable(name) && Fits83(name) then Some(q) else None
    ensures Storable(name) ==> HandleSlot(NewSlot(Make83(name), ATTR_ARCHIVE, 0, 0), ATTR_ARCHIVE, 0)
  {
    hide FilledAt, FirstMatch, Make83, NewSlot, Storable, Fits83, HandleSlot;
    CreatedIsFound(c, g, q, name, ATTR_ARCHIVE, 0);
    NewSlotNames(name, ATTR_ARCHIVE, 0, 0);
  }

  lemma NewSlotMatches(name: seq<byte>, attr: byte, cluster: nat)
    requires 0 !in name && cluster < 0x1_0000_0000 && !IsVolumeLabel(attr)
    ensures Matches(NewSlot(Make83(name), attr, cluster, 0), name) <==> Storable(name) && Fits83(name)
  {
    NewSlotNames(name, attr, cluster, 0);
    NameRoundTrip(name);
    hide Make83, NewSlot, SameName, Fits83, Parse83;
  }

  /** write_dir_entry, with what it does to the chains. */
  method Enter(v: Volume, dirCluster: nat, name: seq<byte>, attr: byte, cluster: nat, size: nat, ghost T: Tree)
      returns (res: int, idx: nat, ghost r: seq<nat>)
    requires Framed(v, T) && HasDir(v, T, dirCluster)
    modifies v`disk, v`cacheDirty, v`cacheLba, v`fat, v`data, v.cache
    ensures v.Valid() && ChainFrom(v, DirStart(v, dirCluster), r) && Within(r, |v.data|) && v.Bpc() % 32 == 0
    ensures Exact(v.fat, v.limit, Regrown(T, DirStart(v, dirCluster), r).chains)
    ensures AllDisjoint(Regrown(T, DirStart(v, dirCluster), r).chains)
    ensures |v.data| == |old(v.data)|
    ensures res == OK || res == ERR_NOSPACE
    ensures res == OK ==>
      SlotEntered(old(v.data), v.data, T.chains[DirStart(v, dirCluster)], r, v.Bpc(), idx,
                  NewSlot(Make83(name), attr, cluster, size))
    ensures res == ERR_NOSPACE ==> Unchanged(v, T, old(v.fat), old(v.data)) && NoFreeCluster(v.fat)
  {
    hide Content, Disjoint, FirstDead, Tidy, Plain, Linked, Exact, Chain, Within, Grown, Make83, NewSlot,
      SlotEntered, NoFreeCluster;
    ghost var t, k := v.fat, DirStart(v, dirCluster);
    DirChain(v, T, dirCluster);
    res, idx, r := WriteDirEntry(v, dirCluster, name, attr, cluster, size, T.chains[k]);
    RegrownExact(t, v, T, k, r);
  }

  ghost predicate Unchanged(v: Volume, T: Tree, fat: seq<nat>, data: seq<seq<byte>>)
    reads v, v.cache
  {
    Framed(v, T) && v.fat == fat && v.data == data
  }

  /** fat32_create past its search for the name. */
  method CreateSlot(v: Volume, dirCluster: nat, name: seq<byte>, ghost T: Tree)
      returns (res: int, idx: nat, ghost r: seq<nat>)
    requires Sound(v, T) && HasDir(v, T, dirCluster) && 0 !in name
    modifies v`disk, v`cacheDirty, v`cacheLba, v`fat, v`data, v.cache
    ensures res == OK || res == ERR_NOSPACE
    ensures res == OK ==> Sound(v, Regrown(T, DirStart(v, dirCluster), r))
    ensures res == OK ==> EnteredAs(old(v.data), v, T, dirCluster, r, idx, NewSlot(Make83(name), ATTR_ARCHIVE, 0, 0))
    ensures res == OK ==>
      FilledAt(old(DirOf(v, T, dirCluster)), DirOf(v, Regrown(T, DirStart(v, dirCluster), r), dirCluster), idx,
               NewSlot(Make83(name), ATTR_ARCHIVE, 0, 0))
    ensures res == ERR_NOSPACE ==> Sound(v, T) && v.fat == old(v.fat) && v.data == old(v.data) && NoFreeCluster(v.fat)
  {
    hide Content, PutSlot, Disjoint, FirstDead, SlotAt, NameIn, Tidy, Linked, Exact, Chain, Within,
      Grown, Make83, NewSlot, Live, Plain, SlotEntered, NoFreeCluster, FilledAt;
    DirChain(v, T, dirCluster);
    ghost var d, t, k := v.data, v.fat, DirStart(v, dirCluster);
    res, idx, r := Enter(v, dirCluster, name, ATTR_ARCHIVE, 0, 0, T);
    if res != OK { return; }
    ghost var slot := NewSlot(Make83(name), ATTR_ARCHIVE, 0, 0);
    NewSlotNames(name, ATTR_ARCHIVE, 0, 0);
    EnteredLinked(d, v.data, T, v.rootCluster, k, r, v.Bpc(), idx, slot);
    EnteredFilled(d, v.data, T.chains[k], r, v.Bpc(), idx, slot);
  }

  /** The slot was stored at idx of the directory, whose chain is now r; clusters of other chains are untouched. */
  ghost predicate EnteredAs(d: seq<seq<byte>>, v: Volume, T: Tree, dirCluster: nat, r: seq<nat>, idx: nat, slot: Slot)
    reads v
  {
    && Readable(d, T) && DirStart(v, dirCluster) in T.dirs && Within(r, |v.data|)
    && SlotEntered(d, v.data, T.chains[DirStart(v, dirCluster)], r, v.Bpc(), idx, slot)
  }

  /** fat32_find on one of the volume's directories. */
  method Search(v: Volume, dirCluster: nat, name: seq<byte>, out: Entry, ghost T: Tree) returns (res: int)
    requires Sound(v, T) && HasDir(v, T, dirCluster)
    modifies v`disk, v`cacheDirty, v`cacheLba, v.cache, out
    ensures Sound(v, T) && v.disk == old(v.disk) && DirOf(v, T, dirCluster) == old(DirOf(v, T, dirCluster))
    ensures var m := FirstMatch(DirOf(v, T, dirCluster), 0, name);
      if m.None? then res == ERR_NOENT
      else res == OK && Describes(out, SlotAt(DirOf(v, T, dirCluster), m.value), dirCluster, m.value)
  {
    hide Content, Chain, Plain, FirstMatch, SlotAt, Linked, Exact, Tidy, Within;
    DirChain(v, T, dirCluster);
    DirOfIs(v, T, dirCluster);
    res := Find(v, dirCluster, name, out, T.chains[DirStart(v, dirCluster)]);
  }

  /** fat32_create */
  method Create(v: Volume, dirCluster: nat, name: seq<byte>, out: Entry, ghost T: Tree)
      returns (res: int, ghost U: Tree, ghost r: seq<nat>)
    requires Sound(v, T) && HasDir(v, T, dirCluster) && 0 !in name
    modifies v`disk, v`cacheDirty, v`cacheLba, v`fat, v`data, v.cache, out
    ensures Sound(v, U)
    ensures res == OK || res == ERR_EXIST || res == ERR_NOSPACE
    ensures res == OK ==> U == Regrown(T, DirStart(v, dirCluster), r)
    ensures res == OK ==>
      EnteredAs(old(v.data), v, T, dirCluster, r, out.dirIndex, NewSlot(Make83(name), ATTR_ARCHIVE, 0, 0))
    ensures res != OK ==> U == T && v.data == old(v.data) && v.fat == old(v.fat)
    ensures res == ERR_EXIST <==> FirstMatch(old(DirOf(v, T, dirCluster)), 0, name).Some?
    ensures res == ERR_NOSPACE ==> NoFreeCluster(v.fat)
    ensures res == OK ==> out.attr == 0x20 && out.cluster == 0 && out.size == 0
    ensures res == OK ==> out.name == name && out.dirCluster == dirCluster
    ensures res == OK && Storable(name) ==> Handle(v, U, out)
    ensures res == OK ==>
      FirstMatch(DirOf(v, U, dirCluster), 0, name)
        == if Storable(name) && Fits83(name) then Some(out.dirIndex) else None
    ensures res == OK && Storable(name) && Fits83(name) ==>
      forall x :: SameLetters(x, name) ==> FirstMatch(DirOf(v, U, dirCluster), 0, x) == Some(out.dirIndex)
  {
    hide Framed, DirOf, FirstMatch, SlotAt, Make83, NewSlot, HandleSlot, NoFreeCluster, FilledAt, EnteredAs,
      Storable, Fits83, Describes, Handle, SameLetters;
    U, r := T, [];
    var existing := new Entry();
    res := Search(v, dirCluster, name, existing, T);
    if res == OK { return ERR_EXIST, T, r; }
    ghost var c := DirOf(v, T, dirCluster);
    var idx;
    res, idx, r := CreateSlot(v, dirCluster, name, T);
    if res != OK { return res, T, r; }
    U := Regrown(T, DirStart(v, dirCluster), r);
    FileIsFound(c, DirOf(v, U, dirCluster), idx, name);
    out.name, out.attr, out.cluster, out.size := name, ATTR_ARCHIVE, 0, 0;
    out.dirCluster, out.dirIndex := dirCluster, idx;
    if Storable(name) { HandleMade(v, U, out, c); }
    if Storable(name) && Fits83(name) { FoundInAnyCase(DirOf(v, U, dirCluster), name, idx); }
  }

  lemma HandleMade(v: Volume, U: Tree, e: Entry, c: seq<byte>)
    requires Sound(v, U) && HasDir(v, U, e.dirCluster) && e.cluster < 0x1_0000_0000
    requires FilledAt(c, DirOf(v, U, e.dirCluster), e.dirIndex, NewSlot(Make83(e.name), e.attr, e.cluster, 0))
    requires HandleSlot(NewSlot(Make83(e.name), e.attr, e.cluster, 0), e.attr, e.cluster)
    ensures Handle(v, U, e)
  {
    hide Content, SlotAt, Linked, Exact, Make83, NewSlot, HandleSlot, FirstDead;
  }
}
