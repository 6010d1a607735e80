/**
 fat32_mkdir: a cluster is allocated and given its two dot slots before any slot names it, so for
 a moment a chain exists that nothing names. Either the slot is entered or the chain is released.
 */
module FatMake {
  import opened Arith
  import opened Bytes
  import opened FatVolume
  import opened FatChains
  import opened FatSlots
  import opened FatNames
  import opened FatFiles
  import opened FatDirs
  import opened FatTree
  import opened FatOps
  import opened FatRooted
  import opened FatLost

  // ---- The bytes of a new directory ----

  /** The slot "." or ".."; mkdir leaves every date at zero. */
  function DotSlot(name: seq<byte>, cluster: nat): Slot
    requires |name| == 11
  {
    name + [ATTR_DIRECTORY] + Zeros(8) + LittleEndian16(cluster / 65536) + Zeros(4)
    + LittleEndian16(cluster) + Zeros(4)
  }

  const SELF: seq<byte> := [DOT] + Blank(10)
  const PARENT: seq<byte> := [DOT, DOT] + Blank(9)

  lemma DotNames()
    ensures Parse83(SELF) == [DOT] && Parse83(PARENT) == [DOT, DOT]
  {
    assert SELF[..8][1..] == Blank(7) && PARENT[..8][1..] == [DOT] + Blank(6);
    assert ([DOT] + Blank(6))[1..] == Blank(6);
    assert Blank(7)[0] == SPACE && Blank(6)[0] == SPACE;
  }

  lemma DotSlotFields(name: seq<byte>, cluster: nat)
    requires name == SELF || name == PARENT
    requires cluster < 0x1_0000_0000
    ensures var s := DotSlot(name, cluster);
      && s[0] != SLOT_END && AttrOf(s) == ATTR_DIRECTORY && NameField(s) == name && ClusterOf(s) == cluster
      && Listed(s) && IsDotName(NameOf(s)) && NameIn(s).None?
  {
    var s := DotSlot(name, cluster);
    DotNames();
    assert NameField(s) == name;
    assert s[20..22] == LittleEndian16(cluster / 65536);
    assert s[26..28] == LittleEndian16(cluster);
    HalfOfLittleEndian(s, 20, cluster / 65536);
    HalfOfLittleEndian(s, 26, cluster);
  }

  function NewDirectory(self: nat, parent: nat, bpc: nat): (c: seq<byte>)
    requires 64 <= bpc
    ensures |c| == bpc
  {
    PutSlot(PutSlot(Zeros(bpc), 0, DotSlot(SELF, self)), 1, DotSlot(PARENT, parent))
  }

  /** A new directory lists its two dot entries, names no chain, and ends there. */
  lemma NewDirectorySlots(self: nat, parent: nat, bpc: nat)
    requires 64 <= bpc && bpc % 32 == 0 && self < 0x1_0000_0000 && parent < 0x1_0000_0000
    ensures var c := NewDirectory(self, parent, bpc);
      && Tidy(c) && NamesNothing(c) && OnlyDots(c, 0, Slots(c))
      && SlotAt(c, 0) == DotSlot(SELF, self) && SlotAt(c, 1) == DotSlot(PARENT, parent)
  {
    hide SlotAt, PutSlot, DotSlot, ClusterOf, NameField, Parse83;
    var z, a, b := Zeros(bpc), DotSlot(SELF, self), DotSlot(PARENT, parent);
    PutSlotAll(z, 0, a);
    PutSlotAll(PutSlot(z, 0, a), 1, b);
    DotSlotFields(SELF, self);
    DotSlotFields(PARENT, parent);
    forall i: nat | i < Slots(z) ensures SlotAt(z, i)[0] == SLOT_END {
      ZeroSlot(bpc, i);
    }
  }

  // ---- A chain that nothing names yet ----

  /** T with the one-cluster chain c, which no slot names. */
  ghost function Unnamed(T: Tree, c: nat): Tree {
    T.(chains := T.chains[c := [c]])
  }

  lemma UnnamedExact(t: seq<nat>, limit: nat, T: Tree, c: nat)
    requires Exact(t, limit, T.chains) && 2 <= c < limit && t[c] == 0
    ensures c !in T.chains && Exact(t[c := FAT_EOF], limit, Unnamed(T, c).chains)
    ensures forall g :: g in T.chains ==> c !in T.chains[g]
  {
    assert Grown(t, t[c := FAT_EOF], [], [c]);
    ExactAdded(t, t[c := FAT_EOF], limit, T.chains, [c]);
    forall g | g in T.chains ensures c !in T.chains[g] {
      assert ChainAt(t, limit, g, T.chains[g]);
      if c in T.chains[g] { ChainNonZero(t, T.chains[g], c); }
    }
  }

  /** Directories do not see what is stored in a cluster outside their chains. */
  lemma DirBytesElsewhere(d: seq<seq<byte>>, T: Tree, c: nat, b: seq<byte>)
    requires Readable(d, T) && c < |d| && 2 <= c && c !in T.chains
    requires forall g :: g in T.chains ==> c !in T.chains[g]
    ensures Readable(d[c := b], Unnamed(T, c)) && Readable(d[c := b], T)
    ensures DirBytes(d[c := b], Unnamed(T, c)) == DirBytes(d, T) == DirBytes(d[c := b], T)
  {
    hide Content;
    forall g | g in T.dirs ensures Content(d[c := b], T.chains[g]) == Content(d, T.chains[g]) {
      ContentElsewhere(d, T.chains[g], c, b);
    }
  }

  /** Cluster c of what was table t and contents d now is a new directory that nothing names. */
  ghost predicate Prepared(v: Volume, T: Tree, k: nat, c: nat, d: seq<seq<byte>>, t: seq<nat>)
    reads v, v.cache
  {
    && Framed(v, Unnamed(T, c)) && 2 <= c < v.limit == |d| && v.limit <= |t| && c !in T.chains && t[c] == 0
    && k in T.dirs && k < FAT_EOF && 64 <= v.Bpc()
    && v.fat == t[c := FAT_EOF] && v.data == d[c := NewDirectory(c, k, v.Bpc())]
    && Exact(t, v.limit, T.chains) && Readable(d, T) && Linked(DirBytes(d, T), T.slotOf, v.rootCluster)
    && T.chains.Keys == T.slotOf.Keys + {v.rootCluster}
    && Tidy(Content(d, T.chains[k])) && Apart(T, c)
  }

  ghost predicate Apart(T: Tree, c: nat) {
    forall g :: g in T.chains ==> c !in T.chains[g]
  }

  lemma DirInside(v: Volume, T: Tree, dirCluster: nat)
    requires Sound(v, T) && HasDir(v, T, dirCluster)
    ensures DirStart(v, dirCluster) < v.limit < FAT_EOF
  {
    hide Content, Disjoint, Linked;
    var k := DirStart(v, dirCluster);
    assert ChainAt(v.fat, v.limit, k, T.chains[k]);
  }

  lemma NoneFree(t: seq<nat>)
    requires NoFreeCluster(t)
    ensures AtMostOneFree(t)
  {
  }

  /** fat_alloc_cluster and the two dot slots. */
  method NewDirCluster(v: Volume, dirCluster: nat, ghost T: Tree) returns (c: nat)
    requires Sound(v, T) && HasDir(v, T, dirCluster)
    modifies v`disk, v`cacheDirty, v`cacheLba, v`fat, v`data, v.cache
    ensures c == 0 ==> Sound(v, T) && v.fat == old(v.fat) && v.data == old(v.data) && AtMostOneFree(v.fat)
    ensures c != 0 ==> FirstFree(old(v.fat), c) && Prepared(v, T, DirStart(v, dirCluster), c, old(v.data), old(v.fat))
  {
    hide Content, Disjoint, Tidy, Linked, Exact, Chain, Within, DotSlot, PutSlot, NewDirectory, NoFreeCluster,
      AtMostOneFree;
    ghost var t, d := v.fat, v.data;
    DirChain(v, T, dirCluster);
    DirInside(v, T, dirCluster);
    c := AllocCluster(v);
    if c == 0 {
      NoneFree(v.fat);
      return;
    }
    UnnamedExact(t, v.limit, T, c);
    var buf := NewDirectoryBuffer(c, DirStart(v, dirCluster), v.Bpc());
    v.ClusterWrite(c, buf);
    DirBytesElsewhere(d, T, c, buf);
  }

  method NewDirectoryBuffer(self: nat, parent: nat, bpc: nat) returns (buf: seq<byte>)
    requires 64 <= bpc
    ensures buf == NewDirectory(self, parent, bpc)
  {
    buf := Zeros(bpc);
    buf := PutSlot(buf, 0, DotSlot(SELF, self));
    buf := PutSlot(buf, 1, DotSlot(PARENT, parent));
  }

  // ---- The slot that names the new directory ----

  /** The picture after mkdir: directory c is named by slot q of directory k, whose chain is now r. */
  ghost function WithDirectory(T: Tree, k: nat, r: seq<nat>, q: nat, c: nat): Tree {
    Tree(T.chains[c := [c]][k := r], T.slotOf[c := (k, q)], T.dirs + {c})
  }

  /** The slots name exactly the chains once the slot of directory c has been entered. */
  lemma NamedLinked(d: seq<seq<byte>>, e: seq<seq<byte>>, T: Tree, root: nat, k: nat, r: seq<nat>, bpc: nat,
                    q: nat, slot: Slot, c: nat)
    requires Readable(d, T) && k in T.dirs && AllDisjoint(T.chains[c := [c]][k := r]) && bpc % 32 == 0
    requires |e| == |d| && Within(r, |d|) && SlotEntered(d, e, T.chains[k], r, bpc, q, slot)
    requires Linked(DirBytes(d, T), T.slotOf, root)
    requires c !in T.chains && c !in T.slotOf && c != root && 2 <= c < |d|
    requires slot[0] != SLOT_END && AttrOf(slot) != ATTR_LFN && NameIn(slot) == Some((c, true))
    requires Tidy(d[c]) && NamesNothing(d[c])
    ensures Readable(e, WithDirectory(T, k, r, q, c))
    ensures Linked(DirBytes(e, WithDirectory(T, k, r, q, c)), WithDirectory(T, k, r, q, c).slotOf, root)
  {
    hide Content, PutSlot, Disjoint, FirstDead, SlotAt, NameIn, Tidy, Linked;
    var D := DirBytes(d, T);
    var n := if |r| > |T.chains[k]| then bpc else 0;
    DisjointWithout(T.chains, k, r, c);
    DirBytesEntered(d, e, T, k, r, bpc, q, slot);
    SlotReady(D, T.slotOf, root, k, n, q, slot);
    DirBytesNamed(d, e, T, k, r, q, c);
    LinkedAdd(D[k := D[k] + Zeros(n)], T.slotOf, root, k, q, slot, c, d[c]);
    SetTwice(D, k, D[k] + Zeros(n), PutSlot(D[k] + Zeros(n), q, slot));
  }

  lemma DisjointWithout(chains: map<nat, seq<nat>>, k: nat, r: seq<nat>, c: nat)
    requires AllDisjoint(chains[c := [c]][k := r]) && c !in chains && k in chains
    ensures AllDisjoint(chains[k := r]) && c !in r
  {
    var all, kept := chains[c := [c]][k := r], chains[k := r];
    assert Disjoint(all[c], all[k]);
    forall i | 0 <= i < |r| ensures r[i] != c {
      assert all[c][0] != all[k][i];
    }
    forall g, h | g in kept && h in kept && g != h ensures Disjoint(kept[g], kept[h]) {
      assert all[g] == kept[g] && all[h] == kept[h];
    }
  }

  lemma DirBytesNamed(d: seq<seq<byte>>, e: seq<seq<byte>>, T: Tree, k: nat, r: seq<nat>, q: nat, c: nat)
    requires Readable(e, Regrown(T, k, r)) && c !in T.chains && 2 <= c < |e| == |d| && c !in r && k in T.chains
    requires T.dirs <= T.chains.Keys
    requires forall i {:trigger e[i]} :: 0 <= i < |d| && i !in r ==> e[i] == d[i]
    ensures Readable(e, WithDirectory(T, k, r, q, c))
    ensures DirBytes(e, WithDirectory(T, k, r, q, c)) == DirBytes(e, Regrown(T, k, r))[c := d[c]]
  {
    hide Content;
    var U := WithDirectory(T, k, r, q, c);
    assert forall h :: h in U.chains ==> h == c || U.chains[h] == Regrown(T, k, r).chains[h];
    OneCluster(e, c);
  }

  lemma OneCluster(d: seq<seq<byte>>, c: nat)
    requires c < |d|
    ensures Content(d, [c]) == d[c]
  {
    assert [c][..0] == [];
    assert Content(d, []) == [];
  }

  ghost predicate KeepsFiles(d: seq<seq<byte>>, e: seq<seq<byte>>, T: Tree) {
    && Readable(d, T) && Readable(e, T)
    && forall h :: h in T.chains ==> Content(e, T.chains[h]) == Content(d, T.chains[h])
  }

  lemma ReleasedOne(t: seq<nat>, limit: nat, T: Tree, c: nat)
    requires Exact(t, limit, T.chains) && 2 <= c < limit && t[c] == 0
    ensures LinksInside(t[c := FAT_EOF], limit) && Released(t[c := FAT_EOF], limit, c) == t
  {
    var u := t[c := FAT_EOF];
    ExactLinks(t, limit, T.chains);
    ReleasedChain(u, limit, [c]);
    assert Cleared(u, [c]) == t;
  }

  /** The slot could not be entered: the new directory's cluster is released again. */
  method GiveBack(v: Volume, c: nat, ghost T: Tree, ghost d: seq<seq<byte>>, ghost t: seq<nat>, ghost b: seq<byte>)
    requires Framed(v, Unnamed(T, c)) && 2 <= c < v.limit <= |t| && |d| == v.limit
    requires v.fat == t[c := FAT_EOF] && v.data == d[c := b] && Exact(t, v.limit, T.chains) && t[c] == 0
    requires Readable(d, T) && c !in T.chains && forall g :: g in T.chains ==> c !in T.chains[g]
    modifies v`disk, v`cacheDirty, v`cacheLba, v`fat, v.cache
    ensures Framed(v, T) && v.fat == t && KeepsFiles(d, v.data, T)
  {
    hide Content, Disjoint, Tidy, Linked, Exact, Chain, Within, Released, LinksInside;
    ReleasedOne(t, v.limit, T, c);
    FreeChain(v, c);
    DirBytesElsewhere(d, T, c, b);
    FilesElsewhere(d, T, c, b);
  }

  lemma FilesElsewhere(d: seq<seq<byte>>, T: Tree, c: nat, b: seq<byte>)
    requires Readable(d, T) && c < |d| && forall g :: g in T.chains ==> c !in T.chains[g]
    ensures KeepsFiles(d, d[c := b], T)
  {
    hide Content;
    forall h | h in T.chains ensures Content(d[c := b], T.chains[h]) == Content(d, T.chains[h]) {
      FileElsewhere(d, T.chains[h], c, b);
    }
  }

  lemma FileElsewhere(d: seq<seq<byte>>, s: seq<nat>, c: nat, b: seq<byte>)
    requires Within(s, |d|) && c < |d| && c !in s
    ensures Content(d[c := b], s) == Content(d, s)
  {
    ContentElsewhere(d, s, c, b);
  }

  /** Entering a slot in directory k leaves the other chain c alone. */
  lemma OutsideEntered(d: seq<seq<byte>>, e: seq<seq<byte>>, chains: map<nat, seq<nat>>, k: nat, r: seq<nat>,
                       bpc: nat, q: nat, slot: Slot, c: nat)
    requires AllDisjoint(chains[c := [c]][k := r]) && c !in chains && k in chains && c < |d|
    requires Within(chains[k], |d|) && Within(r, |e|) && SlotEntered(d, e, chains[k], r, bpc, q, slot)
    ensures |e| == |d| && e[c] == d[c]
  {
    DisjointWithout(chains, k, r, c);
    hide Content;
  }

  /**
   The picture after mkdir entered its slot. For some names the slot is not a live one; then the
   new cluster stays allocated and nothing names it.
   */
  ghost function Made(T: Tree, name: seq<byte>, k: nat, r: seq<nat>, q: nat, c: nat): Tree {
    if Storable(name) then WithDirectory(T, k, r, q, c) else Regrown(Unnamed(T, c), k, r)
  }

  ghost predicate HoldsNewDirectory(v: Volume, c: nat, parent: nat)
    reads v
  {
    64 <= v.Bpc() && c < |v.data| && v.data[c] == NewDirectory(c, parent, v.Bpc())
  }

  /** The picture once the slot has been entered. */
  lemma MadePicture(v: Volume, d: seq<seq<byte>>, T: Tree, name: seq<byte>, k: nat, r: seq<nat>, idx: nat, c: nat)
    requires v.Valid() && v.Bpc() % 32 == 0 && 64 <= v.Bpc()
    requires Exact(v.fat, v.limit, Regrown(Unnamed(T, c), k, r).chains)
    requires Readable(d, T) && k in T.dirs && k < FAT_EOF && Linked(DirBytes(d, T), T.slotOf, v.rootCluster)
    requires T.chains.Keys == T.slotOf.Keys + {v.rootCluster} && 0 !in name
    requires 2 <= c < v.limit == |d| && c !in T.chains && forall g :: g in T.chains ==> c !in T.chains[g]
    requires AllDisjoint(Regrown(Unnamed(T, c), k, r).chains) && Within(r, |d|)
    requires SlotEntered(d[c := NewDirectory(c, k, v.Bpc())], v.data, T.chains[k], r, v.Bpc(), idx,
                         NewSlot(Make83(name), ATTR_DIRECTORY, c, 0))
    ensures Framed(v, Made(T, name, k, r, idx, c))
    ensures Sound(v, Made(T, name, k, r, idx, c)) <==> Storable(name)
    ensures HoldsNewDirectory(v, c, k)
  {
    hide Content, PutSlot, Disjoint, AllDisjoint, FirstDead, SlotAt, NameIn, Tidy, Linked, Exact, Chain, Within,
      Make83, NewSlot, Live, SlotEntered, NewDirectory, Storable, Volume.StoresFat, Volume.StoresData, Volume.CacheOk;
    var page := NewDirectory(c, k, v.Bpc());
    var d1 := d[c := page];
    var slot := NewSlot(Make83(name), ATTR_DIRECTORY, c, 0);
    NewSlotNames(name, ATTR_DIRECTORY, c, 0);
    NewDirectorySlots(c, k, v.Bpc());
    OutsideEntered(d1, v.data, T.chains, k, r, v.Bpc(), idx, slot, c);
    DirBytesElsewhere(d, T, c, page);
    if Storable(name) {
      NamedLinked(d1, v.data, T, v.rootCluster, k, r, v.Bpc(), idx, slot, c);
    } else {
      EnteredLinked(d1, v.data, Unnamed(T, c), v.rootCluster, k, r, v.Bpc(), idx, slot);
    }
  }

  lemma LastOneFree(t: seq<nat>, u: seq<nat>, c: nat)
    requires NoFreeCluster(u) && 2 <= c < |t| && u == t[c := FAT_EOF]
    ensures AtMostOneFree(t)
  {
    forall a, b | 2 <= a < b < |t| ensures t[a] != 0 || t[b] != 0 {
      assert u[a] != 0 && u[b] != 0;
    }
  }

  /** The second half of fat32_mkdir: enter the slot, or give the cluster back. */
  method EnterNew(v: Volume, dirCluster: nat, name: seq<byte>, c: nat, ghost T: Tree,
                  ghost d: seq<seq<byte>>, ghost t: seq<nat>)
      returns (res: int, idx: nat, ghost r: seq<nat>)
    requires Prepared(v, T, DirStart(v, dirCluster), c, d, t) && 0 !in name
    modifies v`disk, v`cacheDirty, v`cacheLba, v`fat, v`data, v.cache
    ensures res == OK || res == ERR_NOSPACE
    ensures res == OK ==> MadeAs(v, T, dirCluster, name, r, idx, c) && MadeFrom(d, v, T, dirCluster, name, r, idx, c)
    ensures res == OK ==>
      FilledAt(DirIn(d, T, DirStart(v, dirCluster)),
               DirOf(v, Made(T, name, DirStart(v, dirCluster), r, idx, c), dirCluster),
               idx, NewSlot(Make83(name), ATTR_DIRECTORY, c, 0))
    ensures res == ERR_NOSPACE ==> Sound(v, T) && v.fat == t && KeepsFiles(d, v.data, T) && AtMostOneFree(t)
  {
    hide Content, PutSlot, Disjoint, AllDisjoint, FirstDead, SlotAt, NameIn, Tidy, Linked, Exact, Chain, Within,
      KeepsFiles, Grown, Make83, NewSlot, Live, Plain, SlotEntered, NoFreeCluster, AtMostOneFree, FilledAt,
      NewDirectory,
      Storable,
      Volume.StoresFat, Volume.StoresData, Volume.CacheOk;
    ghost var k := DirStart(v, dirCluster);
    ghost var page := NewDirectory(c, k, v.Bpc());
    res, idx, r := Enter(v, dirCluster, name, ATTR_DIRECTORY, c, 0, Unnamed(T, c));
    if res != OK {
      LastOneFree(t, v.fat, c);
      GiveBack(v, c, T, d, t, page);
      return;
    }
    MadePicture(v, d, T, name, k, r, idx, c);
    MadeDir(v, T, dirCluster, name, r, idx, c);
    NewSlotNames(name, ATTR_DIRECTORY, c, 0);
    FileElsewhere(d, T.chains[k], c, page);
    EnteredFilled(d[c := page], v.data, T.chains[k], r, v.Bpc(), idx, NewSlot(Make83(name), ATTR_DIRECTORY, c, 0));
  }

  /** The disk d once cluster c became a new directory and its slot was entered at idx of its parent. */
  ghost predicate MadeFrom(d: seq<seq<byte>>, v: Volume, T: Tree, dirCluster: nat, name: seq<byte>, r: seq<nat>,
                           idx: nat, c: nat)
    reads v
  {
    var k := DirStart(v, dirCluster);
    && Readable(d, T) && k in T.dirs && k < FAT_EOF && 64 <= v.Bpc() && v.Bpc() % 32 == 0
    && 2 <= c < |d| == |v.data| && Within(r, |d|) && c !in T.chains && Apart(T, c)
    && AllDisjoint(T.chains[c := [c]][k := r])
    && SlotEntered(d[c := NewDirectory(c, k, v.Bpc())], v.data, T.chains[k], r, v.Bpc(), idx,
                   NewSlot(Make83(name), ATTR_DIRECTORY, c, 0))
  }

  /** What holds once mkdir has entered its slot: the picture is sound exactly when the slot is a live one. */
  ghost predicate MadeAs(v: Volume, T: Tree, dirCluster: nat, name: seq<byte>, r: seq<nat>, idx: nat, c: nat)
    reads v, v.cache
  {
    var U := Made(T, name, DirStart(v, dirCluster), r, idx, c);
    && Framed(v, U) && (Sound(v, U) <==> Storable(name)) && HasDir(v, U, dirCluster)
    && HoldsNewDirectory(v, c, DirStart(v, dirCluster)) && c !in T.chains && c < FAT_EOF
  }

  /** fat32_mkdir past its search for the name. */
  method MakeSlot(v: Volume, dirCluster: nat, name: seq<byte>, ghost T: Tree)
      returns (res: int, idx: nat, c: nat, ghost r: seq<nat>)
    requires Sound(v, T) && HasDir(v, T, dirCluster) && 0 !in name
    modifies v`disk, v`cacheDirty, v`cacheLba, v`fat, v`data, v.cache
    ensures res == OK || res == ERR_NOSPACE
    ensures res == OK ==> FirstFree(old(v.fat), c)
    ensures res == OK ==>
      MadeAs(v, T, dirCluster, name, r, idx, c) && MadeFrom(old(v.data), v, T, dirCluster, name, r, idx, c)
    ensures res == OK ==>
      FilledAt(old(DirOf(v, T, dirCluster)),
               DirOf(v, Made(T, name, DirStart(v, dirCluster), r, idx, c), dirCluster), idx,
               NewSlot(Make83(name), ATTR_DIRECTORY, c, 0))
    ensures res == ERR_NOSPACE ==> Sound(v, T) && v.fat == old(v.fat) && KeepsFiles(old(v.data), v.data, T)
    ensures res == ERR_NOSPACE ==> AtMostOneFree(v.fat)
  {
    KeptSound(v, T);
    hide Framed, KeepsFiles, Make83, NewSlot, FilledAt, MadeAs, MadeFrom, Made, Prepared, DirIn, FirstFree,
      AtMostOneFree;
    ghost var d, t := v.data, v.fat;
    c := NewDirCluster(v, dirCluster, T);
    if c == 0 { return ERR_NOSPACE, 0, 0, []; }
    res, idx, r := EnterNew(v, dirCluster, name, c, T, d, t);
  }

  lemma MadeDir(v: Volume, T: Tree, dirCluster: nat, name: seq<byte>, r: seq<nat>, idx: nat, c: nat)
    requires var k := DirStart(v, dirCluster); k in T.dirs && Readable(v.data, Made(T, name, k, r, idx, c))
    ensures var U := Made(T, name, DirStart(v, dirCluster), r, idx, c);
      HasDir(v, U, dirCluster) && Within(r, |v.data|) && DirOf(v, U, dirCluster) == Content(v.data, r)
  {
    var U := Made(T, name, DirStart(v, dirCluster), r, idx, c);
    assert U.chains[DirStart(v, dirCluster)] == r;
  }

  lemma DirectoryIsFound(c: seq<byte>, g: seq<byte>, q: nat, name: seq<byte>, n: nat)
    requires FilledAt(c, g, q, NewSlot(Make83(name), ATTR_DIRECTORY, n, 0)) && 0 !in name && n < FAT_EOF
    requires FirstMatch(c, 0, name).None?
    ensures FirstMatch(g, 0, name) == if Storable(name) && Fits83(name) then Some(q) else None
    ensures Storable(name) ==> HandleSlot(NewSlot(Make83(name), ATTR_DIRECTORY, n, 0), ATTR_DIRECTORY, n)
  {
    hide FilledAt, FirstMatch, Make83, NewSlot, Storable, Fits83, HandleSlot;
    NewSlotNames(name, ATTR_DIRECTORY, n, 0);
    CreatedIsFound(c, g, q, name, ATTR_DIRECTORY, n);
  }

  lemma KeptSame(d: seq<seq<byte>>, T: Tree)
    requires Readable(d, T)
    ensures KeepsFiles(d, d, T)
  {
  }

  /** Everything after the search, and the caller's new handle. */
  method MakeEntry(v: Volume, dirCluster: nat, name: seq<byte>, out: Entry, ghost T: Tree)
      returns (res: int, ghost U: Tree, ghost r: seq<nat>)
    requires Sound(v, T) && HasDir(v, T, dirCluster) && 0 !in name
    requires FirstMatch(DirOf(v, T, dirCluster), 0, name).None?
    modifies v`disk, v`cacheDirty, v`cacheLba, v`fat, v`data, v.cache, out
    ensures res == OK || res == ERR_NOSPACE
    ensures res != OK ==> Sound(v, U) && U == T && v.fat == old(v.fat) && KeepsFiles(old(v.data), v.data, T)
    ensures res == ERR_NOSPACE ==> AtMostOneFree(v.fat)
    ensures res == OK ==> NewHandle(out, name, dirCluster) && FirstFree(old(v.fat), out.cluster)
    ensures res == OK ==> U == Made(T, name, DirStart(v, dirCluster), r, out.dirIndex, out.cluster)
    ensures res == OK ==> MadeAs(v, T, dirCluster, name, r, out.dirIndex, out.cluster)
    ensures res == OK ==> MadeFrom(old(v.data), v, T, dirCluster, name, r, out.dirIndex, out.cluster)
    ensures res == OK && Storable(name) ==> Handle(v, U, out)
    ensures res == OK ==>
      FirstMatch(DirOf(v, U, dirCluster), 0, name)
        == if Storable(name) && Fits83(name) then Some(out.dirIndex) else None
  {
    hide DirOf, FirstMatch, SlotAt, Make83, NewSlot, HandleSlot, FilledAt, HoldsNewDirectory, Made, MadeFrom,
      AtMostOneFree,
      Storable, Fits83, Handle, KeepsFiles, FirstFree, Framed;
    U := T;
    ghost var c := DirOf(v, T, dirCluster);
    var idx, n;
    res, idx, n, r := MakeSlot(v, dirCluster, name, T);
    if res != OK { return; }
    U := Made(T, name, DirStart(v, dirCluster), r, idx, n);
    DirectoryIsFound(c, DirOf(v, U, dirCluster), idx, name, n);
    out.name, out.attr, out.cluster, out.size := name, ATTR_DIRECTORY, n, 0;
    out.dirCluster, out.dirIndex := dirCluster, idx;
    if Storable(name) { HandleMade(v, U, out, c); }
  }

  /** Whether a picture of the volume is left depends on the name alone. */
  lemma MadeRecoverable(v: Volume, T: Tree, dirCluster: nat, name: seq<byte>, r: seq<nat>, idx: nat, c: nat)
    requires MadeAs(v, T, dirCluster, name, r, idx, c) && T.chains.Keys == T.slotOf.Keys + {v.rootCluster}
    requires Rooted(T.slotOf, v.rootCluster)
    requires DirStart(v, dirCluster) == v.rootCluster || DirStart(v, dirCluster) in T.slotOf
    ensures Recoverable(v) <==> Storable(name)
  {
    hide Exact, Rooted, Name, Storable, HoldsNewDirectory;
    var k := DirStart(v, dirCluster);
    var U := Made(T, name, k, r, idx, c);
    if Storable(name) {
      AddRooted(T.slotOf, v.rootCluster, c, (k, idx));
      SoundRecoverable(v, U);
    } else {
      Lost(v, U, c);
    }
  }

  ghost predicate NewHandle(e: Entry, name: seq<byte>, dirCluster: nat)
    reads e
  {
    e.attr == ATTR_DIRECTORY && e.size == 0 && e.name == name && e.dirCluster == dirCluster
  }

  /** fat32_mkdir */
  method Mkdir(v: Volume, dirCluster: nat, name: seq<byte>, out: Entry, ghost T: Tree)
      returns (res: int, ghost U: Tree, ghost r: seq<nat>)
    requires Sound(v, T) && HasDir(v, T, dirCluster) && 0 !in name
    modifies v`disk, v`cacheDirty, v`cacheLba, v`fat, v`data, v.cache, out
    ensures res == OK || res == ERR_EXIST || res == ERR_NOSPACE
    ensures res == ERR_EXIST <==> FirstMatch(old(DirOf(v, T, dirCluster)), 0, name).Some?
    ensures res != OK ==> Sound(v, U) && U == T && v.fat == old(v.fat) && KeepsFiles(old(v.data), v.data, T)
    ensures res == ERR_NOSPACE ==> AtMostOneFree(v.fat)
    ensures res == OK ==> NewHandle(out, name, dirCluster) && FirstFree(old(v.fat), out.cluster)
    ensures res == OK ==> U == Made(T, name, DirStart(v, dirCluster), r, out.dirIndex, out.cluster)
    ensures res == OK ==> MadeAs(v, T, dirCluster, name, r, out.dirIndex, out.cluster)
    ensures res == OK ==> MadeFrom(old(v.data), v, T, dirCluster, name, r, out.dirIndex, out.cluster)
    ensures res == OK && Rooted(T.slotOf, v.rootCluster) ==> (Recoverable(v) <==> Storable(name))
    ensures res == OK && Storable(name) ==> Handle(v, U, out)
    ensures res == OK ==>
      FirstMatch(DirOf(v, U, dirCluster), 0, name)
        == if Storable(name) && Fits83(name) then Some(out.dirIndex) else None
  {
    hide Rooted, Recoverable, DirOf, FirstMatch, SlotAt, Made, MadeAs, MadeFrom, AtMostOneFree, Storable, Fits83,
      Describes, Handle, KeepsFiles, FirstFree, Framed, NewHandle, Sound;
    KeptSound(v, T);
    PlacesAreDirs(v, T);
    SoundKeys(v, T, dirCluster);
    var existing := new Entry();
    res := Search(v, dirCluster, name, existing, T);
    KeptSound(v, T);
    if res == OK { return ERR_EXIST, T, []; }
    res, U, r := MakeEntry(v, dirCluster, name, out, T);
    if res == OK && Rooted(T.slotOf, v.rootCluster) {
      MadeRecoverable(v, T, dirCluster, name, r, out.dirIndex, out.cluster);
    }
  }

  lemma KeptSound(v: Volume, T: Tree)
    requires Sound(v, T)
    ensures KeepsFiles(v.data, v.data, T) && Framed(v, T)
  {
    KeptSame(v.data, T);
  }

  // ---- Making a directory and removing it again ----

  /** A directory just made is empty. */
  lemma MadeEmpty(v: Volume, T: Tree, dirCluster: nat, name: seq<byte>, r: seq<nat>, idx: nat, c: nat)
    requires MadeAs(v, T, dirCluster, name, r, idx, c) && Storable(name) && DirStart(v, dirCluster) < FAT_EOF && c != 0
    requires DirStart(v, dirCluster) != c
    ensures EmptyDir(v.data, Made(T, name, DirStart(v, dirCluster), r, idx, c), DirStart(v, c))
  {
    hide Content, Tidy, NamesNothing, SlotAt, DotSlot, Storable, Linked, Exact, NewDirectory, OnlyDots;
    var k, U := DirStart(v, dirCluster), Made(T, name, DirStart(v, dirCluster), r, idx, c);
    WholeBlocks(v.spc);
    OneCluster(v.data, c);
    NewDirectorySlots(c, k, v.Bpc());
    assert U.chains[c] == [c];
  }

  lemma MadeWithout(T: Tree, k: nat, r: seq<nat>, q: nat, c: nat)
    requires c !in T.chains && c !in T.slotOf && c !in T.dirs && k in T.chains && c != 0
    ensures Without(WithDirectory(T, k, r, q, c), c) == Regrown(T, k, r)
  {
  }

  /** Both tables have the same entry for every cluster. */
  ghost predicate SameTable(t: seq<nat>, u: seq<nat>, limit: nat) {
    limit <= |t| && limit <= |u| && forall c :: 2 <= c < limit ==> u[c] == t[c]
  }

  lemma ExactSame(t: seq<nat>, u: seq<nat>, limit: nat, chains: map<nat, seq<nat>>)
    requires Exact(t, limit, chains) && Exact(u, limit, chains)
    ensures SameTable(t, u, limit)
  {
    forall c | 2 <= c < limit ensures u[c] == t[c] { ExactDetermines(t, u, limit, chains, c); }
  }

  lemma RestoredTable(t: seq<nat>, v: Volume, T: Tree, k: nat, r: seq<nat>)
    requires Exact(t, v.limit, T.chains) && Sound(v, Regrown(T, k, r))
    ensures T.chains[k := r] == T.chains ==> SameTable(t, v.fat, v.limit)
  {
    hide Exact, Linked, Content;
    if T.chains[k := r] == T.chains { ExactSame(t, v.fat, v.limit, T.chains); }
  }

  /** What rmdir needs of a directory just made. */
  lemma MadeFacts(v: Volume, T: Tree, dirCluster: nat, name: seq<byte>, r: seq<nat>, idx: nat, c: nat)
    requires MadeAs(v, T, dirCluster, name, r, idx, c) && Storable(name) && DirStart(v, dirCluster) < FAT_EOF && c != 0
    requires T.chains.Keys == T.slotOf.Keys + {v.rootCluster} && T.dirs <= T.chains.Keys
    requires DirStart(v, dirCluster) in T.chains
    ensures var k := DirStart(v, dirCluster); var U := Made(T, name, k, r, idx, c);
      Sound(v, U) && EmptyDir(v.data, U, DirStart(v, c)) && Without(U, c) == Regrown(T, k, r)
  {
    hide Framed, EmptyDir, HoldsNewDirectory, Storable, Sound;
    MadeEmpty(v, T, dirCluster, name, r, idx, c);
    MadeWithout(T, DirStart(v, dirCluster), r, idx, c);
  }

  lemma SoundKeys(v: Volume, T: Tree, dirCluster: nat)
    requires Sound(v, T) && HasDir(v, T, dirCluster)
    ensures T.chains.Keys == T.slotOf.Keys + {v.rootCluster} && T.dirs <= T.chains.Keys
    ensures DirStart(v, dirCluster) in T.chains && Exact(v.fat, v.limit, T.chains)
    ensures DirStart(v, dirCluster) < FAT_EOF
  {
    hide Exact, Linked, Content;
    DirInside(v, T, dirCluster);
  }

  /** fat32_rmdir right after fat32_mkdir succeeds and gives back every cluster but one the parent may have taken. */
  method MakeThenRemove(v: Volume, dirCluster: nat, name: seq<byte>, out: Entry, ghost T: Tree)
      returns (made: int, removed: int, ghost U: Tree, ghost r: seq<nat>)
    requires Sound(v, T) && HasDir(v, T, dirCluster) && 0 !in name && Storable(name)
    modifies v`disk, v`cacheDirty, v`cacheLba, v`fat, v`data, v.cache, out
    ensures Sound(v, U)
    ensures made != OK ==> U == T && v.fat == old(v.fat)
    ensures made == OK ==> removed == OK && U == Regrown(T, DirStart(v, dirCluster), r)
    ensures made == OK && T.chains[DirStart(v, dirCluster) := r] == T.chains ==>
      SameTable(old(v.fat), v.fat, v.limit)
  {
    hide Sound, Made, MadeAs, Storable, Handle, MadeFrom, KeepsFiles, FirstMatch, DirOf, Fits83, EmptyDir, Deleted,
      Exact, SameTable, Regrown, Without;
    SoundKeys(v, T, dirCluster);
    ghost var t := v.fat;
    made, U, r := Mkdir(v, dirCluster, name, out, T);
    removed := made;
    if made != OK { return; }
    MadeFacts(v, T, dirCluster, name, r, out.dirIndex, out.cluster);
    removed, U := Rmdir(v, out, U);
    RestoredTable(t, v, T, DirStart(v, dirCluster), r);
  }
}
