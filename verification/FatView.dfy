/**
 The map a client sees, read off a volume, and how it follows what the driver stores: a slot entered, deleted or
 patched is one entry more, less or changed, and no other entry differs.
 */
module FatView {
  import opened Bytes
  import opened FatVolume
  import opened FatChains
  import opened FatSlots
  import opened FatNames
  import opened FatFiles
  import opened FatDirs
  import opened FatTree
  import opened FatOps
  import opened FatMake
  import opened FatMove
  import opened FatStore
  import opened FatSpec

  // ---- Directory bytes and file bytes make a view ----

  predicate Shown(s: Slot) { Listed(s) && !IsDotName(NameOf(s)) }

  function ShownSlot(s: Slot): Option<Slot> { if Shown(s) then Some(s) else None }

  /** The slot shown at a place. D gives the bytes of every directory. */
  ghost function Shows(D: map<nat, seq<byte>>, p: Place): Option<Slot> {
    if p.0 in D && p.1 < Slots(D[p.0]) then ShownSlot(SlotAt(D[p.0], p.1)) else None
  }

  function BytesOf(F: map<nat, seq<byte>>, h: nat): seq<byte> { if h in F then F[h] else [] }

  /** What is seen of a slot. F gives the bytes of every file's clusters; a directory without a cluster is the root. */
  function InfoOf(root: nat, F: map<nat, seq<byte>>, s: Slot): Info {
    if IsDirectory(AttrOf(s)) then
      Info(NameOf(s), AttrOf(s), SizeOf(s), if ClusterOf(s) == 0 then root else ClusterOf(s), [])
    else
      Info(NameOf(s), AttrOf(s), SizeOf(s), 0, Cut(BytesOf(F, ClusterOf(s)), SizeOf(s)))
  }

  ghost function ViewOf(root: nat, D: map<nat, seq<byte>>, F: map<nat, seq<byte>>): View {
    imap p: Place | Shows(D, p).Some? :: InfoOf(root, F, Shows(D, p).value)
  }

  // ---- Searching the view is searching the directory ----

  lemma {:induction false} FirstMatchLeast(c: seq<byte>, from: nat, x: seq<byte>)
    requires EndsZero(c)
    ensures var m := FirstMatch(c, from, x);
      forall j: nat :: from <= j < Slots(c) && (m.Some? ==> j < m.value) ==> !Matches(SlotAt(c, j), x)
    decreases Slots(c) - from
  {
    hide SlotAt, SameName, Parse83;
    if from < Slots(c) && SlotAt(c, from)[0] != SLOT_END && !Matches(SlotAt(c, from), x) {
      FirstMatchLeast(c, from + 1, x);
    }
  }

  lemma MatchIsShown(s: Slot, x: seq<byte>)
    ensures Matches(s, x) <==> Shown(s) && SameName(NameOf(s), x)
  {
  }

  lemma HitMatches(root: nat, D: map<nat, seq<byte>>, F: map<nat, seq<byte>>, k: nat, x: seq<byte>, j: nat)
    requires k in D
    ensures Hit(ViewOf(root, D, F), k, x, j) <==> j < Slots(D[k]) && Matches(SlotAt(D[k], j), x)
  {
    hide SlotAt, SameName, Parse83, Shown, Matches;
    if j < Slots(D[k]) { MatchIsShown(SlotAt(D[k], j), x); }
  }

  lemma LookupMatches(root: nat, D: map<nat, seq<byte>>, F: map<nat, seq<byte>>, k: nat, x: seq<byte>)
    requires k in D && EndsZero(D[k])
    ensures Lookup(ViewOf(root, D, F), k, x) == FirstMatch(D[k], 0, x)
  {
    hide SlotAt, Matches, EndsZero, Hit, ViewOf, Lookup, FirstMatch;
    var V, m := ViewOf(root, D, F), FirstMatch(D[k], 0, x);
    FirstMatchLeast(D[k], 0, x);
    forall j: nat ensures Hit(V, k, x, j) <==> j < Slots(D[k]) && Matches(SlotAt(D[k], j), x) {
      HitMatches(root, D, F, k, x, j);
    }
  }

  // ---- Changes ----

  /** Only place q changed. */
  ghost predicate SameShows(D: map<nat, seq<byte>>, E: map<nat, seq<byte>>, q: Place) {
    forall p: Place :: p != q ==> Shows(E, p) == Shows(D, p)
  }

  ghost predicate SameInfos(root: nat, D: map<nat, seq<byte>>, F: map<nat, seq<byte>>, G: map<nat, seq<byte>>, q: Place)
  {
    forall p: Place :: p != q && Shows(D, p).Some? ==>
      InfoOf(root, G, Shows(D, p).value) == InfoOf(root, F, Shows(D, p).value)
  }

  function Change(V: View, q: Place, root: nat, F: map<nat, seq<byte>>, s: Option<Slot>): View {
    if s.Some? then V[q := InfoOf(root, F, s.value)] else V - {q}
  }

  lemma ViewChanged(root: nat, D: map<nat, seq<byte>>, E: map<nat, seq<byte>>, F: map<nat, seq<byte>>,
                    G: map<nat, seq<byte>>, q: Place)
    requires SameShows(D, E, q) && SameInfos(root, D, F, G, q)
    ensures ViewOf(root, E, G) == Change(ViewOf(root, D, F), q, root, G, Shows(E, q))
  {
    hide Shows, InfoOf;
  }

  lemma ViewAbsent(root: nat, D: map<nat, seq<byte>>, F: map<nat, seq<byte>>, q: Place)
    ensures q in ViewOf(root, D, F) <==> Shows(D, q).Some?
    ensures q !in ViewOf(root, D, F) ==> ViewOf(root, D, F) - {q} == ViewOf(root, D, F)
  {
    hide Shows, InfoOf;
  }

  lemma NoInfoChanged(root: nat, D: map<nat, seq<byte>>, F: map<nat, seq<byte>>, q: Place)
    ensures SameInfos(root, D, F, F, q)
  {
    hide Shows, InfoOf;
  }

  /** Bytes changed only in chain h, which the slot at q names, if any does. */
  lemma OneFileChanged(root: nat, D: map<nat, seq<byte>>, slotOf: map<nat, (nat, nat)>, F: map<nat, seq<byte>>,
                       G: map<nat, seq<byte>>, q: Place, h: nat)
    requires Linked(D, slotOf, root) && (h in slotOf ==> slotOf[h] == q)
    requires forall g: nat :: g != h || g == 0 ==> BytesOf(G, g) == BytesOf(F, g)
    ensures SameInfos(root, D, F, G, q)
  {
    hide SlotAt, Parse83, Tidy, SizeOf, ClusterOf, BytesOf;
    forall p: Place | p != q && Shows(D, p).Some?
      ensures InfoOf(root, G, Shows(D, p).value) == InfoOf(root, F, Shows(D, p).value)
    {
      var s := Shows(D, p).value;
      assert ClusterOf(s) != 0 ==> Name(D, p) == Some((ClusterOf(s), IsDirectory(AttrOf(s))));
    }
  }

  // ---- Changes of directories ----

  lemma ShowsPut(D: map<nat, seq<byte>>, k: nat, i: nat, slot: Slot)
    requires k in D && i < Slots(D[k])
    ensures SameShows(D, D[k := PutSlot(D[k], i, slot)], (k, i))
    ensures Shows(D[k := PutSlot(D[k], i, slot)], (k, i)) == ShownSlot(slot)
  {
    hide ShownSlot, SlotAt, PutSlot;
    PutSlotAll(D[k], i, slot);
  }

  lemma DeadNotShown(s: Slot)
    requires !Live(s)
    ensures ShownSlot(s).None?
  {
  }

  lemma ZerosNotShown(n: nat, i: nat)
    requires i < Slots(Zeros(n))
    ensures ShownSlot(SlotAt(Zeros(n), i)).None?
  {
    ZeroSlot(n, i);
  }

  /** Zeroed slots show nothing. */
  lemma ShowsOpened(D: map<nat, seq<byte>>, k: nat, n: nat, p: Place)
    requires k in D && |D[k]| % 32 == 0
    ensures Shows(D[k := D[k] + Zeros(n)], p) == Shows(D, p)
  {
    hide ShownSlot, SlotAt;
    SlotsAppended(D[k], Zeros(n));
    if p.0 == k && Slots(D[k]) <= p.1 < Slots(D[k] + Zeros(n)) {
      assert SlotAt(D[k] + Zeros(n), Slots(D[k]) + (p.1 - Slots(D[k]))) == SlotAt(Zeros(n), p.1 - Slots(D[k]));
      ZerosNotShown(n, p.1 - Slots(D[k]));
    }
  }

  lemma ShowsEntered(D: map<nat, seq<byte>>, slotOf: map<nat, (nat, nat)>, root: nat, k: nat, n: nat, q: nat,
                     slot: Slot)
    requires Linked(D, slotOf, root) && k in D && n % 32 == 0
    requires q == FirstDead(D[k], 0) < Slots(D[k] + Zeros(n)) && slot[0] != SLOT_END && AttrOf(slot) != ATTR_LFN
    ensures SameShows(D, EnteredIn(D, k, n, q, slot), (k, q)) && Shows(D, (k, q)).None?
    ensures Shows(EnteredIn(D, k, n, q, slot), (k, q)) == ShownSlot(slot)
  {
    LinkedTidy(D, slotOf, root, k);
    hide ShownSlot, SlotAt, PutSlot, Linked, FirstDead, Tidy, Live;
    SlotReady(D, slotOf, root, k, n, q, slot);
    var O: map<nat, seq<byte>> := D[k := D[k] + Zeros(n)];
    DeadNotShown(SlotAt(O[k], q));
    ShowsPut(O, k, q, slot);
    SetTwice(D, k, O[k], PutSlot(O[k], q, slot));
    forall p: Place ensures Shows(O, p) == Shows(D, p) { ShowsOpened(D, k, n, p); }
  }

  ghost predicate ShowsNothing(c: seq<byte>) {
    forall i: nat :: i < Slots(c) ==> ShownSlot(SlotAt(c, i)).None?
  }

  lemma OnlyDotsShowNothing(c: seq<byte>)
    ensures OnlyDots(c, 0, Slots(c)) <==> ShowsNothing(c)
  {
    hide SlotAt;
  }

  lemma ShowsWithout(D: map<nat, seq<byte>>, h: nat, q: Place)
    requires h in D ==> ShowsNothing(D[h])
    ensures SameShows(D, D - {h}, q) && Shows(D - {h}, q) == Shows(D, q)
  {
    hide ShownSlot, SlotAt;
  }

  lemma ShowsWithBlank(D: map<nat, seq<byte>>, h: nat, c: seq<byte>, q: Place)
    requires h !in D && ShowsNothing(c)
    ensures SameShows(D, D[h := c], q) && Shows(D[h := c], q) == Shows(D, q)
  {
    hide ShownSlot, SlotAt;
  }

  lemma SameShowsTrans(D: map<nat, seq<byte>>, E: map<nat, seq<byte>>, G: map<nat, seq<byte>>, q: Place)
    requires SameShows(D, E, q) && SameShows(E, G, q)
    ensures SameShows(D, G, q)
  {
    hide Shows;
  }

  // ---- A volume's view ----

  /** The bytes of every file's clusters. */
  ghost function FilesOf(d: seq<seq<byte>>, T: Tree): (F: map<nat, seq<byte>>)
    requires Readable(d, T)
    ensures F.Keys == T.chains.Keys - T.dirs
  {
    map h | h in T.chains && h !in T.dirs :: Content(d, T.chains[h])
  }

  ghost function SeenIn(root: nat, d: seq<seq<byte>>, T: Tree): View
    requires Readable(d, T)
  {
    ViewOf(root, DirBytes(d, T), FilesOf(d, T))
  }

  /** What a client sees of the volume. */
  ghost function Seen(v: Volume, T: Tree): View
    reads v
  {
    if Readable(v.data, T) then SeenIn(v.rootCluster, v.data, T) else imap[]
  }

  lemma FilesKept(d: seq<seq<byte>>, e: seq<seq<byte>>, T: Tree, U: Tree)
    requires Readable(d, T) && Readable(e, U) && U.chains.Keys - U.dirs == T.chains.Keys - T.dirs
    requires forall g :: g in T.chains && g !in T.dirs ==>
      g in U.chains && Content(e, U.chains[g]) == Content(d, T.chains[g])
    ensures FilesOf(e, U) == FilesOf(d, T)
  {
    hide Content;
  }

  // ---- A slot was entered ----

  lemma NewSlotInfo(root: nat, F: map<nat, seq<byte>>, name: seq<byte>, attr: byte, cluster: nat, size: nat)
    requires 0 !in name && !IsVolumeLabel(attr) && cluster < 0x1_0000_0000 && size < 0x1_0000_0000
    ensures var s := NewSlot(Make83(name), attr, cluster, size);
      && (Shown(s) <==> Storable(name)) && s[0] != SLOT_END && AttrOf(s) != ATTR_LFN
      && InfoOf(root, F, s) ==
           if IsDirectory(attr) then Info(ListedName(name), attr, size, if cluster == 0 then root else cluster, [])
           else Info(ListedName(name), attr, size, 0, Cut(BytesOf(F, cluster), size))
  {
    NewSlotNames(name, attr, cluster, size);
    NewSlotFields(Make83(name), attr, cluster, size);
    hide Make83, Parse83, NewSlot, ClusterOf, SizeOf;
  }

  lemma FilesEntered(d: seq<seq<byte>>, e: seq<seq<byte>>, T: Tree, k: nat, r: seq<nat>, bpc: nat, q: nat, slot: Slot)
    requires Readable(d, T) && k in T.dirs && AllDisjoint(T.chains[k := r])
    requires |e| == |d| && Within(r, |d|) && SlotEntered(d, e, T.chains[k], r, bpc, q, slot)
    ensures Readable(e, Regrown(T, k, r)) && FilesOf(e, Regrown(T, k, r)) == FilesOf(d, T)
  {
    hide Content, PutSlot, Disjoint, Opened, FirstDead;
    var U := Regrown(T, k, r);
    forall g | g in T.chains && g !in T.dirs ensures Content(e, U.chains[g]) == Content(d, T.chains[g]) {
      assert Disjoint(U.chains[k], U.chains[g]);
      ThirdChain(d, e, T.chains[g], r, r);
    }
    FilesKept(d, e, T, U);
  }

  /** Directory bytes after write_dir_entry. */
  lemma EnteredBytes(d: seq<seq<byte>>, e: seq<seq<byte>>, T: Tree, k: nat, r: seq<nat>, bpc: nat, q: nat, slot: Slot)
      returns (n: nat)
    requires Readable(d, T) && k in T.dirs && AllDisjoint(T.chains[k := r]) && bpc % 32 == 0
    requires |e| == |d| && Within(r, |d|) && SlotEntered(d, e, T.chains[k], r, bpc, q, slot)
    ensures n % 32 == 0 && q == FirstDead(DirBytes(d, T)[k], 0) < Slots(DirBytes(d, T)[k] + Zeros(n))
    ensures Readable(e, Regrown(T, k, r))
    ensures DirBytes(e, Regrown(T, k, r)) == EnteredIn(DirBytes(d, T), k, n, q, slot)
  {
    hide Content, PutSlot, Disjoint, FirstDead;
    n := if |r| > |T.chains[k]| then bpc else 0;
    DirBytesEntered(d, e, T, k, r, bpc, q, slot);
  }

  /** The view after write_dir_entry: one entry more if the slot is a shown one. */
  lemma EnteredView(root: nat, d: seq<seq<byte>>, e: seq<seq<byte>>, T: Tree, k: nat, r: seq<nat>, bpc: nat,
                    q: nat, slot: Slot)
    requires Readable(d, T) && k in T.dirs && AllDisjoint(T.chains[k := r]) && bpc % 32 == 0
    requires |e| == |d| && Within(r, |d|) && SlotEntered(d, e, T.chains[k], r, bpc, q, slot)
    requires Linked(DirBytes(d, T), T.slotOf, root) && slot[0] != SLOT_END && AttrOf(slot) != ATTR_LFN
    ensures (k, q) !in SeenIn(root, d, T) && Readable(e, Regrown(T, k, r))
    ensures SeenIn(root, e, Regrown(T, k, r))
         == Change(SeenIn(root, d, T), (k, q), root, FilesOf(d, T), ShownSlot(slot))
  {
    hide Content, PutSlot, Disjoint, Linked, FirstDead, SlotEntered, ViewOf, SameShows, SameInfos, Shows, ShownSlot,
      EnteredIn;
    var n := EnteredBytes(d, e, T, k, r, bpc, q, slot);
    FilesEntered(d, e, T, k, r, bpc, q, slot);
    var D, F := DirBytes(d, T), FilesOf(d, T);
    ShowsEntered(D, T.slotOf, root, k, n, q, slot);
    NoInfoChanged(root, D, F, (k, q));
    ViewAbsent(root, D, F, (k, q));
    ViewChanged(root, D, EnteredIn(D, k, n, q, slot), F, F, (k, q));
  }

  // ---- A slot was deleted ----

  lemma FilesWithout(d: seq<seq<byte>>, e: seq<seq<byte>>, T: Tree, k: nat, h: nat)
    requires Readable(d, T) && |e| == |d| && k in T.dirs && AllDisjoint(T.chains)
    requires forall c {:trigger e[c]} :: 0 <= c < |d| && c !in T.chains[k] ==> e[c] == d[c]
    ensures Readable(e, Without(T, h))
    ensures FilesOf(e, Without(T, h)) == if h == 0 then FilesOf(d, T) else FilesOf(d, T) - {h}
  {
    hide Content, Disjoint;
    forall g | g in T.chains && g !in T.dirs ensures Content(e, T.chains[g]) == Content(d, T.chains[g]) {
      ThirdChain(d, e, T.chains[g], T.chains[k], T.chains[k]);
    }
  }

  lemma StillNothing(c: seq<byte>, i: nat, gone: Slot)
    requires ShowsNothing(c) && ShownSlot(gone).None?
    ensures i < Slots(c) ==> ShowsNothing(PutSlot(c, i, gone))
  {
    hide ShownSlot, SlotAt, PutSlot;
    if i < Slots(c) { PutSlotAll(c, i, gone); }
  }

  /** The view after a slot was deleted and the chain it named is gone: one entry less. */
  lemma DeletedView(root: nat, d: seq<seq<byte>>, e: seq<seq<byte>>, T: Tree, k: nat, i: nat, h: nat)
    requires Readable(d, T) && k in T.dirs && AllDisjoint(T.chains) && Linked(DirBytes(d, T), T.slotOf, root)
    requires Deleted(d, e, T, k, i) && 0 !in T.chains && (h in T.slotOf ==> T.slotOf[h] == (k, i))
    requires h in T.dirs ==> ShowsNothing(DirBytes(d, T)[h])
    ensures Readable(e, Without(T, h))
    ensures SeenIn(root, e, Without(T, h)) == SeenIn(root, d, T) - {(k, i)}
  {
    hide Content, PutSlot, Disjoint, Linked, SlotAt, ViewOf, SameShows, SameInfos, Shows, ShownSlot, ShowsNothing, Live;
    var D, F, G := DirBytes(d, T), FilesOf(d, T), FilesOf(e, Without(T, h));
    var gone: Slot := SlotAt(D[k], i)[0 := SLOT_DELETED];
    FilesWithout(d, e, T, k, h);
    DirBytesStored(d, e, T, k, i, gone);
    DirBytesWithout(e, T, h);
    ShowsPut(D, k, i, gone);
    DeletedSlot(SlotAt(D[k], i));
    DeadNotShown(gone);
    OneFileChanged(root, D, T.slotOf, F, G, (k, i), h);
    var E: map<nat, seq<byte>> := D[k := PutSlot(D[k], i, gone)];
    if h != 0 {
      if h in D { StillNothing(D[h], i, gone); }
      ShowsWithout(E, h, (k, i));
      SameShowsTrans(D, E, E - {h}, (k, i));
      ViewChanged(root, D, E - {h}, F, G, (k, i));
    } else {
      ViewChanged(root, D, E, F, G, (k, i));
    }
  }

  // ---- A directory was made ----

  lemma FilesElsewhere(d: seq<seq<byte>>, T: Tree, c: nat, b: seq<byte>)
    requires Readable(d, T) && c < |d| && Apart(T, c)
    ensures Readable(d[c := b], T) && FilesOf(d[c := b], T) == FilesOf(d, T)
    ensures DirBytes(d[c := b], T) == DirBytes(d, T)
  {
    hide Content;
    forall g | g in T.chains ensures Content(d[c := b], T.chains[g]) == Content(d, T.chains[g]) {
      FileElsewhere(d, T.chains[g], c, b);
    }
    FilesKept(d, d[c := b], T, T);
  }

  /** The view after mkdir: one entry more, for a directory in which nothing is seen. */
  lemma MadeView(root: nat, d: seq<seq<byte>>, e: seq<seq<byte>>, T: Tree, k: nat, r: seq<nat>, bpc: nat, q: nat,
                 c: nat, name: seq<byte>)
    requires Readable(d, T) && k in T.dirs && k < FAT_EOF && 64 <= bpc && bpc % 32 == 0 && 2 <= c < FAT_EOF
    requires c < |d| == |e| && Within(r, |d|) && c !in T.chains && Apart(T, c)
    requires AllDisjoint(T.chains[c := [c]][k := r])
    requires SlotEntered(d[c := NewDirectory(c, k, bpc)], e, T.chains[k], r, bpc, q,
                         NewSlot(Make83(name), ATTR_DIRECTORY, c, 0))
    requires Linked(DirBytes(d, T), T.slotOf, root) && 0 !in name && Storable(name)
    ensures (k, q) !in SeenIn(root, d, T) && Readable(e, WithDirectory(T, k, r, q, c))
    ensures SeenIn(root, e, WithDirectory(T, k, r, q, c))
         == SeenIn(root, d, T)[(k, q) := Info(ListedName(name), ATTR_DIRECTORY, 0, c, [])]
  {
    hide Content, PutSlot, Disjoint, Linked, FirstDead, SlotEntered, ViewOf, SameShows, SameInfos, Shows, ShownSlot,
      Storable, Make83, Parse83, NewSlot, NewDirectory, ListedName, InfoOf, AllDisjoint, Within, Tidy, NamesNothing,
      OnlyDots, SlotAt, DotSlot, Live, Listed;
    var page, slot := NewDirectory(c, k, bpc), NewSlot(Make83(name), ATTR_DIRECTORY, c, 0);
    var d1 := d[c := page];
    FilesElsewhere(d, T, c, page);
    DisjointWithout(T.chains, k, r, c);
    NewSlotInfo(root, FilesOf(d, T), name, ATTR_DIRECTORY, c, 0);
    IsShown(slot);
    EnteredView(root, d1, e, T, k, r, bpc, q, slot);
    OnlyEntered(d1, e, T.chains[k], r, bpc, q, slot);
    DirBytesNamed(d1, e, T, k, r, q, c);
    NewDirectorySlots(c, k, bpc);
    MadeLast(root, e, T, k, r, q, c, page);
  }

  lemma OnlyEntered(d: seq<seq<byte>>, e: seq<seq<byte>>, s: seq<nat>, r: seq<nat>, bpc: nat, q: nat, slot: Slot)
    requires Within(s, |d|) && Within(r, |e|) && SlotEntered(d, e, s, r, bpc, q, slot)
    ensures |e| == |d| && forall i {:trigger e[i]} :: 0 <= i < |d| && i !in r ==> e[i] == d[i]
  {
    hide Content, PutSlot, FirstDead, Opened;
  }

  lemma IsShown(s: Slot)
    requires Shown(s)
    ensures ShownSlot(s) == Some(s)
  {
  }

  lemma MadeLast(root: nat, e: seq<seq<byte>>, T: Tree, k: nat, r: seq<nat>, q: nat, c: nat, page: seq<byte>)
    requires Readable(e, Regrown(T, k, r)) && Readable(e, WithDirectory(T, k, r, q, c)) && c !in T.chains
    requires k in T.chains && T.dirs <= T.chains.Keys && OnlyDots(page, 0, Slots(page))
    requires DirBytes(e, WithDirectory(T, k, r, q, c)) == DirBytes(e, Regrown(T, k, r))[c := page]
    ensures SeenIn(root, e, WithDirectory(T, k, r, q, c)) == SeenIn(root, e, Regrown(T, k, r))
  {
    hide Content, Shows, ShownSlot, InfoOf, SlotAt, Listed, IsDotName, NameOf, ShowsNothing, OnlyDots;
    var U, W := Regrown(T, k, r), WithDirectory(T, k, r, q, c);
    FilesKept(e, e, U, W);
    var D, F := DirBytes(e, U), FilesOf(e, U);
    OnlyDotsShowNothing(page);
    var p: Place := (k, q);
    ShowsWithBlank(D, c, page, p);
  }

  lemma UnusedCluster(root: nat, d: seq<seq<byte>>, T: Tree, c: nat)
    requires Readable(d, T) && Linked(DirBytes(d, T), T.slotOf, root) && T.chains.Keys == T.slotOf.Keys + {root}
    requires c !in T.chains && c != 0
    ensures Unused(SeenIn(root, d, T), root, c)
  {
    hide Content, SlotAt, Parse83, Tidy, SizeOf, ClusterOf;
    var D := DirBytes(d, T);
    var V := SeenIn(root, d, T);
    forall p | p in V ensures p.0 != c && V[p].id != c {
      var s := Shows(D, p).value;
      if IsDirectory(AttrOf(s)) && ClusterOf(s) != 0 { assert Name(D, p) == Some((ClusterOf(s), true)); }
    }
  }

  // ---- A slot was moved ----

  lemma FilesMoved(d: seq<seq<byte>>, f: seq<seq<byte>>, T: Tree, k1: nat, i1: nat, k2: nat, r: seq<nat>, q2: nat,
                   h: nat, slot: Slot)
    requires Readable(d, T) && k1 in T.dirs && k2 in T.dirs && AllDisjoint(T.chains[k2 := r])
    requires SlotMoved(d, f, T.chains[k2 := r][k1], i1, r, q2, slot) && Readable(f, Renamed(T, k2, r, q2, h))
    ensures FilesOf(f, Renamed(T, k2, r, q2, h)) == FilesOf(d, T)
  {
    hide Content, Disjoint, SlotAt;
    var all := T.chains[k2 := r];
    forall g | g in T.chains && g !in T.dirs ensures Content(f, all[g]) == Content(d, T.chains[g]) {
      assert Disjoint(all[k1], all[g]) && Disjoint(all[k2], all[g]);
      ThirdChain(d, f, T.chains[g], all[k1], r);
    }
    FilesKept(d, f, T, Renamed(T, k2, r, q2, h));
  }

  /** The view after a rename: the entry is at the new place under its new name, and no longer at the old one. */
  lemma MovedView(root: nat, d: seq<seq<byte>>, f: seq<seq<byte>>, T: Tree, k1: nat, i1: nat, k2: nat, r: seq<nat>,
                  q2: nat, h: nat, slot: Slot)
    requires Readable(d, T) && k1 in T.dirs && k2 in T.dirs && AllDisjoint(T.chains[k2 := r])
    requires SlotMoved(d, f, T.chains[k2 := r][k1], i1, r, q2, slot) && Linked(DirBytes(d, T), T.slotOf, root)
    requires BytesMoved(d, f, T, Renamed(T, k2, r, q2, h), k1, i1, k2, q2, slot)
    requires Shown(slot) && slot[0] != SLOT_END && AttrOf(slot) != ATTR_LFN
    ensures (k2, q2) !in SeenIn(root, d, T)
    ensures SeenIn(root, f, Renamed(T, k2, r, q2, h))
         == SeenIn(root, d, T)[(k2, q2) := InfoOf(root, FilesOf(d, T), slot)] - {(k1, i1)}
  {
    hide Content, PutSlot, Disjoint, Linked, FirstDead, SlotMoved, ViewOf, SameShows, SameInfos, Shows, ShownSlot,
      Shown, InfoOf, EnteredIn, SlotAt, Live;
    var D, F := DirBytes(d, T), FilesOf(d, T);
    var n: nat :| MovedBy(D, DirBytes(f, Renamed(T, k2, r, q2, h)), k1, i1, k2, n, q2, slot);
    var E := EnteredIn(D, k2, n, q2, slot);
    var gone: Slot := SlotAt(E[k1], i1)[0 := SLOT_DELETED];
    FilesMoved(d, f, T, k1, i1, k2, r, q2, h, slot);
    IsShown(slot);
    ShowsEntered(D, T.slotOf, root, k2, n, q2, slot);
    ShowsPut(E, k1, i1, gone);
    DeletedSlot(SlotAt(E[k1], i1));
    DeadNotShown(gone);
    NoInfoChanged(root, D, F, (k2, q2));
    NoInfoChanged(root, E, F, (k1, i1));
    ViewAbsent(root, D, F, (k2, q2));
    ViewChanged(root, D, E, F, F, (k2, q2));
    ViewChanged(root, E, E[k1 := PutSlot(E[k1], i1, gone)], F, F, (k1, i1));
  }

  // ---- A file was written ----

  lemma DirBytesFollow(d: seq<seq<byte>>, e: seq<seq<byte>>, T: Tree, U: Tree, k: nat, cluster: nat, i: nat, slot: Slot)
    requires OthersKept(d, e, T, U, k, cluster) && U.dirs == T.dirs && cluster !in T.dirs && k in T.dirs
    requires U.chains[k] == T.chains[k] && i < Slots(DirBytes(d, T)[k])
    requires Content(e, T.chains[k]) == PutSlot(DirBytes(d, T)[k], i, slot)
    ensures DirBytes(e, U) == DirBytes(d, T)[k := PutSlot(DirBytes(d, T)[k], i, slot)]
  {
    hide Content, PutSlot;
  }

  lemma FilesFollow(d: seq<seq<byte>>, e: seq<seq<byte>>, T: Tree, k: nat, i: nat, cluster: nat, r: seq<nat>, g: nat)
    requires var U := Stored(T, (k, i), cluster, r); OthersKept(d, e, T, U, k, cluster)
    requires k in T.dirs && 0 !in T.chains && (g != cluster || g == 0)
    ensures BytesOf(FilesOf(e, Stored(T, (k, i), cluster, r)), g) == BytesOf(FilesOf(d, T), g)
  {
    hide Content;
  }

  /** What slot (k, i) shows after a write: its name and attributes, and the new size and cluster. */
  lemma SlotAfter(d: seq<seq<byte>>, e: seq<seq<byte>>, T: Tree, k: nat, i: nat, r: seq<nat>, attr: byte, was: nat,
                  cluster: nat, size0: nat, size: nat)
      returns (s: Slot)
    requires var U := Stored(T, (k, i), cluster, r); OthersKept(d, e, T, U, k, cluster)
    requires k in T.dirs && cluster !in T.dirs && k != cluster && i < Slots(DirBytes(d, T)[k])
    requires SlotFollows(d, e, r, T.chains[k], i, was, cluster, size0, size)
    requires cluster < 0x1_0000_0000 && size < 0x1_0000_0000
    requires var s0 := SlotAt(DirBytes(d, T)[k], i); HandleSlot(s0, attr, was) && SizeOf(s0) == size0
    ensures var U := Stored(T, (k, i), cluster, r);
      SameShows(DirBytes(d, T), DirBytes(e, U), (k, i)) && Shows(DirBytes(e, U), (k, i)) == Some(s)
    ensures HandleSlot(s, attr, cluster) && SizeOf(s) == size && NameOf(s) == NameOf(SlotAt(DirBytes(d, T)[k], i))
  {
    hide Content, PutSlot, SlotAt, PatchSlot, Parse83, ClusterOf, SizeOf, AttrOf, Shows, NameField;
    var D, U := DirBytes(d, T), Stored(T, (k, i), cluster, r);
    var s0 := SlotAt(D[k], i);
    if e == d && cluster == was && size == size0 {
      s := s0;
      assert DirBytes(e, U) == D;
      ShowsHandle(D, k, i, attr, was);
    } else {
      s := PatchSlot(s0, cluster, size);
      PatchedSlot(s0, attr, was, cluster, size);
      PatchSlotFields(s0, cluster, size);
      DirBytesFollow(d, e, T, U, k, cluster, i, s);
      ShowsPut(D, k, i, s);
    }
  }

  lemma ShowsHandle(D: map<nat, seq<byte>>, k: nat, i: nat, attr: byte, cluster: nat)
    requires k in D && i < Slots(D[k]) && HandleSlot(SlotAt(D[k], i), attr, cluster)
    ensures Shows(D, (k, i)) == Some(SlotAt(D[k], i))
  {
  }

  lemma FileBytes(d: seq<seq<byte>>, T: Tree, h: nat)
    requires Readable(d, T) && h !in T.dirs && 0 !in T.chains
    ensures BytesOf(FilesOf(d, T), h) == Content(d, FileOf(T, h))
  {
  }

  /** The view after a write: size and bytes of one entry changed. */
  lemma StoredView(root: nat, d: seq<seq<byte>>, e: seq<seq<byte>>, T: Tree, k: nat, i: nat, r: seq<nat>, attr: byte,
                   was: nat, cluster: nat, size0: nat, size: nat)
    requires var U := Stored(T, (k, i), cluster, r); OthersKept(d, e, T, U, k, cluster) && FileOf(U, cluster) == r
    requires k in T.dirs && cluster !in T.dirs && k != cluster && i < Slots(DirBytes(d, T)[k]) && 0 !in T.chains
    requires SlotFollows(d, e, r, T.chains[k], i, was, cluster, size0, size) && !IsDirectory(attr)
    requires cluster < 0x1_0000_0000 && size < 0x1_0000_0000 && was !in T.dirs
    requires var s0 := SlotAt(DirBytes(d, T)[k], i); HandleSlot(s0, attr, was) && SizeOf(s0) == size0
    requires Linked(DirBytes(d, T), T.slotOf, root) && (cluster in T.slotOf ==> T.slotOf[cluster] == (k, i))
    ensures var V, W := SeenIn(root, d, T), SeenIn(root, e, Stored(T, (k, i), cluster, r));
      && (k, i) in V && V[(k, i)].attr == attr && V[(k, i)].size == size0
      && V[(k, i)].body == Cut(Content(d, FileOf(T, was)), size0)
      && W == V[(k, i) := V[(k, i)].(size := size, body := Cut(Content(e, r), size))]
  {
    hide Content, PutSlot, SlotAt, Parse83, SizeOf, Linked, Cut, SlotFollows, SameShows, SameInfos, Shows, NameOf,
      Listed, IsDotName;
    var U := Stored(T, (k, i), cluster, r);
    var D, F, G := DirBytes(d, T), FilesOf(d, T), FilesOf(e, U);
    var s := SlotAfter(d, e, T, k, i, r, attr, was, cluster, size0, size);
    FileBytes(d, T, was);
    FileBytes(e, U, cluster);
    ShowsHandle(D, k, i, attr, was);
    forall g: nat | g != cluster || g == 0 ensures BytesOf(G, g) == BytesOf(F, g) {
      FilesFollow(d, e, T, k, i, cluster, r, g);
    }
    OneFileChanged(root, D, T.slotOf, F, G, (k, i), cluster);
    ViewChanged(root, D, DirBytes(e, U), F, G, (k, i));
  }

  // ---- What a write does to the bytes seen ----

  lemma CutGrows(a: seq<byte>, b: seq<byte>, n: nat)
    requires a <= b
    ensures Cut(a, n) <= Cut(b, n) && (|Cut(a, n)| == n ==> Cut(b, n) == Cut(a, n))
  {
  }

  lemma RewrittenInfo(was: Info, now: Info, c0: seq<byte>, b: seq<byte>, c1: seq<byte>, offset: nat, w: seq<byte>)
    requires !IsDirectory(was.attr) && was.body == Cut(c0, was.size) && c0 <= b && offset + |w| <= |b|
    requires c1 == Splice(b, offset, w)
    requires now == was.(size := now.size, body := Cut(c1, now.size))
    requires now.size == if was.size < offset + |w| then offset + |w| else was.size
    ensures Rewritten(was, now, offset, w)
  {
    hide Splice;
    WindowReads(b, c1, offset, w);
    assert now.body[offset..offset + |w|] == c1[offset..offset + |w|];
  }
}
