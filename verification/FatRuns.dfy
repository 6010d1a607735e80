/**
 Whole sessions on a volume. A client names directories by path and files by name, gets its handles
 from fat32_find, and calls the driver. Whatever it calls, in whatever order and however the calls
 end, the chains stay exact, the slots keep naming exactly the chains, and what the client sees is what
 the commands, applied one after the other to the map of names and bytes, make of it.
 */
module FatRuns {
  import opened Bytes
  import opened FatVolume
  import opened FatChains
  import opened FatSlots
  import opened FatNames
  import opened FatFiles
  import opened FatDirs
  import opened FatTree
  import opened FatOps
  import opened FatMake
  import opened FatMove
  import opened FatStore
  import opened FatRooted
  import opened FatLost
  import opened FatSpec
  import opened FatView

  // ---- Handles and what is seen of them ----

  ghost function PlaceOf(v: Volume, e: Entry): Place
    reads v, e
  {
    (DirStart(v, e.dirCluster), e.dirIndex)
  }

  /** The slot a handle stands for. */
  ghost function SlotOf(v: Volume, T: Tree, e: Entry): Slot
    requires Sound(v, T) && Handle(v, T, e)
    reads v, v.cache, e
  {
    SlotAt(Content(v.data, T.chains[DirStart(v, e.dirCluster)]), e.dirIndex)
  }

  /** The handle agrees with its slot, the size included. */
  ghost predicate Current(v: Volume, T: Tree, e: Entry)
    reads v, v.cache, e
  {
    Sound(v, T) && Handle(v, T, e) && e.size == SizeOf(SlotOf(v, T, e))
  }

  lemma DirSeen(v: Volume, T: Tree, dirCluster: nat)
    requires Sound(v, T) && HasDir(v, T, dirCluster)
    ensures var k := DirStart(v, dirCluster);
      k in DirBytes(v.data, T) && EndsZero(DirBytes(v.data, T)[k]) && DirBytes(v.data, T)[k] == DirOf(v, T, dirCluster)
  {
    hide Content, EndsZero, Plain;
    assert Tidy(DirBytes(v.data, T)[DirStart(v, dirCluster)]);
  }

  /** Looking a name up in the view is searching the directory for it. */
  lemma LookupIsSearch(v: Volume, T: Tree, dirCluster: nat, name: seq<byte>)
    requires Sound(v, T) && HasDir(v, T, dirCluster)
    ensures Lookup(Seen(v, T), DirStart(v, dirCluster), name) == FirstMatch(DirOf(v, T, dirCluster), 0, name)
  {
    hide Framed, EndsZero, Lookup, FirstMatch, ViewOf, DirOf;
    DirSeen(v, T, dirCluster);
    SoundReadable(v, T);
    LookupMatches(v.rootCluster, DirBytes(v.data, T), FilesOf(v.data, T), DirStart(v, dirCluster), name);
  }

  lemma SeenIs(v: Volume, T: Tree)
    requires Sound(v, T)
    ensures Readable(v.data, T) && Seen(v, T) == SeenIn(v.rootCluster, v.data, T)
  {
  }

  lemma SoundReadable(v: Volume, T: Tree)
    requires Sound(v, T)
    ensures Readable(v.data, T) && Linked(DirBytes(v.data, T), T.slotOf, v.rootCluster) && AllDisjoint(T.chains)
    ensures 0 !in T.chains && v.rootCluster in T.dirs && T.chains.Keys == T.slotOf.Keys + {v.rootCluster}
  {
    NoClusterZero(v, T);
    RootIsDir(v, T);
  }

  /** A handle stands for an entry of the view. */
  lemma HandleSeen(v: Volume, T: Tree, e: Entry)
    requires Sound(v, T) && Handle(v, T, e)
    ensures PlaceOf(v, e) in Seen(v, T)
    ensures Seen(v, T)[PlaceOf(v, e)] == InfoOf(v.rootCluster, FilesOf(v.data, T), SlotOf(v, T, e))
    ensures Seen(v, T)[PlaceOf(v, e)].attr == e.attr
    ensures IsDirectory(e.attr) ==> Seen(v, T)[PlaceOf(v, e)].id == DirStart(v, e.cluster)
  {
    hide Content, SlotAt, Linked, Exact, Parse83, SizeOf;
    ShowsHandle(DirBytes(v.data, T), DirStart(v, e.dirCluster), e.dirIndex, e.attr, e.cluster);
  }

  /** What fat32_find fills in is a handle; if it describes a directory, its cluster may be searched. */
  lemma FoundHandle(v: Volume, T: Tree, dirCluster: nat, name: seq<byte>, e: Entry)
    requires Sound(v, T) && HasDir(v, T, dirCluster)
    requires var m := FirstMatch(DirOf(v, T, dirCluster), 0, name);
      m.Some? && Describes(e, SlotAt(DirOf(v, T, dirCluster), m.value), dirCluster, m.value)
    ensures Current(v, T, e) && e.size < 0x1_0000_0000
    ensures IsDirectory(e.attr) ==> HasDir(v, T, e.cluster)
  {
    hide Content, SlotAt, NameIn, Linked, Exact, FirstMatch, Parse83, SizeOf;
    DirOfIs(v, T, dirCluster);
    SizeIsWord(SlotAt(DirOf(v, T, dirCluster), FirstMatch(DirOf(v, T, dirCluster), 0, name).value));
    RootIsDir(v, T);
    if e.cluster != 0 { HandleChain(v, T, e); }
  }

  lemma SizeIsWord(s: Slot)
    ensures SizeOf(s) < 0x1_0000_0000
  {
  }

  /** Find one entry and make a handle of it. */
  method Open(v: Volume, dirCluster: nat, name: seq<byte>, ghost T: Tree) returns (ok: bool, e: Entry)
    requires Sound(v, T) && HasDir(v, T, dirCluster)
    modifies v`disk, v`cacheDirty, v`cacheLba, v.cache
    ensures Sound(v, T) && fresh(e) && v.disk == old(v.disk)
    ensures ok <==> Lookup(Seen(v, T), DirStart(v, dirCluster), name).Some?
    ensures ok ==> Current(v, T, e) && e.size < 0x1_0000_0000 && (IsDirectory(e.attr) ==> HasDir(v, T, e.cluster))
    ensures ok ==> PlaceOf(v, e) == (DirStart(v, dirCluster), Lookup(Seen(v, T), DirStart(v, dirCluster), name).value)
  {
    hide Framed, DirOf, FirstMatch, SlotAt, Handle, IsDirectory, Lookup, Seen, Current, NameOf, SizeOf, ClusterOf;
    e := new Entry();
    var res := Search(v, dirCluster, name, e, T);
    LookupIsSearch(v, T, dirCluster, name);
    ok := res == OK;
    if ok { FoundHandle(v, T, dirCluster, name, e); }
  }

  /** Go down from the root along a path, through directories only. */
  method OpenDirectory(v: Volume, path: Path, ghost T: Tree) returns (ok: bool, dirCluster: nat)
    requires Sound(v, T)
    modifies v`disk, v`cacheDirty, v`cacheLba, v.cache
    ensures Sound(v, T) && v.disk == old(v.disk) && (ok ==> HasDir(v, T, dirCluster))
    ensures Descend(Seen(v, T), v.rootCluster, path) == if ok then Some(DirStart(v, dirCluster)) else None
  {
    hide Framed, Lookup, ViewOf, Handle, IsDirectory;
    SoundReadable(v, T);
    dirCluster := 0;
    ghost var V, root := Seen(v, T), v.rootCluster;
    var i := 0;
    assert path[0..] == path;
    while i < |path|
      invariant 0 <= i <= |path| && Sound(v, T) && v.disk == old(v.disk) && HasDir(v, T, dirCluster)
      invariant Descend(V, root, path) == Descend(V, DirStart(v, dirCluster), path[i..])
    {
      var found, e := Open(v, dirCluster, path[i], T);
      assert path[i..][1..] == path[i + 1..];
      if found { HandleSeen(v, T, e); }
      if !found || !IsDirectory(e.attr) { return false, 0; }
      dirCluster := e.cluster;
      i := i + 1;
    }
    ok := true;
  }

  /** An empty volume is sound: only the root's cluster is in use, and it holds no slot. */
  lemma EmptyVolume(v: Volume)
    requires v.Valid() && v.fat[v.rootCluster] == FAT_EOF && v.data[v.rootCluster] == Zeros(v.Bpc())
    requires forall c :: 2 <= c < v.limit && c != v.rootCluster ==> v.fat[c] == 0
    ensures var T := Tree(map[v.rootCluster := [v.rootCluster]], map[], {v.rootCluster});
      Sound(v, T) && Seen(v, T) == imap[] && Whole(Seen(v, T)) && Rooted(T.slotOf, v.rootCluster)
  {
    var root := v.rootCluster;
    var T := Tree(map[root := [root]], map[], {root});
    OneCluster(v.data, root);
    EmptyTidy(v.Bpc());
    EmptyExact(v.fat, v.limit, root);
    hide Content, Tidy, SlotAt, NameIn, Exact;
    assert DirBytes(v.data, T) == map[root := Zeros(v.Bpc())];
    WholeCluster(v.spc);
  }

  lemma WholeCluster(spc: nat)
    ensures 512 * spc % 32 == 0
  {
  }

  lemma EmptyTidy(n: nat)
    ensures n % 32 == 0 ==> Tidy(Zeros(n))
    ensures forall i: nat :: i < Slots(Zeros(n)) ==> NameIn(SlotAt(Zeros(n), i)).None?
  {
    ZerosFree(n);
    assert [] + Zeros(n) == Zeros(n);
    assert Tidy([]);
    if n % 32 == 0 { TidyOpened([], n); }
  }

  lemma EmptyExact(t: seq<nat>, limit: nat, root: nat)
    requires 2 <= root < limit <= |t| <= FAT_EOF && t[root] == FAT_EOF
    requires forall c :: 2 <= c < limit && c != root ==> t[c] == 0
    ensures Exact(t, limit, map[root := [root]])
  {
    var chains := map[root := [root]];
    forall c | 2 <= c < limit && t[c] != 0 ensures Owned(chains, c) {
      assert root in chains && c in chains[root];
    }
  }

  // ---- One command ----

  /** The bytes seen did not change. */
  lemma SeenKept(d: seq<seq<byte>>, e: seq<seq<byte>>, root: nat, T: Tree)
    requires KeepsFiles(d, e, T)
    ensures SeenIn(root, e, T) == SeenIn(root, d, T)
  {
    hide Content, ViewOf;
    FilesKept(d, e, T, T);
    assert DirBytes(e, T) == DirBytes(d, T);
  }

  lemma CreatedSeen(v: Volume, d: seq<seq<byte>>, T: Tree, dirCluster: nat, r: seq<nat>, q: nat, name: CString)
    requires EnteredAs(d, v, T, dirCluster, r, q, NewSlot(Make83(name), ATTR_ARCHIVE, 0, 0))
    requires Linked(DirBytes(d, T), T.slotOf, v.rootCluster) && 0 !in T.chains
    requires Sound(v, Regrown(T, DirStart(v, dirCluster), r))
    ensures var V, W := SeenIn(v.rootCluster, d, T), Seen(v, Regrown(T, DirStart(v, dirCluster), r));
      if Storable(name) then Added(V, W, DirStart(v, dirCluster), Info(ListedName(name), ATTR_ARCHIVE, 0, 0, []))
      else W == V
  {
    hide Content, Linked, Exact, Make83, NewSlot, Parse83, Storable, ViewOf, SlotEntered, Shown, Within;
    var k, root, slot := DirStart(v, dirCluster), v.rootCluster, NewSlot(Make83(name), ATTR_ARCHIVE, 0, 0);
    SoundReadable(v, Regrown(T, k, r));
    ExactParts(v, Regrown(T, k, r), k);
    OnlyEntered(d, v.data, T.chains[k], r, v.Bpc(), q, slot);
    NewSlotInfo(root, FilesOf(d, T), name, ATTR_ARCHIVE, 0, 0);
    EnteredView(root, d, v.data, T, k, r, v.Bpc(), q, slot);
    ViewAbsent(root, DirBytes(d, T), FilesOf(d, T), (k, q));
  }

  method PerformCreate(v: Volume, dir: nat, name: CString, ghost T: Tree) returns (code: int, ghost U: Tree)
    requires Sound(v, T) && HasDir(v, T, dir)
    modifies v`disk, v`cacheDirty, v`cacheLba, v`fat, v`data, v.cache
    ensures Sound(v, U) && U.slotOf == T.slotOf
    ensures Creates(old(Seen(v, T)), DirStart(v, dir), name, code, Seen(v, U), v.fat)
  {
    hide Seen, SeenIn, Framed, Handle, Storable, FirstMatch, DirOf, EnteredAs, Make83, NewSlot, Fits83, Lookup,
      ViewOf, NoFreeCluster,
      Added, ListedName;
    SoundReadable(v, T);
    SeenIs(v, T);
    LookupIsSearch(v, T, dir, name);
    ghost var d := v.data;
    var out := new Entry();
    ghost var r;
    code, U, r := FatOps.Create(v, dir, name, out, T);
    SeenIs(v, U);
    if code == OK { CreatedSeen(v, d, T, dir, r, out.dirIndex, name); }
  }

  lemma MadeSeen(v: Volume, d: seq<seq<byte>>, T: Tree, dirCluster: nat, r: seq<nat>, q: nat, c: nat, name: CString)
    requires MadeFrom(d, v, T, dirCluster, name, r, q, c) && c < FAT_EOF && Storable(name)
    requires Linked(DirBytes(d, T), T.slotOf, v.rootCluster) && T.chains.Keys == T.slotOf.Keys + {v.rootCluster}
    requires Readable(v.data, WithDirectory(T, DirStart(v, dirCluster), r, q, c))
    ensures var V, W := SeenIn(v.rootCluster, d, T), Seen(v, WithDirectory(T, DirStart(v, dirCluster), r, q, c));
      && Unused(V, v.rootCluster, c)
      && Added(V, W, DirStart(v, dirCluster), Info(ListedName(name), ATTR_DIRECTORY, 0, c, []))
  {
    hide Content, Linked, Make83, NewSlot, Parse83, Storable, ViewOf, SlotEntered, Within, AllDisjoint, NewDirectory;
    MadeView(v.rootCluster, d, v.data, T, DirStart(v, dirCluster), r, v.Bpc(), q, c, name);
    UnusedCluster(v.rootCluster, d, T, c);
  }

  method PerformMkdir(v: Volume, dir: nat, name: CString, ghost T: Tree) returns (code: int, ghost U: Tree)
    requires Sound(v, T) && HasDir(v, T, dir) && Storable(name)
    modifies v`disk, v`cacheDirty, v`cacheLba, v`fat, v`data, v.cache
    ensures Sound(v, U)
    ensures Rooted(T.slotOf, v.rootCluster) ==> Rooted(U.slotOf, v.rootCluster)
    ensures Makes(old(Seen(v, T)), v.rootCluster, DirStart(v, dir), name, code, Seen(v, U), v.fat)
  {
    hide Seen, SeenIn, Framed, Handle, Storable, Rooted, KeepsFiles, FirstMatch, HoldsNewDirectory, FirstFree,
      AtMostOneFree,
      MadeFrom, Fits83, Lookup, ViewOf, Added, ListedName, Unused, DirOf;
    SoundReadable(v, T);
    SeenIs(v, T);
    LookupIsSearch(v, T, dir, name);
    PlacesAreDirs(v, T);
    ghost var d, root, places := v.data, v.rootCluster, T.slotOf;
    var out := new Entry();
    ghost var r;
    code, U, r := FatMake.Mkdir(v, dir, name, out, T);
    SeenIs(v, U);
    if code != OK {
      SeenKept(d, v.data, root, T);
    } else {
      SoundReadable(v, U);
      MadeSeen(v, d, T, dir, r, out.dirIndex, out.cluster, name);
      if Rooted(places, root) { AddRooted(places, root, out.cluster, (DirStart(v, dir), out.dirIndex)); }
    }
  }

  /** The bytes seen of a file are its chain's, up to the size. */
  lemma FileSeen(v: Volume, T: Tree, e: Entry)
    requires Current(v, T, e) && !IsDirectory(e.attr)
    ensures PlaceOf(v, e) in Seen(v, T) && FileClusters(v, e.cluster, FileOf(T, e.cluster))
    ensures Readable(v.data, T) && (forall i :: 0 <= i < |FileOf(T, e.cluster)| ==> FileOf(T, e.cluster)[i] < |v.data|)
    ensures var info := Seen(v, T)[PlaceOf(v, e)];
      !IsDirectory(info.attr) && info.size == e.size && info.body == Cut(Content(v.data, FileOf(T, e.cluster)), e.size)
  {
    hide Content, SlotAt, Linked, Exact, Parse83, SizeOf, ViewOf, Chain, Disjoint;
    SizeIsWord(SlotOf(v, T, e));
    FileApart(v, T, e);
    HandleSeen(v, T, e);
    FileBytes(v.data, T, e.cluster);
  }

  lemma WindowOfWhole(c: seq<byte>, size: nat, offset: nat, count: nat)
    requires |Cut(c, size)| == size
    ensures size <= |c|
    ensures Window(Cut(c, size), offset, count)
         == if offset >= size then [] else c[offset..offset + if count < size - offset then count else size - offset]
  {
  }

  method PerformRead(v: Volume, e: Entry, offset: nat, count: nat, ghost T: Tree) returns (o: Outcome)
    requires Current(v, T, e) && PlaceOf(v, e) in Seen(v, T) && WholeFile(Seen(v, T)[PlaceOf(v, e)])
    modifies v`disk, v`cacheDirty, v`cacheLba, v.cache
    ensures Sound(v, T) && Reads(old(Seen(v, T)[PlaceOf(v, e)]), offset, count, o)
  {
    hide Linked, Exact, ViewOf, Content, HandleSlot, SlotAt, Window, SizeOf, Volume.StoresFat, Volume.StoresData,
      Volume.CacheOk;
    HandleSeen(v, T, e);
    if !IsDirectory(e.attr) {
      FileSeen(v, T, e);
      WindowOfWhole(Content(v.data, FileOf(T, e.cluster)), e.size, offset, count);
    }
    var code, bytes := FatFiles.Read(v, e, offset, count, FileOf(T, e.cluster));
    o := Outcome(code, bytes);
  }

  lemma DeletedSeen(v: Volume, d: seq<seq<byte>>, T: Tree, k: nat, i: nat, h: nat)
    requires Readable(d, T) && k in T.dirs && AllDisjoint(T.chains) && Linked(DirBytes(d, T), T.slotOf, v.rootCluster)
    requires Deleted(d, v.data, T, k, i) && 0 !in T.chains && (h in T.slotOf ==> T.slotOf[h] == (k, i))
    requires h in T.dirs ==> ShowsNothing(DirBytes(d, T)[h])
    requires Readable(v.data, Without(T, h))
    ensures Seen(v, Without(T, h)) == SeenIn(v.rootCluster, d, T) - {(k, i)}
  {
    hide Content, Linked, Deleted, ViewOf, ShowsNothing;
    DeletedView(v.rootCluster, d, v.data, T, k, i, h);
  }

  lemma HandleNamed(v: Volume, T: Tree, e: Entry)
    requires Sound(v, T) && Handle(v, T, e)
    ensures DirStart(v, e.dirCluster) in T.dirs
    ensures e.cluster in T.slotOf ==> T.slotOf[e.cluster] == PlaceOf(v, e)
    ensures e.cluster in T.dirs ==> IsDirectory(e.attr) && DirStart(v, e.cluster) == e.cluster
    ensures !IsDirectory(e.attr) ==> e.cluster == 0 || (e.cluster in T.slotOf && HoldsNothing(v.data, T, e.cluster))
  {
    hide Content, SlotAt, NameIn, HandleSlot, Linked, Exact;
    SoundReadable(v, T);
    if e.cluster != 0 { HandleChain(v, T, e); }
  }

  method PerformUnlink(v: Volume, e: Entry, ghost T: Tree) returns (code: int, ghost U: Tree)
    requires Current(v, T, e) && PlaceOf(v, e) in Seen(v, T)
    modifies v`disk, v`cacheDirty, v`cacheLba, v`fat, v`data, v.cache
    ensures Sound(v, U)
    ensures Rooted(T.slotOf, v.rootCluster) ==> Rooted(U.slotOf, v.rootCluster)
    ensures Unlinks(old(Seen(v, T)), old(PlaceOf(v, e)), code, Seen(v, U))
  {
    hide Rooted, Framed, Handle, HoldsNothing, Deleted, IsDirectory, ViewOf, ShowsNothing, SlotOf;
    SoundReadable(v, T);
    HandleSeen(v, T, e);
    HandleNamed(v, T, e);
    ghost var d, places, root := v.data, T.slotOf, v.rootCluster;
    if Rooted(places, root) && !IsDirectory(e.attr) { WithoutRooted(v, T, e.cluster); }
    code, U := FatOps.Unlink(v, e, T);
    SoundReadable(v, U);
    if code == OK { DeletedSeen(v, d, T, DirStart(v, e.dirCluster), e.dirIndex, e.cluster); }
  }

  /** The directory of a handle is empty exactly when nothing is seen in it. */
  lemma EmptySeen(v: Volume, T: Tree, e: Entry)
    requires Sound(v, T) && Handle(v, T, e) && IsDirectory(e.attr)
    ensures PlaceOf(v, e) in Seen(v, T)
    ensures EmptyDir(v.data, T, DirStart(v, e.cluster)) <==> EmptyFolder(Seen(v, T), Seen(v, T)[PlaceOf(v, e)].id)
    ensures EmptyDir(v.data, T, DirStart(v, e.cluster)) ==>
      && (e.cluster == 0 || (e.cluster in T.slotOf && HoldsNothing(v.data, T, e.cluster)))
      && (e.cluster in T.dirs ==> ShowsNothing(DirBytes(v.data, T)[e.cluster]))
  {
    hide Content, Linked, Exact, ViewOf, Chain, ShownSlot, SlotAt, SlotOf, HandleSlot, NameIn;
    SoundReadable(v, T);
    HandleSeen(v, T, e);
    if e.cluster != 0 { HandleChain(v, T, e); }
    var k, D := DirStart(v, e.cluster), DirBytes(v.data, T);
    OnlyDotsShowNothing(D[k]);
    DotsNameNothingAll(D[k]);
    FolderShows(v.rootCluster, D, FilesOf(v.data, T), k);
  }

  lemma DotsNameNothingAll(c: seq<byte>)
    ensures OnlyDots(c, 0, Slots(c)) ==> NamesNothing(c)
  {
    if OnlyDots(c, 0, Slots(c)) { DotsNameNothing(c); }
  }

  lemma FolderShows(root: nat, D: map<nat, seq<byte>>, F: map<nat, seq<byte>>, k: nat)
    requires k in D
    ensures EmptyFolder(ViewOf(root, D, F), k) <==> ShowsNothing(D[k])
  {
    hide ShownSlot, SlotAt, InfoOf;
    forall i: nat ensures (k, i) in ViewOf(root, D, F) <==> i < Slots(D[k]) && ShownSlot(SlotAt(D[k], i)).Some? {
      ViewAbsent(root, D, F, (k, i));
    }
  }

  method PerformRmdir(v: Volume, e: Entry, ghost T: Tree) returns (code: int, ghost U: Tree)
    requires Current(v, T, e) && PlaceOf(v, e) in Seen(v, T)
    modifies v`disk, v`cacheDirty, v`cacheLba, v`fat, v`data, v.cache
    ensures Sound(v, U)
    ensures Rooted(T.slotOf, v.rootCluster) ==> Rooted(U.slotOf, v.rootCluster)
    ensures Removes(old(Seen(v, T)), old(PlaceOf(v, e)), code, Seen(v, U))
  {
    hide Rooted, Framed, Handle, EmptyDir, HoldsNothing, Deleted, IsDirectory, ViewOf, ShowsNothing, SlotOf,
      EmptyFolder;
    SoundReadable(v, T);
    HandleSeen(v, T, e);
    HandleNamed(v, T, e);
    ghost var d, places, root := v.data, T.slotOf, v.rootCluster;
    if IsDirectory(e.attr) { EmptySeen(v, T, e); }
    ghost var empty := IsDirectory(e.attr) && EmptyDir(v.data, T, DirStart(v, e.cluster));
    if empty && Rooted(places, root) { WithoutRooted(v, T, e.cluster); }
    code, U := FatOps.Rmdir(v, e, T);
    SoundReadable(v, U);
    if code == OK { DeletedSeen(v, d, T, DirStart(v, e.dirCluster), e.dirIndex, e.cluster); }
  }

  /** How the outcome of fat32_write shows in the view. */
  ghost predicate WriteOutcome(d: seq<seq<byte>>, v: Volume, r: seq<nat>, size0: nat, size: nat, buf: seq<byte>,
                               offset: nat, code: int)
    reads v
  {
    if code == ERR_NOSPACE then NoFreeCluster(v.fat) && size == size0 && SameBytes(d, v.data, r)
    else
      && 0 <= code <= |buf| && (code < |buf| ==> NoFreeCluster(v.fat)) && BytesStored(d, v, r, offset, buf, code)
      && size == if size0 < offset + code then offset + code else size0
  }

  lemma OutcomeSeen(d: seq<seq<byte>>, v: Volume, s: seq<nat>, r: seq<nat>, V: View, p: Place, W: View, size: nat,
                    buf: seq<byte>, offset: nat, code: int)
    requires p in V && !IsDirectory(V[p].attr) && Within(r, |d|) && Within(r, |v.data|) && s <= r
    requires V[p].body == Cut(Content(d, s), V[p].size) && WriteOutcome(d, v, r, V[p].size, size, buf, offset, code)
    requires W == V[p := V[p].(size := size, body := Cut(Content(v.data, r), size))]
    ensures Writes(V, p, buf, offset, code, W, v.fat)
  {
    hide Content, Splice, NoFreeCluster, Rewritten, Cut;
    PrefixContent(d, s, r);
    if code == ERR_NOSPACE {
      CutGrows(Content(d, s), Content(d, r), size);
    } else {
      RewrittenInfo(V[p], W[p], Content(d, s), Content(d, r), Content(v.data, r), offset, buf[..code]);
    }
  }

  /** What Store says of a file of which slot s0, cluster was and size size0 were recorded. */
  ghost predicate StoredAs(d: seq<seq<byte>>, v: Volume, T: Tree, U: Tree, e: Entry, r: seq<nat>, s0: Slot, was: nat,
                           size0: nat)
    reads v, v.cache, e
  {
    var k, i := DirStart(v, e.dirCluster), e.dirIndex;
    && U == Stored(T, (k, i), e.cluster, r) && FileHandle(v, U, e) && FileOf(U, e.cluster) == r
    && OthersKept(d, v.data, T, U, k, e.cluster) && k in T.dirs && Within(r, |d|) && Within(r, |v.data|)
    && SlotFollows(d, v.data, r, T.chains[k], i, was, e.cluster, size0, e.size)
    && i < Slots(DirBytes(d, T)[k]) && s0 == SlotAt(DirBytes(d, T)[k], i)
    && HandleSlot(s0, e.attr, was) && SizeOf(s0) == size0 && was !in T.dirs && FileOf(T, was) <= r
  }

  lemma StoredSeen(v: Volume, d: seq<seq<byte>>, T: Tree, U: Tree, e: Entry, r: seq<nat>, s0: Slot, was: nat,
                   size0: nat,
                   buf: seq<byte>, offset: nat, code: int)
    requires StoredAs(d, v, T, U, e, r, s0, was, size0) && WriteOutcome(d, v, r, size0, e.size, buf, offset, code)
    requires Linked(DirBytes(d, T), T.slotOf, v.rootCluster) && 0 !in T.chains
    ensures PlaceOf(v, e) in SeenIn(v.rootCluster, d, T)
    ensures Writes(SeenIn(v.rootCluster, d, T), PlaceOf(v, e), buf, offset, code, Seen(v, U), v.fat)
  {
    hide Content, Linked, Exact, SlotAt, ViewOf, Writes, WriteOutcome, Chain, HandleSlot, SizeOf, SlotFollows, Within;
    var k, i := DirStart(v, e.dirCluster), e.dirIndex;
    FileApart(v, U, e);
    StoredPlace(v, T, e, r);
    StoredView(v.rootCluster, d, v.data, T, k, i, r, e.attr, was, e.cluster, size0, e.size);
    OutcomeSeen(d, v, FileOf(T, was), r, SeenIn(v.rootCluster, d, T), (k, i), Seen(v, U), e.size, buf, offset, code);
  }

  lemma StoredPlace(v: Volume, T: Tree, e: Entry, r: seq<nat>)
    requires FileHandle(v, Stored(T, PlaceOf(v, e), e.cluster, r), e)
    ensures e.cluster in T.slotOf ==> T.slotOf[e.cluster] == PlaceOf(v, e)
    ensures e.cluster !in T.dirs || e.cluster == 0
    ensures e.cluster < FAT_EOF
  {
    hide Content, Linked, Exact, SlotAt, Chain, HandleSlot, NameIn;
    var U := Stored(T, PlaceOf(v, e), e.cluster, r);
    FileApart(v, U, e);
    if e.cluster != 0 {
      HandleChain(v, U, e);
      FileStart(v, e.cluster, FileOf(U, e.cluster));
    }
  }

  lemma NotRoot(v: Volume, T: Tree, e: Entry)
    requires Sound(v, T) && Handle(v, T, e)
    ensures e.cluster != v.rootCluster
  {
    hide Content, SlotAt, NameIn, HandleSlot, Linked, Exact;
    if e.cluster != 0 { HandleChain(v, T, e); } else { NoClusterZero(v, T); RootIsDir(v, T); }
  }

  lemma StoredRooted(v: Volume, T: Tree, U: Tree, e: Entry, r: seq<nat>)
    requires FileHandle(v, U, e) && U == Stored(T, PlaceOf(v, e), e.cluster, r)
    requires DirStart(v, e.dirCluster) == v.rootCluster || DirStart(v, e.dirCluster) in T.slotOf
    ensures Rooted(T.slotOf, v.rootCluster) ==> Rooted(U.slotOf, v.rootCluster)
  {
    hide Rooted, Linked, Exact, Handle;
    NotRoot(v, U, e);
    if Rooted(T.slotOf, v.rootCluster) && e.cluster != 0 && e.cluster !in T.slotOf {
      AddRooted(T.slotOf, v.rootCluster, e.cluster, PlaceOf(v, e));
    }
  }

  /** What fat32_write finds: the file's slot s0 and its place, on disk d. */
  ghost predicate WriteFinds(d: seq<seq<byte>>, T: Tree, root: nat, p: Place, attr: byte, s0: Slot, was: nat,
                             size0: nat)
  {
    && Readable(d, T) && p.0 in T.dirs && p.1 < Slots(DirBytes(d, T)[p.0]) && s0 == SlotAt(DirBytes(d, T)[p.0], p.1)
    && HandleSlot(s0, attr, was) && SizeOf(s0) == size0 && was !in T.dirs && !IsDirectory(attr)
    && Linked(DirBytes(d, T), T.slotOf, root) && 0 !in T.chains && (p.0 == root || p.0 in T.slotOf)
  }

  lemma WriteStart(v: Volume, T: Tree, e: Entry)
    requires Current(v, T, e) && !IsDirectory(e.attr)
    ensures FileHandle(v, T, e)
    ensures WriteFinds(v.data, T, v.rootCluster, PlaceOf(v, e), e.attr, SlotOf(v, T, e), e.cluster, e.size)
  {
    hide Content, SlotAt, Linked, Exact, HandleSlot, SizeOf, Chain, Disjoint, FileClusters;
    SoundReadable(v, T);
    PlacesAreDirs(v, T);
    SizeIsWord(SlotOf(v, T, e));
    FileApart(v, T, e);
    NoClusterZero(v, T);
    if e.cluster != 0 { HandleChain(v, T, e); }
  }

  /** What follows from what fat32_write ensures. */
  lemma WriteEnd(v: Volume, d: seq<seq<byte>>, T: Tree, U: Tree, e: Entry, r: seq<nat>, s0: Slot, was: nat, size0: nat,
                 buf: seq<byte>, offset: nat, code: int)
    requires WriteFinds(d, T, v.rootCluster, PlaceOf(v, e), e.attr, s0, was, size0)
    requires FileHandle(v, U, e) && U == Stored(T, PlaceOf(v, e), e.cluster, r)
    requires OthersKept(d, v.data, T, U, DirStart(v, e.dirCluster), e.cluster)
    requires FileOf(T, was) <= r == FileOf(U, e.cluster)
    requires SlotFollows(d, v.data, r, T.chains[DirStart(v, e.dirCluster)], e.dirIndex, was, e.cluster, size0, e.size)
    requires WriteOutcome(d, v, r, size0, e.size, buf, offset, code)
    ensures Sound(v, U) && (Rooted(T.slotOf, v.rootCluster) ==> Rooted(U.slotOf, v.rootCluster))
    ensures PlaceOf(v, e) in SeenIn(v.rootCluster, d, T)
    ensures Writes(SeenIn(v.rootCluster, d, T), PlaceOf(v, e), buf, offset, code, Seen(v, U), v.fat)
  {
    hide Content, Linked, Exact, SlotAt, ViewOf, Writes, HandleSlot, SizeOf, SlotFollows, Rooted, Handle, FileOf,
      BytesStored, NoFreeCluster, OthersKept, Stored;
    WriteWithin(d, v, r, size0, e.size, buf, offset, code);
    StoredSeen(v, d, T, U, e, r, s0, was, size0, buf, offset, code);
    StoredRooted(v, T, U, e, r);
  }

  lemma WriteWithin(d: seq<seq<byte>>, v: Volume, r: seq<nat>, size0: nat, size: nat, buf: seq<byte>, offset: nat,
                    code: int)
    requires WriteOutcome(d, v, r, size0, size, buf, offset, code)
    ensures Within(r, |d|) && Within(r, |v.data|)
  {
    hide Content, Splice;
  }

  /** fat32_write on a file. */
  method WriteFile(v: Volume, e: Entry, buf: seq<byte>, offset: nat, ghost T: Tree)
      returns (code: int, ghost U: Tree)
    requires Current(v, T, e) && !IsDirectory(e.attr) && offset + |buf| < 0x1_0000_0000
    modifies v`disk, v`cacheDirty, v`cacheLba, v`fat, v`data, v.cache, e
    ensures Sound(v, U)
    ensures Rooted(T.slotOf, v.rootCluster) ==> Rooted(U.slotOf, v.rootCluster)
    ensures old(PlaceOf(v, e)) in old(Seen(v, T))
    ensures Writes(old(Seen(v, T)), old(PlaceOf(v, e)), buf, offset, code, Seen(v, U), v.fat)
  {
    hide Seen, SeenIn, Rooted, Sound, Handle, WriteFinds, Writes, OthersKept, SlotFollows, NoFreeCluster, BytesStored,
      SameBytes, SlotOf, IsDirectory, Covers, FileOf, Stored;
    SeenIs(v, T);
    WriteStart(v, T, e);
    ghost var d, s0, was, size0 := v.data, SlotOf(v, T, e), e.cluster, e.size;
    ghost var r;
    code, U, r := Store(v, e, buf, offset, T);
    SeenIs(v, U);
    WriteEnd(v, d, T, U, e, r, s0, was, size0, buf, offset, code);
  }

  /** fat32_write refuses a directory before it looks at anything else. */
  method PerformWrite(v: Volume, e: Entry, buf: seq<byte>, offset: nat, ghost T: Tree)
      returns (code: int, ghost U: Tree)
    requires Current(v, T, e) && offset + |buf| < 0x1_0000_0000 && PlaceOf(v, e) in Seen(v, T)
    modifies v`disk, v`cacheDirty, v`cacheLba, v`fat, v`data, v.cache, e
    ensures Sound(v, U)
    ensures Rooted(T.slotOf, v.rootCluster) ==> Rooted(U.slotOf, v.rootCluster)
    ensures Writes(old(Seen(v, T)), old(PlaceOf(v, e)), buf, offset, code, Seen(v, U), v.fat)
  {
    hide Rooted, Framed, ViewOf, Handle, SlotOf, NoFreeCluster, IsDirectory;
    SoundReadable(v, T);
    HandleSeen(v, T, e);
    if IsDirectory(e.attr) { return ERR_ISDIR, T; }
    code, U := WriteFile(v, e, buf, offset, T);
  }

  lemma MovedSeen(v: Volume, d: seq<seq<byte>>, T: Tree, k1: nat, i1: nat, k2: nat, r: seq<nat>, q2: nat, h: nat,
                  name: CString, attr: byte, size: nat, was: Info)
    requires Readable(d, T) && k1 in T.dirs && k2 in T.dirs && AllDisjoint(T.chains[k2 := r])
    requires SlotMoved(d, v.data, T.chains[k2 := r][k1], i1, r, q2, NewSlot(Make83(name), attr, h, size))
    requires Linked(DirBytes(d, T), T.slotOf, v.rootCluster) && Readable(v.data, Renamed(T, k2, r, q2, h))
    requires BytesMoved(d, v.data, T, Renamed(T, k2, r, q2, h), k1, i1, k2, q2, NewSlot(Make83(name), attr, h, size))
    requires Storable(name) && !IsVolumeLabel(attr) && h < 0x1_0000_0000 && size < 0x1_0000_0000
    requires was.attr == attr && was.size == size
    requires was.id == if IsDirectory(attr) then (if h == 0 then v.rootCluster else h) else 0
    requires was.body == if IsDirectory(attr) then [] else Cut(BytesOf(FilesOf(d, T), h), size)
    ensures var V, W := SeenIn(v.rootCluster, d, T), Seen(v, Renamed(T, k2, r, q2, h));
      (k2, q2) !in V && W == V[(k2, q2) := was.(name := ListedName(name))] - {(k1, i1)}
  {
    hide Content, Linked, Make83, NewSlot, Parse83, Storable, ViewOf, SlotMoved, BytesMoved, AllDisjoint, SlotAt, Cut,
      ListedName, IsVolumeLabel, Shown, InfoOf;
    NewSlotInfo(v.rootCluster, FilesOf(d, T), name, attr, h, size);
    MovedView(v.rootCluster, d, v.data, T, k1, i1, k2, r, q2, h, NewSlot(Make83(name), attr, h, size));
  }

  /** What a handle's entry is made of, and that its slot is no volume label. */
  lemma CurrentInfo(v: Volume, T: Tree, e: Entry)
    requires Current(v, T, e)
    ensures PlaceOf(v, e) in Seen(v, T) && !IsVolumeLabel(e.attr) && e.size < 0x1_0000_0000
    ensures var was := Seen(v, T)[PlaceOf(v, e)];
      && was.attr == e.attr && was.size == e.size && e.cluster < 0x1_0000_0000
      && was.id == (if IsDirectory(e.attr) then (if e.cluster == 0 then v.rootCluster else e.cluster) else 0)
      && was.body == if IsDirectory(e.attr) then [] else Cut(BytesOf(FilesOf(v.data, T), e.cluster), e.size)
  {
    hide Content, SlotAt, Linked, Exact, Parse83, SizeOf, ClusterOf, ViewOf;
    HandleSeen(v, T, e);
    SizeIsWord(SlotOf(v, T, e));
    ClusterIsWord(SlotOf(v, T, e));
  }

  lemma ClusterIsWord(s: Slot)
    ensures ClusterOf(s) < 0x1_0000_0000
  {
  }

  /** Directories lie in directories only. */
  lemma {:induction false} AboveIsDir(places: Places, dirs: set<nat>, k: nat, n: nat)
    requires k in dirs && forall g :: g in places ==> places[g].0 in dirs
    ensures Above(places, k, n) in dirs
    decreases n
  {
    if n > 0 && k in places { AboveIsDir(places, dirs, places[k].0, n - 1); }
  }

  lemma NotUnderFile(places: Places, dirs: set<nat>, k: nat, h: nat)
    requires k in dirs && h !in dirs && forall g :: g in places ==> places[g].0 in dirs
    ensures !Under(places, k, h)
  {
    forall n: nat ensures Above(places, k, n) != h { AboveIsDir(places, dirs, k, n); }
  }

  /** Everything stays reachable unless a directory was moved below itself. */
  lemma MovedRooted(places: Places, dirs: set<nat>, root: nat, info: Info, h: nat, k: nat, q: nat)
    requires root !in places && k in dirs && (forall g :: g in places ==> places[g].0 in dirs)
    requires forall g :: g in dirs ==> g == root || g in places
    requires h != 0 ==> h in places && (h in dirs <==> IsDirectory(info.attr))
    requires info.id == if IsDirectory(info.attr) then (if h == 0 then root else h) else 0
    ensures Rooted(places, root) ==>
      (Rooted(if h == 0 then places else places[h := (k, q)], root) <==> !BelowItself(places, root, info, k))
  {
    hide Rooted, Under;
    if h != 0 {
      if !IsDirectory(info.attr) { NotUnderFile(places, dirs, k, h); }
      if Rooted(places, root) { RenameRooted(places, root, h, (k, q)); }
    }
  }

  lemma CurrentChain(v: Volume, T: Tree, e: Entry)
    requires Current(v, T, e)
    ensures e.cluster != 0 ==> e.cluster in T.slotOf && (e.cluster in T.dirs <==> IsDirectory(e.attr))
    ensures DirStart(v, e.dirCluster) in T.dirs
  {
    hide Content, SlotAt, Linked, Exact, HandleSlot, SizeOf, NameIn;
    if e.cluster != 0 { HandleChain(v, T, e); }
  }

  /** What fat32_rename finds: entry was at place p of disk d, with first cluster h, and directory k. */
  ghost predicate RenameFinds(d: seq<seq<byte>>, T: Tree, root: nat, p: Place, k: nat, was: Info, h: nat, attr: byte,
                              size: nat)
  {
    && Readable(d, T) && p.0 in T.dirs && k in T.dirs && p in SeenIn(root, d, T) && SeenIn(root, d, T)[p] == was
    && Linked(DirBytes(d, T), T.slotOf, root) && !IsVolumeLabel(attr) && h < 0x1_0000_0000 && size < 0x1_0000_0000
    && was.attr == attr && was.size == size
    && was.id == (if IsDirectory(attr) then (if h == 0 then root else h) else 0)
    && was.body == (if IsDirectory(attr) then [] else Cut(BytesOf(FilesOf(d, T), h), size))
    && root !in T.slotOf && (forall g :: g in T.slotOf ==> T.slotOf[g].0 in T.dirs)
    && (forall g :: g in T.dirs ==> g == root || g in T.slotOf)
    && (h != 0 ==> h in T.slotOf && (h in T.dirs <==> IsDirectory(attr)))
  }

  lemma RenameStart(v: Volume, T: Tree, e: Entry, to: nat)
    requires Current(v, T, e) && HasDir(v, T, to)
    ensures PlaceOf(v, e) in Seen(v, T) && e.size < 0x1_0000_0000
    ensures RenameFinds(v.data, T, v.rootCluster, PlaceOf(v, e), DirStart(v, to), Seen(v, T)[PlaceOf(v, e)],
                        e.cluster, e.attr, e.size)
  {
    hide Sound, Current, Linked, ViewOf, SeenIn, Seen, IsVolumeLabel, IsDirectory, HandleSlot;
    CurrentParts(v, T, e);
    SeenIs(v, T);
    SoundReadable(v, T);
    CurrentInfo(v, T, e);
    CurrentChain(v, T, e);
    PlacesAreDirs(v, T);
  }

  lemma CurrentParts(v: Volume, T: Tree, e: Entry)
    requires Current(v, T, e)
    ensures Sound(v, T) && Handle(v, T, e)
  {
    hide Sound, Handle;
  }

  /** What follows from what fat32_rename ensures. */
  lemma RenameEnd(v: Volume, d: seq<seq<byte>>, T: Tree, U: Tree, p: Place, k: nat, r: seq<nat>, q: nat, h: nat,
                  name: CString, attr: byte, size: nat, was: Info)
    requires RenameFinds(d, T, v.rootCluster, p, k, was, h, attr, size) && Storable(name)
    requires U == Renamed(T, k, r, q, h) && Sound(v, U)
    requires SlotMoved(d, v.data, U.chains[p.0], p.1, r, q, NewSlot(Make83(name), attr, h, size))
    requires BytesMoved(d, v.data, T, U, p.0, p.1, k, q, NewSlot(Make83(name), attr, h, size))
    ensures Renames(SeenIn(v.rootCluster, d, T), p, k, name, OK, Seen(v, U), v.fat)
    ensures Rooted(T.slotOf, v.rootCluster) ==>
      (Rooted(U.slotOf, v.rootCluster) <==> !BelowItself(T.slotOf, v.rootCluster, was, k))
  {
    hide Sound, SlotMoved, BytesMoved, Linked, ViewOf, SeenIn, Seen, Storable, NewSlot, Make83, ListedName, BelowItself,
      Rooted, IsVolumeLabel, IsDirectory, Content, Cut;
    SoundReadable(v, U);
    MovedSeen(v, d, T, p.0, p.1, k, r, q, h, name, attr, size, was);
    MovedRooted(T.slotOf, T.dirs, v.rootCluster, was, h, k, q);
  }

  /** fat32_rename to a directory that is there. */
  method MoveTo(v: Volume, e: Entry, to: nat, toName: CString, ghost T: Tree) returns (code: int, ghost U: Tree)
    requires Current(v, T, e) && Storable(toName) && HasDir(v, T, to) && PlaceOf(v, e) in Seen(v, T)
    modifies v`disk, v`cacheDirty, v`cacheLba, v`fat, v`data, v.cache, e
    ensures Sound(v, U)
    ensures Renames(old(Seen(v, T)), old(PlaceOf(v, e)), DirStart(v, to), toName, code, Seen(v, U), v.fat)
    ensures Rooted(T.slotOf, v.rootCluster) ==>
      (Rooted(U.slotOf, v.rootCluster)
       <==> !(code == OK && BelowItself(T.slotOf, v.rootCluster, old(Seen(v, T)[PlaceOf(v, e)]), DirStart(v, to))))
  {
    hide Seen, SeenIn, Rooted, Storable, Framed, SlotMoved, BytesMoved, NoFreeCluster, Handle, HandleSlot, RenameFinds,
      BelowItself, Make83, NewSlot, ListedName, Recoverable, Under, SlotOf, Renamed;
    SeenIs(v, T);
    RenameStart(v, T, e, to);
    ghost var d, p, was := v.data, PlaceOf(v, e), Seen(v, T)[PlaceOf(v, e)];
    ghost var r;
    code, U, r := FatMove.Rename(v, e, to, toName, T);
    SeenIs(v, U);
    if code == OK {
      RenameEnd(v, d, T, U, p, DirStart(v, to), r, e.dirIndex, e.cluster, toName, e.attr, e.size, was);
    }
  }

  method PerformRename(v: Volume, e: Entry, toDir: Path, toName: CString, ghost T: Tree)
      returns (o: Outcome, ghost U: Tree)
    requires Current(v, T, e) && Storable(toName) && PlaceOf(v, e) in Seen(v, T)
    modifies v`disk, v`cacheDirty, v`cacheLba, v`fat, v`data, v.cache, e
    ensures Sound(v, U)
    ensures MovesTo(old(Seen(v, T)), v.rootCluster, old(PlaceOf(v, e)), toDir, toName, o, Seen(v, U), v.fat)
    ensures Rooted(T.slotOf, v.rootCluster) ==>
      (Rooted(U.slotOf, v.rootCluster)
       <==> !(o.code == OK && LandsBelow(T.slotOf, old(Seen(v, T)), v.rootCluster, old(PlaceOf(v, e)), toDir)))
  {
    hide Seen, SeenIn, Rooted, Storable, Framed, Content, SlotAt, HandleSlot, Descend, BelowItself, Renames;
    SeenIs(v, T);
    var ok, to := OpenDirectory(v, toDir, T);
    SeenIs(v, T);
    if !ok { return Outcome(ERR_NOENT, []), T; }
    var code;
    code, U := MoveTo(v, e, to, toName, T);
    o := Outcome(code, []);
  }

  ghost function StageOf(v: Volume, T: Tree): Stage
    reads v
  {
    Stage(Seen(v, T), T.slotOf, v.fat)
  }

  /** One command on the entry behind a handle. */
  method PerformAt(v: Volume, e: Entry, c: Command, ghost T: Tree) returns (o: Outcome, ghost U: Tree)
    requires Current(v, T, e) && Allowed(c) && !c.Create? && !c.Mkdir? && PlaceOf(v, e) in Seen(v, T)
    requires c.Read? ==> WholeFile(Seen(v, T)[PlaceOf(v, e)])
    modifies v`disk, v`cacheDirty, v`cacheLba, v`fat, v`data, v.cache, e
    ensures Sound(v, U)
    ensures ObeysAt(old(Seen(v, T)), v.rootCluster, old(PlaceOf(v, e)), c, o, Seen(v, U), v.fat)
    ensures Rooted(T.slotOf, v.rootCluster) ==>
      (Rooted(U.slotOf, v.rootCluster)
       <==> !LandsAt(T.slotOf, old(Seen(v, T)), v.rootCluster, old(PlaceOf(v, e)), c, o))
  {
    hide Framed, Handle, Storable, IsDirectory, Rooted, ViewOf, SlotOf, Reads, Writes, Unlinks, Removes, Renames,
      WholeFile, LandsBelow, MovesTo;
    SoundReadable(v, T);
    var code;
    U := T;
    match c
    case Read(d, name, offset, count) =>
      o := PerformRead(v, e, offset, count, T);
    case Write(d, name, buf, offset) =>
      code, U := PerformWrite(v, e, buf, offset, T);
      o := Outcome(code, []);
    case Unlink(d, name) =>
      code, U := PerformUnlink(v, e, T);
      o := Outcome(code, []);
    case Rmdir(d, name) =>
      code, U := PerformRmdir(v, e, T);
      o := Outcome(code, []);
    case Rename(d, name, toDir, toName) =>
      o, U := PerformRename(v, e, toDir, toName, T);
  }

  /** One command in a directory that the path leads to. */
  method PerformIn(v: Volume, c: Command, dir: nat, ghost T: Tree) returns (o: Outcome, ghost U: Tree)
    requires Sound(v, T) && Allowed(c) && HasDir(v, T, dir) && (c.Read? ==> Whole(Seen(v, T)))
    requires Descend(Seen(v, T), v.rootCluster, c.dir) == Some(DirStart(v, dir))
    modifies v`disk, v`cacheDirty, v`cacheLba, v`fat, v`data, v.cache
    ensures Sound(v, U) && Step(old(StageOf(v, T)), StageOf(v, U), v.rootCluster, c, o)
  {
    hide Framed, Handle, Storable, IsDirectory, Rooted, ViewOf, Lookup, Descend, SlotOf, Creates, Makes, Step, ObeysAt,
      LandsAt, WholeFile;
    SoundReadable(v, T);
    ghost var s := StageOf(v, T);
    if c.Create? || c.Mkdir? {
      var code;
      if c.Create? {
        code, U := PerformCreate(v, dir, c.name, T);
      } else {
        code, U := PerformMkdir(v, dir, c.name, T);
      }
      o := Outcome(code, []);
      SoundReadable(v, U);
      StepNew(s, StageOf(v, U), v.rootCluster, c, o, DirStart(v, dir));
      return;
    }
    var found, e := Open(v, dir, c.name, T);
    if !found {
      o, U := Outcome(ERR_NOENT, []), T;
      StepNew(s, StageOf(v, U), v.rootCluster, c, o, DirStart(v, dir));
      return;
    }
    HandleSeen(v, T, e);
    ghost var p := PlaceOf(v, e);
    o, U := PerformAt(v, e, c, T);
    SoundReadable(v, U);
    StepAt(s, StageOf(v, U), v.rootCluster, c, o, p.0, p.1);
  }

  /** One command: the outcome and what is seen afterwards are those of the map. */
  method Perform(v: Volume, c: Command, ghost T: Tree) returns (o: Outcome, ghost U: Tree)
    requires Sound(v, T) && Allowed(c) && (c.Read? ==> Whole(Seen(v, T)))
    modifies v`disk, v`cacheDirty, v`cacheLba, v`fat, v`data, v.cache
    ensures Sound(v, U) && Step(old(StageOf(v, T)), StageOf(v, U), v.rootCluster, c, o)
  {
    hide Framed, Storable, Rooted, ViewOf, Lookup, Descend, Whole, Step;
    SoundReadable(v, T);
    ghost var s := StageOf(v, T);
    var ok, dir := OpenDirectory(v, c.dir, T);
    if !ok {
      StepNowhere(s, StageOf(v, T), v.rootCluster, c);
      return Outcome(ERR_NOENT, []), T;
    }
    o, U := PerformIn(v, c, dir, T);
  }

  /**
   Every session keeps the volume sound, and its outcomes and what is seen after it are those of the commands
   carried out one after the other on the map. Reading wants files that are as long as their entries say.
   */
  method Session(v: Volume, commands: seq<Command>, ghost T: Tree)
      returns (outcomes: seq<Outcome>, ghost stages: seq<Stage>, ghost U: Tree)
    requires Sound(v, T) && forall c :: c in commands ==> Allowed(c)
    requires Whole(Seen(v, T)) || forall c :: c in commands ==> !c.Read?
    modifies v`disk, v`cacheDirty, v`cacheLba, v`fat, v`data, v.cache
    ensures Sound(v, U) && Leads(stages, v.rootCluster, commands, outcomes, old(StageOf(v, T)), StageOf(v, U))
    ensures old(Whole(Seen(v, T))) ==> Whole(Seen(v, U))
    ensures RootedThrough(stages, v.rootCluster, |commands|)
      <==> Rooted(T.slotOf, v.rootCluster) && NoneLostTill(stages, v.rootCluster, commands, outcomes, |commands|)
  {
    hide Rooted, Sound, Seen, StageOf, Step, Whole, Leads, RootedThrough, NoneLostTill, Allowed;
    StageParts(v, T);
    ghost var root, start := v.rootCluster, StageOf(v, T);
    RunStart(start, root);
    outcomes, stages, U := [], [start], T;
    var i := 0;
    while i < |commands|
      invariant 0 <= i <= |commands| && Sound(v, U)
      invariant Leads(stages, root, commands[..i], outcomes, start, StageOf(v, U))
    {
      assert commands[i] in commands && commands[..i + 1] == commands[..i] + [commands[i]];
      RunKeeps(stages, root, commands[..i], outcomes, start, StageOf(v, U));
      StageParts(v, U);
      ghost var now := StageOf(v, U);
      var o;
      o, U := Perform(v, commands[i], U);
      RunExtended(stages, root, commands[..i], outcomes, start, now, StageOf(v, U), commands[i], o);
      outcomes, stages := outcomes + [o], stages + [StageOf(v, U)];
      i := i + 1;
    }
    assert commands[..i] == commands;
    StageParts(v, U);
    RunKeeps(stages, root, commands, outcomes, start, StageOf(v, U));
  }

  lemma StageParts(v: Volume, T: Tree)
    ensures StageOf(v, T).view == Seen(v, T) && StageOf(v, T).places == T.slotOf
  {
  }
}
