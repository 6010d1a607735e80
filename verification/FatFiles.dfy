/**
 Cluster allocation, chain release, and reading and writing files by byte offset.
 Bytes of a file are the bytes of its chain (FatChains.Content); every operation is specified by
 what it does to the table and to those bytes.
 */
module FatFiles {
  import opened Arith
  import opened Bytes
  import opened FatVolume
  import opened FatChains
  import opened FatSlots

  const OK := 0
  const ERR_NOENT := -2
  const ERR_NOTDIR := -3
  const ERR_ISDIR := -4
  const ERR_NOSPACE := -5
  const ERR_EXIST := -6

  /** The caller's handle, Fat32Entry. */
  class Entry {
    var name: seq<byte>
    var attr: byte
    var cluster: nat
    var size: nat
    var dirCluster: nat
    var dirIndex: nat

    constructor ()
    {
      name, attr, cluster, size, dirCluster, dirIndex := [], 0, 0, 0, 0, 0;
    }
  }

  predicate IsLink(c: nat) { 2 <= c < FAT_EOF }

  ghost predicate NoFreeCluster(t: seq<nat>) {
    forall c :: 2 <= c < |t| ==> t[c] != 0
  }

  /** No two clusters are free. */
  ghost predicate AtMostOneFree(t: seq<nat>) {
    forall a, b :: 2 <= a < b < |t| ==> t[a] != 0 || t[b] != 0
  }

  ghost predicate FirstFree(t: seq<nat>, c: nat) {
    && 2 <= c < |t| && t[c] == 0
    && forall k :: 2 <= k < c ==> t[k] != 0
  }

  /** fat_alloc_cluster: first fit, marked as the end of a chain; 0 when the scan finds nothing. */
  method AllocCluster(v: Volume) returns (c: nat)
    requires v.Valid()
    modifies v`disk, v`cacheDirty, v`cacheLba, v`fat, v.cache
    ensures v.Valid()
    ensures c == 0 ==> NoFreeCluster(v.fat) && v.fat == old(v.fat) && v.disk == old(v.disk)
    ensures c != 0 ==> FirstFree(old(v.fat), c) && c < v.limit && v.fat == old(v.fat)[c := 0x0FFF_FFFF]
  {
    c := 2;
    while c < v.scanned
      invariant 2 <= c && v.Valid() && v.fat == old(v.fat) && v.disk == old(v.disk)
      invariant forall k :: 2 <= k < c && k < |v.fat| ==> v.fat[k] != 0
    {
      var e := v.FatGet(c);
      if e == 0 {
        v.FatSet(c, FAT_EOF);
        return;
      }
      c := c + 1;
    }
    c := 0;
  }

  // ---- Releasing a chain ----

  /** Links stay on the volume, so the walk below only meets entries the driver may read. */
  ghost predicate LinksInside(t: seq<nat>, limit: nat) {
    forall c :: 2 <= c < |t| && c < limit && IsLink(t[c]) ==> t[c] < limit
  }

  ghost function NonZero(t: seq<nat>): nat {
    if t == [] then 0 else NonZero(t[..|t| - 1]) + if t[|t| - 1] != 0 then 1 else 0
  }

  lemma {:induction false} NonZeroDrops(t: seq<nat>, c: nat)
    requires c < |t| && t[c] != 0
    ensures NonZero(t[c := 0]) == NonZero(t) - 1
  {
    var m := |t| - 1;
    if c == m {
      assert t[c := 0][..m] == t[..m];
    } else {
      NonZeroDrops(t[..m], c);
      assert t[c := 0][..m] == t[..m][c := 0];
    }
  }

  /** What fat_free_chain leaves of any table, cyclic ones included: every visited entry is zeroed. */
  ghost function Released(t: seq<nat>, limit: nat, start: nat): (u: seq<nat>)
    requires limit <= |t| && LinksInside(t, limit)
    requires IsLink(start) ==> start < limit
    ensures |u| == |t|
    ensures forall c :: 0 <= c < |t| ==> u[c] == t[c] || u[c] == 0
    decreases NonZero(t)
  {
    if !IsLink(start) || t[start] == 0 then t
    else
      NonZeroDrops(t, start);
      Released(t[start := 0], limit, t[start])
  }

  /** One pass of the loop: the entry is cleared and the rest of the walk starts at its old value. */
  lemma ReleaseStep(t: seq<nat>, limit: nat, c: nat)
    requires limit <= |t| && LinksInside(t, limit) && IsLink(c) && c < limit
    ensures LinksInside(t[c := 0], limit) && (IsLink(t[c]) ==> t[c] < limit)
    ensures Released(t[c := 0], limit, t[c]) == Released(t, limit, c)
    ensures NonZero(t[c := 0]) == if t[c] == 0 then NonZero(t) else NonZero(t) - 1
  {
    if t[c] == 0 {
      assert t[c := 0] == t;
    } else {
      NonZeroDrops(t, c);
    }
  }

  ghost function Cleared(t: seq<nat>, s: seq<nat>): (u: seq<nat>)
    requires forall i :: 0 <= i < |s| ==> s[i] < |t|
    ensures |u| == |t|
    ensures forall c :: 0 <= c < |t| ==> u[c] == if c in s then 0 else t[c]
    decreases |s|
  {
    if s == [] then t else
      var u := Cleared(t[s[0] := 0], s[1..]);
      assert forall c :: c in s <==> c == s[0] || c in s[1..];
      u
  }

  /** On a chain, exactly the chain is released. */
  lemma {:induction false} ReleasedChain(t: seq<nat>, limit: nat, s: seq<nat>)
    requires Chain(t, s) && limit <= |t| <= FAT_EOF && LinksInside(t, limit) && s[0] < limit
    ensures Released(t, limit, s[0]) == Cleared(t, s)
    decreases |s|
  {
    ChainDistinct(t, s);
    ReleaseStep(t, limit, s[0]);
    var u := t[s[0] := 0];
    if |s| == 1 {
      assert Cleared(t, s) == Cleared(u, []);
    } else {
      assert t[s[0]] == s[1];
      ChainSuffix(t, s, 1);
      ChainFrame(t, u, s[1..]);
      ReleasedChain(u, limit, s[1..]);
    }
  }

  /** fat_free_chain; terminates on every table, because each pass removes a nonzero entry. */
  method FreeChain(v: Volume, start: nat)
    requires v.Valid() && LinksInside(v.fat, v.limit)
    requires IsLink(start) ==> start < v.limit
    modifies v`disk, v`cacheDirty, v`cacheLba, v`fat, v.cache
    ensures v.Valid() && v.fat == Released(old(v.fat), v.limit, start)
  {
    hide Released, LinksInside, NonZero;
    var c: nat := start;
    while c >= 2 && c < FAT_EOF
      invariant v.Valid() && LinksInside(v.fat, v.limit)
      invariant IsLink(c) ==> c < v.limit
      invariant Released(v.fat, v.limit, c) == Released(old(v.fat), v.limit, start)
      decreases NonZero(v.fat), c
    {
      var next := v.FatGet(c);
      ReleaseStep(v.fat, v.limit, c);
      v.FatSet(c, 0);
      c := next;
    }
    ReleasedNothing(v.fat, v.limit, c);
  }

  lemma ReleasedNothing(t: seq<nat>, limit: nat, c: nat)
    requires limit <= |t| && LinksInside(t, limit) && !IsLink(c)
    ensures Released(t, limit, c) == t
  {
  }

  // ---- Growing a chain ----

  ghost predicate Within(s: seq<nat>, limit: nat) {
    forall i :: 0 <= i < |s| ==> 2 <= s[i] < limit
  }

  /** From table t to table u the chain s grew to r, taking only free clusters, and nothing else changed. */
  ghost predicate Grown(t: seq<nat>, u: seq<nat>, s: seq<nat>, r: seq<nat>) {
    && |u| == |t| && s <= r
    && (forall c {:trigger u[c]} :: 0 <= c < |t| && c !in r ==> u[c] == t[c])
    && (forall i :: |s| <= i < |r| ==> r[i] < |t| && t[r[i]] == 0)
    && (r != [] ==> Chain(u, r))
  }

  lemma ChainNonZero(t: seq<nat>, s: seq<nat>, c: nat)
    requires Chain(t, s) && c in s
    ensures t[c] != 0
  {
    var j :| 0 <= j < |s| && s[j] == c;
    assert j < |s| - 1 ==> t[s[j]] == s[j + 1];
  }

  lemma GrownTrans(t: seq<nat>, u: seq<nat>, w: seq<nat>, s: seq<nat>, r: seq<nat>, q: seq<nat>)
    requires Grown(t, u, s, r) && Grown(u, w, r, q)
    ensures Grown(t, w, s, q)
  {
    forall i | |s| <= i < |q| ensures q[i] < |t| && t[q[i]] == 0 {
      if i < |r| {
        assert q[i] == r[i];
      } else if q[i] in r {
        ChainNonZero(u, r, q[i]);
      }
    }
  }

  lemma GrownPrefix(t: seq<nat>, u: seq<nat>, s: seq<nat>, r: seq<nat>)
    requires Grown(t, u, s, r)
    ensures s <= r
  {
  }

  lemma GrownByNone(t: seq<nat>, s: seq<nat>)
    requires Chain(t, s)
    ensures Grown(t, t, s, s)
  {
  }

  lemma GrownByOne(t: seq<nat>, s: seq<nat>, n: nat, limit: nat)
    requires Chain(t, s) && |t| <= FAT_EOF && 2 <= n < |t| && t[n] == 0
    requires Within(s, limit) && n < limit
    ensures Grown(t, t[n := FAT_EOF][s[|s| - 1] := n], s, s + [n])
    ensures Within(s + [n], limit)
  {
    ChainExtend(t, s, n);
  }

  lemma GrownInTwo(t: seq<nat>, u: seq<nat>, w: seq<nat>, s: seq<nat>, n: nat, limit: nat)
    requires Chain(t, s) && |t| <= FAT_EOF && 2 <= n < |t| && t[n] == 0 && Within(s, limit) && n < limit
    requires u == t[n := FAT_EOF] && w == u[s[|s| - 1] := n]
    ensures Grown(t, w, s, s + [n]) && Within(s + [n], limit)
  {
    GrownByOne(t, s, n, limit);
  }

  lemma ChainNext(t: seq<nat>, s: seq<nat>, k: nat)
    requires Chain(t, s) && k < |s|
    ensures s[k] < |t| && t[s[k]] == if k + 1 < |s| then s[k + 1] else FAT_EOF
    ensures k + 1 < |s| ==> 2 <= s[k + 1] < |t|
  {
  }

  lemma ClusterBounds(v: Volume, s: seq<nat>, k: nat)
    requires v.Valid() && Within(s, v.limit) && k < |s|
    ensures 2 <= s[k] < v.limit <= v.scanned == |v.fat| < FAT_EOF
  {
  }

  /**
   The step fat32_write takes twice: go to the next cluster, or allocate one and link it.
   Returns 0 when the chain ends here and the volume is full.
   */
  method NextOrGrow(v: Volume, cluster: nat, ghost s: seq<nat>, ghost k: nat)
      returns (next: nat, ghost r: seq<nat>)
    requires v.Valid() && Chain(v.fat, s) && Within(s, v.limit) && k < |s| && cluster == s[k]
    modifies v`disk, v`cacheDirty, v`cacheLba, v`fat, v.cache
    ensures v.Valid() && Grown(old(v.fat), v.fat, s, r) && Within(r, v.limit)
    ensures next == 0 ==> k == |s| - 1 && r == s && v.fat == old(v.fat) && NoFreeCluster(v.fat)
    ensures next != 0 ==> k + 1 < |r| && next == r[k + 1]
    ensures |r| <= |s| + 1 && (k + 1 < |s| ==> r == s && v.fat == old(v.fat))
  {
    hide Chain, Grown, NoFreeCluster, Within, Volume.Valid;
    r := s;
    GrownByNone(v.fat, s);
    ChainNext(v.fat, s, k);
    ClusterBounds(v, s, k);
    next := v.FatGet(cluster);
    if next >= FAT_EOF || next < 2 {
      next := AllocCluster(v);
      if next != 0 {
        ghost var t, marked := old(v.fat), v.fat;
        v.FatSet(cluster, next);
        GrownInTwo(t, marked, v.fat, s, next, v.limit);
        r := s + [next];
      }
    }
  }

  // ---- From byte and slot positions to clusters ----

  lemma WithinUniform(v: Volume, s: seq<nat>)
    requires v.Valid() && Within(s, v.limit)
    ensures Uniform(v.data, s, v.Bpc())
  {
  }

  /** Byte pos of a chain is byte pos % n of cluster pos / n. */
  lemma Position(d: seq<seq<byte>>, s: seq<nat>, n: nat, pos: nat)
    requires Uniform(d, s, n) && 0 < n
    ensures pos < |Content(d, s)| <==> pos / n < |s|
    ensures pos / n <= |s| ==> |Content(d, s[..pos / n])| + pos % n == pos
  {
    ContentLength(d, s, n);
    BlockOf(n, |s|, pos);
    if pos / n <= |s| {
      ContentLength(d, s[..pos / n], n);
    }
  }

  /** Slot r of a directory is slot r % n of cluster r / n, when n slots fit a cluster. */
  lemma SlotPlace(d: seq<seq<byte>>, s: seq<nat>, n: nat, r: nat)
    requires Uniform(d, s, 32 * n) && 0 < n
    ensures r < Slots(Content(d, s)) <==> r / n < |s|
    ensures r / n < |s| ==>
      && |Content(d, s[..r / n])| + 32 * (r % n) == 32 * r
      && |d[s[r / n]]| == 32 * n
      && SlotAt(Content(d, s), r) == SlotAt(d[s[r / n]], r % n)
  {
    SlotIndex(n, r);
    Position(d, s, 32 * n, 32 * r);
    ContentLength(d, s, 32 * n);
    Associate(32, n, |s|);
    if r / n < |s| {
      SlotInCluster(d, s, r / n, r % n);
    }
  }

  lemma SlotIndex(n: nat, r: nat)
    requires 0 < n
    ensures 32 * r / (32 * n) == r / n && 32 * r % (32 * n) == 32 * (r % n)
  {
    Divide(r, n);
    Associate(32, n, r / n);
    QuotientIs(32 * r, 32 * n, r / n, 32 * (r % n));
  }

  lemma SlotInCluster(d: seq<seq<byte>>, s: seq<nat>, k: nat, i: nat)
    requires forall j :: 0 <= j < |s| ==> s[j] < |d|
    requires k < |s| && i < Slots(d[s[k]])
    ensures var base := |Content(d, s[..k])|;
      base + 32 * i + 32 <= |Content(d, s)| &&
      Content(d, s)[base + 32 * i..base + 32 * i + 32] == SlotAt(d[s[k]], i)
  {
    ContentCluster(d, s, k);
    var base := |Content(d, s[..k])|;
    var all := Content(d, s);
    SliceOfSlice(all, base, |d[s[k]]|, 32 * i, 32);
  }

  /** Storing a slot in its cluster stores it in the directory. */
  lemma StoreSlot(d: seq<seq<byte>>, s: seq<nat>, n: nat, r: nat, slot: Slot)
    requires Uniform(d, s, 32 * n) && 0 < n && Distinct(s) && r / n < |s|
    ensures r < Slots(Content(d, s)) && |d[s[r / n]]| == 32 * n
    ensures Content(d[s[r / n] := PutSlot(d[s[r / n]], r % n, slot)], s) == PutSlot(Content(d, s), r, slot)
  {
    SlotPlace(d, s, n, r);
    ContentSplice(d, s, r / n, 32 * (r % n), slot);
  }

  // ---- Editing one directory slot ----

  function DirStart(v: Volume, dirCluster: nat): nat {
    if dirCluster != 0 then dirCluster else v.rootCluster
  }

  /** fat_get on cluster k of a chain. */
  method NextInChain(v: Volume, cluster: nat, ghost s: seq<nat>, ghost k: nat) returns (next: nat)
    requires v.Valid() && Chain(v.fat, s) && Within(s, v.limit) && k < |s| && cluster == s[k]
    modifies v`disk, v`cacheDirty, v`cacheLba, v.cache
    ensures v.Valid() && v.disk == old(v.disk)
    ensures next == if k + 1 < |s| then s[k + 1] else FAT_EOF
  {
    assert k < |s| - 1 ==> v.fat[s[k]] == s[k + 1];
    next := v.FatGet(cluster);
  }

  /** s is the chain of clusters that starts at c. */
  ghost predicate ChainFrom(v: Volume, c: nat, s: seq<nat>)
    reads v
  {
    Chain(v.fat, s) && Within(s, v.limit) && s[0] == c
  }

  /** Follow n links from the first cluster of s; 0 when the chain is shorter. */
  method Walk(v: Volume, start: nat, n: nat, ghost s: seq<nat>) returns (cur: nat)
    requires v.Valid() && ChainFrom(v, start, s)
    modifies v`disk, v`cacheDirty, v`cacheLba, v.cache
    ensures v.Valid() && v.disk == old(v.disk)
    ensures cur == if n < |s| then s[n] else 0
  {
    cur := start;
    var k: nat := 0;
    while k < n
      invariant 0 <= k <= n && k < |s| && cur == s[k]
      invariant v.Valid() && v.disk == old(v.disk)
    {
      cur := NextInChain(v, cur, s, k);
      if cur < 2 || cur >= FAT_EOF { return 0; }
      k := k + 1;
    }
  }

  /** Only the directory's own clusters differ, and slot r of the directory now is slot. */
  ghost predicate SlotStored(d: seq<seq<byte>>, e: seq<seq<byte>>, s: seq<nat>, r: nat, slot: Slot)
    requires forall i :: 0 <= i < |s| ==> s[i] < |d|
  {
    && |e| == |d|
    && (forall c {:trigger e[c]} :: 0 <= c < |d| && c !in s ==> e[c] == d[c])
    && r < Slots(Content(d, s))
    && Content(e, s) == PutSlot(Content(d, s), r, slot)
  }

  /** Read a cluster, change its slot i, write the cluster back. */
  method RewriteSlot(v: Volume, cur: nat, i: nat, slot: Slot)
    requires v.Valid() && 2 <= cur < v.limit && i < Slots(v.data[cur])
    modifies v`disk, v`data
    ensures v.Valid() && v.data == old(v.data)[cur := PutSlot(old(v.data)[cur], i, slot)]
  {
    var buf := v.ClusterRead(cur);
    buf := PutSlot(buf, i, slot);
    v.ClusterWrite(cur, buf);
  }

  lemma StoredInCluster(t: seq<nat>, d: seq<seq<byte>>, s: seq<nat>, n: nat, r: nat, slot: Slot)
    requires Chain(t, s) && |t| <= FAT_EOF
    requires Uniform(d, s, 32 * n) && 0 < n && r / n < |s|
    ensures |d[s[r / n]]| == 32 * n
    ensures SlotStored(d, d[s[r / n] := PutSlot(d[s[r / n]], r % n, slot)], s, r, slot)
  {
    hide Splice, Chain;
    ChainDistinct(t, s);
    StoreSlot(d, s, n, r, slot);
  }

  /** update_dir_entry */
  method UpdateDirEntry(v: Volume, dirCluster: nat, rawIdx: nat, cluster: nat, size: nat, ghost s: seq<nat>)
      returns (res: int)
    requires v.Valid() && ChainFrom(v, DirStart(v, dirCluster), s)
    modifies v`disk, v`cacheDirty, v`cacheLba, v`data, v.cache
    ensures v.Valid()
    ensures res == if rawIdx < Slots(old(Content(v.data, s))) then OK else ERR_NOENT
    ensures res == ERR_NOENT ==> v.disk == old(v.disk) && v.data == old(v.data)
    ensures res == OK ==> SlotStored(old(v.data), v.data, s, rawIdx,
      PatchSlot(SlotAt(old(Content(v.data, s)), rawIdx), cluster, size))
  {
    var n := 16 * v.spc;
    WithinUniform(v, s);
    SlotPlace(v.data, s, n, rawIdx);
    var cur := Walk(v, DirStart(v, dirCluster), rawIdx / n, s);
    if cur == 0 { return ERR_NOENT; }
    var buf := v.ClusterRead(cur);
    var slot: Slot := PatchSlot(SlotAt(buf, rawIdx % n), cluster, size);
    StoredInCluster(v.fat, v.data, s, n, rawIdx, slot);
    RewriteSlot(v, cur, rawIdx % n, slot);
    res := OK;
  }

  /** mark_deleted: the first byte of the slot's name becomes 0xE5. */
  method MarkDeleted(v: Volume, dirCluster: nat, rawIdx: nat, ghost s: seq<nat>) returns (res: int)
    requires v.Valid() && ChainFrom(v, DirStart(v, dirCluster), s)
    modifies v`disk, v`cacheDirty, v`cacheLba, v`data, v.cache
    ensures v.Valid()
    ensures res == if rawIdx < Slots(old(Content(v.data, s))) then OK else ERR_NOENT
    ensures res == ERR_NOENT ==> v.disk == old(v.disk) && v.data == old(v.data)
    ensures res == OK ==> SlotStored(old(v.data), v.data, s, rawIdx,
      SlotAt(old(Content(v.data, s)), rawIdx)[0 := SLOT_DELETED])
  {
    var n := 16 * v.spc;
    WithinUniform(v, s);
    SlotPlace(v.data, s, n, rawIdx);
    var cur := Walk(v, DirStart(v, dirCluster), rawIdx / n, s);
    if cur == 0 { return ERR_NOENT; }
    var buf := v.ClusterRead(cur);
    var slot: Slot := SlotAt(buf, rawIdx % n)[0 := SLOT_DELETED];
    StoredInCluster(v.fat, v.data, s, n, rawIdx, slot);
    RewriteSlot(v, cur, rawIdx % n, slot);
    res := OK;
  }

  // ---- Reading ----

  /** s is the chain of clusters of a file: none if the handle has no cluster. */
  ghost predicate FileClusters(v: Volume, cluster: nat, s: seq<nat>)
    reads v
  {
    if cluster == 0 then s == [] else ChainFrom(v, cluster, s)
  }

  /** The chain covers the size. */
  ghost predicate Covers(d: seq<seq<byte>>, s: seq<nat>, size: nat) {
    (forall i :: 0 <= i < |s| ==> s[i] < |d|) && size <= |Content(d, s)|
  }

  /** The handle describes the chain s, and the chain covers the size. */
  ghost predicate FileChain(v: Volume, cluster: nat, size: nat, s: seq<nat>)
    reads v
  {
    FileClusters(v, cluster, s) && Covers(v.data, s, size)
  }

  /** fat32_read: the file's bytes from offset on, as many as asked for and as there are. */
  method Read(v: Volume, e: Entry, offset: nat, size: nat, ghost s: seq<nat>)
      returns (res: int, out: seq<byte>)
    requires v.Valid() && (IsDirectory(e.attr) || FileChain(v, e.cluster, e.size, s))
    modifies v`disk, v`cacheDirty, v`cacheLba, v.cache
    ensures v.Valid() && v.disk == old(v.disk)
    ensures IsDirectory(e.attr) ==> res == ERR_ISDIR && out == []
    ensures !IsDirectory(e.attr) ==> res == |out|
    ensures !IsDirectory(e.attr) && offset >= e.size ==> out == []
    ensures !IsDirectory(e.attr) && offset < e.size ==>
      out == Content(v.data, s)[offset..offset + Min(size, e.size - offset)]
  {
    out := [];
    if IsDirectory(e.attr) { return ERR_ISDIR, out; }
    if offset >= e.size { return 0, out; }
    var left := if offset + size > e.size then e.size - offset else size;
    if left == 0 { return 0, out; }
    out := ReadChain(v, e.cluster, offset, left, s);
    res := |out|;
  }

  /** The cluster loop of fat32_read. */
  method ReadChain(v: Volume, first: nat, offset: nat, size: nat, ghost s: seq<nat>) returns (out: seq<byte>)
    requires v.Valid() && ChainFrom(v, first, s)
    requires 0 < size && offset + size <= |Content(v.data, s)|
    modifies v`disk, v`cacheDirty, v`cacheLba, v.cache
    ensures v.Valid() && v.disk == old(v.disk)
    ensures out == Content(v.data, s)[offset..offset + size]
  {
    hide Splice, Content, Chain;
    var bpc := v.Bpc();
    WithinUniform(v, s);
    ghost var d, all := v.data, Content(v.data, s);
    var index: nat, off: nat := Locate(bpc, offset, d, s);
    var cluster: nat := SkipTo(v, first, index, s);
    ghost var k: nat := index;
    var left: nat := size;
    out := [];
    while left > 0 && cluster >= 2 && cluster < FAT_EOF
      invariant v.Valid() && v.disk == old(v.disk)
      invariant |out| + left == size && k <= |s| && out == all[offset..offset + |out|]
      invariant left > 0 ==> k < |s| && cluster == s[k] && off < bpc
      invariant left > 0 ==> |Content(d, s[..k])| + off == offset + |out|
      decreases left
    {
      var buf := v.ClusterRead(cluster);
      var n: nat := Min(left, bpc - off);
      ReadStep(d, s, k, off, n, offset, out);
      out := out + buf[off..off + n];
      left := left - n;
      off := 0;
      cluster := NextInChain(v, cluster, s, k);
      k := k + 1;
      NextBase(d, s, k);
    }
  }

  /** offset / s_bytes_per_clust and offset % s_bytes_per_clust, and where they point. */
  method Locate(bpc: nat, offset: nat, ghost d: seq<seq<byte>>, ghost s: seq<nat>)
      returns (index: nat, off: nat)
    requires Uniform(d, s, bpc) && 0 < bpc
    ensures index == offset / bpc && off == offset % bpc < bpc
    ensures offset < |Content(d, s)| <==> index < |s|
    ensures index <= |s| ==> |Content(d, s[..index])| + off == offset
  {
    index := offset / bpc;
    off := offset % bpc;
    Position(d, s, bpc, offset);
  }

  /** The skipping loop of fat32_read, which stops early only past the end of the chain. */
  method SkipTo(v: Volume, first: nat, n: nat, ghost s: seq<nat>) returns (cluster: nat)
    requires v.Valid() && ChainFrom(v, first, s) && n < |s|
    modifies v`disk, v`cacheDirty, v`cacheLba, v.cache
    ensures v.Valid() && v.disk == old(v.disk) && cluster == s[n]
  {
    cluster := first;
    var k: nat := 0;
    while k < n && cluster < FAT_EOF
      invariant 0 <= k <= n && cluster == s[k]
      invariant v.Valid() && v.disk == old(v.disk)
    {
      cluster := NextInChain(v, cluster, s, k);
      k := k + 1;
    }
  }

  lemma ReadStep(d: seq<seq<byte>>, s: seq<nat>, k: nat, off: nat, n: nat, offset: nat, out: seq<byte>)
    requires forall i :: 0 <= i < |s| ==> s[i] < |d|
    requires k < |s| && off + n <= |d[s[k]]| && |Content(d, s[..k])| + off == offset + |out|
    requires offset + |out| <= |Content(d, s)| && out == Content(d, s)[offset..offset + |out|]
    ensures offset + |out| + n <= |Content(d, s)|
    ensures out + d[s[k]][off..off + n] == Content(d, s)[offset..offset + |out| + n]
  {
    hide Content;
    ContentCluster(d, s, k);
    ReadSlice(Content(d, s), |Content(d, s[..k])|, d[s[k]], off, n, offset, out);
  }

  lemma ReadSlice(all: seq<byte>, base: nat, page: seq<byte>, off: nat, n: nat, offset: nat, out: seq<byte>)
    requires base + |page| <= |all| && all[base..base + |page|] == page && off + n <= |page|
    requires base + off == offset + |out| && out == all[offset..offset + |out|]
    ensures offset + |out| + n <= |all| && out + page[off..off + n] == all[offset..offset + |out| + n]
  {
    SliceOfSlice(all, base, |page|, off, n);
    SliceJoin(all, offset, |out|, n);
  }

  lemma NextBase(d: seq<seq<byte>>, s: seq<nat>, k: nat)
    requires forall i :: 0 <= i < |s| ==> s[i] < |d|
    requires 0 < k <= |s|
    ensures |Content(d, s[..k])| == |Content(d, s[..k - 1])| + |d[s[k - 1]]|
    ensures |Content(d, s[..k])| <= |Content(d, s)|
    ensures k == |s| ==> |Content(d, s[..k])| == |Content(d, s)|
  {
    assert s[..k] == s[..k - 1] + [s[k - 1]];
    ContentAppend(d, s[..k - 1], s[k - 1]);
    ContentPrefix(d, s, k);
    assert k == |s| ==> s[..k] == s;
  }

  // ---- Writing ----

  ghost predicate SameSizes(d: seq<seq<byte>>, e: seq<seq<byte>>) {
    |d| == |e| && forall c {:trigger e[c]} :: 0 <= c < |d| ==> |d[c]| == |e[c]|
  }

  lemma {:induction false} SameLength(d: seq<seq<byte>>, e: seq<seq<byte>>, s: seq<nat>)
    requires SameSizes(d, e) && forall i :: 0 <= i < |s| ==> s[i] < |d|
    ensures |Content(d, s)| == |Content(e, s)|
  {
    if s != [] {
      SameLength(d, e, s[..|s| - 1]);
    }
  }

  /** From contents d to contents e the file on chain s had w written at offset; other clusters kept theirs. */
  ghost predicate Wrote(d: seq<seq<byte>>, e: seq<seq<byte>>, s: seq<nat>, offset: nat, w: seq<byte>)
    requires forall i :: 0 <= i < |s| ==> s[i] < |d|
  {
    && SameSizes(d, e)
    && (forall c {:trigger e[c]} :: 0 <= c < |d| && c !in s ==> e[c] == d[c])
    && offset + |w| <= |Content(d, s)|
    && Content(e, s) == Splice(Content(d, s), offset, w)
  }

  lemma WroteMoreBytes(c: seq<byte>, c1: seq<byte>, c2: seq<byte>, offset: nat, w: seq<byte>, b: seq<byte>)
    requires offset + |w| + |b| <= |c| && c1 == Splice(c, offset, w) && c2 == Splice(c1, offset + |w|, b)
    ensures c2 == Splice(c, offset, w + b)
  {
    SpliceChain(c, offset, w, b);
  }

  lemma WroteMoreFrame(d: seq<seq<byte>>, e: seq<seq<byte>>, s: seq<nat>, c: nat, b: seq<byte>)
    requires SameSizes(d, e) && c in s && c < |e| && |b| == |e[c]|
    requires forall i :: 0 <= i < |d| && i !in s ==> e[i] == d[i]
    ensures SameSizes(d, e[c := b])
    ensures forall i :: 0 <= i < |d| && i !in s ==> e[c := b][i] == d[i]
  {
  }

  /** Writing b into cluster k, right after the bytes already written. */
  lemma WroteMore(d: seq<seq<byte>>, e: seq<seq<byte>>, s: seq<nat>, offset: nat, w: seq<byte>,
                  k: nat, off: nat, b: seq<byte>)
    requires forall i :: 0 <= i < |s| ==> s[i] < |d|
    requires Distinct(s) && Wrote(d, e, s, offset, w) && k < |s|
    requires |Content(d, s[..k])| + off == offset + |w| && off + |b| <= |e[s[k]]|
    ensures Wrote(d, e[s[k] := Splice(e[s[k]], off, b)], s, offset, w + b)
  {
    hide Splice, Content;
    var page := Splice(e[s[k]], off, b);
    SameLength(d, e, s);
    SameLength(d, e, s[..k]);
    WroteMoreFrame(d, e, s, s[k], page);
    ContentSplice(e, s, k, off, b);
    WroteMoreBytes(Content(d, s), Content(e, s), Content(e[s[k] := page], s), offset, w, b);
  }

  /** Appending a cluster to the chain does not disturb what was written. */
  lemma WroteExtended(d: seq<seq<byte>>, e: seq<seq<byte>>, s: seq<nat>, offset: nat, w: seq<byte>, n: nat)
    requires forall i :: 0 <= i < |s| ==> s[i] < |d|
    requires Wrote(d, e, s, offset, w) && n < |d| && n !in s
    ensures Wrote(d, e, s + [n], offset, w)
  {
    ContentAppend(d, s, n);
    ContentAppend(e, s, n);
    SpliceAppend(Content(d, s), offset, w, d[n]);
  }

  lemma WroteNothing(d: seq<seq<byte>>, s: seq<nat>, offset: nat)
    requires forall i :: 0 <= i < |s| ==> s[i] < |d|
    requires offset <= |Content(d, s)|
    ensures Wrote(d, d, s, offset, [])
  {
  }

  /** The first loop of fat32_write: step over n clusters, growing the chain where it is too short. */
  method SkipGrowing(v: Volume, first: nat, n: nat, ghost s: seq<nat>) returns (cur: nat, ghost r: seq<nat>)
    requires v.Valid() && ChainFrom(v, first, s)
    modifies v`disk, v`cacheDirty, v`cacheLba, v`fat, v.cache
    ensures v.Valid() && Grown(old(v.fat), v.fat, s, r) && Within(r, v.limit)
    ensures cur == 0 ==> NoFreeCluster(v.fat)
    ensures cur != 0 ==> n < |r| && cur == r[n]
  {
    cur := first;
    r := s;
    GrownByNone(v.fat, s);
    var k: nat := 0;
    while k < n
      invariant 0 <= k <= n && k < |r| && cur == r[k]
      invariant v.Valid() && Grown(old(v.fat), v.fat, s, r) && Within(r, v.limit)
    {
      ghost var t, q := v.fat, r;
      cur, r := NextOrGrow(v, cur, r, k);
      GrownTrans(old(v.fat), t, v.fat, s, q, r);
      if cur == 0 { return; }
      k := k + 1;
    }
  }

  /** The second loop of fat32_write. cluster is cluster k of the chain, off the place inside it. */
  method WriteChain(v: Volume, first: nat, firstOff: nat, buf: seq<byte>, ghost offset: nat,
                    ghost s: seq<nat>, ghost first_k: nat)
      returns (written: nat, ghost r: seq<nat>)
    requires v.Valid() && Chain(v.fat, s) && Within(s, v.limit)
    requires first_k < |s| && first == s[first_k] && firstOff < v.Bpc()
    requires |Content(v.data, s[..first_k])| + firstOff == offset
    modifies v`disk, v`cacheDirty, v`cacheLba, v`fat, v`data, v.cache
    ensures v.Valid() && Grown(old(v.fat), v.fat, s, r) && Within(r, v.limit)
    ensures written <= |buf| && Wrote(old(v.data), v.data, r, offset, buf[..written])
    ensures written < |buf| ==> NoFreeCluster(v.fat)
  {
    hide Splice, Content, Chain;
    ghost var t0, d0 := v.fat, v.data;
    var cluster: nat, off: nat := first, firstOff;
    written := 0;
    r := s;
    ghost var k: nat := first_k;
    GrownByNone(t0, s);
    OffsetInside(d0, s, k, off, v.Bpc());
    WroteNothing(d0, s, offset);
    while written < |buf|
      invariant v.Valid() && Grown(t0, v.fat, s, r) && Within(r, v.limit)
      invariant written <= |buf| && Wrote(d0, v.data, r, offset, buf[..written])
      invariant written < |buf| ==> k < |r| && cluster == r[k] && off < v.Bpc()
      invariant written < |buf| ==> |Content(d0, r[..k])| + off == offset + written
    {
      var n: nat := Min(|buf| - written, v.Bpc() - off);
      ghost var w := buf[..written];
      assert w + buf[written..written + n] == buf[..written + n];
      WritePiece(v, cluster, off, buf[written..written + n], d0, r, k, offset, w);
      written := written + n;
      if written < |buf| {
        assert off + n == v.Bpc();
        ghost var t, q := v.fat, r;
        cluster, r := GrowWritten(v, cluster, d0, r, k, offset, buf[..written]);
        GrownTrans(t0, t, v.fat, s, q, r);
        if cluster == 0 { return; }
        k := k + 1;
      }
      off := 0;
    }
  }

  /** Read a cluster, overwrite part of it, write it back. */
  method WritePiece(v: Volume, cluster: nat, off: nat, b: seq<byte>, ghost d0: seq<seq<byte>>,
                    ghost s: seq<nat>, ghost k: nat, ghost offset: nat, ghost w: seq<byte>)
    requires v.Valid() && Chain(v.fat, s) && Within(s, v.limit) && k < |s| && cluster == s[k]
    requires |d0| == v.limit && Wrote(d0, v.data, s, offset, w) && off + |b| <= v.Bpc()
    requires |Content(d0, s[..k])| + off == offset + |w|
    modifies v`disk, v`data
    ensures v.Valid() && Wrote(d0, v.data, s, offset, w + b)
  {
    ChainDistinct(v.fat, s);
    WroteMore(d0, v.data, s, offset, w, k, off, b);
    var page := v.ClusterRead(cluster);
    page := Splice(page, off, b);
    v.ClusterWrite(cluster, page);
  }

  /** Move on to the next cluster; what was written stays written, and the next byte goes to its start. */
  method GrowWritten(v: Volume, cluster: nat, ghost d0: seq<seq<byte>>, ghost q: seq<nat>, ghost k: nat,
                     ghost offset: nat, ghost w: seq<byte>)
      returns (next: nat, ghost r: seq<nat>)
    requires v.Valid() && Chain(v.fat, q) && Within(q, v.limit) && k < |q| && cluster == q[k]
    requires |d0| == v.limit && Wrote(d0, v.data, q, offset, w)
    requires |Content(d0, q[..k])| + |d0[q[k]]| == offset + |w|
    modifies v`disk, v`cacheDirty, v`cacheLba, v`fat, v.cache
    ensures v.Valid() && Grown(old(v.fat), v.fat, q, r) && Within(r, v.limit)
    ensures Wrote(d0, v.data, r, offset, w)
    ensures next == 0 ==> NoFreeCluster(v.fat)
    ensures next != 0 ==> k + 1 < |r| && next == r[k + 1] && |Content(d0, r[..k + 1])| == offset + |w|
  {
    hide Splice, Chain;
    next, r := NextOrGrow(v, cluster, q, k);
    if |q| < |r| {
      GrownFresh(old(v.fat), v.fat, q, r);
      WroteExtended(d0, v.data, q, offset, w, r[|q|]);
    }
    assert r[..k] == q[..k] && r[k] == q[k];
    NextBase(d0, r, k + 1);
  }

  lemma GrownFresh(t: seq<nat>, u: seq<nat>, q: seq<nat>, r: seq<nat>)
    requires Grown(t, u, q, r) && |r| == |q| + 1 && Chain(t, q)
    ensures r == q + [r[|q|]] && r[|q|] !in q
  {
    if r[|q|] in q {
      ChainNonZero(t, q, r[|q|]);
    }
  }

  lemma OffsetInside(d: seq<seq<byte>>, s: seq<nat>, k: nat, off: nat, n: nat)
    requires Uniform(d, s, n) && k < |s| && off < n
    ensures |Content(d, s[..k])| + off <= |Content(d, s)|
  {
    NextBase(d, s, k + 1);
  }

  /** The slot named by a handle, patched to a cluster and a size. */
  ghost predicate SlotPatched(d: seq<seq<byte>>, e: seq<seq<byte>>, ds: seq<nat>, r: nat, cluster: nat, size: nat)
    requires forall i :: 0 <= i < |ds| ==> ds[i] < |d|
  {
    r < Slots(Content(d, ds)) &&
    SlotStored(d, e, ds, r, PatchSlot(SlotAt(Content(d, ds), r), cluster, size))
  }

  /** Everything fat32_write does to a file that has a cluster, once that cluster is known. */
  method WriteFrom(v: Volume, first: nat, buf: seq<byte>, offset: nat, ghost s: seq<nat>)
      returns (written: int, ghost r: seq<nat>)
    requires v.Valid() && ChainFrom(v, first, s)
    modifies v`disk, v`cacheDirty, v`cacheLba, v`fat, v`data, v.cache
    ensures v.Valid() && Grown(old(v.fat), v.fat, s, r) && Within(r, v.limit)
    ensures written == ERR_NOSPACE ==> NoFreeCluster(v.fat) && v.data == old(v.data)
    ensures written != ERR_NOSPACE ==>
      && 0 <= written <= |buf| && Wrote(old(v.data), v.data, r, offset, buf[..written])
      && (written < |buf| ==> NoFreeCluster(v.fat))
  {
    hide Splice, Chain;
    ghost var t0 := v.fat;
    WithinUniform(v, s);
    var n, off := Locate(v.Bpc(), offset, v.data, s);
    var cur, q := SkipGrowing(v, first, n, s);
    r := q;
    if cur == 0 { return ERR_NOSPACE, r; }
    ghost var t1 := v.fat;
    WithinUniform(v, q);
    Position(v.data, q, v.Bpc(), offset);
    written, r := WriteChain(v, cur, off, buf, offset, q, n);
    GrownTrans(t0, t1, v.fat, s, q, r);
  }

  /**
   The whole effect of a successful write: the file on chain r got w at offset, slot idx of the
   directory on chain ds now records the cluster and the size, and no other cluster changed.
   */
  ghost predicate FileWritten(d: seq<seq<byte>>, e: seq<seq<byte>>, r: seq<nat>, ds: seq<nat>,
                              offset: nat, w: seq<byte>, idx: nat, cluster: nat, size: nat)
    requires forall i :: 0 <= i < |r| ==> r[i] < |d|
    requires forall i :: 0 <= i < |ds| ==> ds[i] < |d|
  {
    && |e| == |d|
    && (forall c {:trigger e[c]} :: 0 <= c < |d| && c !in r && c !in ds ==> e[c] == d[c])
    && offset + |w| <= |Content(d, r)| && Content(e, r) == Splice(Content(d, r), offset, w)
    && idx < Slots(Content(d, ds))
    && Content(e, ds) == PutSlot(Content(d, ds), idx, PatchSlot(SlotAt(Content(d, ds), idx), cluster, size))
  }

  /** Chains that share no cluster do not see each other's changes. */
  lemma ContentApart(d: seq<seq<byte>>, e: seq<seq<byte>>, a: seq<nat>, b: seq<nat>)
    requires |d| == |e| && Disjoint(a, b)
    requires forall i :: 0 <= i < |a| ==> a[i] < |d|
    requires forall c {:trigger e[c]} :: 0 <= c < |d| && c !in b ==> e[c] == d[c]
    ensures Content(e, a) == Content(d, a)
  {
    forall i | 0 <= i < |a| ensures d[a[i]] == e[a[i]] {
      assert a[i] !in b;
    }
    ContentFrame(d, e, a);
  }

  lemma DisjointFlip(a: seq<nat>, b: seq<nat>)
    requires Disjoint(a, b)
    ensures Disjoint(b, a)
  {
  }

  lemma WriteThenPatch(d: seq<seq<byte>>, e: seq<seq<byte>>, f: seq<seq<byte>>, r: seq<nat>, ds: seq<nat>,
                       offset: nat, w: seq<byte>, idx: nat, cluster: nat, size: nat)
    requires forall i :: 0 <= i < |r| ==> r[i] < |d|
    requires forall i :: 0 <= i < |ds| ==> ds[i] < |d|
    requires Disjoint(r, ds) && Wrote(d, e, r, offset, w) && SlotPatched(e, f, ds, idx, cluster, size)
    ensures FileWritten(d, f, r, ds, offset, w, idx, cluster, size)
  {
    hide Splice, PatchSlot, SlotAt;
    DisjointFlip(r, ds);
    ContentApart(d, e, ds, r);
    ContentApart(e, f, r, ds);
  }

  lemma PatchThenWritten(d: seq<seq<byte>>, e: seq<seq<byte>>, f: seq<seq<byte>>, r: seq<nat>, ds: seq<nat>,
                         offset: nat, w: seq<byte>, idx: nat, cluster: nat, size0: nat, size: nat)
    requires forall i :: 0 <= i < |r| ==> r[i] < |d|
    requires forall i :: 0 <= i < |ds| ==> ds[i] < |d|
    requires Disjoint(r, ds) && SlotPatched(d, e, ds, idx, cluster, size0)
    requires FileWritten(e, f, r, ds, offset, w, idx, cluster, size)
    ensures FileWritten(d, f, r, ds, offset, w, idx, cluster, size)
  {
    hide Splice, PatchSlot, SlotAt, PutSlot;
    ContentApart(d, e, r, ds);
    var c := Content(d, ds);
    var slot := SlotAt(c, idx);
    PutSlotAt(c, idx, PatchSlot(slot, cluster, size0), idx);
    PatchTwice(slot, cluster, size0, cluster, size);
    PutTwice(c, idx, PatchSlot(slot, cluster, size0), PatchSlot(slot, cluster, size));
  }

  /** A directory that shares no cluster with the file keeps its chain while the file grows. */
  lemma OtherChainKept(t: seq<nat>, u: seq<nat>, s: seq<nat>, r: seq<nat>, other: seq<nat>)
    requires Chain(t, other) && Grown(t, u, s, r) && Disjoint(s, other)
    ensures Chain(u, other) && Disjoint(r, other)
  {
    forall i, j | 0 <= i < |r| && 0 <= j < |other| ensures r[i] != other[j] {
      ChainNonZero(t, other, other[j]);
      assert i < |s| ==> r[i] == s[i];
    }
    forall j | 0 <= j < |other| ensures u[other[j]] == t[other[j]] {
      assert other[j] !in r;
    }
    ChainFrame(t, u, other);
  }

  /** fat32_write's first step: a file without clusters gets one, recorded in its slot at once. */
  method FirstCluster(v: Volume, e: Entry, ghost s: seq<nat>, ghost ds: seq<nat>)
      returns (ok: bool, ghost r: seq<nat>)
    requires v.Valid() && FileClusters(v, e.cluster, s)
    requires ChainFrom(v, DirStart(v, e.dirCluster), ds) && Disjoint(s, ds)
    requires e.dirIndex < Slots(Content(v.data, ds))
    modifies v`disk, v`cacheDirty, v`cacheLba, v`fat, v`data, v.cache, e`cluster
    ensures v.Valid() && Grown(old(v.fat), v.fat, s, r) && Within(r, v.limit) && Disjoint(r, ds)
    ensures ChainFrom(v, DirStart(v, e.dirCluster), ds)
    ensures !ok ==> NoFreeCluster(v.fat) && e.cluster == old(e.cluster) == 0 && r == [] && v.data == old(v.data)
    ensures ok ==> e.cluster != 0 && ChainFrom(v, e.cluster, r) && r != [] && r[0] == e.cluster
    ensures old(e.cluster) != 0 ==> e.cluster == old(e.cluster) && r == s && v.data == old(v.data)
    ensures ok && old(e.cluster) == 0 ==>
      SlotPatched(old(v.data), v.data, ds, e.dirIndex, e.cluster, e.size)
    ensures e.dirIndex < Slots(Content(v.data, ds))
  {
    hide Splice;
    r := s;
    if e.cluster != 0 {
      GrownByNone(v.fat, s);
      return true, r;
    }
    var c := AllocCluster(v);
    if c == 0 { return false, r; }
    e.cluster := c;
    r := [c];
    OtherChainKept(old(v.fat), v.fat, s, r, ds);
    var res := UpdateDirEntry(v, e.dirCluster, e.dirIndex, e.cluster, e.size, ds);
    ok := true;
  }

  /** What a write that ran out of clusters before reaching its offset leaves behind. */
  ghost predicate OutOfSpace(d: seq<seq<byte>>, e: seq<seq<byte>>, ds: seq<nat>, idx: nat,
                             was: nat, cluster: nat, size: nat)
    requires forall i :: 0 <= i < |ds| ==> ds[i] < |d|
  {
    if cluster == was then e == d else SlotPatched(d, e, ds, idx, cluster, size)
  }

  /**
   fat32_write. On success the bytes read back, the size is the larger of the old size and the
   end of the write, and other files and directories keep their chains and bytes. A short count
   or ERR_NOSPACE means that no cluster was left.
   */
  method Write(v: Volume, e: Entry, buf: seq<byte>, offset: nat, ghost s: seq<nat>, ghost ds: seq<nat>)
      returns (res: int, ghost r: seq<nat>)
    requires v.Valid() && FileClusters(v, e.cluster, s)
    requires ChainFrom(v, DirStart(v, e.dirCluster), ds) && Disjoint(s, ds)
    requires e.dirIndex < Slots(Content(v.data, ds))
    modifies v`disk, v`cacheDirty, v`cacheLba, v`fat, v`data, v.cache, e`cluster, e`size
    ensures v.Valid() && Grown(old(v.fat), v.fat, s, r) && Within(r, v.limit) && Disjoint(r, ds)
    ensures ChainFrom(v, DirStart(v, e.dirCluster), ds)
    ensures FileClusters(v, e.cluster, r)
    ensures old(Covers(v.data, s, e.size)) ==> Covers(v.data, r, e.size)
    ensures old(e.cluster) != 0 ==> e.cluster == old(e.cluster)
    ensures IsDirectory(e.attr) ==>
      res == ERR_ISDIR && r == s && v.fat == old(v.fat) && v.data == old(v.data) && e.size == old(e.size)
    ensures !IsDirectory(e.attr) && res == ERR_NOSPACE ==>
      && NoFreeCluster(v.fat) && e.size == old(e.size)
      && OutOfSpace(old(v.data), v.data, ds, e.dirIndex, old(e.cluster), e.cluster, e.size)
    ensures !IsDirectory(e.attr) && res != ERR_NOSPACE ==>
      && 0 <= res <= |buf| && (res < |buf| ==> NoFreeCluster(v.fat))
      && e.cluster != 0 && e.size == (if old(e.size) < offset + res then offset + res else old(e.size))
      && FileWritten(old(v.data), v.data, r, ds, offset, buf[..res], e.dirIndex, e.cluster, e.size)
  {
    hide Splice, Chain, PatchSlot, FileWritten, Content;
    if IsDirectory(e.attr) {
      GrownStart(v, e.cluster, s);
      return ERR_ISDIR, s;
    }
    res, r := WriteFile(v, e, buf, offset, s, ds);
  }

  /** fat32_write past its checks. */
  method WriteFile(v: Volume, e: Entry, buf: seq<byte>, offset: nat, ghost s: seq<nat>, ghost ds: seq<nat>)
      returns (res: int, ghost r: seq<nat>)
    requires v.Valid() && FileClusters(v, e.cluster, s)
    requires ChainFrom(v, DirStart(v, e.dirCluster), ds) && Disjoint(s, ds)
    requires e.dirIndex < Slots(Content(v.data, ds))
    modifies v`disk, v`cacheDirty, v`cacheLba, v`fat, v`data, v.cache, e`cluster, e`size
    ensures v.Valid() && Grown(old(v.fat), v.fat, s, r) && Within(r, v.limit) && Disjoint(r, ds)
    ensures ChainFrom(v, DirStart(v, e.dirCluster), ds)
    ensures FileClusters(v, e.cluster, r)
    ensures old(Covers(v.data, s, e.size)) ==> Covers(v.data, r, e.size)
    ensures old(e.cluster) != 0 ==> e.cluster == old(e.cluster)
    ensures res == ERR_NOSPACE ==>
      && NoFreeCluster(v.fat) && e.size == old(e.size)
      && OutOfSpace(old(v.data), v.data, ds, e.dirIndex, old(e.cluster), e.cluster, e.size)
    ensures res != ERR_NOSPACE ==>
      && 0 <= res <= |buf| && (res < |buf| ==> NoFreeCluster(v.fat))
      && e.cluster != 0 && e.size == (if old(e.size) < offset + res then offset + res else old(e.size))
      && FileWritten(old(v.data), v.data, r, ds, offset, buf[..res], e.dirIndex, e.cluster, e.size)
  {
    hide Splice, Chain, PatchSlot, FileWritten, Wrote, Grown, SlotStored, NoFreeCluster, Content, Volume.StoresFat,
      Volume.StoresData, Volume.CacheOk;
    ghost var t0, d0 := v.fat, v.data;
    var ok, q := FirstCluster(v, e, s, ds);
    r := q;
    if !ok { return ERR_NOSPACE, r; }
    ghost var t1, d1 := v.fat, v.data;
    res, r := WriteFrom(v, e.cluster, buf, offset, q);
    GrownTrans(t0, t1, v.fat, s, q, r);
    GrownPrefix(t0, t1, s, q);
    GrownPrefix(t1, v.fat, q, r);
    assert q[0] == r[0];
    OtherChainKept(t1, v.fat, q, r, ds);
    ghost var covered := Covers(d0, s, e.size);
    if covered { CoversMore(d0, s, q, r, e.size); }
    if res == ERR_NOSPACE {
      if covered { SlotOnlyCovers(d0, d1, r, ds, e.dirIndex, old(e.cluster), e.cluster, e.size); }
      return;
    }
    ghost var d2, size0 := v.data, e.size;
    if offset + res > e.size { e.size := offset + res; }
    DirectorySlotKept(d1, d2, r, ds, offset, buf[..res], e.dirIndex);
    var patched := UpdateDirEntry(v, e.dirCluster, e.dirIndex, e.cluster, e.size, ds);
    WriteThenPatch(d1, d2, v.data, r, ds, offset, buf[..res], e.dirIndex, e.cluster, e.size);
    if old(e.cluster) == 0 {
      PatchThenWritten(d0, d1, v.data, r, ds, offset, buf[..res], e.dirIndex, e.cluster, size0, e.size);
    }
    if covered { WrittenCovers(d0, v.data, r, ds, offset, buf[..res], e.dirIndex, e.cluster, e.size, size0); }
  }

  lemma GrownStart(v: Volume, cluster: nat, s: seq<nat>)
    requires v.Valid() && FileClusters(v, cluster, s)
    ensures Grown(v.fat, v.fat, s, s) && Within(s, v.limit)
  {
  }

  lemma DirectorySlotKept(d: seq<seq<byte>>, e: seq<seq<byte>>, r: seq<nat>, ds: seq<nat>,
                          offset: nat, w: seq<byte>, idx: nat)
    requires forall i :: 0 <= i < |r| ==> r[i] < |d|
    requires forall i :: 0 <= i < |ds| ==> ds[i] < |d|
    requires Disjoint(r, ds) && Wrote(d, e, r, offset, w) && idx < Slots(Content(d, ds))
    ensures |e| == |d| && idx < Slots(Content(e, ds))
  {
    hide Splice;
    DisjointFlip(r, ds);
    ContentApart(d, e, ds, r);
  }

  lemma CoversMore(d: seq<seq<byte>>, s: seq<nat>, q: seq<nat>, r: seq<nat>, size: nat)
    requires s <= q <= r && (forall i :: 0 <= i < |r| ==> r[i] < |d|) && Covers(d, s, size)
    ensures Covers(d, r, size)
  {
    assert r[..|s|] == s;
    ContentPrefix(d, r, |s|);
  }

  lemma SlotOnlyCovers(d: seq<seq<byte>>, e: seq<seq<byte>>, r: seq<nat>, ds: seq<nat>,
                       idx: nat, was: nat, cluster: nat, size: nat)
    requires forall i :: 0 <= i < |r| ==> r[i] < |d|
    requires forall i :: 0 <= i < |ds| ==> ds[i] < |d|
    requires Disjoint(r, ds) && size <= |Content(d, r)| && OutOfSpace(d, e, ds, idx, was, cluster, size)
    ensures |e| == |d| && Covers(e, r, size)
  {
    ContentApart(d, e, r, ds);
  }

  lemma WrittenCovers(d: seq<seq<byte>>, e: seq<seq<byte>>, r: seq<nat>, ds: seq<nat>, offset: nat,
                      w: seq<byte>, idx: nat, cluster: nat, size: nat, old_size: nat)
    requires forall i :: 0 <= i < |r| ==> r[i] < |d|
    requires forall i :: 0 <= i < |ds| ==> ds[i] < |d|
    requires FileWritten(d, e, r, ds, offset, w, idx, cluster, size) && old_size <= |Content(d, r)|
    ensures old_size <= |Content(e, r)| && offset + |w| <= |Content(e, r)|
  {
  }

  /** Files and directories on other chains keep their chain and their bytes. */
  lemma OtherFileKept(t: seq<nat>, u: seq<nat>, d: seq<seq<byte>>, e: seq<seq<byte>>,
                      s: seq<nat>, r: seq<nat>, ds: seq<nat>, other: seq<nat>,
                      offset: nat, w: seq<byte>, idx: nat, cluster: nat, size: nat)
    requires forall i :: 0 <= i < |r| ==> r[i] < |d|
    requires forall i :: 0 <= i < |ds| ==> ds[i] < |d|
    requires forall i :: 0 <= i < |other| ==> other[i] < |d|
    requires Chain(t, other) && Grown(t, u, s, r) && Disjoint(s, other) && Disjoint(ds, other)
    requires FileWritten(d, e, r, ds, offset, w, idx, cluster, size)
    ensures Chain(u, other) && Content(e, other) == Content(d, other)
  {
    OtherChainKept(t, u, s, r, other);
    forall i | 0 <= i < |other| ensures d[other[i]] == e[other[i]] {
      DisjointFlip(r, other);
      DisjointFlip(ds, other);
      assert other[i] !in r && other[i] !in ds;
    }
    ContentFrame(d, e, other);
  }

  /** Bytes written are the bytes read: the window is what was written, the rest of the file is as before. */
  method WriteThenRead(v: Volume, e: Entry, buf: seq<byte>, offset: nat, ghost s: seq<nat>, ghost ds: seq<nat>)
      returns (res: int, back: seq<byte>, whole: seq<byte>, ghost r: seq<nat>)
    requires v.Valid() && FileChain(v, e.cluster, e.size, s) && !IsDirectory(e.attr)
    requires ChainFrom(v, DirStart(v, e.dirCluster), ds) && Disjoint(s, ds)
    requires e.dirIndex < Slots(Content(v.data, ds))
    modifies v`disk, v`cacheDirty, v`cacheLba, v`fat, v`data, v.cache, e`cluster, e`size
    ensures v.Valid()
    ensures res != ERR_NOSPACE ==>
      && 0 <= res <= |buf| && back == buf[..res]
      && |whole| == e.size && old(e.size) <= e.size
      && (forall p :: 0 <= p < old(e.size) && !(offset <= p < offset + res) ==>
           p < |old(Content(v.data, s))| && whole[p] == old(Content(v.data, s))[p])
  {
    hide Splice, Chain, PatchSlot, SlotStored, FileWritten, NoFreeCluster, Content, OutOfSpace, Volume.StoresFat,
      Volume.StoresData, Volume.CacheOk;
    ghost var t0, d0, size0 := v.fat, v.data, e.size;
    back, whole := [], [];
    res, r := Write(v, e, buf, offset, s, ds);
    if res == ERR_NOSPACE { return; }
    GrownPrefix(t0, v.fat, s, r);
    ReadBack(d0, v.data, s, r, ds, offset, buf[..res], e.dirIndex, e.cluster, e.size);
    var n1, n2;
    n1, back := Read(v, e, offset, res, r);
    n2, whole := Read(v, e, 0, e.size, r);
  }

  /** Outside a window of n bytes the old bytes are still there. */
  ghost predicate KeepsOutside(start: seq<byte>, now: seq<byte>, offset: nat, n: nat) {
    forall p :: 0 <= p < |start| && !(offset <= p < offset + n) ==> p < |now| && now[p] == start[p]
  }

  lemma ReadBack(d: seq<seq<byte>>, e: seq<seq<byte>>, s: seq<nat>, r: seq<nat>, ds: seq<nat>, offset: nat,
                 w: seq<byte>, idx: nat, cluster: nat, size: nat)
    requires forall i :: 0 <= i < |r| ==> r[i] < |d|
    requires forall i :: 0 <= i < |ds| ==> ds[i] < |d|
    requires s <= r && FileWritten(d, e, r, ds, offset, w, idx, cluster, size)
    ensures |e| == |d| && offset + |w| <= |Content(e, r)| && Content(e, r)[offset..offset + |w|] == w
    ensures KeepsOutside(Content(d, s), Content(e, r), offset, |w|)
  {
    hide Splice, Content, FileWritten, KeepsOutside;
    PrefixContent(d, s, r);
    WrittenBytes(d, e, r, ds, offset, w, idx, cluster, size);
    PrefixWindow(Content(d, s), Content(d, r), Content(e, r), offset, w);
  }

  lemma WrittenBytes(d: seq<seq<byte>>, e: seq<seq<byte>>, r: seq<nat>, ds: seq<nat>, offset: nat,
                     w: seq<byte>, idx: nat, cluster: nat, size: nat)
    requires forall i :: 0 <= i < |r| ==> r[i] < |d|
    requires forall i :: 0 <= i < |ds| ==> ds[i] < |d|
    requires FileWritten(d, e, r, ds, offset, w, idx, cluster, size)
    ensures |e| == |d| && offset + |w| <= |Content(d, r)| && Content(e, r) == Splice(Content(d, r), offset, w)
  {
    hide Splice, Content, PutSlot, PatchSlot, SlotAt;
  }

  lemma PrefixContent(d: seq<seq<byte>>, s: seq<nat>, r: seq<nat>)
    requires s <= r && forall i :: 0 <= i < |r| ==> r[i] < |d|
    ensures Content(d, s) <= Content(d, r)
  {
    assert r[..|s|] == s;
    ContentPrefix(d, r, |s|);
  }

  lemma PrefixWindow(start: seq<byte>, was: seq<byte>, now: seq<byte>, offset: nat, w: seq<byte>)
    requires start <= was && offset + |w| <= |was| && now == Splice(was, offset, w)
    ensures |now| == |was| && now[offset..offset + |w|] == w
    ensures KeepsOutside(start, now, offset, |w|)
  {
    hide Splice;
    WindowReads(was, now, offset, w);
  }

  lemma WindowReads(was: seq<byte>, now: seq<byte>, offset: nat, w: seq<byte>)
    requires offset + |w| <= |was| && now == Splice(was, offset, w)
    ensures now[offset..offset + |w|] == w
    ensures forall p :: 0 <= p < |was| && !(offset <= p < offset + |w|) ==> now[p] == was[p]
  {
    SpliceWindow(was, offset, w);
  }
}
