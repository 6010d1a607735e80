/**
 Listing and searching a directory, and entering a new slot. Directories here hold no long-name
 slots, so every listed slot is shown under its 8.3 name.
 */
module FatDirs {
  import opened Arith
  import opened Bytes
  import opened FatVolume
  import opened FatChains
  import opened FatSlots
  import opened FatNames
  import opened FatFiles

  predicate Live(s: Slot) { s[0] != SLOT_END && s[0] != SLOT_DELETED }

  predicate Listed(s: Slot) { Live(s) && !IsVolumeLabel(AttrOf(s)) }

  function NameOf(s: Slot): seq<byte> { Parse83(NameField(s)) }

  predicate IsDotName(n: seq<byte>) { n == [DOT] || n == [DOT, DOT] }

  /** The slot that listing number index shows, counting from slot from; a zero byte ends the list. */
  function NthListed(c: seq<byte>, from: nat, index: nat): (r: Option<nat>)
    ensures r.Some? ==> from <= r.value < Slots(c) && Listed(SlotAt(c, r.value))
    decreases Slots(c) - from
  {
    if from >= Slots(c) || SlotAt(c, from)[0] == SLOT_END then None
    else if !Listed(SlotAt(c, from)) then NthListed(c, from + 1, index)
    else if index == 0 then Some(from)
    else NthListed(c, from + 1, index - 1)
  }

  predicate Matches(s: Slot, name: seq<byte>) {
    Listed(s) && !IsDotName(NameOf(s)) && SameName(NameOf(s), name)
  }

  /** The slot fat32_find settles on. */
  function FirstMatch(c: seq<byte>, from: nat, name: seq<byte>): (r: Option<nat>)
    ensures r.Some? ==> from <= r.value < Slots(c) && Matches(SlotAt(c, r.value), name)
    decreases Slots(c) - from
  {
    if from >= Slots(c) || SlotAt(c, from)[0] == SLOT_END then None
    else if Matches(SlotAt(c, from), name) then Some(from)
    else FirstMatch(c, from + 1, name)
  }

  /** The first slot that is free for reuse, or the number of slots when all are live. */
  function FirstDead(c: seq<byte>, from: nat): (r: nat)
    requires from <= Slots(c)
    ensures from <= r <= Slots(c)
    ensures r < Slots(c) ==> !Live(SlotAt(c, r))
    ensures forall i :: from <= i < r ==> Live(SlotAt(c, i))
    decreases Slots(c) - from
  {
    if from == Slots(c) || !Live(SlotAt(c, from)) then from else FirstDead(c, from + 1)
  }

  /** No slot is a long-name part. */
  ghost predicate Plain(c: seq<byte>) {
    forall r :: 0 <= r < Slots(c) && Live(SlotAt(c, r)) ==> AttrOf(SlotAt(c, r)) != ATTR_LFN
  }

  ghost predicate Describes(e: Entry, s: Slot, dirCluster: nat, r: nat)
    reads e
  {
    && e.name == NameOf(s) && e.attr == AttrOf(s) && e.cluster == ClusterOf(s) && e.size == SizeOf(s)
    && e.dirCluster == dirCluster && e.dirIndex == r
  }

  /** buf holds the slots of directory c from slot raw on. */
  ghost predicate ClusterSlots(c: seq<byte>, raw: nat, buf: seq<byte>) {
    && raw + Slots(buf) <= Slots(c)
    && forall i :: 0 <= i < Slots(buf) ==> SlotAt(buf, i) == SlotAt(c, raw + i)
  }

  lemma ClusterSlotsOf(d: seq<seq<byte>>, s: seq<nat>, k: nat, raw: nat)
    requires forall j :: 0 <= j < |s| ==> s[j] < |d|
    requires k < |s| && |Content(d, s[..k])| == 32 * raw
    ensures ClusterSlots(Content(d, s), raw, d[s[k]])
  {
    hide Content;
    ContentCluster(d, s, k);
    forall i | 0 <= i < Slots(d[s[k]]) ensures SlotAt(d[s[k]], i) == SlotAt(Content(d, s), raw + i) {
      SlotInCluster(d, s, k, i);
    }
  }

  /** One slot further. */
  lemma ListOne(c: seq<byte>, p: nat, m: nat)
    requires p < Slots(c)
    ensures NthListed(c, p, m) ==
      if SlotAt(c, p)[0] == SLOT_END then None
      else if !Listed(SlotAt(c, p)) then NthListed(c, p + 1, m)
      else if m == 0 then Some(p) else NthListed(c, p + 1, m - 1)
  {
    hide Listed, SlotAt;
  }

  lemma ListEnd(c: seq<byte>, m: nat)
    ensures NthListed(c, Slots(c), m).None?
  {
  }

  /** The inner loop of fat32_readdir over one cluster. */
  method ListCluster(buf: seq<byte>, raw: nat, entry: nat, index: nat, ghost c: seq<byte>)
      returns (ended: bool, hit: Option<nat>, seen: nat)
    requires ClusterSlots(c, raw, buf) && Plain(c) && entry <= index
    ensures ended ==> NthListed(c, raw, index - entry) == hit
    ensures ended && hit.Some? ==> raw <= hit.value < raw + Slots(buf)
    ensures !ended ==> seen <= index
    ensures !ended ==> NthListed(c, raw, index - entry) == NthListed(c, raw + Slots(buf), index - seen)
  {
    hide NthListed, SlotAt, Plain;
    seen := entry;
    var i: nat := 0;
    while i < Slots(buf)
      invariant i <= Slots(buf) && seen <= index
      invariant NthListed(c, raw, index - entry) == NthListed(c, raw + i, index - seen)
    {
      var slot := SlotAt(buf, i);
      assert slot == SlotAt(c, raw + i);
      ListOne(c, raw + i, index - seen);
      if slot[0] == SLOT_END { return true, None, seen; }
      if slot[0] != SLOT_DELETED && !IsVolumeLabel(AttrOf(slot)) {
        if seen == index { return true, Some(raw + i), seen; }
        seen := seen + 1;
      }
      i := i + 1;
    }
    ended, hit := false, None;
  }

  lemma SlotOfCluster(c: seq<byte>, raw: nat, buf: seq<byte>, i: nat)
    requires ClusterSlots(c, raw, buf) && i < Slots(buf)
    ensures raw + i < Slots(c) && SlotAt(buf, i) == SlotAt(c, raw + i)
  {
  }

  /** The cluster loop of fat32_readdir: the slot shown at the index, if there is one. */
  method ListChain(v: Volume, first: nat, index: nat, ghost s: seq<nat>) returns (hit: Option<nat>, slot: Slot)
    requires v.Valid() && ChainFrom(v, first, s) && Plain(Content(v.data, s))
    modifies v`disk, v`cacheDirty, v`cacheLba, v.cache
    ensures v.Valid() && v.disk == old(v.disk)
    ensures hit == NthListed(Content(v.data, s), 0, index)
    ensures hit.Some? ==> slot == SlotAt(Content(v.data, s), hit.value)
  {
    hide Content, Chain, Listed, Plain, SlotAt, NthListed, ClusterSlots, Volume.StoresFat, Volume.StoresData,
      Volume.CacheOk;
    ghost var d, c := v.data, Content(v.data, s);
    var cur: nat, entry: nat, raw: nat := first, 0, 0;
    ghost var k: nat := 0;
    slot := Blank(32);
    ContentStart(v.fat, d, s);
    while cur < FAT_EOF && cur >= 2
      invariant v.Valid() && v.disk == old(v.disk)
      invariant k <= |s| && |Content(d, s[..k])| == 32 * raw && entry <= index
      invariant if k < |s| then cur == s[k] else cur == FAT_EOF && raw == Slots(c)
      invariant NthListed(c, raw, index - entry) == NthListed(c, 0, index)
      decreases |s| - k
    {
      var buf := v.ClusterRead(cur);
      ClusterSlotsOf(d, s, k, raw);
      var ended;
      ended, hit, entry := ListCluster(buf, raw, entry, index, c);
      if ended {
        if hit.Some? {
          SlotOfCluster(c, raw, buf, hit.value - raw);
          slot := SlotAt(buf, hit.value - raw);
        }
        return;
      }
      raw := raw + Slots(buf);
      cur := NextInChain(v, cur, s, k);
      k := k + 1;
      NextBase(d, s, k);
    }
    ListEnd(c, index - entry);
    hit := None;
  }

  method Fill(out: Entry, slot: Slot, dirCluster: nat, r: nat)
    modifies out
    ensures Describes(out, slot, dirCluster, r)
  {
    out.name := ParseName(NameField(slot));
    out.attr, out.cluster, out.size := AttrOf(slot), ClusterOf(slot), SizeOf(slot);
    out.dirCluster, out.dirIndex := dirCluster, r;
  }

  /** fat32_readdir */
  method ReadDir(v: Volume, dirCluster: nat, index: nat, out: Entry, ghost s: seq<nat>) returns (res: int)
    requires v.Valid() && ChainFrom(v, DirStart(v, dirCluster), s) && Plain(Content(v.data, s))
    modifies v`disk, v`cacheDirty, v`cacheLba, v.cache, out
    ensures v.Valid() && v.disk == old(v.disk)
    ensures var n := NthListed(Content(v.data, s), 0, index);
      if n.None? then res == ERR_NOENT
      else res == OK && Describes(out, SlotAt(Content(v.data, s), n.value), dirCluster, n.value)
  {
    hide Content, Chain, Plain, Listed, NthListed;
    var hit, slot := ListChain(v, DirStart(v, dirCluster), index, s);
    if hit.None? { return ERR_NOENT; }
    Fill(out, slot, dirCluster, hit.value);
    res := OK;
  }

  lemma ContentStart(t: seq<nat>, d: seq<seq<byte>>, s: seq<nat>)
    requires Chain(t, s) && forall i :: 0 <= i < |s| ==> s[i] < |d|
    ensures 0 < |s| && |Content(d, s[..0])| == 0
  {
  }

  /** Listing numbers from i on are listing numbers from 0 on, counted from slot p. */
  ghost predicate Continues(c: seq<byte>, from: nat, i: nat, p: nat) {
    forall m: nat {:trigger NthListed(c, from, m)} :: i <= m ==> NthListed(c, from, m) == NthListed(c, p, m - i)
  }

  /** Listing passes over slots that are not shown. */
  lemma PassOver(c: seq<byte>, p: nat, q: nat)
    requires p < Slots(c) && SlotAt(c, p)[0] != SLOT_END
    requires if Listed(SlotAt(c, p)) then q == p + 1 else Continues(c, p + 1, 1, q)
    ensures Continues(c, p, 1, q)
  {
    hide Listed, SlotAt;
    forall m: nat | 1 <= m ensures NthListed(c, p, m) == NthListed(c, q, m - 1) {
      if !Listed(SlotAt(c, p)) {
        assert NthListed(c, p, m) == NthListed(c, p + 1, m);
      }
    }
  }

  /** From one listed slot to the next, and what that means for the search. */
  lemma {:induction false} ListStep(c: seq<byte>, p: nat, name: seq<byte>)
    ensures var n := NthListed(c, p, 0);
      if n.None? then FirstMatch(c, p, name).None? else
      && Continues(c, p, 1, n.value + 1)
      && (Matches(SlotAt(c, n.value), name) ==> FirstMatch(c, p, name) == Some(n.value))
      && (!Matches(SlotAt(c, n.value), name) ==> FirstMatch(c, p, name) == FirstMatch(c, n.value + 1, name))
    decreases Slots(c) - p
  {
    hide Continues, SlotAt, Listed, SameName, Parse83;
    if p < Slots(c) && SlotAt(c, p)[0] != SLOT_END {
      if Listed(SlotAt(c, p)) {
        PassOver(c, p, p + 1);
      } else {
        ListStep(c, p + 1, name);
        if NthListed(c, p, 0).Some? {
          PassOver(c, p, NthListed(c, p, 0).value + 1);
        }
      }
    }
  }

  lemma ContinuesOn(c: seq<byte>, i: nat, p: nat, q: nat)
    requires Continues(c, 0, i, p) && Continues(c, p, 1, q)
    ensures Continues(c, 0, i + 1, q)
  {
    hide NthListed;
    forall m: nat | i + 1 <= m ensures NthListed(c, 0, m) == NthListed(c, q, m - (i + 1)) {
      assert NthListed(c, 0, m) == NthListed(c, p, m - i);
    }
  }

  lemma ContinuesStart(c: seq<byte>)
    ensures Continues(c, 0, 0, 0)
  {
  }

  lemma NextListed(c: seq<byte>, i: nat, p: nat)
    requires Continues(c, 0, i, p)
    ensures NthListed(c, 0, i) == NthListed(c, p, 0)
  {
  }

  method CopyEntry(e: Entry, out: Entry)
    modifies out
    ensures out.name == old(e.name) && out.attr == old(e.attr) && out.cluster == old(e.cluster)
    ensures out.size == old(e.size) && out.dirCluster == old(e.dirCluster) && out.dirIndex == old(e.dirIndex)
  {
    out.name, out.attr, out.cluster, out.size := e.name, e.attr, e.cluster, e.size;
    out.dirCluster, out.dirIndex := e.dirCluster, e.dirIndex;
  }

  /** fat32_find: list the directory from the start until a name matches, up to case. */
  method Find(v: Volume, dirCluster: nat, name: seq<byte>, out: Entry, ghost s: seq<nat>) returns (res: int)
    requires v.Valid() && ChainFrom(v, DirStart(v, dirCluster), s) && Plain(Content(v.data, s))
    modifies v`disk, v`cacheDirty, v`cacheLba, v.cache, out
    ensures v.Valid() && v.disk == old(v.disk)
    ensures var m := FirstMatch(Content(v.data, s), 0, name);
      if m.None? then res == ERR_NOENT
      else res == OK && Describes(out, SlotAt(Content(v.data, s), m.value), dirCluster, m.value)
  {
    hide Content, Chain, Plain, Listed, FirstMatch, NthListed, SameName, Continues, SlotAt, Parse83;
    ghost var c := Content(v.data, s);
    var e := new Entry();
    var i: nat := 0;
    ghost var p: nat := 0;
    ContinuesStart(c);
    while true
      invariant v.Valid() && v.disk == old(v.disk)
      invariant Continues(c, 0, i, p) && FirstMatch(c, p, name) == FirstMatch(c, 0, name)
      decreases Slots(c) - p
    {
      res := ReadDir(v, dirCluster, i, e, s);
      NextListed(c, i, p);
      ListStep(c, p, name);
      if res == ERR_NOENT { return; }
      if e.name != [DOT] && e.name != [DOT, DOT] {
        var same := CompareNames(e.name, name);
        if same {
          CopyEntry(e, out);
          return OK;
        }
      }
      ghost var r := NthListed(c, p, 0).value;
      ContinuesOn(c, i, p, r + 1);
      i := i + 1;
      p := r + 1;
    }
  }

  // ---- Entering a slot ----

  function Zeros(n: nat): (z: seq<byte>)
    ensures |z| == n
  {
    seq(n, i => 0)
  }

  /** The inner scan of write_dir_entry over one cluster. */
  method ScanDead(buf: seq<byte>, ghost c: seq<byte>, ghost raw: nat) returns (i: nat)
    requires ClusterSlots(c, raw, buf)
    ensures i <= Slots(buf)
    ensures if i < Slots(buf) then FirstDead(c, raw) == raw + i
            else FirstDead(c, raw) == FirstDead(c, raw + Slots(buf))
  {
    i := 0;
    while i < Slots(buf)
      invariant i <= Slots(buf) && FirstDead(c, raw) == FirstDead(c, raw + i)
    {
      var slot := SlotAt(buf, i);
      assert slot == SlotAt(c, raw + i);
      if slot[0] == SLOT_END || slot[0] == SLOT_DELETED { return; }
      i := i + 1;
    }
  }

  /** A directory's bytes once r has been chosen for it: a grown chain ends in a zeroed cluster. */
  ghost function Opened(d: seq<seq<byte>>, s: seq<nat>, r: seq<nat>, bpc: nat): seq<byte>
    requires forall i :: 0 <= i < |s| ==> s[i] < |d|
  {
    Content(d, s) + Zeros(if |r| > |s| then bpc else 0)
  }

  /** Slot q of the directory, the first free one, now is slot; clusters of other chains are untouched. */
  ghost predicate SlotEntered(d: seq<seq<byte>>, e: seq<seq<byte>>, s: seq<nat>, r: seq<nat>, bpc: nat,
                              q: nat, slot: Slot)
    requires forall i :: 0 <= i < |s| ==> s[i] < |d|
    requires forall i :: 0 <= i < |r| ==> r[i] < |e|
  {
    && |e| == |d| && s <= r
    && (forall c {:trigger e[c]} :: 0 <= c < |d| && c !in r ==> e[c] == d[c])
    && q == FirstDead(Content(d, s), 0) < Slots(Opened(d, s, r, bpc))
    && (|r| > |s| ==> q == Slots(Content(d, s)))
    && Content(e, r) == PutSlot(Opened(d, s, r, bpc), q, slot)
  }

  /** write_dir_entry when a directory is full: a fresh cluster, zeroed before it is linked. */
  method GrowDirectory(v: Volume, cur: nat, ghost s: seq<nat>) returns (next: nat, ghost r: seq<nat>)
    requires v.Valid() && Chain(v.fat, s) && Within(s, v.limit) && cur == s[|s| - 1]
    modifies v`disk, v`cacheDirty, v`cacheLba, v`fat, v`data, v.cache
    ensures v.Valid() && Grown(old(v.fat), v.fat, s, r) && Within(r, v.limit)
    ensures next == 0 ==> r == s && v.fat == old(v.fat) && v.data == old(v.data) && NoFreeCluster(v.fat)
    ensures next != 0 ==> next < v.limit && r == s + [next] && v.data == old(v.data)[next := Zeros(v.Bpc())]
  {
    r := s;
    GrownByNone(v.fat, s);
    next := AllocCluster(v);
    if next != 0 {
      v.ClusterWrite(next, Zeros(v.Bpc()));
      ghost var marked: seq<nat> := v.fat;
      v.FatSet(cur, next);
      assert v.fat == marked[cur := next];
      GrownByOne(old(v.fat), s, next, v.limit);
      r := s + [next];
    }
  }

  lemma GrownDirectory(d: seq<seq<byte>>, s: seq<nat>, n: nat, bpc: nat)
    requires (forall i :: 0 <= i < |s| ==> s[i] < |d|) && n < |d| && n !in s
    ensures Content(d[n := Zeros(bpc)], s + [n]) == Opened(d, s, s + [n], bpc)
    ensures (s + [n])[..|s|] == s && Content(d[n := Zeros(bpc)], s) == Content(d, s)
  {
    var e := d[n := Zeros(bpc)];
    ContentAppend(e, s, n);
    ContentFrame(d, e, s);
  }

  lemma FirstDeadGrown(c: seq<byte>, n: nat)
    requires FirstDead(c, 0) == Slots(c) && |c| % 32 == 0 && 32 <= n
    ensures Slots(c) < Slots(c + Zeros(n)) && FirstDead(c + Zeros(n), 0) == Slots(c)
  {
    var g := c + Zeros(n);
    SlotsAppended(c, Zeros(n));
    var z := SlotAt(g, Slots(c));
    assert z[0] == g[|c|] == 0;
    assert !Live(z);
    FirstDeadIs(g, Slots(c));
  }

  lemma SlotsAppended(c: seq<byte>, tail: seq<byte>)
    requires |c| % 32 == 0
    ensures Slots(c + tail) == Slots(c) + Slots(tail)
    ensures forall i :: 0 <= i < Slots(c) ==> SlotAt(c + tail, i) == SlotAt(c, i)
    ensures forall i :: 0 <= i < Slots(tail) ==> SlotAt(c + tail, Slots(c) + i) == SlotAt(tail, i)
  {
    var g := c + tail;
    QuotientIs(|g|, 32, Slots(c) + Slots(tail), |tail| % 32);
    forall i | 0 <= i < Slots(c) ensures SlotAt(g, i) == SlotAt(c, i) {
      assert g[..|c|] == c && 32 * i + 32 <= |c|;
    }
    forall i | 0 <= i < Slots(tail) ensures SlotAt(g, Slots(c) + i) == SlotAt(tail, i) {
      assert 32 * (Slots(c) + i) == |c| + 32 * i;
    }
  }

  lemma FirstDeadIs(c: seq<byte>, q: nat)
    requires q <= Slots(c) && (q < Slots(c) ==> !Live(SlotAt(c, q)))
    requires forall i :: 0 <= i < q ==> Live(SlotAt(c, i))
    ensures FirstDead(c, 0) == q
  {
    hide FirstDead, Live, SlotAt;
  }

  /** Read cluster k of the directory and scan its n slots. */
  method ScanCluster(v: Volume, cur: nat, ghost s: seq<nat>, ghost k: nat, ghost raw: nat) returns (i: nat, n: nat)
    requires v.Valid() && Within(s, v.limit) && k < |s| && cur == s[k] && |Content(v.data, s[..k])| == 32 * raw
    ensures n == Slots(v.data[cur]) && i <= n && raw + n <= Slots(Content(v.data, s))
    ensures |Content(v.data, s[..k + 1])| == 32 * (raw + n)
    ensures k + 1 == |s| ==> raw + n == Slots(Content(v.data, s))
    ensures i < n ==> FirstDead(Content(v.data, s), raw) == raw + i
    ensures i == n ==> FirstDead(Content(v.data, s), raw) == FirstDead(Content(v.data, s), raw + n)
  {
    hide Content, Chain, FirstDead, SlotAt, Live;
    var buf := v.ClusterRead(cur);
    n := Slots(buf);
    ClusterSlotsOf(v.data, s, k, raw);
    i := ScanDead(buf, Content(v.data, s), raw);
    NextBase(v.data, s, k + 1);
    WholeBlocks(v.spc);
  }

  /** The cluster loop of write_dir_entry on the existing chain: the first free slot, or the last cluster. */
  method FindDead(v: Volume, first: nat, ghost s: seq<nat>)
      returns (found: bool, cur: nat, raw: nat, i: nat, ghost k: nat)
    requires v.Valid() && ChainFrom(v, first, s)
    modifies v`disk, v`cacheDirty, v`cacheLba, v.cache
    ensures v.Valid() && v.disk == old(v.disk)
    ensures raw == FirstDead(Content(v.data, s), 0) && k < |s| && cur == s[k]
    ensures found <==> raw < Slots(Content(v.data, s))
    ensures found ==>
      i < Slots(v.data[cur]) && |Content(v.data, s[..k])| + 32 * i == 32 * raw
    ensures !found ==> k == |s| - 1 && raw == Slots(Content(v.data, s))
  {
    hide Content, Chain, SlotAt, FirstDead, Live, Volume.StoresFat, Volume.StoresData, Volume.CacheOk;
    ghost var d, c := v.data, Content(v.data, s);
    found, cur, raw, i, k := false, first, 0, 0, 0;
    ContentStart(v.fat, d, s);
    while true
      invariant v.Valid() && v.disk == old(v.disk)
      invariant k < |s| && cur == s[k] && |Content(d, s[..k])| == 32 * raw
      invariant raw <= Slots(c) && FirstDead(c, raw) == FirstDead(c, 0)
      decreases |s| - k
    {
      var n;
      i, n := ScanCluster(v, cur, s, k, raw);
      if i < n {
        raw, found := raw + i, true;
        return;
      }
      raw := raw + n;
      var next := NextInChain(v, cur, s, k);
      if next >= FAT_EOF || next < 2 {
        FirstDeadAtEnd(c, raw);
        return;
      }
      cur := next;
      k := k + 1;
    }
  }

  lemma FirstDeadAtEnd(c: seq<byte>, raw: nat)
    requires raw == Slots(c)
    ensures FirstDead(c, raw) == raw
  {
  }

  lemma StoreSlotAt(t: seq<nat>, d: seq<seq<byte>>, s: seq<nat>, k: nat, i: nat, raw: nat, slot: Slot)
    requires Chain(t, s) && |t| <= FAT_EOF && (forall j :: 0 <= j < |s| ==> s[j] < |d|)
    requires k < |s| && i < Slots(d[s[k]]) && |Content(d, s[..k])| + 32 * i == 32 * raw
    ensures SlotStored(d, d[s[k] := PutSlot(d[s[k]], i, slot)], s, raw, slot)
  {
    hide Splice;
    ChainDistinct(t, s);
    SlotInCluster(d, s, k, i);
    ContentSplice(d, s, k, 32 * i, slot);
  }

  /** write_dir_entry */
  method WriteDirEntry(v: Volume, dirCluster: nat, name: seq<byte>, attr: byte, cluster: nat, size: nat,
                       ghost s: seq<nat>)
      returns (res: int, rawIdx: nat, ghost r: seq<nat>)
    requires v.Valid() && ChainFrom(v, DirStart(v, dirCluster), s)
    modifies v`disk, v`cacheDirty, v`cacheLba, v`fat, v`data, v.cache
    ensures v.Valid() && Grown(old(v.fat), v.fat, s, r) && Within(r, v.limit)
    ensures res == OK || res == ERR_NOSPACE
    ensures res == ERR_NOSPACE ==> v.fat == old(v.fat) && v.data == old(v.data) && r == s
    ensures res == ERR_NOSPACE ==>
      NoFreeCluster(v.fat) && FirstDead(Content(v.data, s), 0) == Slots(Content(v.data, s))
    ensures res == OK ==>
      SlotEntered(old(v.data), v.data, s, r, v.Bpc(), rawIdx, NewSlot(Make83(name), attr, cluster, size))
  {
    hide Chain, NewSlot, Make83, FirstDead, SlotAt, PutSlot;
    ghost var d := v.data;
    ghost var k;
    var found, cur, i;
    GrownByNone(v.fat, s);
    found, cur, rawIdx, i, k := FindDead(v, DirStart(v, dirCluster), s);
    r := s;
    WithinUniform(v, s);
    WholeDirectory(v.data, s, v.spc);
    if !found {
      ghost var t := v.fat;
      cur, r := GrowDirectory(v, cur, s);
      if cur == 0 { return ERR_NOSPACE, rawIdx, r; }
      i := 0;
      GrownFresh(t, v.fat, s, r);
      GrownDirectory(d, s, cur, v.Bpc());
      FirstDeadGrown(Content(d, s), v.Bpc());
      k := |s|;
    }
    var short := MakeName(name);
    var slot := NewSlot(short, attr, cluster, size);
    ghost var e := v.data;
    StoreSlotAt(v.fat, v.data, r, k, i, rawIdx, slot);
    RewriteSlot(v, cur, i, slot);
    if found {
      EnteredInPlace(d, v.data, s, v.Bpc(), rawIdx, slot);
    } else {
      EnteredGrown(d, e, v.data, s, cur, v.Bpc(), rawIdx, slot);
    }
    res := OK;
  }

  lemma EnteredInPlace(d: seq<seq<byte>>, e: seq<seq<byte>>, s: seq<nat>, bpc: nat, q: nat, slot: Slot)
    requires forall i :: 0 <= i < |s| ==> s[i] < |d|
    requires SlotStored(d, e, s, q, slot) && q == FirstDead(Content(d, s), 0)
    ensures SlotEntered(d, e, s, s, bpc, q, slot)
  {
    hide Content, PutSlot, FirstDead;
    assert Zeros(0) == [];
    assert Opened(d, s, s, bpc) == Content(d, s);
  }

  lemma EnteredGrown(d: seq<seq<byte>>, e: seq<seq<byte>>, f: seq<seq<byte>>, s: seq<nat>, n: nat, bpc: nat,
                     q: nat, slot: Slot)
    requires (forall i :: 0 <= i < |s| ==> s[i] < |d|) && n < |d| && n !in s
    requires e == d[n := Zeros(bpc)] && SlotStored(e, f, s + [n], q, slot)
    requires q == FirstDead(Content(d, s), 0) == Slots(Content(d, s))
    ensures SlotEntered(d, f, s, s + [n], bpc, q, slot)
  {
    hide Content, PutSlot, FirstDead, Opened;
    GrownDirectory(d, s, n, bpc);
    assert n in s + [n];
  }

  lemma WholeDirectory(d: seq<seq<byte>>, s: seq<nat>, spc: nat)
    requires Uniform(d, s, 512 * spc)
    ensures |Content(d, s)| % 32 == 0
  {
    ContentLength(d, s, 512 * spc);
    Associate(512, spc, |s|);
    WholeBlocks(spc * |s|);
  }
}
