/**
 The kernel heap: one region tiled by blocks, each behind a 20-byte header that links it to its
 neighbours. The class keeps headers in memory and follows their links; its value is the list of
 blocks in address order, and HeapLaws proves what the operations on that list guarantee.
 */
module HeapLaws {

  const HEADER := 20
  const MIN_SPLIT := 16
  const WORD := 0x1_0000_0000

  datatype Block = Block(addr: nat, size: nat, free: bool)

  function End(b: Block): nat { b.addr + HEADER + b.size }

  /** Blocks follow each other without a gap, from start to end. */
  ghost predicate Tiles(bs: seq<Block>, start: nat, end: nat) {
    && bs != [] && bs[0].addr == start && End(bs[|bs| - 1]) == end
    && forall i, j :: 0 <= i < |bs| && j == i + 1 && j < |bs| ==> bs[j].addr == End(bs[i])
  }

  ghost predicate NoTwoFree(bs: seq<Block>) {
    forall i, j :: 0 <= i < |bs| && j == i + 1 && j < |bs| ==> !(bs[i].free && bs[j].free)
  }

  /** What every reachable heap satisfies. */
  ghost predicate Inv(bs: seq<Block>, start: nat, end: nat) {
    Tiles(bs, start, end) && NoTwoFree(bs)
  }

  function UsedSum(bs: seq<Block>): nat {
    if bs == [] then 0 else (if bs[0].free then 0 else bs[0].size) + UsedSum(bs[1..])
  }

  function FreeSum(bs: seq<Block>): nat {
    if bs == [] then 0 else (if bs[0].free then bs[0].size else 0) + FreeSum(bs[1..])
  }

  /** (size + 7) & ~7 on 32 bits */
  function Round(size: nat): nat { (size + 7) % WORD / 8 * 8 }

  /** The block find_free stops at, or the number of blocks. */
  function FirstFit(bs: seq<Block>, size: nat): (i: nat)
    ensures i <= |bs|
    ensures i < |bs| ==> bs[i].free && bs[i].size >= size
    ensures forall k :: 0 <= k < i ==> !(bs[k].free && bs[k].size >= size)
  {
    if bs == [] || (bs[0].free && bs[0].size >= size) then 0 else 1 + FirstFit(bs[1..], size)
  }

  predicate Splits(b: Block, size: nat) { b.size >= size + HEADER + MIN_SPLIT }

  /** Block i cut to size, the rest as a free block behind it. */
  function Split(bs: seq<Block>, i: nat, size: nat): seq<Block>
    requires i < |bs|
  {
    if !Splits(bs[i], size) then bs else
      bs[..i]
      + [bs[i].(size := size), Block(bs[i].addr + HEADER + size, bs[i].size - size - HEADER, true)]
      + bs[i + 1..]
  }

  function Take(bs: seq<Block>, i: nat, size: nat): seq<Block>
    requires i < |bs|
  {
    var s := Split(bs, i, size);
    s[i := s[i].(free := false)]
  }

  /** Block i takes over the block behind it. */
  function Join(bs: seq<Block>, i: nat): seq<Block>
    requires i + 1 < |bs|
  {
    bs[..i] + [bs[i].(size := bs[i].size + HEADER + bs[i + 1].size)] + bs[i + 2..]
  }

  function MergeNext(bs: seq<Block>, i: nat): seq<Block>
    requires i < |bs|
  {
    if i + 1 < |bs| && bs[i + 1].free then Join(bs, i) else bs
  }

  function MergePrev(bs: seq<Block>, i: nat): seq<Block>
    requires i < |bs|
  {
    if i > 0 && bs[i - 1].free then Join(bs, i - 1) else bs
  }

  function Merge(bs: seq<Block>, i: nat): seq<Block>
    requires i < |bs|
  {
    MergePrev(MergeNext(bs, i), i)
  }

  function Release(bs: seq<Block>, i: nat): seq<Block>
    requires i < |bs|
  {
    Merge(bs[i := bs[i].(free := true)], i)
  }

  // ---- Addresses ----

  /** Blocks do not overlap: each ends before every later one begins. */
  lemma {:induction false} Apart(bs: seq<Block>, start: nat, end: nat, i: nat, j: nat)
    requires Tiles(bs, start, end) && i < j < |bs|
    ensures End(bs[i]) <= bs[j].addr
    decreases j
  {
    if i + 1 < j {
      Apart(bs, start, end, i, j - 1);
      assert bs[j].addr == End(bs[j - 1]);
    }
  }

  /** Payloads lie inside the region and are pairwise disjoint. */
  lemma PayloadsDisjoint(bs: seq<Block>, start: nat, end: nat, i: nat, j: nat)
    requires Tiles(bs, start, end) && i < |bs| && j < |bs| && i != j
    ensures start + HEADER <= bs[i].addr + HEADER && End(bs[i]) <= end
    ensures End(bs[i]) <= bs[j].addr || End(bs[j]) <= bs[i].addr
  {
    if i > 0 { Apart(bs, start, end, 0, i); }
    if i < |bs| - 1 { Apart(bs, start, end, i, |bs| - 1); }
    if i < j { Apart(bs, start, end, i, j); } else { Apart(bs, start, end, j, i); }
  }

  ghost predicate DistinctAddrs(bs: seq<Block>) {
    forall i, j :: 0 <= i < j < |bs| ==> bs[i].addr != bs[j].addr
  }

  lemma AddrsDistinct(bs: seq<Block>, start: nat, end: nat)
    requires Tiles(bs, start, end)
    ensures DistinctAddrs(bs)
  {
    forall i, j | 0 <= i < j < |bs| ensures bs[i].addr != bs[j].addr {
      Apart(bs, start, end, i, j);
    }
  }

  // ---- Sums ----

  lemma {:induction false} SumsConcat(a: seq<Block>, b: seq<Block>)
    ensures UsedSum(a + b) == UsedSum(a) + UsedSum(b) && FreeSum(a + b) == FreeSum(a) + FreeSum(b)
  {
    if a == [] {
      assert a + b == b;
    } else {
      assert (a + b)[1..] == a[1..] + b;
      SumsConcat(a[1..], b);
    }
  }

  lemma SumsOfOne(b: Block)
    ensures UsedSum([b]) == (if b.free then 0 else b.size) && FreeSum([b]) == if b.free then b.size else 0
  {
  }

  lemma SumsOfTwo(b: Block, c: Block)
    ensures UsedSum([b, c]) == UsedSum([b]) + UsedSum([c]) && FreeSum([b, c]) == FreeSum([b]) + FreeSum([c])
  {
    assert [b, c] == [b] + [c];
    SumsConcat([b], [c]);
  }

  /** heap_used + heap_free + the headers is the whole region. */
  lemma {:induction false} Conservation(bs: seq<Block>, start: nat, end: nat)
    requires Tiles(bs, start, end)
    ensures UsedSum(bs) + FreeSum(bs) + HEADER * |bs| == end - start
    decreases |bs|
  {
    if |bs| > 1 {
      assert bs[1].addr == End(bs[0]);
      TilesTail(bs, start, end);
      Conservation(bs[1..], bs[1].addr, end);
    } else {
      assert bs[1..] == [];
    }
  }

  lemma TilesTail(bs: seq<Block>, start: nat, end: nat)
    requires Tiles(bs, start, end) && |bs| > 1
    ensures Tiles(bs[1..], bs[1].addr, end)
  {
    var t := bs[1..];
    forall i, j | 0 <= i < |t| && j == i + 1 && j < |t| ensures t[j].addr == End(t[i]) {
      assert bs[j + 1].addr == End(bs[i + 1]);
    }
  }

  // ---- Taking a block ----

  lemma TakeAt(bs: seq<Block>, i: nat, size: nat)
    requires i < |bs|
    ensures var r := Take(bs, i, size);
      && (forall k :: 0 <= k < i ==> r[k] == bs[k]) && i < |r| && r[i] == Taken(bs[i], size)
      && if Splits(bs[i], size) then
           && |r| == |bs| + 1 && r[i + 1] == Block(bs[i].addr + HEADER + size, bs[i].size - size - HEADER, true)
           && forall k :: i + 1 < k < |r| ==> r[k] == bs[k - 1]
         else |r| == |bs| && forall k :: i < k < |r| ==> r[k] == bs[k]
  {
  }

  /**
   The block handed out has less than 36 bytes more than asked for: if the block that was found has as many to spare,
   a free block of what is left over, without a header, stands behind it; otherwise the block is taken whole.
   */
  lemma HandedOut(bs: seq<Block>, i: nat, size: nat)
    requires i < |bs| && bs[i].free && size <= bs[i].size
    ensures var r, spare := Take(bs, i, size), bs[i].size - size;
      && i < |r| && !r[i].free && r[i].addr == bs[i].addr && size <= r[i].size < size + 36 && r[..i] == bs[..i]
      && if spare >= 36 then
           && |r| == |bs| + 1 && r[i].size == size
           && r[i + 1] == Block(bs[i].addr + 20 + size, spare - 20, true) && r[i + 2..] == bs[i + 1..]
         else |r| == |bs| && r[i].size == bs[i].size && r[i + 1..] == bs[i + 1..]
  {
    hide Take;
    TakeAt(bs, i, size);
  }

  lemma TakeKeeps(bs: seq<Block>, start: nat, end: nat, i: nat, size: nat)
    requires Inv(bs, start, end) && i < |bs| && bs[i].free && bs[i].size >= size
    ensures Inv(Take(bs, i, size), start, end)
  {
    hide Take;
    TakeAt(bs, i, size);
    FreeAlone(bs, i);
    var r := Take(bs, i, size);
    forall k, m | 0 <= k < |r| && m == k + 1 && m < |r| ensures r[m].addr == End(r[k]) && !(r[k].free && r[m].free) {
      if k < i {
        assert bs[m].addr == End(bs[k]);
      } else if Splits(bs[i], size) && k > i {
        assert bs[k].addr == End(bs[k - 1]);
      }
    }
  }

  /** The blocks in use. */
  function Used(bs: seq<Block>): set<Block> { set b | b in bs && !b.free }

  /** The block kmalloc hands out. */
  function Taken(b: Block, size: nat): Block {
    Block(b.addr, if Splits(b, size) then size else b.size, false)
  }

  /** Taking a block adds it to the blocks in use and disturbs none of them. */
  lemma TakeUses(bs: seq<Block>, start: nat, end: nat, i: nat, size: nat)
    requires Inv(bs, start, end) && i < |bs| && bs[i].free && bs[i].size >= size
    ensures Used(Take(bs, i, size)) == Used(bs) + {Taken(bs[i], size)} && Taken(bs[i], size) !in Used(bs)
    ensures UsedSum(Take(bs, i, size)) == UsedSum(bs) + Taken(bs[i], size).size
  {
    NotYetUsed(bs, start, end, i, Taken(bs[i], size));
    TakeParts(bs, i, size);
    hide UsedSum, Used, Tiles, NoTwoFree, Take, TakenParts, Taken;
    TakenPartsUse(bs[i], size);
    UsedOne(bs[i]);
    SumsOfOne(bs[i]);
    ReplaceUses(bs[..i], [bs[i]], TakenParts(bs[i], size), bs[i + 1..]);
  }

  /** What a free block becomes when it is taken. */
  function TakenParts(b: Block, size: nat): seq<Block> {
    if Splits(b, size) then [Taken(b, size), Block(b.addr + HEADER + size, b.size - size - HEADER, true)]
    else [Taken(b, size)]
  }

  lemma TakeParts(bs: seq<Block>, i: nat, size: nat)
    requires i < |bs|
    ensures Take(bs, i, size) == bs[..i] + TakenParts(bs[i], size) + bs[i + 1..]
    ensures bs == bs[..i] + [bs[i]] + bs[i + 1..]
  {
  }

  lemma TakenPartsUse(b: Block, size: nat)
    ensures Used(TakenParts(b, size)) == {Taken(b, size)} && UsedSum(TakenParts(b, size)) == Taken(b, size).size
  {
    var t := Taken(b, size);
    UsedOne(t);
    SumsOfOne(t);
    if Splits(b, size) {
      var rest := Block(b.addr + HEADER + size, b.size - size - HEADER, true);
      UsedOne(rest);
      SumsOfOne(rest);
      SumsOfTwo(t, rest);
      UsedConcat([t], [rest]);
      assert [t, rest] == [t] + [rest];
    }
  }

  lemma NotYetUsed(bs: seq<Block>, start: nat, end: nat, i: nat, t: Block)
    requires Inv(bs, start, end) && i < |bs| && bs[i].free && t.addr == bs[i].addr
    ensures t !in Used(bs)
  {
    AddrsDistinct(bs, start, end);
    if t in bs {
      var k :| 0 <= k < |bs| && bs[k] == t;
      assert k == i;
    }
  }

  /** Replacing a stretch of blocks: what it adds to the blocks in use and to their sum. */
  lemma ReplaceUses(a: seq<Block>, x: seq<Block>, y: seq<Block>, c: seq<Block>)
    ensures Used(a + x + c) == Used(a) + Used(x) + Used(c) && Used(a + y + c) == Used(a) + Used(y) + Used(c)
    ensures UsedSum(a + y + c) + UsedSum(x) == UsedSum(a + x + c) + UsedSum(y)
  {
    hide UsedSum, Used;
    SumsConcat(a + x, c);
    SumsConcat(a, x);
    SumsConcat(a + y, c);
    SumsConcat(a, y);
    UsedConcat(a + x, c);
    UsedConcat(a, x);
    UsedConcat(a + y, c);
    UsedConcat(a, y);
  }

  lemma UsedConcat(a: seq<Block>, b: seq<Block>)
    ensures Used(a + b) == Used(a) + Used(b)
  {
  }

  lemma UsedOne(b: Block)
    ensures Used([b]) == if b.free then {} else {b}
  {
  }

  // ---- Releasing a block ----

  lemma JoinAt(bs: seq<Block>, i: nat)
    requires i + 1 < |bs|
    ensures var r := Join(bs, i);
      && |r| == |bs| - 1 && r[i] == bs[i].(size := bs[i].size + HEADER + bs[i + 1].size)
      && (forall k :: 0 <= k < i ==> r[k] == bs[k]) && (forall k :: i < k < |r| ==> r[k] == bs[k + 1])
  {
  }

  lemma JoinTiles(bs: seq<Block>, start: nat, end: nat, i: nat)
    requires Tiles(bs, start, end) && i + 1 < |bs|
    ensures Tiles(Join(bs, i), start, end)
  {
    hide Join;
    JoinAt(bs, i);
    var r := Join(bs, i);
    assert bs[i + 1].addr == End(bs[i]);
    forall k, m | 0 <= k < |r| && m == k + 1 && m < |r| ensures r[m].addr == End(r[k]) {
      if k < i {
        assert bs[m].addr == End(bs[k]);
      } else {
        assert bs[m + 1].addr == End(bs[m]);
      }
    }
  }

  /** Two neighbours are both free only if one of them is block i. */
  ghost predicate NoTwoFreeBut(bs: seq<Block>, i: nat) {
    forall k, m :: 0 <= k < |bs| && m == k + 1 && m < |bs| && k != i && m != i ==> !(bs[k].free && bs[m].free)
  }

  /** Releasing block i: two mergers at most, and no two free neighbours remain. */
  lemma ReleaseKeeps(bs: seq<Block>, start: nat, end: nat, i: nat)
    requires Inv(bs, start, end) && i < |bs| && !bs[i].free
    ensures Inv(Release(bs, i), start, end)
  {
    hide Join, MergeNext, Tiles, NoTwoFree, NoTwoFreeBut;
    var f := bs[i := bs[i].(free := true)];
    FlagKeeps(bs, start, end, i);
    NextKeeps(f, start, end, i);
    PreviousKeeps(MergeNext(f, i), start, end, i);
  }

  lemma FlagKeeps(bs: seq<Block>, start: nat, end: nat, i: nat)
    requires Inv(bs, start, end) && i < |bs| && !bs[i].free
    ensures var f := bs[i := bs[i].(free := true)];
      Tiles(f, start, end) && NoTwoFreeBut(f, i) && (i + 2 < |f| ==> !(f[i + 1].free && f[i + 2].free))
  {
  }

  /** The first merger. */
  lemma NextKeeps(f: seq<Block>, start: nat, end: nat, i: nat)
    requires Tiles(f, start, end) && i < |f| && f[i].free && NoTwoFreeBut(f, i)
    requires i + 2 < |f| ==> !(f[i + 1].free && f[i + 2].free)
    ensures var g := MergeNext(f, i);
      && Tiles(g, start, end) && i < |g| && g[i].free && (i + 1 < |g| ==> !g[i + 1].free) && NoTwoFreeBut(g, i)
  {
    hide Join, Tiles, NoTwoFreeBut;
    MergedNoTwoFree(f, MergeNext(f, i), i);
    if i + 1 < |f| && f[i + 1].free {
      JoinTiles(f, start, end, i);
      JoinAt(f, i);
    }
  }

  /** The second merger. */
  lemma PreviousKeeps(g: seq<Block>, start: nat, end: nat, i: nat)
    requires Tiles(g, start, end) && i < |g| && NoTwoFreeBut(g, i) && (i + 1 < |g| ==> !g[i + 1].free)
    ensures Inv(MergePrev(g, i), start, end)
  {
    hide Join, Tiles;
    if i > 0 && g[i - 1].free {
      JoinTiles(g, start, end, i - 1);
      JoinAt(g, i - 1);
    }
  }

  lemma MergedNoTwoFree(f: seq<Block>, g: seq<Block>, i: nat)
    requires i < |f| && NoTwoFreeBut(f, i) && g == MergeNext(f, i)
    ensures NoTwoFreeBut(g, i) && i < |g|
  {
    if i + 1 < |f| && f[i + 1].free {
      hide Join;
      JoinAt(f, i);
      forall k, m | 0 <= k < |g| && m == k + 1 && m < |g| && k != i && m != i ensures !(g[k].free && g[m].free) {
        if k > i { assert !(f[k + 1].free && f[m + 1].free); }
      }
    }
  }

  /** Releasing a block takes exactly it out of use. */
  lemma ReleaseUses(bs: seq<Block>, start: nat, end: nat, i: nat)
    requires Inv(bs, start, end) && i < |bs| && !bs[i].free
    ensures Used(Release(bs, i)) == Used(bs) - {bs[i]}
    ensures UsedSum(Release(bs, i)) == UsedSum(bs) - bs[i].size
  {
    hide Join;
    var f := bs[i := bs[i].(free := true)];
    FlagUses(bs, start, end, i);
    var g := MergeNext(f, i);
    if i + 1 < |f| && f[i + 1].free {
      JoinUses(f, i);
      JoinAt(f, i);
    }
    if i > 0 && g[i - 1].free {
      JoinUses(g, i - 1);
    }
  }

  lemma FlagUses(bs: seq<Block>, start: nat, end: nat, i: nat)
    requires Inv(bs, start, end) && i < |bs| && !bs[i].free
    ensures Used(bs[i := bs[i].(free := true)]) == Used(bs) - {bs[i]}
    ensures UsedSum(bs[i := bs[i].(free := true)]) == UsedSum(bs) - bs[i].size
  {
    var f := bs[i := bs[i].(free := true)];
    assert bs == bs[..i] + [bs[i]] + bs[i + 1..] && f == bs[..i] + [f[i]] + bs[i + 1..];
    ReplaceUses(bs[..i], [bs[i]], [f[i]], bs[i + 1..]);
    SumsOfOne(bs[i]);
    SumsOfOne(f[i]);
    assert Used([bs[i]]) == {bs[i]} && Used([f[i]]) == {};
    AddrsDistinct(bs, start, end);
    assert bs[i] !in Used(bs[..i]) && bs[i] !in Used(bs[i + 1..]);
  }

  /** Joining free blocks changes nothing about the blocks in use. */
  lemma JoinUses(bs: seq<Block>, i: nat)
    requires i + 1 < |bs| && bs[i].free && bs[i + 1].free
    ensures Used(Join(bs, i)) == Used(bs) && UsedSum(Join(bs, i)) == UsedSum(bs)
  {
    var r := Join(bs, i);
    var x, y := [bs[i], bs[i + 1]], [r[i]];
    assert bs == bs[..i] + x + bs[i + 2..] && r == bs[..i] + y + bs[i + 2..];
    ReplaceUses(bs[..i], x, y, bs[i + 2..]);
    SumsOfTwo(bs[i], bs[i + 1]);
    SumsOfOne(bs[i]);
    SumsOfOne(bs[i + 1]);
    SumsOfOne(r[i]);
    assert Used(x) == {} && Used(y) == {};
  }

  // ---- kfree undoes kmalloc; freeing everything leaves one block ----

  /** The list is the same again, whether or not the block was split. */
  lemma ReleaseOfTake(bs: seq<Block>, start: nat, end: nat, i: nat, size: nat)
    requires Inv(bs, start, end) && i < |bs| && bs[i].free && bs[i].size >= size
    ensures Release(Take(bs, i, size), i) == bs
  {
    var r := Take(bs, i, size);
    var f := r[i := r[i].(free := true)];
    FreeAlone(bs, i);
    if Splits(bs[i], size) {
      SplitRejoined(bs, f, i, size);
    } else {
      assert f == bs;
    }
  }

  lemma FreeAlone(bs: seq<Block>, i: nat)
    requires NoTwoFree(bs) && i < |bs| && bs[i].free
    ensures (i > 0 ==> !bs[i - 1].free) && (i + 1 < |bs| ==> !bs[i + 1].free)
  {
  }

  lemma SplitRejoined(bs: seq<Block>, f: seq<Block>, i: nat, size: nat)
    requires i < |bs| && bs[i].free && Splits(bs[i], size) && f == Split(bs, i, size)
    ensures i + 1 < |f| && f[i + 1].free && Join(f, i) == bs
  {
    JoinAt(f, i);
    var g := Join(f, i);
    hide Join, Split;
    SplitAt(bs, i, size);
    assert forall k :: 0 <= k < |bs| ==> g[k] == bs[k];
  }

  lemma SplitAt(bs: seq<Block>, i: nat, size: nat)
    requires i < |bs| && Splits(bs[i], size)
    ensures var f := Split(bs, i, size);
      && |f| == |bs| + 1 && f[i] == bs[i].(size := size)
      && f[i + 1] == Block(bs[i].addr + HEADER + size, bs[i].size - size - HEADER, true)
      && (forall k :: 0 <= k < i ==> f[k] == bs[k]) && (forall k :: i + 1 < k < |f| ==> f[k] == bs[k - 1])
  {
    Inserted(bs[..i], bs[i].(size := size), Block(bs[i].addr + HEADER + size, bs[i].size - size - HEADER, true),
             bs[i + 1..]);
  }

  /** Taking a block is splitting it and marking it. */
  lemma SplitHead(bs: seq<Block>, i: nat, size: nat)
    requires i < |bs|
    ensures var f := Split(bs, i, size);
      && i < |f| && f[i].addr == bs[i].addr && f[i].size == Taken(bs[i], size).size
      && Take(bs, i, size) == f[i := f[i].(free := false)]
  {
    if Splits(bs[i], size) { SplitAt(bs, i, size); }
  }

  lemma Inserted(a: seq<Block>, x: Block, y: Block, c: seq<Block>)
    ensures var f := a + [x, y] + c;
      && |f| == |a| + 2 + |c| && f[|a|] == x && f[|a| + 1] == y
      && (forall k :: 0 <= k < |a| ==> f[k] == a[k]) && (forall k :: |a| + 1 < k < |f| ==> f[k] == c[k - |a| - 2])
  {
  }

  /** The whole region is one free block. */
  ghost predicate Untouched(bs: seq<Block>, start: nat, end: nat) {
    |bs| == 1 && bs[0].free && bs[0].addr == start && End(bs[0]) == end
  }

  lemma AllFreeIsOne(bs: seq<Block>, start: nat, end: nat)
    requires Inv(bs, start, end) && Used(bs) == {}
    ensures Untouched(bs, start, end)
  {
    forall k | 0 <= k < |bs| ensures bs[k].free {
      assert bs[k] !in Used(bs);
    }
    FreeAlone(bs, 0);
  }

  ghost predicate Enumerates(order: seq<Block>, used: set<Block>) {
    && (forall i, j :: 0 <= i < j < |order| ==> order[i] != order[j])
    && (forall b :: b in used <==> b in order)
  }

  function IndexOf(bs: seq<Block>, b: Block): (i: nat)
    requires b in bs
    ensures i < |bs| && bs[i] == b
  {
    if bs[0] == b then 0 else 1 + IndexOf(bs[1..], b)
  }

  /** The heap after the listed blocks have been freed one after the other. */
  function FreeInOrder(bs: seq<Block>, order: seq<Block>): seq<Block>
    decreases |order|
  {
    if order == [] || order[0] !in bs then bs
    else FreeInOrder(Release(bs, IndexOf(bs, order[0])), order[1..])
  }

  /** In whatever order the blocks in use are freed, one free block of the whole region is left. */
  lemma {:induction false} FreeingAll(bs: seq<Block>, start: nat, end: nat, order: seq<Block>)
    requires Inv(bs, start, end) && Enumerates(order, Used(bs))
    ensures Untouched(FreeInOrder(bs, order), start, end)
    decreases |order|
  {
    if order == [] {
      assert Used(bs) == {};
      AllFreeIsOne(bs, start, end);
    } else {
      assert order[0] in Used(bs);
      var i := IndexOf(bs, order[0]);
      ReleaseKeeps(bs, start, end, i);
      ReleaseUses(bs, start, end, i);
      EnumeratesRest(order, Used(bs));
      FreeingAll(Release(bs, i), start, end, order[1..]);
    }
  }

  lemma EnumeratesRest(order: seq<Block>, used: set<Block>)
    requires Enumerates(order, used) && order != []
    ensures Enumerates(order[1..], used - {order[0]})
  {
    var rest := order[1..];
    forall b ensures b in used - {order[0]} <==> b in rest {
      assert b in order <==> b == order[0] || b in rest;
      if b in rest {
        var k :| 0 <= k < |rest| && rest[k] == b;
        assert order[k + 1] == b;
      }
    }
  }

  // ---- Rounding ----

  /** A request is rounded up to a multiple of eight, unless the sum wraps; then it becomes zero. */
  lemma Rounding(size: nat)
    requires size < WORD
    ensures Round(size) % 8 == 0
    ensures size <= 0xFFFF_FFF8 ==> size <= Round(size) < size + 8
    ensures size > 0xFFFF_FFF8 ==> Round(size) == 0
  {
  }

  /** The block handed out is large enough exactly when rounding did not wrap. */
  lemma LargeEnough(bs: seq<Block>, start: nat, end: nat, i: nat, request: nat)
    requires Inv(bs, start, end) && HEADER <= start && end <= WORD && i < |bs| && 0 < request < WORD
    requires bs[i].free && bs[i].size >= Round(request)
    ensures request <= Taken(bs[i], Round(request)).size <==> request <= 0xFFFF_FFF8
  {
    Rounding(request);
    if i > 0 { Apart(bs, start, end, 0, i); }
    if i < |bs| - 1 { Apart(bs, start, end, i, |bs| - 1); }
  }

  /** A request for 4294967295 bytes is granted by every block that can be split, with no byte at all. */
  lemma WrappedRequest(b: Block)
    requires Splits(b, 0)
    ensures Round(0xFFFF_FFFF) == 0 && Taken(b, Round(0xFFFF_FFFF)).size == 0
  {
  }
}
