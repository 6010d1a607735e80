/**
 kmalloc, kfree and krealloc over headers in memory. Addresses are 32-bit numbers and 0 is the null
 pointer. Headers and payload bytes are kept apart: no payload overlaps a header.
 */
module HeapMemory {
  import opened Bytes
  import opened HeapLaws

  const MAGIC := 0xABCD_1234

  datatype Header = Header(size: nat, free: bool, next: nat, prev: nat, magic: nat)

  /** The header that block k of the list has in memory. */
  function HeaderOf(bs: seq<Block>, k: nat): Header
    requires k < |bs|
  {
    Header(bs[k].size, bs[k].free, if k + 1 < |bs| then bs[k + 1].addr else 0,
           if k > 0 then bs[k - 1].addr else 0, MAGIC)
  }

  ghost predicate StoredOne(mem: map<nat, Header>, bs: seq<Block>, k: nat)
    requires k < |bs|
  {
    bs[k].addr in mem && mem[bs[k].addr] == HeaderOf(bs, k)
  }

  ghost predicate Stored(mem: map<nat, Header>, bs: seq<Block>) {
    forall k :: 0 <= k < |bs| ==> StoredOne(mem, bs, k)
  }

  /** Position of the block at an address, or the number of blocks. */
  function IndexAt(bs: seq<Block>, addr: nat): (i: nat)
    ensures i <= |bs| && (i < |bs| ==> bs[i].addr == addr)
    ensures forall k :: 0 <= k < i ==> bs[k].addr != addr
  {
    if bs == [] || bs[0].addr == addr then 0 else 1 + IndexAt(bs[1..], addr)
  }

  lemma IndexAtIs(bs: seq<Block>, start: nat, end: nat, i: nat)
    requires Tiles(bs, start, end) && i < |bs|
    ensures IndexAt(bs, bs[i].addr) == i
  {
    AddrsDistinct(bs, start, end);
  }

  // ---- What the stores of split and merge do to the list in memory ----

  function SplitStores(mem: map<nat, Header>, b: nat, size: nat): map<nat, Header>
    requires b in mem && (mem[b].next != 0 ==> mem[b].next in mem) && mem[b].size >= size + HEADER
  {
    var h := mem[b];
    var nb := b + HEADER + size;
    var m1 := mem[nb := Header(h.size - size - HEADER, true, h.next, b, MAGIC)];
    var m2 := if h.next != 0 then m1[h.next := m1[h.next].(prev := nb)] else m1;
    m2[b := m2[b].(next := nb, size := size)]
  }

  function JoinStores(mem: map<nat, Header>, a: nat): map<nat, Header>
    requires a in mem && mem[a].next in mem && (mem[mem[a].next].next != 0 ==> mem[mem[a].next].next in mem)
  {
    var b := mem[a].next;
    var n := mem[b].next;
    var m1 := mem[a := mem[a].(size := mem[a].size + HEADER + mem[b].size, next := n)];
    if n != 0 then m1[n := m1[n].(prev := a)] else m1
  }

  /** Every block starts past address zero, at an address of its own. */
  lemma Addresses(bs: seq<Block>, start: nat, end: nat)
    requires Tiles(bs, start, end) && 0 < start
    ensures DistinctAddrs(bs) && forall k :: 0 <= k < |bs| ==> 0 < bs[k].addr
  {
    AddrsDistinct(bs, start, end);
    forall k | 0 <= k < |bs| ensures 0 < bs[k].addr {
      if k > 0 { Apart(bs, start, end, 0, k); }
    }
  }

  lemma NotAHeader(bs: seq<Block>, start: nat, end: nat, i: nat, addr: nat)
    requires Tiles(bs, start, end) && i < |bs| && bs[i].addr < addr < End(bs[i])
    ensures forall k :: 0 <= k < |bs| ==> bs[k].addr != addr
  {
    forall k | 0 <= k < |bs| ensures bs[k].addr != addr {
      if k < i { Apart(bs, start, end, k, i); }
      if k > i { Apart(bs, start, end, i, k); }
    }
  }

  lemma StoredAt(mem: map<nat, Header>, bs: seq<Block>, k: nat)
    requires Stored(mem, bs) && k < |bs|
    ensures bs[k].addr in mem && mem[bs[k].addr] == HeaderOf(bs, k)
  {
    assert StoredOne(mem, bs, k);
  }

  lemma AddrsDiffer(bs: seq<Block>, start: nat, end: nat, j: nat, k: nat)
    requires Tiles(bs, start, end) && 0 < start && j < |bs| && k < |bs| && j != k
    ensures bs[j].addr != bs[k].addr && 0 < bs[j].addr
  {
    Addresses(bs, start, end);
  }

  /** Where block j of the old list stands in the list after a split of block i. */
  lemma SplitStoredAt(mem: map<nat, Header>, bs: seq<Block>, start: nat, end: nat, i: nat, size: nat, j: nat)
    requires Stored(mem, bs) && Tiles(bs, start, end) && 0 < start && i < |bs| && Splits(bs[i], size)
    requires j < |bs| && j != i
    ensures bs[i].addr in mem && (mem[bs[i].addr].next != 0 ==> mem[bs[i].addr].next in mem)
    ensures mem[bs[i].addr].size == bs[i].size
    ensures var r, k := Split(bs, i, size), if j < i then j else j + 1;
      var now := SplitStores(mem, bs[i].addr, size);
      r[k] == bs[j] && bs[j].addr in now && now[bs[j].addr] == HeaderOf(r, k)
  {
    SplitAt(bs, i, size);
    AddrsDiffer(bs, start, end, j, i);
    NotAHeader(bs, start, end, i, bs[i].addr + HEADER + size);
    if i + 1 < |bs| { StoredAt(mem, bs, i + 1); AddrsDiffer(bs, start, end, i + 1, i); }
    if i + 1 < |bs| && j != i + 1 { AddrsDiffer(bs, start, end, j, i + 1); }
    StoredAt(mem, bs, i);
    StoredAt(mem, bs, j);
    hide Split, Tiles, Stored;
  }

  lemma SplitStored(mem: map<nat, Header>, bs: seq<Block>, start: nat, end: nat, i: nat, size: nat)
    requires Stored(mem, bs) && Tiles(bs, start, end) && 0 < start && i < |bs| && Splits(bs[i], size)
    ensures bs[i].addr in mem && (mem[bs[i].addr].next != 0 ==> mem[bs[i].addr].next in mem)
    ensures mem[bs[i].addr].size == bs[i].size
    ensures Stored(SplitStores(mem, bs[i].addr, size), Split(bs, i, size))
  {
    StoredAt(mem, bs, i);
    if i + 1 < |bs| { StoredAt(mem, bs, i + 1); AddrsDiffer(bs, start, end, i + 1, i); }
    NotAHeader(bs, start, end, i, bs[i].addr + HEADER + size);
    SplitAt(bs, i, size);
    hide Split, Tiles, SplitStores;
    SplitStoredHere(mem, bs, i, size);
    var r := Split(bs, i, size);
    var now := SplitStores(mem, bs[i].addr, size);
    forall k | 0 <= k < |r| ensures StoredOne(now, r, k) {
      if k < i {
        SplitStoredAt(mem, bs, start, end, i, size, k);
      } else if k > i + 1 {
        SplitStoredAt(mem, bs, start, end, i, size, k - 1);
      }
    }
  }

  /** The two parts of the split block. */
  lemma SplitStoredHere(mem: map<nat, Header>, bs: seq<Block>, i: nat, size: nat)
    requires i < |bs| && Splits(bs[i], size) && bs[i].addr in mem && mem[bs[i].addr] == HeaderOf(bs, i)
    requires i + 1 < |bs| ==> bs[i + 1].addr in mem && bs[i + 1].addr != bs[i].addr && 0 < bs[i + 1].addr
    requires i + 1 < |bs| ==> bs[i + 1].addr != bs[i].addr + HEADER + size
    ensures var r, now := Split(bs, i, size), SplitStores(mem, bs[i].addr, size);
      && |r| == |bs| + 1
      && r[i].addr in now && now[r[i].addr] == HeaderOf(r, i)
      && r[i + 1].addr in now && now[r[i + 1].addr] == HeaderOf(r, i + 1)
  {
    SplitAt(bs, i, size);
    hide Split;
  }

  /** Where block j of the old list stands after block i has taken over block i + 1. */
  lemma JoinStoredAt(mem: map<nat, Header>, bs: seq<Block>, start: nat, end: nat, i: nat, j: nat)
    requires Stored(mem, bs) && Tiles(bs, start, end) && 0 < start && i + 1 < |bs| && j < |bs| && j != i + 1
    ensures var a := bs[i].addr; a in mem && mem[a].next == bs[i + 1].addr && mem[a].next in mem
    ensures mem[bs[i + 1].addr].next != 0 ==> mem[bs[i + 1].addr].next in mem
    ensures var r, k := Join(bs, i), if j <= i then j else j - 1;
      var now := JoinStores(mem, bs[i].addr);
      k < |r| && r[k].addr == bs[j].addr && bs[j].addr in now && now[bs[j].addr] == HeaderOf(r, k)
  {
    JoinAt(bs, i);
    StoredAt(mem, bs, i);
    StoredAt(mem, bs, i + 1);
    StoredAt(mem, bs, j);
    if j != i { AddrsDiffer(bs, start, end, j, i); }
    AddrsDiffer(bs, start, end, i + 1, i);
    if i + 2 < |bs| { StoredAt(mem, bs, i + 2); AddrsDiffer(bs, start, end, i + 2, i); }
    if i + 2 < |bs| && j != i + 2 { AddrsDiffer(bs, start, end, j, i + 2); }
    hide Join, Tiles, Stored;
  }

  lemma JoinStored(mem: map<nat, Header>, bs: seq<Block>, start: nat, end: nat, i: nat)
    requires Stored(mem, bs) && Tiles(bs, start, end) && 0 < start && i + 1 < |bs|
    ensures var a := bs[i].addr; a in mem && mem[a].next == bs[i + 1].addr && mem[a].next in mem
    ensures mem[bs[i + 1].addr].next != 0 ==> mem[bs[i + 1].addr].next in mem
    ensures Stored(JoinStores(mem, bs[i].addr), Join(bs, i))
  {
    JoinAt(bs, i);
    hide Join, Tiles, JoinStores;
    JoinStoredAt(mem, bs, start, end, i, i);
    var r := Join(bs, i);
    var now := JoinStores(mem, bs[i].addr);
    forall k | 0 <= k < |r| ensures StoredOne(now, r, k) {
      JoinStoredAt(mem, bs, start, end, i, if k <= i then k else k + 1);
    }
  }

  ghost predicate IsUsed(bs: seq<Block>, addr: nat) {
    IndexAt(bs, addr) < |bs| && !bs[IndexAt(bs, addr)].free
  }

  lemma CopyStart(was: seq<byte>, src: nat, dst: nat)
    requires src <= |was| && dst <= |was|
    ensures was == Splice(was, dst, was[src..src + 0])
  {
    assert was[src..src + 0] == [];
    assert was == was[..dst] + [] + was[dst..];
  }

  lemma CopyStep(was: seq<byte>, src: nat, dst: nat, i: nat)
    requires src + i < |was| && dst + i < |was| && (src + i < dst || dst + i <= src)
    ensures Splice(was, dst, was[src..src + i])[src + i] == was[src + i]
    ensures Splice(was, dst, was[src..src + i])[dst + i := was[src + i]] == Splice(was, dst, was[src..src + i + 1])
  {
    hide Splice;
    var b, c := was[src..src + i], was[src..src + i + 1];
    var l, r := Splice(was, dst, b)[dst + i := was[src + i]], Splice(was, dst, c);
    SpliceAt(was, dst, b, src + i);
    forall k | 0 <= k < |was| ensures l[k] == r[k] {
      SpliceAt(was, dst, b, k);
      SpliceAt(was, dst, c, k);
    }
  }

  lemma RoundTwice(size: nat)
    requires size < WORD
    ensures Round(Round(size)) == Round(size) && Round(size) < WORD
  {
    Rounding(size);
    var k := (size + 7) % WORD / 8;
    assert Round(size) == 8 * k;
    assert 8 * k + 7 < WORD;
  }

  /** The payload of block x inside the bytes of a region. */
  ghost function Payload(bytes: seq<byte>, start: nat, x: Block): seq<byte>
    requires start <= x.addr && End(x) <= start + |bytes|
  {
    bytes[x.addr + HEADER - start..End(x) - start]
  }

  ghost predicate InRegion(bytes: seq<byte>, start: nat, x: Block) {
    start <= x.addr && End(x) <= start + |bytes|
  }

  /** No byte outside the payload of x changed. */
  ghost predicate SameOutside(was: seq<byte>, now: seq<byte>, start: nat, x: Block) {
    |now| == |was| && forall a :: 0 <= a < |was| && !(x.addr + HEADER <= start + a < End(x)) ==> now[a] == was[a]
  }

  /**
   What krealloc of a used block to a rounded size does: nothing if the block is large enough or no
   other one is; otherwise the block gives way to the first that fits, which starts with the old bytes.
   */
  ghost predicate Reallocated(bs: seq<Block>, was: seq<byte>, cs: seq<Block>, now: seq<byte>, start: nat,
                              ptr: nat, size: nat, res: nat)
    requires HEADER <= ptr && IsUsed(bs, ptr - HEADER)
  {
    var b, j := bs[IndexAt(bs, ptr - HEADER)], FirstFit(bs, size);
    if size <= b.size then res == ptr && cs == bs && now == was
    else if j == |bs| then res == 0 && cs == bs && now == was
    else Relocated(bs, was, cs, now, start, b, Taken(bs[j], size), res)
  }

  ghost predicate Relocated(bs: seq<Block>, was: seq<byte>, cs: seq<Block>, now: seq<byte>, start: nat,
                            b: Block, t: Block, res: nat)
  {
    && res == t.addr + HEADER && b.size <= t.size
    && Used(cs) == Used(bs) - {b} + {t}
    && InRegion(was, start, b) && InRegion(now, start, t)
    && Payload(now, start, t)[..b.size] == Payload(was, start, b)
    && SameOutside(was, now, start, t)
  }

  /** A block in use stands behind the pointer, and it is as large as requested exactly when rounding did not wrap. */
  ghost predicate Serves(bs: seq<Block>, ptr: nat, request: nat) {
    exists i :: 0 <= i < |bs| && !bs[i].free && bs[i].addr + HEADER == ptr
                && (request <= bs[i].size <==> request <= 0xFFFF_FFF8)
  }

  /** A block in use stands behind the pointer, with at least size bytes and less than 36 more. */
  ghost predicate Snug(bs: seq<Block>, ptr: nat, size: nat) {
    exists i :: 0 <= i < |bs| && !bs[i].free && bs[i].addr + HEADER == ptr && size <= bs[i].size < size + 36
  }

  lemma TakeSnug(bs: seq<Block>, i: nat, size: nat)
    requires i < |bs| && bs[i].free && size <= bs[i].size
    ensures Snug(Take(bs, i, size), bs[i].addr + HEADER, size)
  {
    hide Take;
    HandedOut(bs, i, size);
    assert Take(bs, i, size)[i].addr + HEADER == bs[i].addr + HEADER;
  }

  /** The block that takes the place of another one fits the rounded request. */
  lemma RelocatedSnug(bs: seq<Block>, was: seq<byte>, cs: seq<Block>, now: seq<byte>, start: nat, ptr: nat, size: nat,
                      res: nat)
    requires HEADER <= ptr && IsUsed(bs, ptr - HEADER)
    requires Reallocated(bs, was, cs, now, start, ptr, size, res) && res != 0 && res != ptr
    ensures Snug(cs, res, size)
  {
    hide FirstFit, InRegion, Payload, SameOutside;
    var j := FirstFit(bs, size);
    FirstFitSize(bs, size);
    HandedOut(bs, j, size);
    TakeAt(bs, j, size);
    var t := Taken(bs[j], size);
    assert t in Used(cs);
    var i :| 0 <= i < |cs| && cs[i] == t && !t.free;
  }

  lemma FirstFitSize(bs: seq<Block>, size: nat)
    ensures var j := FirstFit(bs, size); j < |bs| ==> bs[j].free && size <= bs[j].size
  {
  }

  lemma InUseServes(bs: seq<Block>, start: nat, end: nat, i: nat, request: nat)
    requires Inv(bs, start, end) && 0 < start && end <= WORD && i < |bs| && !bs[i].free
    requires 0 < request < WORD && Round(request) <= bs[i].size
    ensures Serves(bs, bs[i].addr + HEADER, request)
  {
    Rounding(request);
    if i > 0 { Apart(bs, start, end, 0, i); }
    if i < |bs| - 1 { Apart(bs, start, end, i, |bs| - 1); }
  }

  lemma TakeServes(bs: seq<Block>, start: nat, end: nat, i: nat, request: nat)
    requires Inv(bs, start, end) && 0 < start && end <= WORD && i < |bs| && bs[i].free
    requires 0 < request < WORD && Round(request) <= bs[i].size
    ensures Serves(Take(bs, i, Round(request)), bs[i].addr + HEADER, request)
  {
    hide Inv, Round, Serves, Take;
    TakeKeeps(bs, start, end, i, Round(request));
    TakeAt(bs, i, Round(request));
    InUseServes(Take(bs, i, Round(request)), start, end, i, request);
  }

  lemma ReallocatedServes(bs: seq<Block>, was: seq<byte>, cs: seq<Block>, now: seq<byte>, start: nat, end: nat,
                          ptr: nat, request: nat, res: nat)
    requires HEADER <= ptr && IsUsed(bs, ptr - HEADER) && Inv(cs, start, end) && 0 < start && end <= WORD
    requires 0 < request < WORD && Reallocated(bs, was, cs, now, start, ptr, Round(request), res)
    ensures res != 0 ==> Serves(cs, res, request)
  {
    hide Inv, Round, Serves, FirstFit, InRegion, Payload, SameOutside;
    var i, j := IndexAt(bs, ptr - HEADER), FirstFit(bs, Round(request));
    if Round(request) <= bs[i].size {
      InUseServes(cs, start, end, i, request);
    } else if j < |bs| {
      UsedServes(cs, start, end, Taken(bs[j], Round(request)), request);
    }
  }

  lemma UsedServes(bs: seq<Block>, start: nat, end: nat, b: Block, request: nat)
    requires Inv(bs, start, end) && 0 < start && end <= WORD && b in Used(bs)
    requires 0 < request < WORD && Round(request) <= b.size
    ensures Serves(bs, b.addr + HEADER, request)
  {
    hide Inv, Round, Serves;
    var i :| 0 <= i < |bs| && bs[i] == b && !b.free;
    InUseServes(bs, start, end, i, request);
  }

  /** Moving one block to t leaves the payload of every other block in use as it was. */
  lemma OthersIntact(bs: seq<Block>, start: nat, end: nat, j: nat, size: nat, i: nat, was: seq<byte>, now: seq<byte>)
    requires Inv(bs, start, end) && 0 < start && j < |bs| && bs[j].free && bs[j].size >= size && i < |bs| && !bs[i].free
    requires end - start == |was| && SameOutside(was, now, start, Taken(bs[j], size))
    ensures InRegion(was, start, bs[i]) && InRegion(now, start, bs[i])
    ensures Payload(now, start, bs[i]) == Payload(was, start, bs[i])
  {
    hide Tiles, NoTwoFree, Take, Splits;
    TakenPlace(bs, start, end, j, size, i);
    PayloadSame(bs[i], Taken(bs[j], size), start, was, now);
  }

  lemma PayloadSame(x: Block, t: Block, start: nat, was: seq<byte>, now: seq<byte>)
    requires InRegion(was, start, x) && SameOutside(was, now, start, t) && (End(x) <= t.addr || End(t) <= x.addr)
    ensures InRegion(now, start, x) && Payload(now, start, x) == Payload(was, start, x)
  {
    var lo, hi := x.addr + HEADER - start, End(x) - start;
    forall a | lo <= a < hi ensures now[a] == was[a] {
      assert !(t.addr + HEADER <= start + a < End(t));
    }
    assert now[lo..hi] == was[lo..hi];
  }

  lemma RelocatedIs(bs: seq<Block>, was: seq<byte>, taken: seq<Block>, cs: seq<Block>, now: seq<byte>, start: nat,
                    b: Block, t: Block)
    requires Used(taken) == Used(bs) + {t} && Used(cs) == Used(taken) - {b} && t != b && b.size <= t.size
    requires InRegion(was, start, b) && InRegion(was, start, t)
    requires now == Splice(was, t.addr + HEADER - start, was[b.addr + HEADER - start..End(b) - start])
    ensures Relocated(bs, was, cs, now, start, b, t, t.addr + HEADER)
  {
    hide Used;
    CopiedPayload(was, now, b.addr + HEADER - start, t.addr + HEADER - start, b.size, t.size);
  }

  lemma CopiedPayload(was: seq<byte>, now: seq<byte>, src: nat, dst: nat, n: nat, m: nat)
    requires src + n <= |was| && dst + m <= |was| && n <= m && now == Splice(was, dst, was[src..src + n])
    ensures now[dst..dst + m][..n] == was[src..src + n]
    ensures forall a :: 0 <= a < |was| && !(dst <= a < dst + m) ==> now[a] == was[a]
  {
    hide Splice;
    SpliceWindow(was, dst, was[src..src + n]);
    SliceOfSlice(now, dst, m, 0, n);
    forall a | 0 <= a < |was| && !(dst <= a < dst + m) ensures now[a] == was[a] {
      SpliceAt(was, dst, was[src..src + n], a);
    }
  }

  lemma StaysInTake(bs: seq<Block>, j: nat, size: nat, i: nat) returns (k: nat)
    requires j < |bs| && i < |bs| && i != j
    ensures var r := Take(bs, j, size); k < |r| && k != j && j < |r| && r[k] == bs[i] && r[j] == Taken(bs[j], size)
  {
    hide Take;
    TakeAt(bs, j, size);
    k := if j < i && Splits(bs[j], size) then i + 1 else i;
  }

  /** A used block keeps its place while another one is taken, and the two payloads do not overlap. */
  lemma TakenPlace(bs: seq<Block>, start: nat, end: nat, j: nat, size: nat, i: nat)
    requires Inv(bs, start, end) && 0 < start && j < |bs| && bs[j].free && bs[j].size >= size && i < |bs| && !bs[i].free
    ensures var r, t := Take(bs, j, size), Taken(bs[j], size);
      && Inv(r, start, end) && t != bs[i] && size <= t.size
      && IndexAt(r, bs[i].addr) < |r| && r[IndexAt(r, bs[i].addr)] == bs[i]
      && start <= t.addr && End(t) <= end && start <= bs[i].addr && End(bs[i]) <= end
      && (End(bs[i]) <= t.addr || End(t) <= bs[i].addr)
  {
    hide Take, Tiles, NoTwoFree, IndexAt;
    TakeKeeps(bs, start, end, j, size);
    var k := StaysInTake(bs, j, size, i);
    var r := Take(bs, j, size);
    IndexAtIs(r, start, end, k);
    PayloadsDisjoint(r, start, end, k, j);
    PayloadsDisjoint(r, start, end, j, k);
  }

  lemma FlagTiles(bs: seq<Block>, start: nat, end: nat, i: nat, free: bool)
    requires Tiles(bs, start, end) && i < |bs|
    ensures Tiles(bs[i := bs[i].(free := free)], start, end)
  {
  }

  lemma FlagStored(mem: map<nat, Header>, bs: seq<Block>, start: nat, end: nat, i: nat, free: bool)
    requires Stored(mem, bs) && Tiles(bs, start, end) && 0 < start && i < |bs|
    ensures bs[i].addr in mem
    ensures Stored(mem[bs[i].addr := mem[bs[i].addr].(free := free)], bs[i := bs[i].(free := free)])
  {
    StoredAt(mem, bs, i);
    hide Tiles;
    var r := bs[i := bs[i].(free := free)];
    var now := mem[bs[i].addr := mem[bs[i].addr].(free := free)];
    forall k | 0 <= k < |r| ensures StoredOne(now, r, k) {
      StoredAt(mem, bs, k);
      if k != i { AddrsDiffer(bs, start, end, k, i); }
    }
  }

  // ---- The heap ----

  class KernelHeap {
    const start: nat
    const end: nat
    var mem: map<nat, Header>
    var used: nat
    const bytes: array<byte>         // payload byte at address a is bytes[a - start]
    ghost var blocks: seq<Block>

    ghost predicate Valid()
      reads this, bytes
    {
      && 16 < start && end <= WORD && bytes.Length == end - start
      && Inv(blocks, start, end) && Stored(mem, blocks) && used == UsedSum(blocks)
    }

    /** heap_init */
    constructor (start: nat, size: nat)
      requires 16 < start && HEADER <= size && start + size <= WORD
      ensures Valid() && fresh(bytes) && this.start == start && end == start + size
      ensures blocks == [Block(start, size - HEADER, true)]
    {
      this.start, end := start, start + size;
      mem := map[start := Header(size - HEADER, true, 0, 0, MAGIC)];
      used := 0;
      bytes := new byte[size];
      blocks := [Block(start, size - HEADER, true)];
    }

    /** find_free: follow the links to the first free block that is large enough. */
    method FindFree(size: nat) returns (b: nat)
      requires Valid()
      ensures var i := FirstFit(blocks, size); b == if i < |blocks| then blocks[i].addr else 0
    {
      b := start;
      ghost var k: nat := 0;
      FirstFitStart(blocks, size);
      while b != 0
        invariant k <= |blocks| && b == (if k < |blocks| then blocks[k].addr else 0)
        invariant forall j :: 0 <= j < k ==> !(blocks[j].free && blocks[j].size >= size)
        decreases |blocks| - k
      {
        StoredAt(mem, blocks, k);
        var h := mem[b];
        if h.free && h.size >= size && h.magic == MAGIC {
          FirstFitIs(blocks, size, k);
          return;
        }
        b := h.next;
        k := k + 1;
        Addresses(blocks, start, end);
      }
      Addresses(blocks, start, end);
      FirstFitIs(blocks, size, k);
    }

    /** try_split */
    method TrySplit(b: nat, size: nat, ghost i: nat)
      requires Shape() && i < |blocks| && b == blocks[i].addr && size <= blocks[i].size
      modifies this`mem, this`blocks
      ensures blocks == Split(old(blocks), i, size) && Stored(mem, blocks)
    {
      NoWrap(blocks, start, end, i);
      StoredAt(mem, blocks, i);
      var h := mem[b];
      if h.size < (size + HEADER + MIN_SPLIT) % WORD { return; }
      SplitStored(mem, blocks, start, end, i, size);
      var nb := b + HEADER + size;
      mem := mem[nb := Header(h.size - size - HEADER, true, h.next, b, MAGIC)];
      if h.next != 0 { mem := mem[h.next := mem[h.next].(prev := nb)]; }
      mem := mem[b := mem[b].(next := nb, size := size)];
      blocks := Split(blocks, i, size);
    }

    /** The blocks tile the region and are stored; used_bytes and free neighbours may be out of step. */
    ghost predicate Shape()
      reads this
    {
      16 < start && end <= WORD && Tiles(blocks, start, end) && Stored(mem, blocks)
    }

    /** kmalloc */
    method Kmalloc(size: nat) returns (ptr: nat)
      requires Valid() && size < WORD
      modifies this`mem, this`used, this`blocks
      ensures Valid()
      ensures var i := FirstFit(old(blocks), Round(size));
        if size == 0 || i == |old(blocks)| then ptr == 0 && blocks == old(blocks)
        else ptr == old(blocks)[i].addr + HEADER && blocks == Take(old(blocks), i, Round(size))
      ensures ptr != 0 ==> Serves(blocks, ptr, size) && Snug(blocks, ptr, Round(size))
    {
      hide Serves, Snug, Split, Splits, Tiles, NoTwoFree, UsedSum, FirstFit, Used, Stored;
      if size == 0 { return 0; }
      var rounded := (size + 7) % WORD / 8 * 8;
      var b := FindFree(rounded);
      ghost var bs, i := blocks, FirstFit(blocks, rounded);
      Addresses(bs, start, end);
      if b == 0 { return 0; }
      TrySplit(b, rounded, i);
      TakeKeeps(bs, start, end, i, rounded);
      TakeUses(bs, start, end, i, rounded);
      TakeServes(bs, start, end, i, size);
      TakeSnug(bs, i, rounded);
      SplitHead(bs, i, rounded);
      SplitTiles(bs, start, end, i, rounded);
      FlagStored(mem, blocks, start, end, i, false);
      StoredAt(mem, blocks, i);
      mem := mem[b := mem[b].(free := false)];
      used := used + mem[b].size;
      blocks := blocks[i := blocks[i].(free := false)];
      ptr := b + HEADER;
    }

    /** One of the two mergers in try_merge: the block at a takes over the one behind it. */
    method Absorb(a: nat, ghost i: nat)
      requires Shape() && i + 1 < |blocks| && a == blocks[i].addr
      modifies this`mem, this`blocks
      ensures Shape() && blocks == Join(old(blocks), i)
    {
      JoinStored(mem, blocks, start, end, i);
      JoinTiles(blocks, start, end, i);
      var b := mem[a].next;
      var n := mem[b].next;
      mem := mem[a := mem[a].(size := mem[a].size + HEADER + mem[b].size, next := n)];
      if n != 0 { mem := mem[n := mem[n].(prev := a)]; }
      blocks := Join(blocks, i);
    }

    /** try_merge */
    method TryMerge(b: nat, ghost i: nat)
      requires Shape() && i < |blocks| && b == blocks[i].addr
      modifies this`mem, this`blocks
      ensures Shape() && blocks == Merge(old(blocks), i)
    {
      hide Join;
      Addresses(blocks, start, end);
      StoredAt(mem, blocks, i);
      if i + 1 < |blocks| { StoredAt(mem, blocks, i + 1); JoinAt(blocks, i); }
      var next := mem[b].next;
      if next != 0 && mem[next].free && mem[next].magic == MAGIC { Absorb(b, i); }
      Addresses(blocks, start, end);
      StoredAt(mem, blocks, i);
      if i > 0 { StoredAt(mem, blocks, i - 1); }
      var prev := mem[b].prev;
      if prev != 0 && mem[prev].free && mem[prev].magic == MAGIC { Absorb(prev, i - 1); }
    }

    /** kfree of the null pointer, or of a pointer to one of the heap's blocks */
    method Kfree(ptr: nat)
      requires Valid() && (ptr == 0 || (HEADER <= ptr && IndexAt(blocks, ptr - HEADER) < |blocks|))
      modifies this`mem, this`used, this`blocks
      ensures Valid()
      ensures ptr == 0 ==> blocks == old(blocks)
      ensures ptr != 0 ==>
        var i := IndexAt(old(blocks), ptr - HEADER);
        blocks == if old(blocks)[i].free then old(blocks) else Release(old(blocks), i)
    {
      hide Merge, Tiles, NoTwoFree, IndexAt, UsedSum;
      if ptr == 0 { return; }
      var b := ptr - HEADER;
      ghost var bs, i := blocks, IndexAt(blocks, ptr - HEADER);
      StoredAt(mem, blocks, i);
      if mem[b].magic != MAGIC || mem[b].free { return; }
      ReleaseKeeps(bs, start, end, i);
      ReleaseUses(bs, start, end, i);
      FlagStored(mem, blocks, start, end, i, true);
      FlagTiles(blocks, start, end, i, true);
      mem := mem[b := mem[b].(free := true)];
      if used >= mem[b].size { used := used - mem[b].size; }
      blocks := blocks[i := blocks[i].(free := true)];
      TryMerge(b, i);
    }

    /** The kmemcpy of krealloc, on offsets into the region */
    method CopyPayload(src: nat, dst: nat, n: nat)
      requires src + n <= bytes.Length && dst + n <= bytes.Length && (src + n <= dst || dst + n <= src)
      modifies bytes
      ensures bytes[..] == Splice(old(bytes[..]), dst, old(bytes[src..src + n]))
    {
      hide Splice;
      CopyStart(bytes[..], src, dst);
      var i := 0;
      while i < n
        invariant 0 <= i <= n
        invariant bytes[..] == Splice(old(bytes[..]), dst, old(bytes[src..src + i]))
      {
        CopyStep(old(bytes[..]), src, dst, i);
        assert bytes[..][src + i] == bytes[src + i];
        bytes[dst + i] := bytes[src + i];
        i := i + 1;
      }
    }

    /** krealloc of the null pointer, or of a pointer to a block in use */
    method Krealloc(ptr: nat, newSize: nat) returns (res: nat)
      requires Valid() && newSize < WORD
      requires ptr == 0 || (HEADER <= ptr && IsUsed(blocks, ptr - HEADER))
      modifies this`mem, this`used, this`blocks, bytes
      ensures Valid()
      ensures ptr == 0 ==> bytes[..] == old(bytes[..])
      ensures ptr == 0 ==>
        var i := FirstFit(old(blocks), Round(newSize));
        if newSize == 0 || i == |old(blocks)| then res == 0 && blocks == old(blocks)
        else res == old(blocks)[i].addr + HEADER && blocks == Take(old(blocks), i, Round(newSize))
      ensures ptr != 0 && newSize == 0 ==>
        res == 0 && blocks == Release(old(blocks), IndexAt(old(blocks), ptr - HEADER)) && bytes[..] == old(bytes[..])
      ensures ptr != 0 && newSize != 0 ==>
        Reallocated(old(blocks), old(bytes[..]), blocks, bytes[..], start, ptr, Round(newSize), res)
      ensures res != 0 ==> Serves(blocks, res, newSize)
      ensures res != 0 && res != ptr ==> Snug(blocks, res, Round(newSize))
    {
      hide Serves, Snug;
      if ptr == 0 { res := Kmalloc(newSize); return; }
      res := 0;
      if newSize == 0 { Kfree(ptr); return; }
      var b := ptr - HEADER;
      ghost var i := IndexAt(blocks, b);
      StoredAt(mem, blocks, i);
      if mem[b].magic != MAGIC { return; }
      var rounded := (newSize + 7) % WORD / 8 * 8;
      if mem[b].size >= rounded {
        ReallocatedServes(blocks, bytes[..], blocks, bytes[..], start, end, ptr, newSize, ptr);
        return ptr;
      }
      RoundTwice(newSize);
      ghost var bs, was := blocks, bytes[..];
      res := Relocate(ptr, rounded);
      ReallocatedServes(bs, was, blocks, bytes[..], start, end, ptr, newSize, res);
      if res != 0 && res != ptr { RelocatedSnug(bs, was, blocks, bytes[..], start, ptr, rounded, res); }
    }

    /** The last part of krealloc: a new block, the old bytes, and the old block freed. */
    method Relocate(ptr: nat, size: nat) returns (res: nat)
      requires Valid() && HEADER <= ptr && IsUsed(blocks, ptr - HEADER) && size < WORD && Round(size) == size
      requires blocks[IndexAt(blocks, ptr - HEADER)].size < size
      modifies this`mem, this`used, this`blocks, bytes
      ensures Valid()
      ensures Reallocated(old(blocks), old(bytes[..]), blocks, bytes[..], start, ptr, size, res)
    {
      hide Tiles, NoTwoFree, Take, Release, UsedSum, Splice, Used, Relocated, FirstFit;
      ghost var bs, i, j := blocks, IndexAt(blocks, ptr - HEADER), FirstFit(blocks, size);
      StoredAt(mem, bs, i);
      var n := mem[ptr - HEADER].size;
      res := Kmalloc(size);
      if res == 0 { Addresses(bs, start, end); return; }
      TakenPlace(bs, start, end, j, size, i);
      TakeUses(bs, start, end, j, size);
      ghost var taken, was := blocks, bytes[..];
      CopyPayload(ptr - start, res - start, n);
      ReleaseUses(taken, start, end, IndexAt(taken, ptr - HEADER));
      Kfree(ptr);
      RelocatedIs(bs, was, taken, blocks, bytes[..], start, bs[i], Taken(bs[j], size));
    }

    /** heap_free */
    method FreeBytes() returns (f: nat)
      requires Valid()
      ensures f == FreeSum(blocks)
      ensures used + f + HEADER * |blocks| == end - start
    {
      f := 0;
      var b := start;
      ghost var k: nat := 0;
      assert blocks[0..] == blocks;
      while b != 0
        invariant k <= |blocks| && b == if k < |blocks| then blocks[k].addr else 0
        invariant f + FreeSum(blocks[k..]) == FreeSum(blocks)
        decreases |blocks| - k
      {
        StoredAt(mem, blocks, k);
        Addresses(blocks, start, end);
        assert blocks[k..][0] == blocks[k] && blocks[k..][1..] == blocks[k + 1..];
        if mem[b].free { f := f + mem[b].size; }
        b := mem[b].next;
        k := k + 1;
      }
      Addresses(blocks, start, end);
      Conservation(blocks, start, end);
    }
  }

  /** Inside a region that starts past the first 16 bytes the sum in try_split cannot wrap. */
  lemma NoWrap(bs: seq<Block>, start: nat, end: nat, i: nat)
    requires Tiles(bs, start, end) && 16 < start && end <= WORD && i < |bs|
    ensures bs[i].size + HEADER + MIN_SPLIT < WORD
  {
    if i > 0 { Apart(bs, start, end, 0, i); }
    if i < |bs| - 1 { Apart(bs, start, end, i, |bs| - 1); }
  }

  lemma SplitTiles(bs: seq<Block>, start: nat, end: nat, i: nat, size: nat)
    requires Tiles(bs, start, end) && i < |bs|
    ensures Tiles(Split(bs, i, size), start, end) && i < |Split(bs, i, size)|
  {
    if !Splits(bs[i], size) {
      assert Split(bs, i, size) == bs;
    } else {
      SplitAt(bs, i, size);
      hide Split;
      var r := Split(bs, i, size);
      assert r[0].addr == start;
      assert End(r[|r| - 1]) == end by {
        if i < |bs| - 1 { assert r[|r| - 1] == bs[|bs| - 1]; }
      }
      forall k, m | 0 <= k < |r| && m == k + 1 && m < |r| ensures r[m].addr == End(r[k]) {
        if k < i {
          assert bs[m].addr == End(bs[k]);
        } else if k > i {
          assert bs[k].addr == End(bs[k - 1]);
        }
      }
    }
  }

  lemma FirstFitStart(bs: seq<Block>, size: nat)
    ensures bs == [] ==> FirstFit(bs, size) == 0
  {
  }

  lemma FirstFitIs(bs: seq<Block>, size: nat, k: nat)
    requires k <= |bs| && (k < |bs| ==> bs[k].free && bs[k].size >= size)
    requires forall j :: 0 <= j < k ==> !(bs[j].free && bs[j].size >= size)
    ensures FirstFit(bs, size) == k
  {
    hide FirstFit;
  }
}
