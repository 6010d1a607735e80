/**
 The page bitmap: one bit per physical page, set while the page is in use, and a counter that is
 meant to be the number of set bits.
 */
module Frames {

  const PAGE := 4096
  const BITMAP_BYTES := 32768

  function Bit(k: nat): bv8
    requires k < 8
  {
    1 as bv8 << k
  }

  predicate Test(b: bv8, k: nat)
    requires k < 8
  {
    b & Bit(k) != 0
  }

  lemma BitConst(k: nat)
    requires k < 8
    ensures Bit(k) == [1, 2, 4, 8, 16, 32, 64, 128][k]
  {
  }

  predicate OneBit(m: bv8) { m != 0 && m & (m - 1) == 0 }

  lemma MaskOps(b: bv8, m: bv8, n: bv8)
    requires OneBit(m) && OneBit(n)
    ensures (b | m) & n != 0 <==> m == n || b & n != 0
    ensures (b & !m) & n != 0 <==> m != n && b & n != 0
  {
  }

  lemma BitIsOne(k: nat, j: nat)
    requires k < 8 && j < 8
    ensures OneBit(Bit(k)) && (Bit(k) == Bit(j) <==> k == j)
  {
    BitConst(k);
    BitConst(j);
  }

  /** Setting or clearing one bit of a byte leaves the others alone. */
  lemma BitOps(b: bv8, k: nat, j: nat)
    requires k < 8 && j < 8
    ensures Test(b | Bit(k), j) <==> j == k || Test(b, j)
    ensures Test(b & !Bit(k), j) <==> j != k && Test(b, j)
  {
    hide Bit, OneBit;
    BitIsOne(k, j);
    BitIsOne(j, k);
    MaskOps(b, Bit(k), Bit(j));
  }

  lemma FullByte(k: nat)
    requires k < 8
    ensures Test(0xFF, k)
  {
    BitConst(k);
  }

  /** How many of the bits are set. */
  ghost function Count(bits: seq<bool>): nat {
    if bits == [] then 0 else Count(bits[..|bits| - 1]) + if bits[|bits| - 1] then 1 else 0
  }

  lemma {:induction false} CountSet(bits: seq<bool>, i: nat, v: bool)
    requires i < |bits|
    ensures Count(bits[i := v]) == Count(bits) + (if v then 1 else 0) - (if bits[i] then 1 else 0)
  {
    var m := |bits| - 1;
    if i == m {
      assert bits[i := v][..m] == bits[..m];
    } else {
      assert bits[i := v][..m] == bits[..m][i := v];
      CountSet(bits[..m], i, v);
    }
  }

  lemma {:induction false} CountBounds(bits: seq<bool>)
    ensures Count(bits) <= |bits|
    ensures Count(bits) == |bits| <==> forall i :: 0 <= i < |bits| ==> bits[i]
  {
    if bits != [] {
      var m := |bits| - 1;
      CountBounds(bits[..m]);
      if Count(bits) == |bits| {
        forall i | 0 <= i < |bits| ensures bits[i] {
          if i < m { assert bits[..m][i]; }
        }
      }
    }
  }

  /** n bits of which the first k are set. */
  lemma {:induction false} CountLow(bits: seq<bool>, k: nat)
    requires forall i :: 0 <= i < |bits| ==> (bits[i] <==> i < k)
    ensures Count(bits) == if k < |bits| then k else |bits|
  {
    if bits != [] { CountLow(bits[..|bits| - 1], k); }
  }

  /** Pages up to an address, the last one rounded up. */
  function PagesOf(address: nat): nat { (address + PAGE - 1) / PAGE }

  /** Pages below this one are set by the first loop of pmm_init and not cleared by the second. */
  function InitiallySet(total: nat, kernelEnd: nat): nat {
    if PagesOf(kernelEnd) < 8 * (total / 8) then PagesOf(kernelEnd) else 8 * (total / 8)
  }

  /** A page is set at first if it starts before the kernel's end and its byte is a whole one. */
  lemma SetAtFirst(total: nat, kernelEnd: nat, page: nat)
    ensures page < InitiallySet(total, kernelEnd) <==> 4096 * page < kernelEnd && page < total - total % 8
  {
  }

  predicate CountsRight(total: nat, kernelEnd: nat) {
    if PagesOf(kernelEnd) < total then 256 <= PagesOf(kernelEnd) <= 8 * (total / 8)
    else total % 8 == 0 || total <= 256
  }

  function Least(a: nat, b: nat): nat { if a < b then a else b }

  lemma CountedAndSet(total: nat, kernelEnd: nat)
    ensures var low := InitiallySet(total, kernelEnd);
      CountsRight(total, kernelEnd)
      <==> Least(PagesOf(kernelEnd), total) == Least(if low < 256 then 256 else low, total)
  {
    hide PagesOf;
  }

  class Bitmap {
    const bytes: array<bv8>
    const total: nat
    var used: nat

    ghost predicate Shape() {
      bytes.Length == BITMAP_BYTES && total <= 8 * BITMAP_BYTES
    }

    /** The bits of the pages that exist. */
    ghost function Bits(): (r: seq<bool>)
      reads bytes
      requires Shape()
      ensures |r| == total
    {
      seq(total, i requires 0 <= i < total reads bytes requires Shape() => Taken(i))
    }

    ghost predicate Valid()
      reads this, bytes
    {
      Shape() && used == Count(Bits())
    }

    predicate Taken(page: nat)
      reads bytes
      requires Shape() && page < 8 * BITMAP_BYTES
    {
      Test(bytes[page / 8], page % 8)
    }

    method SetBit(page: nat)
      requires Shape() && page < 8 * BITMAP_BYTES
      modifies bytes
      ensures Shape() && forall i :: 0 <= i < 8 * BITMAP_BYTES ==> (Taken(i) <==> i == page || old(Taken(i)))
    {
      bytes[page / 8] := bytes[page / 8] | Bit(page % 8);
      forall i | 0 <= i < 8 * BITMAP_BYTES ensures Taken(i) <==> i == page || old(Taken(i)) {
        if i / 8 == page / 8 { BitOps(old(bytes[page / 8]), page % 8, i % 8); }
      }
    }

    method ClearBit(page: nat)
      requires Shape() && page < 8 * BITMAP_BYTES
      modifies bytes
      ensures Shape() && forall i :: 0 <= i < 8 * BITMAP_BYTES ==> (Taken(i) <==> i != page && old(Taken(i)))
    {
      bytes[page / 8] := bytes[page / 8] & !Bit(page % 8);
      forall i | 0 <= i < 8 * BITMAP_BYTES ensures Taken(i) <==> i != page && old(Taken(i)) {
        if i / 8 == page / 8 { BitOps(old(bytes[page / 8]), page % 8, i % 8); }
      }
    }

    /**
     pmm_init. Only whole bytes of the bitmap are set at first, so of a last byte that is not full the bits
     start out clear. The counter is right exactly when the kernel ends past the 256 pages that are reserved
     at the end and before that last byte; or past all of memory, if there is no such byte or it is reserved.
     */
    constructor (memory: nat, kernelEnd: nat)
      requires memory / PAGE <= 8 * BITMAP_BYTES
      ensures Shape() && fresh(bytes) && total == memory / PAGE
      ensures forall i :: 0 <= i < total ==> (Bits()[i] <==> i < 256 || i < InitiallySet(total, kernelEnd))
      ensures Valid() <==> CountsRight(total, kernelEnd)
    {
      hide CountsRight, PagesOf;
      bytes := new bv8[BITMAP_BYTES](i => 0);
      total := memory / PAGE;
      new;
      var size := total / 8;
      ghost var whole := 8 * size;
      var i := 0;
      while i < size
        invariant bytes.Length == BITMAP_BYTES && 0 <= i <= size
        invariant forall k :: 0 <= k < BITMAP_BYTES ==> bytes[k] == if k < i then 0xFF else 0
      {
        bytes[i] := 0xFF;
        i := i + 1;
      }
      forall k | 0 <= k < total ensures Taken(k) <==> k < whole { FullByte(k % 8); }
      used := total;
      var first := PagesOf(kernelEnd);
      i := first;
      while i < total
        invariant Shape()
        invariant first <= i && (i <= total || i == first)
        invariant used == if first < total then total - (i - first) else total
        invariant forall k :: 0 <= k < total ==> (Taken(k) <==> k < whole && !(first <= k < i))
      {
        used := used - 1;
        ClearBit(i);
        i := i + 1;
      }
      i := 0;
      while i < 256
        invariant Shape() && 0 <= i <= 256
        invariant used == if first < total then first else total
        invariant forall k :: 0 <= k < total ==> (Taken(k) <==> k < i || (k < first && k < whole))
      {
        SetBit(i);
        i := i + 1;
      }
      ghost var low := InitiallySet(total, kernelEnd);
      CountLow(Bits(), if low < 256 then 256 else low);
      CountedAndSet(total, kernelEnd);
    }

    /** pmm_alloc: the lowest free page; 0 stands for none */
    method Alloc() returns (page: nat)
      requires Valid() && (total > 0 ==> Taken(0))
      modifies this`used, bytes
      ensures Valid()
      ensures page == 0 ==> Bits() == old(Bits()) && forall i :: 0 <= i < total ==> Bits()[i]
      ensures page != 0 ==> page < total && !old(Bits())[page] && Bits() == old(Bits())[page := true]
      ensures page != 0 ==> forall i :: 0 <= i < page ==> old(Bits())[i]
    {
      page := 0;
      while page < total
        invariant page <= total && forall i :: 0 <= i < page ==> Bits()[i]
      {
        if !Taken(page) {
          CountSet(Bits(), page, true);
          SetBit(page);
          used := used + 1;
          assert Bits() == old(Bits())[page := true];
          return;
        }
        page := page + 1;
      }
      page := 0;
    }

    /** pmm_free */
    method Free(page: nat)
      requires Valid() && page < total
      modifies this`used, bytes
      ensures Valid() && Bits() == old(Bits())[page := false]
    {
      if Taken(page) {
        CountSet(Bits(), page, false);
        CountBounds(Bits()[page := false]);
        ClearBit(page);
        used := used - 1;
      }
      assert Bits() == old(Bits())[page := false];
    }

    /** pmm_free_pages */
    method FreePages() returns (n: nat)
      requires Valid()
      ensures n + Count(Bits()) == total
    {
      CountBounds(Bits());
      n := total - used;
    }
  }
}
