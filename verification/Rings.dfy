/** Ring buffers: the elements between two positions that wrap around, as a sequence. */
module Rings {
  import opened Arith

  /** The k-th cell after a position. */
  function Cell(tail: nat, k: nat, cap: nat): (c: nat)
    requires 0 < cap
    ensures c < cap
  {
    (tail + k) % cap
  }

  /** The len elements of a ring of cap cells from cell tail on, oldest first. */
  ghost function RingOf<T>(cells: seq<T>, cap: nat, tail: nat, len: nat): (r: seq<T>)
    requires 0 < cap <= |cells|
    ensures |r| == len
  {
    seq(len, k requires 0 <= k < len => cells[Cell(tail, k, cap)])
  }

  lemma CellSmall(tail: nat, k: nat, cap: nat)
    requires tail < cap && k <= cap
    ensures Cell(tail, k, cap) == if tail + k < cap then tail + k else tail + k - cap
  {
    if tail + k < cap {
      QuotientIs(tail + k, cap, 0, tail + k);
    } else {
      QuotientIs(tail + k, cap, 1, tail + k - cap);
    }
  }

  lemma CellsDiffer(tail: nat, j: nat, k: nat, cap: nat)
    requires tail < cap && j < k < cap
    ensures Cell(tail, j, cap) != Cell(tail, k, cap)
  {
    CellSmall(tail, j, cap);
    CellSmall(tail, k, cap);
  }

  lemma NextCell(tail: nat, k: nat, cap: nat)
    requires tail < cap && k < cap
    ensures Cell(Cell(tail, k, cap), 1, cap) == Cell(tail, k + 1, cap)
    ensures Cell(Cell(tail, 1, cap), k, cap) == Cell(tail, k + 1, cap)
  {
    CellSmall(tail, k, cap);
    CellSmall(tail, 1, cap);
    CellSmall(tail, k + 1, cap);
    CellSmall(Cell(tail, k, cap), 1, cap);
    CellSmall(Cell(tail, 1, cap), k, cap);
  }

  /** Storing behind the newest element appends. */
  lemma Push<T>(cells: seq<T>, cap: nat, tail: nat, len: nat, x: T)
    requires 0 < cap <= |cells| && tail < cap && len < cap
    ensures RingOf(cells[Cell(tail, len, cap) := x], cap, tail, len + 1) == RingOf(cells, cap, tail, len) + [x]
  {
    forall k: nat | k < len ensures Cell(tail, k, cap) != Cell(tail, len, cap) {
      CellsDiffer(tail, k, len, cap);
    }
    hide Cell;
  }

  /** The oldest element is in the tail cell; stepping over it removes it. */
  lemma Pop<T>(cells: seq<T>, cap: nat, tail: nat, len: nat)
    requires 0 < cap <= |cells| && tail < cap && 0 < len <= cap
    ensures var r := RingOf(cells, cap, tail, len);
      r[0] == cells[tail] && RingOf(cells, cap, Cell(tail, 1, cap), len - 1) == r[1..]
  {
    CellSmall(tail, 0, cap);
    forall k: nat | k < len - 1 ensures Cell(Cell(tail, 1, cap), k, cap) == Cell(tail, k + 1, cap) {
      NextCell(tail, k, cap);
    }
    hide Cell;
  }
}
