/**
 Counting semaphores. Each section between cli and sti is one step; a waiter that finds the count
 exhausted yields and tries again, so a run is a sequence of tries and signals by any processes.
 */
module Semaphores {
  const WORD := 0x1_0000_0000

  type int32 = x: int | -0x8000_0000 <= x < 0x8000_0000

  type u32 = x: nat | x < WORD

  datatype Section = Try | Signal

  /** The comparison in sem_signal is between unsigned numbers. */
  predicate Raises(count: int32, max: u32) { count % WORD < max && count < 0x7FFF_FFFF }

  class Semaphore {
    var count: int32
    const max: u32

    constructor (initial: int32, max: u32)
      ensures count == initial && this.max == max
    {
      count, this.max := initial, max;
    }

    /** One round of sem_wait */
    method TryWait() returns (got: bool)
      modifies this
      ensures got <==> old(count) > 0
      ensures count == if got then old(count) - 1 else old(count)
    {
      got := count > 0;
      if got { count := count - 1; }
    }

    /** sem_signal; at the largest count the source's increment would overflow */
    method Signal()
      requires count % WORD < max ==> count < 0x7FFF_FFFF
      modifies this
      ensures count == if Raises(old(count), max) then old(count) + 1 else old(count)
    {
      if count % WORD < max { count := count + 1; }
    }
  }

  function After(count: int32, max: u32, s: Section): int32 {
    match s
    case Try => if count > 0 then count - 1 else count
    case Signal => if Raises(count, max) then count + 1 else count
  }

  function Run(count: int32, max: u32, ss: seq<Section>): int32
    decreases |ss|
  {
    if ss == [] then count else Run(After(count, max, ss[0]), max, ss[1..])
  }

  /** Successful waits, and signals that raised the count. */
  function Waits(count: int32, max: u32, ss: seq<Section>): nat
    decreases |ss|
  {
    if ss == [] then 0
    else (if ss[0].Try? && count > 0 then 1 else 0) + Waits(After(count, max, ss[0]), max, ss[1..])
  }

  function Raised(count: int32, max: u32, ss: seq<Section>): nat
    decreases |ss|
  {
    if ss == [] then 0
    else (if ss[0].Signal? && Raises(count, max) then 1 else 0) + Raised(After(count, max, ss[0]), max, ss[1..])
  }

  /**
   Units are conserved in every run, so no more waits succeed than units were there or were
   signalled; and a count that starts between 0 and the maximum stays there.
   */
  lemma {:induction false} UnitsConserved(count: int32, max: u32, ss: seq<Section>)
    ensures Run(count, max, ss) == count + Raised(count, max, ss) - Waits(count, max, ss)
    ensures 0 <= count ==> 0 <= Run(count, max, ss)
    ensures 0 <= count <= max ==> Run(count, max, ss) <= max
    decreases |ss|
  {
    if ss != [] {
      UnitsConserved(After(count, max, ss[0]), max, ss[1..]);
    }
  }

  /** A signal raises a count between 0 and the maximum; a negative count passes for one of 2^31 or more. */
  lemma RaisesExact(count: int32, max: u32)
    requires count < 0x7FFF_FFFF
    ensures Raises(count, max) <==> if count >= 0 then count < max else count + 0x1_0000_0000 < max
  {
  }
}
