/**
 The packet queue between the interrupt that receives packets and the code that handles them: 32
 slots, of which 31 are in the cycle, one producer and one consumer that are not kept apart by any
 lock. Every access to something that the other side also uses, and every byte copied, is a step of its
 own. A position that only one side writes is the same, for that side, as its local copy of it.
 */
module NetQueue {
  import opened Bytes
  import opened Rings

  const CYCLE := 31
  const PACKET_MAX := 1536

  type Data = d: seq<byte> | |d| == PACKET_MAX witness seq(PACKET_MAX, i => 0)

  datatype Slot = Slot(data: Data, len: nat)

  type Packet = p: seq<byte> | 0 < |p| <= PACKET_MAX witness [0]

  /** Where the producer is in netq_enqueue: which packet, and how many bytes are copied. */
  datatype Producer = Idle | Copying(p: Packet, k: nat) | Stored(p: Packet)

  /** Where the consumer is in netq_dequeue. */
  datatype Consumer = Waiting | Chosen | Taking(n: nat, got: seq<byte>)

  datatype World = World(
    slots: seq<Slot>, head: nat, tail: nat, producer: Producer, consumer: Consumer,
    accepted: seq<Packet>, delivered: seq<seq<byte>>)

  datatype Step =
    | Offer(p: Packet)      // netq_enqueue begins: tail is read and compared
    | CopyIn                // one byte into the slot, or, after the last, its length
    | Publish               // head moves on
    | Look                  // netq_dequeue begins: head is read and compared
    | Length                // the length of the oldest packet is read
    | CopyOut               // one byte out of the slot
    | Release               // tail moves on

  function Queued(head: nat, tail: nat): nat
    requires head < CYCLE && tail < CYCLE
  {
    (head + CYCLE - tail) % CYCLE
  }

  predicate Shape(w: World) {
    && |w.slots| == CYCLE + 1 && w.head < CYCLE && w.tail < CYCLE
    && (w.producer.Copying? ==> w.producer.k <= |w.producer.p|)
    && (w.consumer.Taking? ==> |w.consumer.got| <= w.consumer.n && |w.consumer.got| <= PACKET_MAX)
  }

  predicate Enabled(w: World, s: Step) {
    match s
    case Offer(p) => w.producer.Idle?
    case CopyIn => w.producer.Copying?
    case Publish => w.producer.Stored?
    case Look => w.consumer.Waiting?
    case Length => w.consumer.Chosen?
    case CopyOut => w.consumer.Taking? && |w.consumer.got| < w.consumer.n && |w.consumer.got| < PACKET_MAX
    case Release => w.consumer.Taking? && |w.consumer.got| == w.consumer.n
  }

  function Next(w: World, s: Step): World
    requires Shape(w) && Enabled(w, s)
  {
    match s
    case Offer(p) =>
      if (w.head + 1) % CYCLE == w.tail then w else w.(producer := Copying(p, 0))
    case CopyIn =>
      var p, k := w.producer.p, w.producer.k;
      if k < |p| then
        w.(slots := w.slots[w.head := w.slots[w.head].(data := w.slots[w.head].data[k := p[k]])],
           producer := Copying(p, k + 1))
      else w.(slots := w.slots[w.head := w.slots[w.head].(len := |p|)], producer := Stored(p))
    case Publish =>
      w.(head := (w.head + 1) % CYCLE, producer := Idle, accepted := w.accepted + [w.producer.p])
    case Look =>
      if w.head == w.tail then w else w.(consumer := Chosen)
    case Length =>
      w.(consumer := Taking(w.slots[w.tail].len, []))
    case CopyOut =>
      var got := w.consumer.got;
      w.(consumer := Taking(w.consumer.n, got + [w.slots[w.tail].data[|got|]]))
    case Release =>
      w.(tail := (w.tail + 1) % CYCLE, consumer := Waiting, delivered := w.delivered + [w.consumer.got])
  }

  // ---- What holds in every reachable state ----

  ghost predicate Holds(s: Slot, p: Packet) { s.len == |p| && s.data[..|p|] == p }

  /**
   Delivered packets are the first accepted ones; the queued slots hold the next ones; the slot
   being filled is not queued; the bytes taken so far are those of the oldest packet.
   */
  ghost predicate Inv(w: World) {
    && Shape(w)
    && |w.accepted| == |w.delivered| + Queued(w.head, w.tail)
    && (forall i :: 0 <= i < |w.delivered| ==> w.delivered[i] == w.accepted[i])
    && (forall i :: 0 <= i < Queued(w.head, w.tail) ==>
          Holds(w.slots[Cell(w.tail, i, CYCLE)], w.accepted[|w.delivered| + i]))
    && (!w.producer.Idle? ==> Queued(w.head, w.tail) < CYCLE - 1)
    && (w.producer.Copying? ==> w.slots[w.head].data[..w.producer.k] == w.producer.p[..w.producer.k])
    && (w.producer.Stored? ==> Holds(w.slots[w.head], w.producer.p))
    && (!w.consumer.Waiting? ==> 0 < Queued(w.head, w.tail))
    && (w.consumer.Taking? ==>
          && w.consumer.n == |w.accepted[|w.delivered|]|
          && w.consumer.got == w.accepted[|w.delivered|][..|w.consumer.got|])
  }

  /** The producer's slot is not one that is queued. */
  lemma HeadIsFree(head: nat, tail: nat)
    requires head < CYCLE && tail < CYCLE
    ensures Cell(tail, Queued(head, tail), CYCLE) == head
    ensures forall i :: 0 <= i < Queued(head, tail) ==> Cell(tail, i, CYCLE) != head
  {
  }

  lemma Moved(head: nat, tail: nat)
    requires head < CYCLE && tail < CYCLE
    ensures Queued(head, tail) <= CYCLE - 1 && (Queued(head, tail) == 0 <==> head == tail)
    ensures (head + 1) % CYCLE == tail <==> Queued(head, tail) == CYCLE - 1
    ensures Queued(head, tail) < CYCLE - 1 ==> Queued((head + 1) % CYCLE, tail) == Queued(head, tail) + 1
    ensures 0 < Queued(head, tail) ==> Queued(head, (tail + 1) % CYCLE) == Queued(head, tail) - 1
    ensures (head + 1) % CYCLE < CYCLE && (tail + 1) % CYCLE < CYCLE
  {
    assert (head + 1) % CYCLE == if head + 1 == CYCLE then 0 else head + 1;
    assert (tail + 1) % CYCLE == if tail + 1 == CYCLE then 0 else tail + 1;
    assert Queued(head, tail) == if tail <= head then head - tail else head - tail + CYCLE;
  }

  lemma NextTail(tail: nat, i: nat)
    requires tail < CYCLE && i < CYCLE
    ensures Cell((tail + 1) % CYCLE, i, CYCLE) == Cell(tail, i + 1, CYCLE)
  {
  }

  lemma TailCell(tail: nat)
    requires tail < CYCLE
    ensures Cell(tail, 0, CYCLE) == tail
  {
  }

  /** Stores into the producer's slot leave the queued slots alone. */
  lemma StoreKeeps(w: World, slot: Slot, producer: Producer)
    requires Inv(w) && Queued(w.head, w.tail) < CYCLE - 1
    requires producer.Copying? ==> producer.k <= |producer.p| && slot.data[..producer.k] == producer.p[..producer.k]
    requires producer.Stored? ==> Holds(slot, producer.p)
    ensures Inv(w.(slots := w.slots[w.head := slot], producer := producer))
  {
    hide Cell, Queued, Holds;
    Moved(w.head, w.tail);
    HeadIsFree(w.head, w.tail);
    var v := w.(slots := w.slots[w.head := slot], producer := producer);
    forall i | 0 <= i < Queued(w.head, w.tail)
      ensures Holds(v.slots[Cell(w.tail, i, CYCLE)], w.accepted[|w.delivered| + i])
    {
      assert Cell(w.tail, i, CYCLE) != w.head;
    }
  }

  lemma CopyInKeeps(w: World)
    requires Inv(w) && w.producer.Copying?
    ensures Inv(Next(w, CopyIn))
  {
    hide Cell, Queued;
    var p, k, slot := w.producer.p, w.producer.k, w.slots[w.head];
    if k < |p| {
      var d := slot.data[k := p[k]];
      assert d[..k + 1] == slot.data[..k] + [p[k]] && p[..k + 1] == p[..k] + [p[k]];
      StoreKeeps(w, slot.(data := d), Copying(p, k + 1));
    } else {
      assert p[..k] == p;
      StoreKeeps(w, slot.(len := |p|), Stored(p));
    }
  }

  lemma PublishKeeps(w: World)
    requires Inv(w) && w.producer.Stored?
    ensures Inv(Next(w, Publish))
  {
    hide Cell, Queued, Holds;
    Moved(w.head, w.tail);
    HeadIsFree(w.head, w.tail);
    var v := Next(w, Publish);
    assert Queued(v.head, v.tail) == Queued(w.head, w.tail) + 1;
    forall i | 0 <= i < Queued(v.head, v.tail)
      ensures Holds(v.slots[Cell(v.tail, i, CYCLE)], v.accepted[|v.delivered| + i])
    {
      if i == Queued(w.head, w.tail) {
        assert v.accepted[|v.delivered| + i] == w.producer.p;
      } else {
        assert v.accepted[|v.delivered| + i] == w.accepted[|w.delivered| + i];
      }
    }
  }

  lemma CopyOutKeeps(w: World)
    requires Inv(w) && Enabled(w, CopyOut)
    ensures Inv(Next(w, CopyOut))
  {
    hide Cell, Queued;
    TailCell(w.tail);
    var p, got, slot := w.accepted[|w.delivered|], w.consumer.got, w.slots[w.tail];
    assert Holds(w.slots[Cell(w.tail, 0, CYCLE)], w.accepted[|w.delivered| + 0]);
    assert slot.data[|got|] == slot.data[..|p|][|got|] == p[|got|];
    assert p[..|got| + 1] == p[..|got|] + [p[|got|]];
  }

  lemma ReleaseKeeps(w: World)
    requires Inv(w) && Enabled(w, Release)
    ensures Inv(Next(w, Release))
  {
    hide Cell, Queued, Holds;
    Moved(w.head, w.tail);
    var v, p := Next(w, Release), w.accepted[|w.delivered|];
    assert p[..|p|] == p;
    assert Queued(v.head, v.tail) == Queued(w.head, w.tail) - 1;
    forall i | 0 <= i < Queued(v.head, v.tail)
      ensures Holds(v.slots[Cell(v.tail, i, CYCLE)], v.accepted[|v.delivered| + i])
    {
      NextTail(w.tail, i);
      assert v.accepted[|v.delivered| + i] == w.accepted[|w.delivered| + (i + 1)];
    }
  }

  lemma LookKeeps(w: World)
    requires Inv(w) && w.consumer.Waiting?
    ensures Inv(Next(w, Look))
  {
    hide Cell, Queued, Holds;
    Moved(w.head, w.tail);
  }

  lemma LengthKeeps(w: World)
    requires Inv(w) && w.consumer.Chosen?
    ensures Inv(Next(w, Length))
  {
    hide Cell, Queued;
    TailCell(w.tail);
    assert Holds(w.slots[Cell(w.tail, 0, CYCLE)], w.accepted[|w.delivered| + 0]);
  }

  lemma OfferKeeps(w: World, p: Packet)
    requires Inv(w) && w.producer.Idle?
    ensures Inv(Next(w, Offer(p)))
  {
    hide Cell, Queued, Holds;
    Moved(w.head, w.tail);
    assert w.slots[w.head].data[..0] == p[..0];
  }

  lemma StepKeeps(w: World, s: Step)
    requires Inv(w) && Enabled(w, s)
    ensures Inv(Next(w, s))
  {
    hide Inv;
    match s
    case Offer(p) => OfferKeeps(w, p);
    case CopyIn => CopyInKeeps(w);
    case Publish => PublishKeeps(w);
    case Look => LookKeeps(w);
    case Length => LengthKeeps(w);
    case CopyOut => CopyOutKeeps(w);
    case Release => ReleaseKeeps(w);
  }

  // ---- Runs ----

  ghost predicate IsRun(w: World, steps: seq<Step>)
    decreases |steps|
  {
    steps == [] ||
    (Shape(w) && Enabled(w, steps[0]) && IsRun(Next(w, steps[0]), steps[1..]))
  }

  ghost function After(w: World, steps: seq<Step>): World
    requires IsRun(w, steps)
    decreases |steps|
  {
    if steps == [] then w else After(Next(w, steps[0]), steps[1..])
  }

  /** netq_init, whatever the slots contain */
  predicate Initial(w: World) {
    |w.slots| == CYCLE + 1 && w.head == 0 && w.tail == 0 && w.producer.Idle? && w.consumer.Waiting?
    && w.accepted == [] && w.delivered == []
  }

  lemma {:induction false} RunKeeps(w: World, steps: seq<Step>)
    requires Inv(w) && IsRun(w, steps)
    ensures Inv(After(w, steps))
    decreases |steps|
  {
    hide Inv, Next, Enabled;
    if steps != [] {
      StepKeeps(w, steps[0]);
      RunKeeps(Next(w, steps[0]), steps[1..]);
    }
  }

  /** In every interleaving packets come out in order, unaltered, and at most 30 are queued. */
  lemma FirstInFirstOut(w: World, steps: seq<Step>)
    requires Initial(w) && IsRun(w, steps)
    ensures var v := After(w, steps);
      && |v.delivered| <= |v.accepted| <= |v.delivered| + 30
      && forall i :: 0 <= i < |v.delivered| ==> v.delivered[i] == v.accepted[i]
  {
    hide After, IsRun;
    assert Inv(w);
    RunKeeps(w, steps);
    var v := After(w, steps);
    Moved(v.head, v.tail);
  }

  /** In every interleaving the slot that the producer fills is not the one that the consumer empties. */
  lemma NeverTheSameSlot(w: World, steps: seq<Step>)
    requires Initial(w) && IsRun(w, steps)
    ensures var v := After(w, steps);
      !v.producer.Idle? && !v.consumer.Waiting? ==> v.head != v.tail
  {
    hide After, IsRun;
    assert Inv(w);
    RunKeeps(w, steps);
    var v := After(w, steps);
    Moved(v.head, v.tail);
  }

  // ---- The two routines, each when the other one does not interfere ----

  ghost predicate SlotsOk(slots: seq<Slot>, head: nat, tail: nat) {
    && |slots| == CYCLE + 1 && head < CYCLE && tail < CYCLE
    && forall i :: 0 <= i < Queued(head, tail) ==> slots[Cell(tail, i, CYCLE)].len <= PACKET_MAX
  }

  /** The packets from tail to head, oldest first. */
  ghost function PacketsIn(slots: seq<Slot>, head: nat, tail: nat): (r: seq<seq<byte>>)
    requires SlotsOk(slots, head, tail)
    ensures |r| == Queued(head, tail)
  {
    seq(Queued(head, tail), i requires 0 <= i < Queued(head, tail) =>
      slots[Cell(tail, i, CYCLE)].data[..slots[Cell(tail, i, CYCLE)].len])
  }

  lemma Enqueued(slots: seq<Slot>, head: nat, tail: nat, slot: Slot)
    requires SlotsOk(slots, head, tail) && Queued(head, tail) < CYCLE - 1 && slot.len <= PACKET_MAX
    ensures var next, now := (head + 1) % CYCLE, slots[head := slot];
      SlotsOk(now, next, tail) && PacketsIn(now, next, tail) == PacketsIn(slots, head, tail) + [slot.data[..slot.len]]
  {
    hide Cell, Queued;
    Moved(head, tail);
    HeadIsFree(head, tail);
    var q, next, now := Queued(head, tail), (head + 1) % CYCLE, slots[head := slot];
    assert forall i :: 0 <= i < q ==> now[Cell(tail, i, CYCLE)] == slots[Cell(tail, i, CYCLE)];
    assert now[Cell(tail, q, CYCLE)] == slot;
  }

  lemma Dequeued(slots: seq<Slot>, head: nat, tail: nat)
    requires SlotsOk(slots, head, tail) && 0 < Queued(head, tail)
    ensures var next := (tail + 1) % CYCLE;
      && SlotsOk(slots, head, next) && slots[tail].len <= PACKET_MAX
      && PacketsIn(slots, head, tail) == [slots[tail].data[..slots[tail].len]] + PacketsIn(slots, head, next)
  {
    hide Cell, Queued;
    Moved(head, tail);
    TailCell(tail);
    var next := (tail + 1) % CYCLE;
    forall i | 0 <= i < Queued(head, next) ensures Cell(next, i, CYCLE) == Cell(tail, i + 1, CYCLE) {
      NextTail(tail, i);
    }
    assert slots[Cell(tail, 0, CYCLE)].len <= PACKET_MAX;
    forall i | 0 <= i < Queued(head, next) ensures slots[Cell(next, i, CYCLE)].len <= PACKET_MAX {
      assert slots[Cell(tail, i + 1, CYCLE)].len <= PACKET_MAX;
    }
  }

  class Queue {
    const slots: array<Slot>
    var head: nat
    var tail: nat

    ghost predicate Valid()
      reads this, slots
    {
      SlotsOk(slots[..], head, tail)
    }

    ghost function Packets(): seq<seq<byte>>
      reads this, slots
      requires Valid()
    {
      PacketsIn(slots[..], head, tail)
    }

    /** netq_enqueue */
    method Enqueue(data: seq<byte>) returns (ok: bool)
      requires Valid()
      modifies this`head, slots
      ensures Valid()
      ensures ok <==> 0 < |data| <= 1536 && |old(Packets())| < 30
      ensures Packets() == if ok then old(Packets()) + [data] else old(Packets())
    {
      hide Cell, Queued, PacketsIn;
      if |data| == 0 || |data| > PACKET_MAX { return false; }
      Moved(head, tail);
      var next := (head + 1) % CYCLE;
      if next == tail { return false; }
      var filled: Data := data + slots[head].data[|data|..];
      Enqueued(slots[..], head, tail, Slot(filled, |data|));
      slots[head] := Slot(filled, |data|);
      assert slots[..] == old(slots[..])[head := Slot(filled, |data|)] && filled[..|data|] == data;
      head := next;
      ok := true;
    }

    /** netq_dequeue */
    method Dequeue() returns (ok: bool, out: seq<byte>)
      requires Valid()
      modifies this`tail
      ensures Valid() && (ok <==> old(Packets()) != [])
      ensures if ok then old(Packets()) == [out] + Packets() else Packets() == old(Packets())
    {
      hide Cell, Queued, PacketsIn;
      Moved(head, tail);
      if head == tail { return false, []; }
      Dequeued(slots[..], head, tail);
      out := slots[tail].data[..slots[tail].len];
      tail := (tail + 1) % CYCLE;
      ok := true;
    }
  }

  /** A packet offered is taken exactly if fewer than 30 wait; the consumer finds one exactly if one waits. */
  lemma OfferAndLook(w: World, p: Packet)
    requires Inv(w)
    ensures w.producer.Idle? ==>
      (Next(w, Offer(p)).producer == Copying(p, 0) <==> |w.accepted| - |w.delivered| < 30)
    ensures w.producer.Idle? ==> (Next(w, Offer(p)) == w <==> |w.accepted| - |w.delivered| >= 30)
    ensures w.consumer.Waiting? ==> (Next(w, Look).consumer.Chosen? <==> |w.accepted| > |w.delivered|)
  {
    hide Queued, Cell;
    Moved(w.head, w.tail);
  }
}
