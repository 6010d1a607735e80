/**
 A pipe: a ring of 1024 bytes filled and emptied in sections that no interrupt can split. Any number
 of writers and readers may interleave their sections.
 */
module Pipes {
  import opened Arith
  import opened Bytes
  import opened Rings

  const SIZE := 1024

  class Pipe {
    const buf: array<byte>
    var readPos: nat
    var writePos: nat
    var count: nat
    var writeClosed: bool

    ghost predicate Valid()
      reads this
    {
      buf.Length == SIZE && readPos < SIZE && count <= SIZE && writePos == Cell(readPos, count, SIZE)
    }

    /** The bytes in the pipe, oldest first. */
    ghost function Contents(): seq<byte>
      reads this, buf
      requires Valid()
    {
      RingOf(buf[..], SIZE, readPos, count)
    }

    /** pipe_create, for a slot with its own buffer */
    constructor ()
      ensures Valid() && fresh(buf) && Contents() == [] && !writeClosed
    {
      buf := new byte[SIZE];
      readPos, writePos, count, writeClosed := 0, 0, 0, false;
    }

    /** The uninterrupted section of pipe_write: as many of the remaining bytes as there is room for. */
    method WriteSection(data: seq<byte>, written: nat) returns (n: nat)
      requires Valid() && written <= |data|
      modifies this`writePos, this`count, buf
      ensures Valid() && n == Min(|data| - written, SIZE - |old(Contents())|)
      ensures Contents() == old(Contents()) + data[written..written + n]
    {
      hide RingOf, Cell;
      var space := SIZE - count;
      n := |data| - written;
      if n > space { n := space; }
      ghost var ring := Contents();
      var i: nat := 0;
      while i < n
        invariant i <= n && buf.Length == SIZE && count == old(count) && writePos == Cell(readPos, count + i, SIZE)
        invariant RingOf(buf[..], SIZE, readPos, count + i) == ring + data[written..written + i]
      {
        Push(buf[..], SIZE, readPos, count + i, data[written + i]);
        NextCell(readPos, count + i, SIZE);
        OneMore(data, written, i);
        buf[writePos] := data[written + i];
        NextIndex(writePos);
        writePos := (writePos + 1) % SIZE;
        i := i + 1;
      }
      count := count + n;
    }

    /** The uninterrupted section of pipe_read and pipe_read_nb: the oldest bytes, at most len. */
    method ReadSection(len: nat) returns (data: seq<byte>)
      requires Valid()
      modifies this`readPos, this`count
      ensures Valid() && |data| == Min(|old(Contents())|, len)
      ensures data == old(Contents())[..|data|] && Contents() == old(Contents())[|data|..]
    {
      hide RingOf, Cell;
      var avail := if count < len then count else len;
      data := [];
      ghost var ring, start := Contents(), readPos;
      var i: nat := 0;
      while i < avail
        invariant i <= avail && count == old(count) && readPos < SIZE && data == ring[..i]
        invariant writePos == Cell(readPos, count - i, SIZE)
        invariant RingOf(buf[..], SIZE, readPos, count - i) == ring[i..]
      {
        Pop(buf[..], SIZE, readPos, count - i);
        NextCell(readPos, count - i - 1, SIZE);
        OneLess(ring, i);
        data := data + [buf[readPos]];
        NextIndex(readPos);
        readPos := (readPos + 1) % SIZE;
        i := i + 1;
      }
      count := count - avail;
    }

    /** pipe_close_write */
    method CloseWrite()
      requires Valid()
      modifies this`writeClosed
      ensures Valid() && writeClosed && Contents() == old(Contents())
    {
      writeClosed := true;
    }
  }

  lemma NextIndex(p: nat)
    requires p < SIZE
    ensures (p + 1) % SIZE == Cell(p, 1, SIZE) && (p + 1) % SIZE < SIZE
  {
  }

  lemma OneMore(s: seq<byte>, from: nat, i: nat)
    requires from + i < |s|
    ensures s[from..from + i + 1] == s[from..from + i] + [s[from + i]]
  {
  }

  lemma OneLess(s: seq<byte>, i: nat)
    requires i < |s|
    ensures s[i..][0] == s[i] && s[i..][1..] == s[i + 1..] && s[..i + 1] == s[..i] + [s[i]]
  {
  }

  // ---- Writers and readers together ----

  /**
   ring is the pipe; log lists the sections that wrote, as writer and bytes; done says how far each
   writer is with its data; read lists what readers have got, in the order they got it.
   */
  datatype World = World(ring: seq<byte>, log: seq<(nat, seq<byte>)>, done: seq<nat>, read: seq<byte>)

  datatype Op = Write(w: nat) | Read(len: nat)

  predicate Fits(data: seq<seq<byte>>, x: World) {
    |x.done| == |data| && |x.ring| <= SIZE && forall i :: 0 <= i < |data| ==> x.done[i] <= |data[i]|
  }

  function Step(data: seq<seq<byte>>, x: World, op: Op): World
    requires Fits(data, x) && (op.Write? ==> op.w < |data|)
  {
    match op
    case Write(w) =>
      var n := Min(|data[w]| - x.done[w], SIZE - |x.ring|);
      var chunk := data[w][x.done[w]..x.done[w] + n];
      World(x.ring + chunk, x.log + [(w, chunk)], x.done[w := x.done[w] + n], x.read)
    case Read(len) =>
      var n := Min(|x.ring|, len);
      x.(ring := x.ring[n..], read := x.read + x.ring[..n])
  }

  /** A section of a writer goes on until its data or the room ends, one of a reader until len or the bytes end. */
  lemma SectionsMove(data: seq<seq<byte>>, x: World, w: nat, len: nat)
    requires Fits(data, x) && w < |data|
    ensures var y := Step(data, x, Write(w));
      && x.done[w] <= y.done[w] <= |data[w]| && y.ring == x.ring + data[w][x.done[w]..y.done[w]] && y.read == x.read
      && (y.done[w] == |data[w]| || |y.ring| == 1024)
    ensures var z := Step(data, x, Read(len));
      && |z.read| - |x.read| == |x.ring| - |z.ring| <= len && z.read + z.ring == x.read + x.ring && x.read <= z.read
      && (z.ring == [] || |z.read| - |x.read| == len)
  {
  }

  /** Everything written, section after section. */
  function All(log: seq<(nat, seq<byte>)>): seq<byte> {
    if log == [] then [] else All(log[..|log| - 1]) + log[|log| - 1].1
  }

  /** What one writer wrote. */
  function By(log: seq<(nat, seq<byte>)>, w: nat): seq<byte> {
    if log == [] then [] else By(log[..|log| - 1], w) + if log[|log| - 1].0 == w then log[|log| - 1].1 else []
  }

  /** Nothing is lost, repeated or reordered, and each writer's bytes enter in order. */
  ghost predicate Inv(data: seq<seq<byte>>, x: World) {
    && Fits(data, x) && x.read + x.ring == All(x.log)
    && forall w :: 0 <= w < |data| ==> By(x.log, w) == data[w][..x.done[w]]
  }

  lemma LogGrows(log: seq<(nat, seq<byte>)>, w: nat, chunk: seq<byte>)
    ensures All(log + [(w, chunk)]) == All(log) + chunk
    ensures By(log + [(w, chunk)], w) == By(log, w) + chunk
    ensures forall v :: v != w ==> By(log + [(w, chunk)], v) == By(log, v) + []
  {
    assert (log + [(w, chunk)])[..|log|] == log;
  }

  /** A section of writer w. */
  lemma WriteKeeps(data: seq<seq<byte>>, x: World, w: nat)
    requires Inv(data, x) && w < |data|
    ensures Inv(data, Step(data, x, Write(w)))
  {
    hide All, By;
    var y := Step(data, x, Write(w));
    var chunk := data[w][x.done[w]..y.done[w]];
    LogGrows(x.log, w, chunk);
    assert y.log == x.log + [(w, chunk)];
    assert x.read + y.ring == (x.read + x.ring) + chunk;
    assert data[w][..y.done[w]] == data[w][..x.done[w]] + chunk;
    forall v | 0 <= v < |data| ensures By(y.log, v) == data[v][..y.done[v]] {
      assert By(x.log, v) == data[v][..x.done[v]];
    }
  }

  /** A section of a reader. */
  lemma ReadKeeps(data: seq<seq<byte>>, x: World, len: nat)
    requires Inv(data, x)
    ensures Inv(data, Step(data, x, Read(len)))
  {
    hide All, By;
    var n := Min(|x.ring|, len);
    assert (x.read + x.ring[..n]) + x.ring[n..] == x.read + x.ring;
  }

  lemma StepKeeps(data: seq<seq<byte>>, x: World, op: Op)
    requires Inv(data, x) && (op.Write? ==> op.w < |data|)
    ensures Inv(data, Step(data, x, op))
  {
    hide Inv, Step;
    match op
    case Write(w) => WriteKeeps(data, x, w);
    case Read(len) => ReadKeeps(data, x, len);
  }

  predicate Allowed(data: seq<seq<byte>>, ops: seq<Op>) {
    forall op :: op in ops && op.Write? ==> op.w < |data|
  }

  function After(data: seq<seq<byte>>, x: World, ops: seq<Op>): World
    requires Fits(data, x) && Allowed(data, ops)
    decreases |ops|
  {
    if ops == [] then x else
      assert ops[0] in ops;
      After(data, Step(data, x, ops[0]), ops[1..])
  }

  lemma {:induction false} RunKeeps(data: seq<seq<byte>>, x: World, ops: seq<Op>)
    requires Inv(data, x) && Allowed(data, ops)
    ensures Inv(data, After(data, x, ops))
    decreases |ops|
  {
    if ops != [] {
      assert ops[0] in ops;
      StepKeeps(data, x, ops[0]);
      RunKeeps(data, Step(data, x, ops[0]), ops[1..]);
    }
  }

  /**
   In every interleaving of sections: the bytes read, followed by the bytes in the pipe, are the
   bytes written, section after section; and each writer's sections are its data, in order.
   */
  lemma FirstInFirstOut(data: seq<seq<byte>>, ops: seq<Op>)
    requires Allowed(data, ops)
    ensures var x := World([], [], seq(|data|, i => 0), []);
      Fits(data, x) && Inv(data, After(data, x, ops))
  {
    var x := World([], [], seq(|data|, i => 0), []);
    assert Inv(data, x);
    RunKeeps(data, x, ops);
  }
}
