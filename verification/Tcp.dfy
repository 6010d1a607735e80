/**
 One TCP socket: sequence numbers modulo 2^32, one retransmit slot, a receive ring, and segments
 accepted only in order. Time and the outcome of handing a frame to the network card are
 parameters. The class is proved against functions on the value Sock, which TcpSafety reasons about.
 */
module Tcp {
  import opened Arith
  import opened Bytes
  import opened Rings

  const M := 0x1_0000_0000
  const RECV_BUF := 8192
  const RETX_BUF := 2048
  const MSS := 1460
  const RETX_TIMEOUT := 1000
  const RETX_CAP := 32000
  const MAX_RETX := 6
  const TIMEWAIT := 4000

  type u32 = x: nat | x < M

  datatype Flags = Flags(fin: bool, syn: bool, rst: bool, psh: bool, ack: bool)

  const FIN_ACK := Flags(true, false, false, false, true)
  const SYN := Flags(false, true, false, false, false)
  const SYN_ACK := Flags(false, true, false, false, true)
  const RST := Flags(false, false, true, false, false)
  const ACK := Flags(false, false, false, false, true)
  const PSH_ACK := Flags(false, false, false, true, true)

  datatype Segment = Segment(no: u32, ack: u32, flags: Flags, payload: seq<byte>)

  datatype State = Closed | SynSent | Established | FinWait1 | FinWait2 | CloseWait | LastAck | TimeWait

  /** The value of a socket: retx is the used part of retx_buf, ring the bytes waiting to be read. */
  datatype Sock = Sock(
    state: State, used: bool,
    sndNxt: u32, sndUna: u32, rcvNxt: u32,
    retx: seq<byte>, retxFlags: Flags, retxNo: u32, retxCount: nat, retxDeadline: nat,
    ring: seq<byte>, timewait: nat)

  function Plus(a: u32, n: nat): u32 { (a + n) % M }

  /** The signed comparison of the 32-bit difference. */
  predicate SeqGt(a: u32, b: u32) { 0 < (a - b) % M < 0x8000_0000 }

  predicate SeqGte(a: u32, b: u32) { (a - b) % M < 0x8000_0000 }

  /** How far a segment moves the sequence number: its bytes, and one each for SYN and FIN. */
  function Advance(flags: Flags, payload: seq<byte>): nat {
    |payload| + (if flags.syn then 1 else 0) + (if flags.fin then 1 else 0)
  }

  function Shifted(n: nat, k: nat): nat
    decreases k
  {
    if k == 0 then n else Shifted(2 * n, k - 1)
  }

  function Backoff(count: nat): nat { Min(Shifted(RETX_TIMEOUT, count), RETX_CAP) }

  // ---- What each operation does to the value of a socket, and the segments it hands over ----

  type Outcome = (Sock, seq<Segment>)

  /** tcp_send_raw; ok tells whether the frame could be allocated and sent. */
  function Raw(s: Sock, flags: Flags, payload: seq<byte>, save: bool, ok: bool, now: nat): Outcome {
    if !ok then (s, []) else
      var n := Advance(flags, payload);
      var kept := if save && n > 0 then s.(
          retx := payload[..Min(|payload|, RETX_BUF)], retxFlags := flags, retxNo := s.sndNxt,
          retxCount := 0, retxDeadline := now + RETX_TIMEOUT)
        else s;
      (kept.(sndNxt := Plus(s.sndNxt, n)),
       [Segment(s.sndNxt, if flags.ack then s.rcvNxt else 0, flags, payload)])
  }

  function Freed(s: Sock): Sock { s.(state := Closed, used := false) }

  /** tcp_send_rst_for: sent from a temporary socket, so it touches no state. */
  function Reset(no: u32, ok: bool): seq<Segment> {
    if ok then [Segment(no, 0, RST, [])] else []
  }

  /** do_retransmit */
  function Retransmitted(s: Sock, ok: bool, now: nat): Outcome {
    if s.retx == [] && !s.retxFlags.syn && !s.retxFlags.fin then (s, [])
    else if s.retxCount + 1 > MAX_RETX then (Freed(s.(retxCount := s.retxCount + 1)), [])
    else
      var r := Raw(s.(retxCount := s.retxCount + 1, sndNxt := s.retxNo), s.retxFlags, s.retx, false, ok, now);
      (r.0.(retxDeadline := now + Backoff(r.0.retxCount)), r.1)
  }

  /** tcp_tick for one socket */
  function Ticked(s: Sock, ok: bool, now: nat): Outcome {
    if !s.used then (s, [])
    else if s.state == TimeWait then (if now >= s.timewait then Freed(s) else s, [])
    else if s.retxDeadline != 0 && now >= s.retxDeadline then
      if SeqGt(s.sndNxt, s.sndUna) then Retransmitted(s, ok, now) else (s.(retxDeadline := 0), [])
    else (s, [])
  }

  /** The acknowledgement part of tcp_receive. */
  function AckSeen(s: Sock, g: Segment): Sock {
    if g.flags.ack && SeqGt(g.ack, s.sndUna) && SeqGte(s.sndNxt, g.ack) then
      if g.ack == s.sndNxt then s.(sndUna := g.ack, retxDeadline := 0, retx := [], retxCount := 0)
      else s.(sndUna := g.ack)
    else s
  }

  /** In-order payload goes to the ring, as much of it as fits. */
  function Taken(s: Sock, g: Segment): seq<byte> {
    if g.payload != [] && g.no == s.rcvNxt then
      g.payload[..Min(|g.payload|, RECV_BUF - Min(|s.ring|, RECV_BUF))]
    else []
  }

  function Accept(s: Sock, g: Segment): Sock {
    s.(ring := s.ring + Taken(s, g), rcvNxt := Plus(s.rcvNxt, |Taken(s, g)|))
  }

  function FinTimeWait(s: Sock, ok: bool, now: nat): Outcome {
    var r := Raw(s.(rcvNxt := Plus(s.rcvNxt, 1)), ACK, [], false, ok, now);
    (r.0.(state := TimeWait, timewait := now + TIMEWAIT), r.1)
  }

  function InSynSent(s: Sock, g: Segment, oks: seq<bool>, now: nat): Outcome
    requires |oks| == 3
  {
    if !(g.flags.syn && g.flags.ack) then (s, [])
    else if g.ack != s.sndNxt then (Freed(s), Reset(g.ack, oks[0]))
    else
      Raw(s.(rcvNxt := Plus(g.no, 1), sndUna := g.ack, state := Established, retxDeadline := 0),
          ACK, [], false, oks[0], now)
  }

  function InEstablished(s: Sock, g: Segment, oks: seq<bool>, now: nat): Outcome
    requires |oks| == 3
  {
    var r := if g.payload != [] && g.no == s.rcvNxt then Raw(Accept(s, g), ACK, [], false, oks[0], now) else (s, []);
    if !g.flags.fin then r else
      var q := PeerClosed(r.0, oks[1], oks[2], now);
      (q.0, r.1 + q.1)
  }

  /** A FIN on an open connection: acknowledge it and send the own FIN at once. */
  function PeerClosed(s: Sock, ok1: bool, ok2: bool, now: nat): Outcome {
    var q := Raw(s.(rcvNxt := Plus(s.rcvNxt, 1)), ACK, [], false, ok1, now);
    var p := Raw(q.0.(state := LastAck), FIN_ACK, [], true, ok2, now);
    (p.0, q.1 + p.1)
  }

  function InFinWait1(s: Sock, g: Segment, oks: seq<bool>, now: nat): Outcome
    requires |oks| == 3
  {
    var t := if g.flags.ack then s.(state := FinWait2) else s;
    if g.flags.fin then FinTimeWait(t, oks[0], now) else (t, [])
  }

  function InFinWait2(s: Sock, g: Segment, oks: seq<bool>, now: nat): Outcome
    requires |oks| == 3
  {
    if g.flags.fin then FinTimeWait(Accept(s, g), oks[0], now) else (Accept(s, g), [])
  }

  /** tcp_receive for a segment that matches the socket's addresses and ports */
  function Received(s: Sock, g: Segment, oks: seq<bool>, now: nat): Outcome
    requires |oks| == 3
  {
    if !s.used || s.state == Closed then (s, if g.flags.rst then [] else Reset(g.ack, oks[0]))
    else if g.flags.rst then (Freed(s), [])
    else
      var t := AckSeen(s, g);
      match t.state
      case SynSent => InSynSent(t, g, oks, now)
      case Established => InEstablished(t, g, oks, now)
      case FinWait1 => InFinWait1(t, g, oks, now)
      case FinWait2 => InFinWait2(t, g, oks, now)
      case LastAck => (if g.flags.ack then Freed(t) else t, [])
      case TimeWait => if g.flags.fin then FinTimeWait(t, oks[0], now) else (t, [])
      case Closed => (t, [])
      case CloseWait => (t, [])
  }

  /** The first step of tcp_close */
  function Closing(s: Sock, ok: bool, now: nat): Outcome {
    if s.used && s.state == Established then Raw(s.(state := FinWait1), FIN_ACK, [], true, ok, now) else (s, [])
  }

  /** The last step of tcp_close, and what tcp_connect does when it gives up */
  function Dropped(s: Sock): Sock { if s.state != TimeWait then Freed(s) else s }

  /** tcp_recv: what is returned and what stays */
  function ReadCount(s: Sock, maxlen: nat): nat { if s.used then Min(|s.ring|, maxlen) else 0 }

  function AfterRead(s: Sock, maxlen: nat): Sock { s.(ring := s.ring[ReadCount(s, maxlen)..]) }

  // ---- The socket itself ----

  class Socket {
    var state: State
    var used: bool
    var sndNxt: u32
    var sndUna: u32
    var rcvNxt: u32
    const retxBuf: array<byte>
    var retxLen: nat
    var retxFlags: Flags
    var retxNo: u32
    var retxCount: nat
    var retxDeadline: nat
    const recvBuf: array<byte>
    var recvHead: nat
    var recvTail: nat
    var recvLen: nat
    var timewait: nat

    ghost predicate Valid()
      reads this, retxBuf, recvBuf
    {
      && retxBuf.Length == RETX_BUF && recvBuf.Length == RECV_BUF && retxBuf != recvBuf
      && retxLen <= RETX_BUF && recvLen <= RECV_BUF && recvTail < RECV_BUF
      && recvHead == Cell(recvTail, recvLen, RECV_BUF)
    }

    ghost function Value(): Sock
      reads this, retxBuf, recvBuf
      requires Valid()
    {
      Sock(state, used, sndNxt, sndUna, rcvNxt, retxBuf[..retxLen], retxFlags, retxNo, retxCount, retxDeadline,
           RingOf(recvBuf[..], RECV_BUF, recvTail, recvLen), timewait)
    }

    /** alloc_sock and the first steps of tcp_connect */
    constructor (iss: u32)
      ensures Valid() && fresh(retxBuf) && fresh(recvBuf)
      ensures Value() == Sock(SynSent, true, iss, iss, 0, [], Flags(false, false, false, false, false), 0, 0, 0, [], 0)
    {
      state, used, sndNxt, sndUna, rcvNxt := SynSent, true, iss, iss, 0;
      retxBuf, recvBuf := new byte[RETX_BUF], new byte[RECV_BUF];
      retxLen, retxFlags, retxNo, retxCount, retxDeadline := 0, Flags(false, false, false, false, false), 0, 0, 0;
      recvHead, recvTail, recvLen, timewait := 0, 0, 0, 0;
    }

    /** The part of tcp_send_raw that fills the retransmit slot */
    method SaveForRetransmit(flags: Flags, payload: seq<byte>, now: nat)
      requires Valid()
      modifies this`retxLen, this`retxFlags, this`retxNo,
        this`retxCount, this`retxDeadline, retxBuf
      ensures Valid() && retxBuf[..retxLen] == payload[..Min(|payload|, RETX_BUF)]
      ensures retxFlags == flags && retxNo == sndNxt && retxCount == 0 && retxDeadline == now + RETX_TIMEOUT
    {
      retxNo, retxFlags := sndNxt, flags;
      var copy := Min(|payload|, RETX_BUF);
      forall i | 0 <= i < copy { retxBuf[i] := payload[i]; }
      retxLen := copy;
      assert retxBuf[..retxLen] == payload[..copy];
      retxCount := 0;
      retxDeadline := now + RETX_TIMEOUT;
    }

    /** tcp_send_raw */
    method SendRaw(flags: Flags, payload: seq<byte>, save: bool, ok: bool, now: nat) returns (out: seq<Segment>)
      requires Valid()
      modifies this`sndNxt, this`retxLen, this`retxFlags, this`retxNo,
        this`retxCount, this`retxDeadline, retxBuf
      ensures Valid() && (Value(), out) == Raw(old(Value()), flags, payload, save, ok, now)
    {
      hide RingOf;
      if !ok { return []; }
      out := [Segment(sndNxt, if flags.ack then rcvNxt else 0, flags, payload)];
      var advance := |payload|;
      if flags.syn { advance := advance + 1; }
      if flags.fin { advance := advance + 1; }
      if save && advance > 0 { SaveForRetransmit(flags, payload, now); }
      sndNxt := (sndNxt + advance) % M;
    }

    /** do_retransmit */
    method Retransmit(ok: bool, now: nat) returns (out: seq<Segment>)
      requires Valid()
      modifies this`state, this`used, this`sndNxt, this`retxLen, this`retxFlags, this`retxNo,
        this`retxCount, this`retxDeadline, retxBuf
      ensures Valid() && (Value(), out) == Retransmitted(old(Value()), ok, now)
    {
      hide RingOf, Raw;
      if retxLen == 0 && !retxFlags.syn && !retxFlags.fin { return []; }
      retxCount := retxCount + 1;
      if retxCount > MAX_RETX {
        state, used := Closed, false;
        return [];
      }
      sndNxt := retxNo;
      out := SendRaw(retxFlags, retxBuf[..retxLen], false, ok, now);
      var next: nat := RETX_TIMEOUT;
      var k: nat := 0;
      while k < retxCount
        invariant 0 <= k <= retxCount && Shifted(next, retxCount - k) == Shifted(RETX_TIMEOUT, retxCount)
      {
        next := 2 * next;
        k := k + 1;
      }
      if next > RETX_CAP { next := RETX_CAP; }
      retxDeadline := now + next;
    }

    method Free()
      requires Valid()
      modifies this`state, this`used
      ensures Valid() && Value() == Freed(old(Value()))
    {
      state, used := Closed, false;
    }

    /** The body of tcp_tick's loop */
    method Tick(ok: bool, now: nat) returns (out: seq<Segment>)
      requires Valid()
      modifies this`state, this`used, this`sndNxt, this`retxLen, this`retxFlags, this`retxNo,
        this`retxCount, this`retxDeadline, retxBuf
      ensures Valid() && (Value(), out) == Ticked(old(Value()), ok, now)
    {
      out := [];
      if !used { return; }
      if state == TimeWait {
        if now >= timewait { Free(); }
        return;
      }
      if retxDeadline != 0 && now >= retxDeadline {
        if SeqGt(sndNxt, sndUna) { out := Retransmit(ok, now); } else { retxDeadline := 0; }
      }
    }

    /** The copy loop of tcp_receive */
    method StoreBytes(bytes: seq<byte>)
      requires Valid() && recvLen + |bytes| <= RECV_BUF
      modifies this`recvHead, this`recvLen, recvBuf
      ensures Valid() && recvLen == old(recvLen) + |bytes|
      ensures RingOf(recvBuf[..], RECV_BUF, recvTail, recvLen)
        == RingOf(old(recvBuf[..]), RECV_BUF, recvTail, old(recvLen)) + bytes
    {
      hide RingOf;
      ghost var tail, len: nat, cells := recvTail, recvLen, recvBuf[..];
      var i: nat := 0;
      while i < |bytes|
        invariant recvLen == len && i <= |bytes| && recvBuf.Length == RECV_BUF
        invariant recvHead == Cell(tail, len + i, RECV_BUF)
        invariant RingOf(recvBuf[..], RECV_BUF, tail, len + i) == RingOf(cells, RECV_BUF, tail, len) + bytes[..i]
      {
        Push(recvBuf[..], RECV_BUF, tail, len + i, bytes[i]);
        assert bytes[..i + 1] == bytes[..i] + [bytes[i]];
        NextCell(tail, len + i, RECV_BUF);
        recvBuf[recvHead] := bytes[i];
        recvHead := (recvHead + 1) % RECV_BUF;
        i := i + 1;
      }
      assert bytes[..i] == bytes;
      recvLen := recvLen + |bytes|;
    }

    /** As much of an in-order payload as the ring has room for */
    method TakePayload(g: Segment)
      requires Valid() && g.payload != [] && g.no == rcvNxt
      modifies this`recvHead, this`recvLen, this`rcvNxt, recvBuf
      ensures Valid() && Value() == Accept(old(Value()), g)
    {
      hide RingOf;
      var space := RECV_BUF - recvLen;
      var copy: nat := if |g.payload| < space then |g.payload| else space;
      StoreBytes(g.payload[..copy]);
      rcvNxt := (rcvNxt + copy) % M;
    }

    method AcceptAck(g: Segment)
      requires Valid()
      modifies this`sndUna, this`retxDeadline, this`retxLen, this`retxCount
      ensures Valid() && Value() == AckSeen(old(Value()), g)
    {
      if g.flags.ack && SeqGt(g.ack, sndUna) && SeqGte(sndNxt, g.ack) {
        sndUna := g.ack;
        if sndUna == sndNxt { retxDeadline, retxLen, retxCount := 0, 0, 0; }
      }
    }

    method EnterTimeWait(ok: bool, now: nat) returns (out: seq<Segment>)
      requires Valid()
      modifies this, retxBuf
      ensures Valid() && (Value(), out) == FinTimeWait(old(Value()), ok, now)
    {
      rcvNxt := (rcvNxt + 1) % M;
      out := SendRaw(ACK, [], false, ok, now);
      state, timewait := TimeWait, now + TIMEWAIT;
    }

    /** The case TCP_SYN_SENT of tcp_receive */
    method ReceiveSynSent(g: Segment, oks: seq<bool>, now: nat) returns (out: seq<Segment>)
      requires Valid() && |oks| == 3
      modifies this, retxBuf
      ensures Valid() && (Value(), out) == InSynSent(old(Value()), g, oks, now)
    {
      out := [];
      if g.flags.syn && g.flags.ack {
        if g.ack != sndNxt {
          out := Reset(g.ack, oks[0]);
          Free();
          return;
        }
        rcvNxt := (g.no + 1) % M;
        sndUna := g.ack;
        state := Established;
        retxDeadline := 0;
        out := SendRaw(ACK, [], false, oks[0], now);
      }
    }

    method AnswerFin(ok1: bool, ok2: bool, now: nat) returns (out: seq<Segment>)
      requires Valid()
      modifies this`rcvNxt, this`state, this`sndNxt, this`retxLen, this`retxFlags, this`retxNo,
        this`retxCount, this`retxDeadline, retxBuf
      ensures Valid() && (Value(), out) == PeerClosed(old(Value()), ok1, ok2, now)
    {
      hide RingOf, Raw;
      rcvNxt := (rcvNxt + 1) % M;
      out := SendRaw(ACK, [], false, ok1, now);
      state := LastAck;
      var fin := SendRaw(FIN_ACK, [], true, ok2, now);
      out := out + fin;
    }

    /** The case TCP_ESTABLISHED of tcp_receive */
    method ReceiveEstablished(g: Segment, oks: seq<bool>, now: nat) returns (out: seq<Segment>)
      requires Valid() && |oks| == 3
      modifies this, retxBuf, recvBuf
      ensures Valid() && (Value(), out) == InEstablished(old(Value()), g, oks, now)
    {
      hide RingOf, Raw, PeerClosed, Taken;
      out := [];
      if g.payload != [] && g.no == rcvNxt {
        TakePayload(g);
        out := SendRaw(ACK, [], false, oks[0], now);
      }
      if g.flags.fin {
        var more := AnswerFin(oks[1], oks[2], now);
        out := out + more;
      }
    }

    /** tcp_receive, for a segment addressed to this socket */
    method Receive(g: Segment, oks: seq<bool>, now: nat) returns (out: seq<Segment>)
      requires Valid() && |oks| == 3
      modifies this, retxBuf, recvBuf
      ensures Valid() && (Value(), out) == Received(old(Value()), g, oks, now)
    {
      hide RingOf, Raw, InEstablished, InSynSent, FinTimeWait, AckSeen, Taken;
      out := [];
      if !used || state == Closed {
        if !g.flags.rst { out := Reset(g.ack, oks[0]); }
        return;
      }
      if g.flags.rst { Free(); return; }
      AcceptAck(g);
      match state
      case SynSent => out := ReceiveSynSent(g, oks, now);
      case Established => out := ReceiveEstablished(g, oks, now);
      case FinWait1 =>
        if g.flags.ack { state := FinWait2; }
        if g.flags.fin { out := EnterTimeWait(oks[0], now); }
      case FinWait2 =>
        if g.payload != [] && g.no == rcvNxt { TakePayload(g); } else { NothingTaken(Value(), g); }
        if g.flags.fin { out := EnterTimeWait(oks[0], now); }
      case LastAck => if g.flags.ack { Free(); }
      case TimeWait => if g.flags.fin { out := EnterTimeWait(oks[0], now); }
      case Closed =>
      case CloseWait =>
    }

    /** One round of tcp_send's loop */
    method SendChunk(chunk: seq<byte>, ok: bool, now: nat) returns (out: seq<Segment>)
      requires Valid() && 0 < |chunk| <= MSS
      modifies this`sndNxt, this`retxLen, this`retxFlags, this`retxNo,
        this`retxCount, this`retxDeadline, retxBuf
      ensures Valid() && (Value(), out) == Raw(old(Value()), PSH_ACK, chunk, true, ok, now)
    {
      out := SendRaw(PSH_ACK, chunk, true, ok, now);
    }

    /** The copy loop of tcp_recv */
    method TakeOldest(n: nat) returns (data: seq<byte>)
      requires Valid() && n <= recvLen
      modifies this`recvTail, this`recvLen
      ensures Valid() && recvLen == old(recvLen) - n
      ensures data == RingOf(old(recvBuf[..]), RECV_BUF, old(recvTail), old(recvLen))[..n]
      ensures RingOf(recvBuf[..], RECV_BUF, recvTail, recvLen)
        == RingOf(old(recvBuf[..]), RECV_BUF, old(recvTail), old(recvLen))[n..]
    {
      hide RingOf, Cell;
      FirstCells(recvTail);
      data := [];
      ghost var tail: nat, len: nat, ring := recvTail, recvLen, RingOf(recvBuf[..], RECV_BUF, recvTail, recvLen);
      var i: nat := 0;
      while i < n
        invariant recvLen == len && i <= n && data == ring[..i] && recvTail == Cell(tail, i, RECV_BUF)
        invariant RingOf(recvBuf[..], RECV_BUF, recvTail, len - i) == ring[i..]
      {
        Pop(recvBuf[..], RECV_BUF, recvTail, len - i);
        TailStep(ring, i);
        NextCell(tail, i, RECV_BUF);
        FirstCells(recvTail);
        assert recvBuf[recvTail] == ring[i];
        data := data + [recvBuf[recvTail]];
        recvTail := (recvTail + 1) % RECV_BUF;
        i := i + 1;
      }
      recvLen := recvLen - n;
      SameHead(tail, n, len);
    }

    /** tcp_recv: the oldest bytes of the ring, in order */
    method Recv(maxlen: nat) returns (res: int, data: seq<byte>)
      requires Valid()
      modifies this`recvTail, this`recvLen
      ensures Valid() && Value() == AfterRead(old(Value()), maxlen)
      ensures data == old(Value()).ring[..ReadCount(old(Value()), maxlen)]
      ensures res == if old(Value()).used then |data| else -1
    {
      hide RingOf;
      data := [];
      if !used { return -1, []; }
      if recvLen == 0 { return 0, []; }
      data := TakeOldest(if recvLen < maxlen then recvLen else maxlen);
      res := |data|;
    }

    /** tcp_close up to its waiting loop */
    method Close(ok: bool, now: nat) returns (out: seq<Segment>)
      requires Valid()
      modifies this`state, this`sndNxt, this`retxLen, this`retxFlags, this`retxNo,
        this`retxCount, this`retxDeadline, retxBuf
      ensures Valid() && (Value(), out) == Closing(old(Value()), ok, now)
    {
      out := [];
      if used && state == Established {
        state := FinWait1;
        out := SendRaw(FIN_ACK, [], true, ok, now);
      }
    }

    /** tcp_close after its waiting loop */
    method Drop()
      requires Valid()
      modifies this`state, this`used
      ensures Valid() && Value() == Dropped(old(Value()))
    {
      if state != TimeWait { Free(); }
    }
  }

  lemma FirstCells(tail: nat)
    requires tail < RECV_BUF
    ensures Cell(tail, 0, RECV_BUF) == tail && Cell(tail, 1, RECV_BUF) == (tail + 1) % RECV_BUF
  {
  }

  lemma SameHead(tail: nat, n: nat, len: nat)
    requires n <= len
    ensures Cell(Cell(tail, n, RECV_BUF), len - n, RECV_BUF) == Cell(tail, len, RECV_BUF)
  {
  }

  lemma TailStep(s: seq<byte>, i: nat)
    requires i < |s|
    ensures s[i..][0] == s[i] && s[i..][1..] == s[i + 1..] && s[..i + 1] == s[..i] + [s[i]]
  {
  }

  lemma NothingTaken(s: Sock, g: Segment)
    requires g.payload == [] || g.no != s.rcvNxt
    ensures Accept(s, g) == s
  {
  }
}
