/**
 What a socket does with what arrives and when its timer runs out, in plain numbers: sequence numbers are compared
 as differences modulo 2^32, and flags and times stand for themselves. Nothing here refers to how tcp.cpp splits
 the work into functions.
 */
module TcpLaws {
  import opened Bytes
  import opened Tcp
  import opened TcpSafety

  const W := 0x1_0000_0000

  /** a lies past una, and not past nxt, going round less than half of all numbers. */
  predicate Acknowledges(una: u32, nxt: u32, a: u32) {
    0 < (a - una) % W < 0x8000_0000 && (nxt - a) % W < 0x8000_0000
  }

  /** A socket that has left SYN_SENT and can still be sent to. */
  predicate Open(s: Sock) { s.used && s.state != Closed && s.state != SynSent }

  /** The segment makes the socket send a FIN of its own. */
  predicate AnswersFin(s: Sock, g: Segment) { s.state == Established && g.flags.fin }

  predicate SameSlot(s: Sock, t: Sock) {
    && t.retx == s.retx && t.retxFlags == s.retxFlags && t.retxNo == s.retxNo
    && t.retxCount == s.retxCount && t.retxDeadline == s.retxDeadline
  }

  // ---- Acknowledgements ----

  /**
   A new acknowledgement moves snd_una to it; if it acknowledges everything, the retransmit slot is emptied and
   its timer stopped.
   */
  lemma NewAck(s: Sock, g: Segment, oks: seq<bool>, now: nat)
    requires |oks| == 3 && Open(s) && !g.flags.rst && g.flags.ack && Acknowledges(s.sndUna, s.sndNxt, g.ack)
    ensures var t := Received(s, g, oks, now).0;
      && t.sndUna == g.ack
      && (!AnswersFin(s, g) ==> t.sndNxt == s.sndNxt)
      && (!AnswersFin(s, g) && g.ack == s.sndNxt ==> t.retx == [] && t.retxCount == 0 && t.retxDeadline == 0)
      && (!AnswersFin(s, g) && g.ack != s.sndNxt ==> SameSlot(s, t))
  {
    hide Received;
    RestKeeps(s, g, oks, now);
  }

  /** What follows the acknowledgement part of tcp_receive leaves these fields alone. */
  lemma RestKeeps(s: Sock, g: Segment, oks: seq<bool>, now: nat)
    requires |oks| == 3 && Open(s) && !g.flags.rst
    ensures var t, u := AckSeen(s, g), Received(s, g, oks, now).0;
      u.sndUna == t.sndUna && (!AnswersFin(s, g) ==> u.sndNxt == t.sndNxt && SameSlot(t, u))
  {
    hide Raw, AckSeen, Taken, FinTimeWait, PeerClosed;
    AckSeenSame(s, g);
    var t := AckSeen(s, g);
    AckPlain(Accept(t, g), oks[0], now);
    FinTimeWaitPlain(t, oks[0], now);
    FinTimeWaitPlain(t.(state := FinWait2), oks[0], now);
    FinTimeWaitPlain(Accept(t, g), oks[0], now);
    ClosedUna(t, oks[1], oks[2], now);
    ClosedUna(Accept(t, g), oks[1], oks[2], now);
  }

  lemma ClosedUna(s: Sock, ok1: bool, ok2: bool, now: nat)
    ensures PeerClosed(s, ok1, ok2, now).0.sndUna == s.sndUna
  {
  }

  /** An acknowledgement of nothing new, or of what was never sent, moves none of this. */
  lemma StaleAck(s: Sock, g: Segment, oks: seq<bool>, now: nat)
    requires |oks| == 3 && Open(s) && !g.flags.rst && !(g.flags.ack && Acknowledges(s.sndUna, s.sndNxt, g.ack))
    ensures var t := Received(s, g, oks, now).0;
      t.sndUna == s.sndUna && (!AnswersFin(s, g) ==> t.sndNxt == s.sndNxt && SameSlot(s, t))
  {
    hide Received;
    RestKeeps(s, g, oks, now);
  }

  // ---- No resending of what has been acknowledged ----

  predicate WellTyped(act: Action) {
    (act.Deliver? ==> |act.oks| == 3) && (act.Send? ==> 0 < |act.chunk| <= 1460)
  }

  /** All through the run neither bytes nor a FIN are sent that were not sent before. */
  ghost predicate NothingNew(e: End, acts: seq<Action>)
    decreases |acts|
  {
    acts == [] ||
    (WellTyped(acts[0]) && |e.sent| + 1460 < W - 2 && !SendsNew(e, acts[0]) && NothingNew(Next(e, acts[0]), acts[1..]))
  }

  /** No tick of the run hands a segment to the card. */
  ghost predicate TicksSilent(e: End, acts: seq<Action>)
    decreases |acts|
  {
    acts == [] ||
    (WellTyped(acts[0])
     && (acts[0].Tick? ==> Ticked(e.s, acts[0].ok, acts[0].now).1 == [])
     && TicksSilent(Next(e, acts[0]), acts[1..]))
  }

  lemma QuietStep(e: End, act: Action)
    requires Sender(e) && e.s.retxDeadline == 0 && WellTyped(act) && |e.sent| + 1460 < W - 2 && !SendsNew(e, act)
    ensures Sender(Next(e, act)) && Next(e, act).s.retxDeadline == 0
    ensures act.Tick? ==> Ticked(e.s, act.ok, act.now).1 == []
  {
    SenderKept(e, e.(out := if act.Deliver? then {act.g} else {}), act, true);
    TimerStays(e, act);
  }

  lemma TimerStays(e: End, act: Action)
    requires Sender(e) && e.s.retxDeadline == 0 && WellTyped(act) && !SendsNew(e, act)
    ensures Next(e, act).s.retxDeadline == 0
  {
    hide Sender, Backoff;
    if act.Send? { SendIsNew(e, act.chunk, act.now); }
    if e.s.state == Established { NoFinYet(e); }
    if act.Close? && e.s.used && e.s.state == Established { CloseFin(e, act.ok, act.now); }
    if act.Deliver? { DeliverTimer(e, act.g, act.oks, act.now); }
  }

  lemma SendIsNew(e: End, chunk: seq<byte>, now: nat)
    requires chunk != []
    ensures SendsNew(e, Send(chunk, true, now))
  {
    assert |e.sent + chunk| > |e.sent|;
  }

  lemma CloseFin(e: End, ok: bool, now: nat)
    requires e.s.used && e.s.state == Established && e.fin.None?
    ensures ok ==> Next(e, Close(ok, now)).fin.Some?
  {
    if ok { assert Closing(e.s, ok, now).1[0].flags.fin; }
  }

  lemma DeliverTimer(e: End, g: Segment, oks: seq<bool>, now: nat)
    requires |oks| == 3 && e.s.retxDeadline == 0 && (e.s.state == Established ==> e.fin.None?)
    requires !SendsNew(e, Deliver(g, oks, now))
    ensures Received(e.s, g, oks, now).0.retxDeadline == 0
  {
    hide Received, Sender, InPlace;
    if e.s.used && e.s.state == Established && !g.flags.rst {
      EstablishedTimer(e, g, oks, now);
    } else {
      ReceivedPlain(e.s, g, oks, now);
    }
  }

  lemma EstablishedTimer(e: End, g: Segment, oks: seq<bool>, now: nat)
    requires |oks| == 3 && e.s.retxDeadline == 0 && e.s.used && e.s.state == Established && e.fin.None?
    requires !g.flags.rst && !SendsNew(e, Deliver(g, oks, now))
    ensures Received(e.s, g, oks, now).0.retxDeadline == 0
  {
    hide Received, Raw, AckSeen, PeerClosed, Accept;
    EstablishedPlain(e.s, g, oks, now);
    var t := AckSeen(e.s, g);
    AckSeenSame(e.s, g);
    var d := if g.payload != [] && g.no == t.rcvNxt then Raw(Accept(t, g), ACK, [], false, oks[0], now) else (t, []);
    if g.flags.fin {
      FinSeen(e, d, oks[1], oks[2], now);
      UnsentTimer(d.0, oks[1], now);
    }
  }

  lemma UnsentTimer(s: Sock, ok1: bool, now: nat)
    ensures PeerClosed(s, ok1, false, now).0.retxDeadline == s.retxDeadline
  {
  }

  /** A socket whose timer is stopped resends nothing, whatever arrives, until something new is sent. */
  lemma {:induction false} Quiet(e: End, acts: seq<Action>)
    requires Sender(e) && e.s.retxDeadline == 0 && NothingNew(e, acts)
    ensures TicksSilent(e, acts)
    decreases |acts|
  {
    hide Sender, SendsNew, Next;
    if acts != [] {
      QuietStep(e, acts[0]);
      Quiet(Next(e, acts[0]), acts[1..]);
    }
  }

  /** Once everything sent has been acknowledged, nothing of it is sent again. */
  lemma AckedStaysQuiet(e: End, g: Segment, oks: seq<bool>, now: nat, acts: seq<Action>)
    requires Sender(e) && InPlace(e) && |oks| == 3 && Open(e.s) && !AnswersFin(e.s, g)
    requires !g.flags.rst && g.flags.ack && Acknowledges(e.s.sndUna, e.s.sndNxt, g.ack) && g.ack == e.s.sndNxt
    requires NothingNew(Next(e, Deliver(g, oks, now)), acts)
    ensures TicksSilent(Next(e, Deliver(g, oks, now)), acts)
  {
    hide Sender, Received, NothingNew, TicksSilent, SendsNew;
    NewAck(e.s, g, oks, now);
    SenderKept(e, e.(out := {g}), Deliver(g, oks, now), false);
    Quiet(Next(e, Deliver(g, oks, now)), acts);
  }

  // ---- Bytes that arrive ----

  const ONLY_ACK: Flags := Flags(false, false, false, false, true)

  /**
   Bytes that continue what has been received go to the ring, as many as 8192 leave room for, and are acknowledged
   at once on an open connection; other bytes change nothing.
   */
  lemma BytesArrive(s: Sock, g: Segment, oks: seq<bool>, now: nat)
    requires |oks| == 3 && s.used && s.state in {Established, FinWait2} && |s.ring| <= 8192
    requires !g.flags.rst && !g.flags.fin && g.payload != []
    ensures var (t, out) := Received(s, g, oks, now);
      var room := 8192 - |s.ring|;
      var n := if g.no != s.rcvNxt then 0 else if |g.payload| <= room then |g.payload| else room;
      && t.state == s.state && t.ring == s.ring + g.payload[..n] && t.rcvNxt == (s.rcvNxt + n) % W
      && out == if g.no == s.rcvNxt && s.state == Established && oks[0] then [Segment(s.sndNxt, t.rcvNxt, ONLY_ACK, [])]
                else []
  {
  }

  /** tcp_recv hands out the oldest bytes, as many as asked for and as there are; none once the socket is free. */
  lemma BytesRead(s: Sock, maxlen: nat)
    ensures var n := ReadCount(s, maxlen);
      && n <= maxlen && n <= |s.ring| && (if s.used then n == maxlen || n == |s.ring| else n == 0)
      && s.ring == s.ring[..n] + AfterRead(s, maxlen).ring
  {
  }

  // ---- Sending, and sending again ----

  /**
   A chunk goes out under the next number, acknowledging what has been received; it is kept whole for
   retransmission a second later. If the card refuses it, nothing happens.
   */
  lemma ChunkSent(s: Sock, chunk: seq<byte>, ok: bool, now: nat)
    requires 0 < |chunk| <= 1460
    ensures var (t, out) := Raw(s, Flags(false, false, false, true, true), chunk, true, ok, now);
      if !ok then t == s && out == []
      else
        && out == [Segment(s.sndNxt, s.rcvNxt, Flags(false, false, false, true, true), chunk)]
        && t == s.(sndNxt := (s.sndNxt + |chunk|) % W, retx := chunk, retxNo := s.sndNxt, retxCount := 0,
                   retxFlags := Flags(false, false, false, true, true), retxDeadline := now + 1000)
  {
    assert chunk[..|chunk|] == chunk;
  }

  /** How long the driver waits after each of the six tries. */
  const WAITS: seq<nat> := [2000, 4000, 8000, 16000, 32000, 32000]

  lemma WaitsAre(k: nat)
    requires k < 6
    ensures Backoff(k + 1) == WAITS[k]
  {
    ShiftedIs(1000, k + 1);
  }

  lemma ShiftedIs(x: nat, k: nat)
    requires k <= 6
    ensures Shifted(x, k) == x * [1, 2, 4, 8, 16, 32, 64][k]
  {
  }

  /** Bytes or a FIN or a SYN wait for an acknowledgement, and their timer has run out. */
  predicate Overdue(s: Sock, now: nat) {
    && s.used && s.state != TimeWait && 0 < s.retxDeadline <= now && 0 < (s.sndNxt - s.sndUna) % W < 0x8000_0000
    && (s.retx != [] || s.retxFlags.syn || s.retxFlags.fin)
  }

  /** The slot is sent again, with an ever longer wait, six times; the seventh time the connection is dropped. */
  lemma SentAgain(s: Sock, ok: bool, now: nat)
    requires Overdue(s, now)
    ensures var (t, out) := Ticked(s, ok, now);
      if s.retxCount >= 6 then !t.used && t.state == Closed && out == []
      else
        && t.used && t.state == s.state && t.retxCount == s.retxCount + 1
        && t.retxDeadline == now + WAITS[s.retxCount]
        && t.retx == s.retx && t.retxFlags == s.retxFlags && t.retxNo == s.retxNo
        && out == if ok then [Segment(s.retxNo, if s.retxFlags.ack then s.rcvNxt else 0, s.retxFlags, s.retx)] else []
  {
    hide Backoff;
    if s.retxCount < 6 { WaitsAre(s.retxCount); }
  }

  /** Before the timer runs out a tick does nothing. */
  lemma NotYet(s: Sock, ok: bool, now: nat)
    requires s.used && s.state != TimeWait && now < s.retxDeadline
    ensures Ticked(s, ok, now) == (s, [])
  {
  }

  // ---- Opening and closing ----

  /** tcp_connect sends a SYN under the first number, which counts as one, and waits a second for the answer. */
  lemma ConnectSends(s: Sock, now: nat)
    ensures var (t, out) := Raw(s, Flags(false, true, false, false, false), [], true, true, now);
      && t.sndNxt == (s.sndNxt + 1) % W && t.sndUna == s.sndUna && t.state == s.state && t.retxDeadline == now + 1000
      && t.retx == [] && t.retxFlags.syn && t.retxNo == s.sndNxt && t.retxCount == 0
      && out == [Segment(s.sndNxt, 0, Flags(false, true, false, false, false), [])]
  {
  }

  /** The end of tcp_close frees the socket, unless it waits in TIME_WAIT. */
  lemma CloseFrees(s: Sock)
    ensures var t := Dropped(s);
      if s.state == TimeWait then t == s else !t.used && t.state == Closed && t.ring == s.ring
  {
  }

  /** SYN|ACK that acknowledges the SYN opens the connection; one that does not is answered by a reset. */
  lemma Opens(s: Sock, g: Segment, oks: seq<bool>, now: nat)
    requires |oks| == 3 && s.used && s.state == SynSent && !g.flags.rst && g.flags.syn && g.flags.ack
    ensures var (t, out) := Received(s, g, oks, now);
      if g.ack == s.sndNxt then
        && t.used && t.state == Established && t.rcvNxt == (g.no + 1) % W && t.sndUna == g.ack == t.sndNxt
        && t.retxDeadline == 0
        && out == if oks[0] then [Segment(s.sndNxt, t.rcvNxt, ONLY_ACK, [])] else []
      else
        && !t.used && t.state == Closed
        && out == if oks[0] then [Segment(g.ack, 0, Flags(false, false, true, false, false), [])] else []
  {
  }

  /** A reset closes a socket; what arrives for no open socket is answered by one, unless it is one. */
  lemma Resets(s: Sock, g: Segment, oks: seq<bool>, now: nat)
    requires |oks| == 3
    ensures var (t, out) := Received(s, g, oks, now);
      && (s.used && s.state != Closed && g.flags.rst ==> !t.used && t.state == Closed && out == [])
      && (!s.used || s.state == Closed ==>
            t == s
            && out == if !g.flags.rst && oks[0] then [Segment(g.ack, 0, Flags(false, false, true, false, false), [])]
                      else [])
  {
  }

  const ONLY_FIN_ACK: Flags := Flags(true, false, false, false, true)

  /** tcp_close sends a FIN under the next number, which counts as one. */
  lemma CloseSends(s: Sock, now: nat)
    requires s.used && s.state == Established
    ensures var (t, out) := Closing(s, true, now);
      && t.used && t.state == FinWait1 && t.sndNxt == (s.sndNxt + 1) % W && t.retxDeadline == now + 1000
      && out == [Segment(s.sndNxt, s.rcvNxt, ONLY_FIN_ACK, [])]
  {
  }

  /** An acknowledgement, and then the peer's FIN: it is acknowledged, and the socket waits for four seconds. */
  lemma ClosesAfterPeer(s: Sock, g: Segment, h: Segment, oks: seq<bool>, now: nat, later: nat)
    requires |oks| == 3 && s.used && s.state == FinWait1 && oks[0]
    requires !g.flags.rst && g.flags.ack && !g.flags.fin && !h.flags.rst && h.flags.fin && h.payload == []
    ensures var (t, none) := Received(s, g, oks, now);
      var (u, out) := Received(t, h, oks, now);
      && t.state == FinWait2 && none == []
      && u.state == TimeWait && u.used && u.rcvNxt == (s.rcvNxt + 1) % W
      && out == [Segment(u.sndNxt, u.rcvNxt, ONLY_ACK, [])]
      && (Ticked(u, true, later).0.used <==> later < now + 4000) && Ticked(u, true, later).1 == []
      && (later >= now + 4000 ==> Ticked(u, true, later).0.state == Closed)
  {
    hide AckSeen, Taken, Backoff, Retransmitted;
    AckSeenSame(s, g);
    var t := Received(s, g, oks, now).0;
    AckSeenSame(t, h);
    NothingTaken(AckSeen(t, h), h);
    AckPlain(AckSeen(t, h), oks[0], now);
  }

  /** The peer closes first: its FIN is acknowledged and answered, and the next acknowledgement frees the socket. */
  lemma PeerClosesFirst(s: Sock, g: Segment, h: Segment, oks: seq<bool>, now: nat, later: nat)
    requires oks == [true, true, true] && s.used && s.state == Established
    requires !g.flags.rst && g.flags.fin && g.payload == [] && !h.flags.rst && h.flags.ack
    ensures var (t, out) := Received(s, g, oks, now);
      var (u, none) := Received(t, h, oks, later);
      && t.used && t.state == LastAck && t.rcvNxt == (s.rcvNxt + 1) % W && t.sndNxt == (s.sndNxt + 1) % W
      && out == [Segment(s.sndNxt, t.rcvNxt, ONLY_ACK, []), Segment(s.sndNxt, t.rcvNxt, ONLY_FIN_ACK, [])]
      && !u.used && u.state == Closed && none == []
  {
    hide Taken, AckSeen, Backoff;
    AckSeenSame(s, g);
    var t := Received(s, g, oks, now).0;
    AckSeenSame(t, h);
  }

  // ---- All states ----

  /** The state after any segment but a reset. */
  lemma NextState(s: Sock, g: Segment, oks: seq<bool>, now: nat)
    requires |oks| == 3 && s.used && s.state != Closed && !g.flags.rst
    ensures var t := Received(s, g, oks, now).0;
      && (t.used <==> t.state != Closed)
      && t.state == match s.state
                    case SynSent =>
                      if !g.flags.syn || !g.flags.ack then SynSent
                      else if g.ack == s.sndNxt then Established
                      else Closed
                    case Established => if g.flags.fin then LastAck else Established
                    case FinWait1 => if g.flags.fin then TimeWait else if g.flags.ack then FinWait2 else FinWait1
                    case FinWait2 => if g.flags.fin then TimeWait else FinWait2
                    case LastAck => if g.flags.ack then Closed else LastAck
                    case TimeWait => TimeWait
                    case CloseWait => CloseWait
                    case Closed => Closed
  {
    hide AckSeen, Taken, Backoff;
    AckSeenSame(s, g);
    FreshNumber(s, g);
  }

  lemma FreshNumber(s: Sock, g: Segment)
    ensures AckSeen(s, g).sndNxt == s.sndNxt
  {
  }

  /**
   A FIN counts as one byte behind those taken, and while the own FIN waits for it, starts the four seconds of
   TIME_WAIT, again if need be.
   */
  lemma FinCounts(s: Sock, g: Segment, oks: seq<bool>, now: nat)
    requires |oks| == 3 && s.used && s.state in {Established, FinWait1, FinWait2, TimeWait} && |s.ring| <= 8192
    requires !g.flags.rst && g.flags.fin
    ensures var t, room := Received(s, g, oks, now).0, 8192 - |s.ring|;
      var n := if s.state in {FinWait1, TimeWait} || g.no != s.rcvNxt then 0
               else if |g.payload| <= room then |g.payload| else room;
      && t.rcvNxt == (s.rcvNxt + n + 1) % W && t.ring == s.ring + g.payload[..n]
      && (s.state != Established ==> t.timewait == now + 4000)
  {
    hide Raw, AckSeen, Taken, FinTimeWait, PeerClosed, Plus;
    AckSeenSame(s, g);
    var t := AckSeen(s, g);
    TakenNumber(s, t, g);
    AckPlain(Accept(t, g), oks[0], now);
    FinTimeWaitPlain(t, oks[0], now);
    FinTimeWaitPlain(t.(state := FinWait2), oks[0], now);
    FinTimeWaitPlain(Accept(t, g), oks[0], now);
    ClosedNumber(t, oks[1], oks[2], now);
    ClosedNumber(Accept(t, g), oks[1], oks[2], now);
    if s.state in {FinWait1, TimeWait} { PlusIs(s.rcvNxt, 1); }
  }

  lemma PlusIs(a: u32, n: nat)
    ensures Plus(a, n) == (a + n) % W
  {
  }

  lemma ClosedNumber(s: Sock, ok1: bool, ok2: bool, now: nat)
    ensures var t := PeerClosed(s, ok1, ok2, now).0; t.rcvNxt == Plus(s.rcvNxt, 1) && t.ring == s.ring
  {
  }

  lemma TakenNumber(s: Sock, t: Sock, g: Segment)
    requires t.ring == s.ring && t.rcvNxt == s.rcvNxt && |s.ring| <= 8192
    ensures var room := 8192 - |s.ring|;
      var n := if g.no != s.rcvNxt then 0 else if |g.payload| <= room then |g.payload| else room;
      && Accept(t, g).ring == s.ring + g.payload[..n]
      && Plus(Accept(t, g).rcvNxt, 1) == (s.rcvNxt + n + 1) % W
      && (g.payload == [] || g.no != s.rcvNxt ==> n == 0 && Plus(t.rcvNxt, 1) == (s.rcvNxt + n + 1) % W)
  {
    PlusPlus(s.rcvNxt, |Taken(t, g)|, 1);
  }
}
