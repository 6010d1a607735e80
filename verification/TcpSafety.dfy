/**
 Two endpoints and a network that may lose, repeat, delay and reorder segments: a segment once sent
 can be delivered at any later time, any number of times, or never. Whatever happens, the bytes an
 endpoint's tcp_recv has returned are a prefix of the bytes the other's tcp_send accepted, provided
 that after a retransmission that could not be handed to the network card nothing new is sent until one
 could; UnsafeRewind shows why that is needed.
 */
module TcpSafety {
  import opened Bytes
  import opened Tcp

  /**
   One end of a connection: the socket and its history. sent holds the bytes tcp_send accepted, got the
   bytes tcp_recv returned, out every segment sent so far, fin the number of bytes before the FIN.
   */
  datatype End = End(s: Sock, iss: u32, sent: seq<byte>, got: seq<byte>, out: set<Segment>, fin: Option<nat>)

  datatype Action =
    | Send(chunk: seq<byte>, ok: bool, now: nat)
    | Tick(ok: bool, now: nat)
    | Deliver(g: Segment, oks: seq<bool>, now: nat)
    | Read(maxlen: nat)
    | Close(ok: bool, now: nat)
    | Drop

  function HasFin(gs: seq<Segment>): bool { exists g :: g in gs && g.flags.fin }

  function Put(out: set<Segment>, gs: seq<Segment>): set<Segment> { out + set g | g in gs }

  /** The end after its socket became r.0 and sent r.1. */
  function Took(e: End, r: Outcome): End {
    e.(s := r.0, out := Put(e.out, r.1), fin := if e.fin.None? && HasFin(r.1) then Some(|e.sent|) else e.fin)
  }

  function Next(e: End, act: Action): End
    requires act.Deliver? ==> |act.oks| == 3
  {
    match act
    case Send(chunk, ok, now) =>
      var r := Raw(e.s, PSH_ACK, chunk, true, ok, now);
      Took(e, r).(sent := if ok then e.sent + chunk else e.sent)
    case Tick(ok, now) => Took(e, Ticked(e.s, ok, now))
    case Deliver(g, oks, now) => Took(e, Received(e.s, g, oks, now))
    case Read(maxlen) => e.(s := AfterRead(e.s, maxlen), got := e.got + e.s.ring[..ReadCount(e.s, maxlen)])
    case Close(ok, now) => Took(e, Closing(e.s, ok, now))
    case Drop => e.(s := Dropped(e.s))
  }

  /** A connection carries fewer than 2^32 - 2 bytes each way; only sent segments arrive. */
  predicate Possible(e: End, peer: End, act: Action) {
    match act
    case Send(chunk, ok, now) => 0 < |chunk| <= MSS && |e.sent| + |chunk| < M - 2
    case Deliver(g, oks, now) => g in peer.out && |oks| == 3
    case _ => true
  }

  /** tcp_tick has something to resend, so that a frame that cannot be sent leaves snd_nxt moved back. */
  predicate Rewinds(s: Sock, now: nat) {
    && s.used && s.state != TimeWait && s.retxDeadline != 0 && now >= s.retxDeadline && SeqGt(s.sndNxt, s.sndUna)
    && 0 < Advance(s.retxFlags, s.retx) && s.retxCount < MAX_RETX
  }

  /** Whether snd_nxt is still moved back after the action, if it was before. */
  predicate BackAfter(e: End, act: Action, back: bool) {
    if act.Tick? && Rewinds(e.s, act.now) then !act.ok else back
  }

  /** The action sends bytes or a FIN that were not sent before. */
  predicate SendsNew(e: End, act: Action)
    requires act.Deliver? ==> |act.oks| == 3
  {
    Next(e, act).sent != e.sent || Next(e, act).fin != e.fin
  }

  datatype Pair = Pair(a: End, b: End)

  datatype Move = Move(left: bool, act: Action)

  predicate MayMove(w: Pair, m: Move) {
    if m.left then Possible(w.a, w.b, m.act) else Possible(w.b, w.a, m.act)
  }

  function Moved(w: Pair, m: Move): Pair
    requires MayMove(w, m)
  {
    if m.left then w.(a := Next(w.a, m.act)) else w.(b := Next(w.b, m.act))
  }

  predicate IsRun(w: Pair, ms: seq<Move>)
    decreases |ms|
  {
    ms == [] || (MayMove(w, ms[0]) && IsRun(Moved(w, ms[0]), ms[1..]))
  }

  function After(w: Pair, ms: seq<Move>): Pair
    requires IsRun(w, ms)
    decreases |ms|
  {
    if ms == [] then w else After(Moved(w, ms[0]), ms[1..])
  }

  /** Which ends have snd_nxt moved back. */
  datatype Backs = Backs(a: bool, b: bool)

  function BacksAfter(w: Pair, m: Move, back: Backs): Backs {
    if m.left then back.(a := BackAfter(w.a, m.act, back.a)) else back.(b := BackAfter(w.b, m.act, back.b))
  }

  /**
   The assumption of the safety theorem: an end whose retransmission failed to be sent sends nothing new until
   a retransmission has been sent.
   */
  predicate Careful(w: Pair, ms: seq<Move>, back: Backs)
    requires IsRun(w, ms)
    decreases |ms|
  {
    ms == [] ||
    (CarefulMove(w, ms[0], back) && Careful(Moved(w, ms[0]), ms[1..], BacksAfter(w, ms[0], back)))
  }

  predicate CarefulMove(w: Pair, m: Move, back: Backs)
    requires MayMove(w, m)
  {
    if m.left then !(back.a && SendsNew(w.a, m.act)) else !(back.b && SendsNew(w.b, m.act))
  }

  const NO_FLAGS := Flags(false, false, false, false, false)

  /**
   The kernel opens connections but never accepts one, so the peer is taken where a server stands
   once it has answered the SYN: its SYN|ACK is on the network.
   */
  function Start(issA: u32, issB: u32, now: nat): Pair {
    var a := Raw(Sock(SynSent, true, issA, issA, 0, [], NO_FLAGS, 0, 0, 0, [], 0), SYN, [], true, true, now);
    var b := Sock(Established, true, Plus(issB, 1), Plus(issB, 1), Plus(issA, 1), [], NO_FLAGS, 0, 0, 0, [], 0);
    Pair(End(a.0, issA, [], [], Put({}, a.1), None),
         End(b, issB, [], [], {Segment(issB, Plus(issA, 1), SYN_ACK, [])}, None))
  }

  // ---- What every segment on the network carries ----

  /** The sequence number of byte o of the stream; bytes after the FIN are one further on. */
  function Place(e: End, o: nat): u32 {
    Plus(e.iss, 1 + o + if e.fin.Some? && o >= e.fin.value then 1 else 0)
  }

  ghost predicate CarriesAt(e: End, g: Segment, o: nat) {
    && o + |g.payload| <= |e.sent| && g.payload == e.sent[o..o + |g.payload|] && g.no == Place(e, o)
    && (e.fin.Some? && o < e.fin.value ==> o + |g.payload| <= e.fin.value)
  }

  ghost predicate SegmentOk(e: End, g: Segment) {
    && (g.payload == [] || exists o: nat :: CarriesAt(e, g, o))
    && (g.flags.syn && g.flags.ack ==> g.no == e.iss)
  }

  predicate Opening(s: State) { s == SynSent || s == Established }

  /** The sequence number of what is to be sent next. */
  function Expected(e: End): u32 {
    Plus(e.iss, 1 + |e.sent| + if e.fin.Some? then 1 else 0)
  }

  predicate InPlace(e: End) { e.s.sndNxt == Expected(e) }

  /** A pending retransmit slot ends where the next number to be sent stands, and holds a right segment. */
  ghost predicate SlotOk(e: End) {
    e.s.retxDeadline != 0 ==>
      && Plus(e.s.retxNo, Advance(e.s.retxFlags, e.s.retx)) == Expected(e)
      && SegmentOk(e, Segment(e.s.retxNo, 0, e.s.retxFlags, e.s.retx))
      && (e.s.retxFlags.fin ==> e.fin.Some?)
  }

  ghost predicate Sender(e: End) {
    && |e.sent| < M - 2
    && (e.fin.Some? ==> e.fin.value <= |e.sent| && !Opening(e.s.state))
    && (forall g :: g in e.out ==> SegmentOk(e, g))
    && SlotOk(e)
  }

  /** What y has taken in from x: a prefix, and while y may take more, rcv_nxt counts it. */
  ghost predicate Receiver(x: End, y: End) {
    var r := y.got + y.s.ring;
    && r <= x.sent && (x.fin.Some? ==> |r| <= x.fin.value)
    && (y.s.state == SynSent ==> r == [])
    && (y.s.state in {Established, FinWait1, FinWait2} ==> y.s.rcvNxt == Plus(x.iss, 1 + |r|))
  }

  ghost predicate Inv(w: Pair, back: Backs) {
    && Sender(w.a) && Sender(w.b) && Receiver(w.a, w.b) && Receiver(w.b, w.a)
    && (back.a || InPlace(w.a)) && (back.b || InPlace(w.b))
  }

  // ---- Sequence numbers ----

  lemma PlusPlus(a: u32, m: nat, n: nat)
    ensures Plus(Plus(a, m), n) == Plus(a, m + n)
  {
  }

  lemma PlusZero(a: u32)
    ensures Plus(a, 0) == a
  {
  }

  lemma PlusInjective(a: u32, m: nat, n: nat)
    requires m < M && n < M && Plus(a, m) == Plus(a, n)
    ensures m == n
  {
  }

  // ---- The sending side ----

  /** History only grows: bytes are appended, and a FIN is recorded after all bytes sent so far. */
  ghost predicate Grows(e: End, f: End) {
    f.iss == e.iss && e.sent <= f.sent && (f.fin == e.fin || (e.fin.None? && f.fin == Some(|e.sent|)))
  }

  lemma StillOk(e: End, f: End, g: Segment)
    requires Grows(e, f) && SegmentOk(e, g)
    ensures SegmentOk(f, g)
  {
    if g.payload != [] {
      var o: nat :| CarriesAt(e, g, o);
      assert CarriesAt(f, g, o);
    }
  }

  /** Every field that sending depends on is as before, or the slot has been emptied. */
  predicate SameSending(s: Sock, t: Sock) {
    && t.sndNxt == s.sndNxt && (Opening(t.state) ==> Opening(s.state))
    && (t.retxDeadline != 0 ==>
          s.retxDeadline != 0 && t.retx == s.retx && t.retxFlags == s.retxFlags && t.retxNo == s.retxNo)
  }

  predicate Plain(gs: seq<Segment>) {
    forall g :: g in gs ==> g.payload == [] && !g.flags.fin && !g.flags.syn
  }

  lemma PlainKeeps(e: End, r: Outcome)
    requires Sender(e) && SameSending(e.s, r.0) && Plain(r.1)
    ensures Sender(Took(e, r)) && Took(e, r).fin == e.fin
    ensures InPlace(Took(e, r)) <==> InPlace(e)
  {
    var f := Took(e, r);
    forall g | g in f.out ensures SegmentOk(f, g) {
      if g in e.out { StillOk(e, f, g); }
    }
    if f.s.retxDeadline != 0 {
      StillOk(e, f, Segment(e.s.retxNo, 0, e.s.retxFlags, e.s.retx));
    }
  }

  /** An acknowledgement changes no field of its socket. */
  lemma AckPlain(s: Sock, ok: bool, now: nat)
    ensures Raw(s, ACK, [], false, ok, now).0 == s && Plain(Raw(s, ACK, [], false, ok, now).1)
  {
    PlusZero(s.sndNxt);
  }

  lemma FinKeeps(e: End, ok: bool, now: nat)
    requires Sender(e) && e.fin.None? && !Opening(e.s.state) && (ok ==> InPlace(e))
    ensures Sender(Took(e, Raw(e.s, FIN_ACK, [], true, ok, now)))
    ensures InPlace(e) ==> InPlace(Took(e, Raw(e.s, FIN_ACK, [], true, ok, now)))
    ensures ok ==> Took(e, Raw(e.s, FIN_ACK, [], true, ok, now)).fin.Some?
  {
    var r := Raw(e.s, FIN_ACK, [], true, ok, now);
    var f := Took(e, r);
    if ok {
      assert r.1[0].flags.fin && f.fin == Some(|e.sent|);
      PlusPlus(e.iss, 1 + |e.sent|, 1);
      forall g | g in f.out ensures SegmentOk(f, g) {
        if g in e.out { StillOk(e, f, g); }
      }
    } else {
      assert f == e;
    }
  }

  /** What sending a chunk changes. */
  lemma DataSent(e: End, chunk: seq<byte>, now: nat) returns (g: Segment)
    requires 0 < |chunk| <= MSS
    ensures var f := Next(e, Send(chunk, true, now));
      && f.iss == e.iss && f.sent == e.sent + chunk && f.fin == e.fin && f.out == e.out + {g}
      && g.no == e.s.sndNxt && g.flags == PSH_ACK && g.payload == chunk
      && f.s.state == e.s.state && f.s.sndNxt == Plus(e.s.sndNxt, |chunk|)
      && f.s.retx == chunk && f.s.retxFlags == PSH_ACK && f.s.retxNo == e.s.sndNxt
  {
    var r := Raw(e.s, PSH_ACK, chunk, true, true, now);
    g := r.1[0];
    assert !HasFin(r.1) && chunk[..|chunk|] == chunk;
    assert Put(e.out, r.1) == e.out + {g};
  }

  lemma DataKeeps(e: End, chunk: seq<byte>, ok: bool, now: nat)
    requires Sender(e) && 0 < |chunk| <= MSS && |e.sent| + |chunk| < M - 2 && (ok ==> InPlace(e))
    ensures InPlace(e) ==> InPlace(Next(e, Send(chunk, ok, now)))
    ensures Sender(Next(e, Send(chunk, ok, now))) && Next(e, Send(chunk, ok, now)).fin == e.fin
  {
    hide Sender, InPlace, Next;
    if ok {
      var sent := DataSent(e, chunk, now);
      DataRight(e, Next(e, Send(chunk, ok, now)), chunk, sent);
    } else {
      NothingSent(e, chunk, now);
    }
  }

  lemma NothingSent(e: End, chunk: seq<byte>, now: nat)
    ensures Next(e, Send(chunk, false, now)) == e
  {
    var r := Raw(e.s, PSH_ACK, chunk, true, false, now);
    assert r.1 == [] && Put(e.out, []) == e.out && !HasFin([]);
  }

  lemma DataRight(e: End, f: End, chunk: seq<byte>, g: Segment)
    requires Sender(e) && InPlace(e) && |e.sent| + |chunk| < M - 2
    requires f.iss == e.iss && f.sent == e.sent + chunk && f.fin == e.fin && f.out == e.out + {g}
    requires g.no == e.s.sndNxt && g.flags == PSH_ACK && g.payload == chunk
    requires f.s.state == e.s.state && f.s.sndNxt == Plus(e.s.sndNxt, |chunk|)
    requires f.s.retx == chunk && f.s.retxFlags == PSH_ACK && f.s.retxNo == e.s.sndNxt
    ensures Sender(f) && InPlace(f)
  {
    hide Plus;
    PlusPlus(e.iss, 1 + |e.sent| + if e.fin.Some? then 1 else 0, |chunk|);
    assert f.sent[|e.sent|..|e.sent| + |chunk|] == chunk;
    assert CarriesAt(f, g, |e.sent|);
    assert CarriesAt(f, Segment(f.s.retxNo, 0, f.s.retxFlags, f.s.retx), |e.sent|);
    forall h | h in f.out ensures SegmentOk(f, h) {
      if h in e.out { StillOk(e, f, h); }
    }
  }

  /** A retransmission repeats a segment, and puts the sequence number where it belongs unless it gives up. */
  lemma ResendKeeps(e: End, now: nat)
    requires Sender(e) && e.s.retxDeadline != 0
    ensures Sender(Took(e, Retransmitted(e.s, true, now)))
    ensures Took(e, Retransmitted(e.s, true, now)).fin == e.fin
    ensures InPlace(e) ==> InPlace(Took(e, Retransmitted(e.s, true, now)))
    ensures 0 < Advance(e.s.retxFlags, e.s.retx) && e.s.retxCount < MAX_RETX ==>
      InPlace(Took(e, Retransmitted(e.s, true, now)))
  {
    hide Backoff;
    var r := Retransmitted(e.s, true, now);
    var f := Took(e, r);
    var slot := Segment(e.s.retxNo, 0, e.s.retxFlags, e.s.retx);
    StillOk(e, f, slot);
    forall g | g in f.out ensures SegmentOk(f, g) {
      if g in e.out {
        StillOk(e, f, g);
      } else {
        assert g.no == slot.no && g.flags == slot.flags && g.payload == slot.payload;
        SameSegment(f, slot, g);
      }
    }
  }

  /**
   Whether the frame could be sent or not, a retransmission keeps the segments and the slot right; and it leaves
   snd_nxt in its place exactly if the frame was sent, or there was nothing to send, or it was the last try.
   */
  lemma ResendExact(e: End, ok: bool, now: nat)
    requires Sender(e) && InPlace(e) && e.s.retxDeadline != 0 && |e.s.retx| <= RETX_BUF
    ensures var r := Retransmitted(e.s, ok, now);
      && Sender(Took(e, r))
      && (InPlace(Took(e, r)) <==> ok || Advance(e.s.retxFlags, e.s.retx) == 0 || e.s.retxCount >= MAX_RETX)
  {
    hide Backoff, Sender;
    var r, n := Retransmitted(e.s, ok, now), Advance(e.s.retxFlags, e.s.retx);
    if ok {
      ResendKeeps(e, now);
    } else if n == 0 || e.s.retxCount >= MAX_RETX {
      PlainKeeps(e, r);
    } else {
      FailedKeeps(e, now);
      SlotEnds(e);
      PlusZero(e.s.retxNo);
      if e.s.retxNo == e.s.sndNxt { PlusInjective(e.s.retxNo, n, 0); }
    }
  }

  /** A retransmission that fails moves snd_nxt, and nothing else that sending depends on. */
  lemma FailedKeeps(e: End, now: nat)
    requires Sender(e) && e.s.retxDeadline != 0
    ensures Sender(Took(e, Retransmitted(e.s, false, now)))
    ensures Took(e, Retransmitted(e.s, false, now)).fin == e.fin
    ensures 0 < Advance(e.s.retxFlags, e.s.retx) && e.s.retxCount < MAX_RETX ==>
      Took(e, Retransmitted(e.s, false, now)).s.sndNxt == e.s.retxNo
  {
    hide Backoff;
    var f := Took(e, Retransmitted(e.s, false, now));
    forall g | g in f.out ensures SegmentOk(f, g) { StillOk(e, f, g); }
    StillOk(e, f, Segment(e.s.retxNo, 0, e.s.retxFlags, e.s.retx));
  }

  lemma SlotEnds(e: End)
    requires Sender(e) && e.s.retxDeadline != 0
    ensures Plus(e.s.retxNo, Advance(e.s.retxFlags, e.s.retx)) == Expected(e)
  {
  }

  lemma SameSegment(e: End, g: Segment, h: Segment)
    requires SegmentOk(e, g) && h.no == g.no && h.flags == g.flags && h.payload == g.payload
    ensures SegmentOk(e, h)
  {
    if g.payload != [] {
      var o: nat :| CarriesAt(e, g, o);
      assert CarriesAt(e, h, o);
    }
  }

  lemma TookTwice(e: End, q: Outcome, p: Outcome)
    ensures Took(Took(e, q), p) == Took(e, (p.0, q.1 + p.1))
  {
    assert HasFin(q.1 + p.1) <==> HasFin(q.1) || HasFin(p.1) by {
      if HasFin(q.1) { var g :| g in q.1 && g.flags.fin; assert g in q.1 + p.1; }
      if HasFin(p.1) { var g :| g in p.1 && g.flags.fin; assert g in q.1 + p.1; }
    }
    assert Put(Put(e.out, q.1), p.1) == Put(e.out, q.1 + p.1);
  }

  lemma FinTimeWaitPlain(s: Sock, ok: bool, now: nat)
    ensures SameSending(s, FinTimeWait(s, ok, now).0) && Plain(FinTimeWait(s, ok, now).1)
    ensures FinTimeWait(s, ok, now).0 == s.(rcvNxt := Plus(s.rcvNxt, 1), state := TimeWait, timewait := now + TIMEWAIT)
  {
    hide Raw;
    AckPlain(s.(rcvNxt := Plus(s.rcvNxt, 1)), ok, now);
  }

  lemma SynSentPlain(s: Sock, g: Segment, oks: seq<bool>, now: nat)
    requires |oks| == 3 && s.state == SynSent
    ensures SameSending(s, InSynSent(s, g, oks, now).0) && Plain(InSynSent(s, g, oks, now).1)
    ensures InSynSent(s, g, oks, now).0 ==
      if !(g.flags.syn && g.flags.ack) then s
      else if g.ack != s.sndNxt then Freed(s)
      else s.(rcvNxt := Plus(g.no, 1), sndUna := g.ack, state := Established, retxDeadline := 0)
  {
    hide Raw;
    AckPlain(s.(rcvNxt := Plus(g.no, 1), sndUna := g.ack, state := Established, retxDeadline := 0), oks[0], now);
  }

  lemma AckSeenSame(s: Sock, g: Segment)
    ensures SameSending(s, AckSeen(s, g)) && AckSeen(s, g).state == s.state && AckSeen(s, g).ring == s.ring
    ensures AckSeen(s, g).rcvNxt == s.rcvNxt && AckSeen(s, g).used == s.used
  {
  }

  /**
   Everything an arriving segment can cause except the answer to a FIN sends nothing but acknowledgements and
   resets.
   */
  lemma ReceivedPlain(s: Sock, g: Segment, oks: seq<bool>, now: nat)
    requires |oks| == 3 && !(s.used && s.state == Established && !g.flags.rst)
    ensures SameSending(s, Received(s, g, oks, now).0) && Plain(Received(s, g, oks, now).1)
  {
    hide AckSeen, FinTimeWait, InSynSent, Taken;
    AckSeenSame(s, g);
    var t := AckSeen(s, g);
    FinTimeWaitPlain(t, oks[0], now);
    FinTimeWaitPlain(t.(state := FinWait2), oks[0], now);
    FinTimeWaitPlain(Accept(t, g), oks[0], now);
    if t.state == SynSent { SynSentPlain(t, g, oks, now); }
  }

  lemma EstablishedPlain(s: Sock, g: Segment, oks: seq<bool>, now: nat)
    requires |oks| == 3 && s.state == Established && s.used && !g.flags.rst
    ensures var t := AckSeen(s, g);
      var d := if g.payload != [] && g.no == t.rcvNxt then Raw(Accept(t, g), ACK, [], false, oks[0], now) else (t, []);
      && SameSending(s, d.0) && Plain(d.1)
      && Received(s, g, oks, now) ==
         (if g.flags.fin then
            (PeerClosed(d.0, oks[1], oks[2], now).0, d.1 + PeerClosed(d.0, oks[1], oks[2], now).1)
          else d)
  {
    hide Raw, Taken, PeerClosed;
    AckPlain(Accept(AckSeen(s, g), g), oks[0], now);
  }

  lemma ClosedKeeps(e: End, ok1: bool, ok2: bool, now: nat)
    requires Sender(e) && e.s.state == Established && (ok2 ==> InPlace(e))
    ensures Sender(Took(e, PeerClosed(e.s, ok1, ok2, now)))
    ensures InPlace(e) ==> InPlace(Took(e, PeerClosed(e.s, ok1, ok2, now)))
  {
    hide Raw, Sender, InPlace;
    var s1 := e.s.(rcvNxt := Plus(e.s.rcvNxt, 1));
    var q := Raw(s1, ACK, [], false, ok1, now);
    AckPlain(s1, ok1, now);
    var s2 := q.0.(state := LastAck);
    PlainKeeps(e, (s2, q.1));
    NoFinYet(e);
    FinKeeps(Took(e, (s2, q.1)), ok2, now);
    TookTwice(e, (s2, q.1), Raw(s2, FIN_ACK, [], true, ok2, now));
  }

  lemma NoFinYet(e: End)
    requires Sender(e) && e.s.state == Established
    ensures e.fin.None?
  {
  }

  lemma ReceivedKeeps(e: End, g: Segment, oks: seq<bool>, now: nat)
    requires Sender(e) && |oks| == 3 && (InPlace(e) || !SendsNew(e, Deliver(g, oks, now)))
    ensures Sender(Next(e, Deliver(g, oks, now)))
    ensures InPlace(e) ==> InPlace(Next(e, Deliver(g, oks, now)))
  {
    hide Raw, Sender, InPlace, PeerClosed, Received, Accept, AckSeen;
    if e.s.used && e.s.state == Established && !g.flags.rst {
      var t := AckSeen(e.s, g);
      var d := if g.payload != [] && g.no == t.rcvNxt then Raw(Accept(t, g), ACK, [], false, oks[0], now) else (t, []);
      EstablishedPlain(e.s, g, oks, now);
      PlainKeeps(e, d);
      if g.flags.fin {
        StillEstablished(e.s, g, oks, now);
        NoFinYet(e);
        FinSeen(e, d, oks[1], oks[2], now);
        ClosedKeeps(Took(e, d), oks[1], oks[2], now);
        TookTwice(e, d, PeerClosed(d.0, oks[1], oks[2], now));
      }
    } else {
      ReceivedPlain(e.s, g, oks, now);
      PlainKeeps(e, Received(e.s, g, oks, now));
    }
  }

  /** Answering a FIN sends one, unless that fails. */
  lemma FinSeen(e: End, d: Outcome, ok1: bool, ok2: bool, now: nat)
    requires e.fin.None?
    ensures var r := PeerClosed(d.0, ok1, ok2, now);
      ok2 ==> Took(e, (r.0, d.1 + r.1)).fin.Some?
  {
    hide AckSeen;
    if ok2 {
      var r := PeerClosed(d.0, ok1, ok2, now);
      var gs := d.1 + r.1;
      assert gs[|gs| - 1].flags.fin && gs[|gs| - 1] in gs;
    }
  }

  lemma StillEstablished(s: Sock, g: Segment, oks: seq<bool>, now: nat)
    requires |oks| == 3 && s.state == Established
    ensures var t := AckSeen(s, g);
      t.state == Established && Raw(Accept(t, g), ACK, [], false, oks[0], now).0.state == Established
  {
  }

  /**
   Every action keeps the sending side right, if it sends something new only while snd_nxt is in its place; and
   snd_nxt stays there until a retransmission fails, and is there again once one is sent.
   */
  lemma SenderKept(e: End, peer: End, act: Action, back: bool)
    requires Sender(e) && Possible(e, peer, act) && (back || InPlace(e)) && !(back && SendsNew(e, act))
    ensures Sender(Next(e, act)) && Grows(e, Next(e, act)) && Next(e, act).out >= e.out
    ensures BackAfter(e, act, back) || InPlace(Next(e, act))
  {
    hide Sender, InPlace, Raw, Received, Ticked, Closing, Rewinds;
    match act
    case Send(chunk, ok, now) => SendKeeps(e, chunk, ok, now, back);
    case Tick(ok, now) => TickKeeps(e, ok, now);
    case Deliver(g, oks, now) => ReceivedKeeps(e, g, oks, now);
    case Read(maxlen) => LocalKeeps(e, AfterRead(e.s, maxlen), e.got + e.s.ring[..ReadCount(e.s, maxlen)]);
    case Close(ok, now) => CloseKeeps(e, ok, now);
    case Drop => LocalKeeps(e, Dropped(e.s), e.got);
  }

  lemma SendKeeps(e: End, chunk: seq<byte>, ok: bool, now: nat, back: bool)
    requires Sender(e) && 0 < |chunk| <= MSS && |e.sent| + |chunk| < M - 2
    requires (back || InPlace(e)) && !(back && SendsNew(e, Send(chunk, ok, now)))
    ensures Sender(Next(e, Send(chunk, ok, now))) && Next(e, Send(chunk, ok, now)).fin == e.fin
    ensures back || InPlace(Next(e, Send(chunk, ok, now)))
  {
    hide Sender, InPlace, Raw;
    if ok { assert |(e.sent + chunk)| > |e.sent|; }
    DataKeeps(e, chunk, ok, now);
  }

  lemma LocalKeeps(e: End, t: Sock, got: seq<byte>)
    requires Sender(e) && SameSending(e.s, t)
    ensures Sender(e.(s := t, got := got)) && (InPlace(e) ==> InPlace(e.(s := t, got := got)))
  {
    var f := e.(s := t, got := got);
    forall g | g in f.out ensures SegmentOk(f, g) { StillOk(e, f, g); }
    if f.s.retxDeadline != 0 { StillOk(e, f, Segment(e.s.retxNo, 0, e.s.retxFlags, e.s.retx)); }
  }

  lemma TickKeeps(e: End, ok: bool, now: nat)
    requires Sender(e)
    ensures Sender(Next(e, Tick(ok, now)))
    ensures InPlace(e) && !Rewinds(e.s, now) ==> InPlace(Next(e, Tick(ok, now)))
    ensures Rewinds(e.s, now) && ok ==> InPlace(Next(e, Tick(ok, now)))
  {
    hide Sender, InPlace, Raw, Backoff;
    if Rewinds(e.s, now) {
      if ok { ResendKeeps(e, now); } else { FailedKeeps(e, now); }
    } else {
      PlainKeeps(e, Ticked(e.s, ok, now));
    }
  }

  lemma CloseKeeps(e: End, ok: bool, now: nat)
    requires Sender(e) && (InPlace(e) || !SendsNew(e, Close(ok, now)))
    ensures Sender(Next(e, Close(ok, now)))
    ensures InPlace(e) ==> InPlace(Next(e, Close(ok, now)))
  {
    if e.s.used && e.s.state == Established {
      var f := e.(s := e.s.(state := FinWait1));
      PlainKeeps(e, (f.s, []));
      assert Took(e, (f.s, [])) == f;
      var r := Raw(f.s, FIN_ACK, [], true, ok, now);
      assert Next(e, Close(ok, now)) == Took(f, r);
      if ok { assert r.1[0].flags.fin && Took(f, r).fin.Some?; }
      FinKeeps(f, ok, now);
    } else {
      assert Took(e, (e.s, [])) == e;
    }
  }

  // ---- The receiving side ----

  /** The one place where bytes come in: an arriving segment that starts where the receiver stands. */
  lemma TakenIsNext(x: End, y: End, g: Segment)
    requires Sender(x) && Receiver(x, y) && g in x.out && y.s.state in {Established, FinWait2}
    ensures var r := y.got + y.s.ring;
      var t := Taken(y.s, g);
      r + t <= x.sent && (x.fin.Some? ==> |r + t| <= x.fin.value)
      && Plus(y.s.rcvNxt, |t|) == Plus(x.iss, 1 + |r + t|)
  {
    hide Plus, SlotOk;
    var r := y.got + y.s.ring;
    var t := Taken(y.s, g);
    PlusPlus(x.iss, 1 + |r|, |t|);
    if t != [] {
      assert SegmentOk(x, g);
      var o: nat :| CarriesAt(x, g, o);
      PlusInjective(x.iss, 1 + o + (if x.fin.Some? && o >= x.fin.value then 1 else 0), 1 + |r|);
      assert o == |r|;
      assert x.sent[..o + |t|] == r + t;
    }
  }

  /** The receiving side of a socket looks at these fields only. */
  predicate SameIntake(s: Sock, t: Sock) {
    && t.ring == s.ring
    && (t.state == SynSent ==> s.state == SynSent)
    && (t.state in {Established, FinWait1, FinWait2} ==>
          s.state in {Established, FinWait1, FinWait2} && t.rcvNxt == s.rcvNxt)
  }

  lemma SameIntakeKeeps(x: End, y: End, z: End)
    requires Receiver(x, y) && SameIntake(y.s, z.s) && z.got == y.got
    ensures Receiver(x, z)
  {
  }

  lemma AcceptKeeps(x: End, y: End, g: Segment)
    requires Sender(x) && Receiver(x, y) && g in x.out && y.s.state in {Established, FinWait2}
    ensures Receiver(x, y.(s := Accept(y.s, g)))
  {
    hide Sender, Taken;
    TakenIsNext(x, y, g);
    var t := Taken(y.s, g);
    assert y.got + (y.s.ring + t) == y.got + y.s.ring + t;
  }

  /** Where the connection opens: the peer's SYN tells where its stream starts. */
  lemma OpenKeeps(x: End, y: End, g: Segment, t: Sock)
    requires Sender(x) && Receiver(x, y) && g in x.out && g.flags.syn && g.flags.ack && y.s.state == SynSent
    requires t.ring == y.s.ring && t.rcvNxt == Plus(g.no, 1) && t.state == Established
    ensures Receiver(x, y.(s := t))
  {
    assert SegmentOk(x, g);
  }

  lemma ClosedIntake(s: Sock, ok1: bool, ok2: bool, now: nat)
    ensures PeerClosed(s, ok1, ok2, now).0.ring == s.ring && PeerClosed(s, ok1, ok2, now).0.state == LastAck
  {
  }

  /** How an arriving segment moves the receiving side. */
  lemma ArrivalKeeps(x: End, y: End, g: Segment, oks: seq<bool>, now: nat)
    requires Sender(x) && Receiver(x, y) && g in x.out && |oks| == 3
    ensures Receiver(x, Next(y, Deliver(g, oks, now)))
  {
    hide AckSeen, FinTimeWait, InSynSent, Accept, PeerClosed, Raw, Sender, Receiver;
    var z := Next(y, Deliver(g, oks, now));
    AckSeenSame(y.s, g);
    var t := AckSeen(y.s, g);
    var u := y.(s := t);
    SameIntakeKeeps(x, y, u);
    if !y.s.used || y.s.state == Closed || g.flags.rst {
      SameIntakeKeeps(x, y, z);
    } else if t.state == SynSent {
      SynSentPlain(t, g, oks, now);
      if g.flags.syn && g.flags.ack && g.ack == t.sndNxt {
        OpenKeeps(x, u, g, z.s);
        SameIntakeKeeps(x, u.(s := z.s), z);
      } else {
        SameIntakeKeeps(x, u, z);
      }
    } else if t.state == Established {
      EstablishedArrival(x, y, g, oks, now);
    } else if t.state == FinWait2 {
      AcceptKeeps(x, u, g);
      FinTimeWaitPlain(Accept(t, g), oks[0], now);
      SameIntakeKeeps(x, u.(s := Accept(t, g)), z);
    } else {
      FinTimeWaitPlain(t, oks[0], now);
      FinTimeWaitPlain(t.(state := FinWait2), oks[0], now);
      SameIntakeKeeps(x, u, z);
    }
  }

  lemma EstablishedArrival(x: End, y: End, g: Segment, oks: seq<bool>, now: nat)
    requires Sender(x) && Receiver(x, y) && g in x.out && |oks| == 3
    requires y.s.used && y.s.state == Established && !g.flags.rst
    ensures Receiver(x, Next(y, Deliver(g, oks, now)))
  {
    hide AckSeen, Accept, PeerClosed, Raw, Sender, Receiver, Received;
    var t := AckSeen(y.s, g);
    AckSeenSame(y.s, g);
    var u := y.(s := t);
    SameIntakeKeeps(x, y, u);
    EstablishedPlain(y.s, g, oks, now);
    AckPlain(Accept(t, g), oks[0], now);
    AcceptKeeps(x, u, g);
    var d := if g.payload != [] && g.no == t.rcvNxt then Raw(Accept(t, g), ACK, [], false, oks[0], now) else (t, []);
    assert Receiver(x, u.(s := d.0));
    ClosedIntake(d.0, oks[1], oks[2], now);
    SameIntakeKeeps(x, u.(s := d.0), Next(y, Deliver(g, oks, now)));
  }

  /** Reading moves bytes from the ring to the application, in order. */
  lemma ReadKeeps(x: End, y: End, maxlen: nat)
    requires Receiver(x, y)
    ensures Receiver(x, Next(y, Read(maxlen)))
  {
    var n := ReadCount(y.s, maxlen);
    assert y.got + y.s.ring[..n] + y.s.ring[n..] == y.got + y.s.ring;
  }

  lemma RawIntake(s: Sock, flags: Flags, payload: seq<byte>, save: bool, ok: bool, now: nat)
    ensures SameIntake(s, Raw(s, flags, payload, save, ok, now).0)
  {
  }

  lemma TickIntake(s: Sock, ok: bool, now: nat)
    ensures SameIntake(s, Ticked(s, ok, now).0)
  {
    hide Raw, Backoff;
    RawIntake(s.(retxCount := s.retxCount + 1, sndNxt := s.retxNo), s.retxFlags, s.retx, false, ok, now);
  }

  lemma CloseIntake(s: Sock, ok: bool, now: nat)
    ensures SameIntake(s, Closing(s, ok, now).0)
  {
    hide Raw;
    RawIntake(s.(state := FinWait1), FIN_ACK, [], true, ok, now);
  }

  /** Every action of the receiving end keeps what it has taken in a prefix of what was sent. */
  lemma ReceiverKept(x: End, y: End, act: Action)
    requires Sender(x) && Receiver(x, y) && Possible(y, x, act)
    ensures Receiver(x, Next(y, act))
  {
    hide Receiver, Sender, Raw, Received, Ticked, Closing, Took, SameIntake;
    match act
    case Send(chunk, ok, now) =>
      RawIntake(y.s, PSH_ACK, chunk, true, ok, now);
      TookIntake(x, y, Raw(y.s, PSH_ACK, chunk, true, ok, now));
    case Tick(ok, now) => TickIntake(y.s, ok, now); TookIntake(x, y, Ticked(y.s, ok, now));
    case Deliver(g, oks, now) => ArrivalKeeps(x, y, g, oks, now);
    case Read(maxlen) => ReadKeeps(x, y, maxlen);
    case Close(ok, now) => CloseIntake(y.s, ok, now); TookIntake(x, y, Closing(y.s, ok, now));
    case Drop => DropIntake(x, y);
  }

  lemma TookIntake(x: End, y: End, r: Outcome)
    requires Receiver(x, y) && SameIntake(y.s, r.0)
    ensures Receiver(x, Took(y, r)) && forall sent :: Receiver(x, Took(y, r).(sent := sent))
  {
    forall sent ensures Receiver(x, Took(y, r).(sent := sent)) {
      SameIntakeKeeps(x, y, Took(y, r).(sent := sent));
    }
    SameIntakeKeeps(x, y, Took(y, r));
  }

  lemma DropIntake(x: End, y: End)
    requires Receiver(x, y)
    ensures Receiver(x, Next(y, Drop))
  {
    SameIntakeKeeps(x, y, Next(y, Drop));
  }

  /** What x does later takes nothing back. */
  lemma ReceiverStays(x: End, z: End, y: End)
    requires Receiver(x, y) && Grows(x, z)
    ensures Receiver(z, y)
  {
  }

  // ---- Runs ----

  const NOT_BACK: Backs := Backs(false, false)

  lemma StartInv(issA: u32, issB: u32, now: nat)
    ensures Inv(Start(issA, issB, now), NOT_BACK)
  {
    var w := Start(issA, issB, now);
    assert w.a.out == {Segment(issA, 0, SYN, [])} by {
      assert Raw(Sock(SynSent, true, issA, issA, 0, [], NO_FLAGS, 0, 0, 0, [], 0), SYN, [], true, true, now).1
        == [Segment(issA, 0, SYN, [])];
    }
  }

  lemma MoveKeeps(w: Pair, m: Move, back: Backs)
    requires Inv(w, back) && MayMove(w, m) && CarefulMove(w, m, back)
    ensures Inv(Moved(w, m), BacksAfter(w, m, back))
  {
    hide Sender, InPlace, Receiver, Next, Grows, BackAfter, SendsNew;
    if m.left {
      SenderKept(w.a, w.b, m.act, back.a);
      ReceiverKept(w.b, w.a, m.act);
      ReceiverStays(w.a, Next(w.a, m.act), w.b);
    } else {
      SenderKept(w.b, w.a, m.act, back.b);
      ReceiverKept(w.a, w.b, m.act);
      ReceiverStays(w.b, Next(w.b, m.act), w.a);
    }
  }

  lemma {:induction false} RunKeeps(w: Pair, ms: seq<Move>, back: Backs) returns (after: Backs)
    requires Inv(w, back) && IsRun(w, ms) && Careful(w, ms, back)
    ensures Inv(After(w, ms), after)
    decreases |ms|
  {
    hide Inv, MayMove, Moved, CarefulMove, BacksAfter;
    after := back;
    if ms != [] {
      MoveKeeps(w, ms[0], back);
      after := RunKeeps(Moved(w, ms[0]), ms[1..], BacksAfter(w, ms[0], back));
    }
  }

  /**
   End-to-end safety, for every interleaving of sends, ticks, arrivals, reads and closes: what an
   application has read, and what it could read next, are a prefix of what the other one sent.
   */
  lemma Safety(issA: u32, issB: u32, now: nat, ms: seq<Move>)
    requires IsRun(Start(issA, issB, now), ms) && Careful(Start(issA, issB, now), ms, NOT_BACK)
    ensures var w := After(Start(issA, issB, now), ms);
      && w.b.got + w.b.s.ring <= w.a.sent && w.a.got + w.a.s.ring <= w.b.sent
      && w.b.got <= w.a.sent && w.a.got <= w.b.sent
  {
    hide After, IsRun, Start, Careful;
    StartInv(issA, issB, now);
    var back := RunKeeps(Start(issA, issB, now), ms, NOT_BACK);
    var w := After(Start(issA, issB, now), ms);
    assert Receiver(w.a, w.b) && Receiver(w.b, w.a);
    assert w.b.got <= w.b.got + w.b.s.ring && w.a.got <= w.a.got + w.a.s.ring;
  }

  // ---- Why a retransmission must not fail ----

  /**
   A failed retransmission of the first unacknowledged bytes is the last one: the next tick finds snd_nxt at
   snd_una and forgets the slot.
   */
  lemma Forgotten(s: Sock, now: nat, ok: bool, later: nat)
    requires Rewinds(s, now) && s.retxNo == s.sndUna && later >= Ticked(s, false, now).0.retxDeadline
    ensures var t := Ticked(s, false, now).0;
      t.sndNxt == s.sndUna && Ticked(t, ok, later) == (t.(retxDeadline := 0), [])
  {
    hide Backoff, Raw;
    FailedTick(s, now);
  }

  lemma FailedTick(s: Sock, now: nat)
    requires Rewinds(s, now)
    ensures var t := Ticked(s, false, now).0;
      t == s.(retxCount := s.retxCount + 1, sndNxt := s.retxNo, retxDeadline := now + Backoff(s.retxCount + 1))
    ensures Backoff(s.retxCount + 1) > 0
  {
    ShiftedGrows(RETX_TIMEOUT, s.retxCount + 1);
  }

  lemma {:induction false} ShiftedGrows(x: nat, n: nat)
    requires 0 < x
    ensures Shifted(x, n) > 0
    decreases n
  {
    if n > 0 { ShiftedGrows(2 * x, n - 1); }
  }

  function Byte(b: byte): seq<byte> { [b] }

  /** The data segment that carries one byte. */
  function OneByte(no: u32, b: byte): Segment { Segment(no, 101, PSH_ACK, Byte(b)) }

  const FINE: seq<bool> := [true, true, true]

  /**
   The sender transmits 1, loses the acknowledgement, fails to hand the retransmission to the card,
   and goes on with 2 and 3. The failed retransmission has moved snd_nxt back, so 2 repeats the
   number of 1 and is taken for a duplicate, and 3 is taken for the second byte.
   */
  function Rewinding(): seq<Move> {
    [Move(true, Deliver(Segment(100, 1, SYN_ACK, []), FINE, 0)),
     Move(true, Send(Byte(1), true, 0)),
     Move(false, Deliver(OneByte(1, 1), FINE, 0)),
     Move(true, Tick(false, 1000)),
     Move(true, Send(Byte(2), true, 1000)),
     Move(true, Send(Byte(3), true, 1000)),
     Move(false, Deliver(OneByte(2, 3), FINE, 1000)),
     Move(false, Read(10))]
  }

  function SenderAt(no: u32, retx: seq<byte>, retxNo: u32, count: nat, deadline: nat): Sock {
    Sock(Established, true, no, 1, 101, retx, PSH_ACK, retxNo, count, deadline, [], 0)
  }

  function ReceiverAt(no: u32, ring: seq<byte>): Sock {
    Sock(Established, true, 101, 101, no, [], NO_FLAGS, 0, 0, 0, ring, 0)
  }

  const OPENED: Sock := Sock(Established, true, 1, 1, 101, [], SYN, 0, 0, 0, [], 0)

  lemma OpenStep(s: Sock)
    requires s == Start(0, 100, 0).a.s
    ensures Received(s, Segment(100, 1, SYN_ACK, []), FINE, 0) == (OPENED, [Segment(1, 101, ACK, [])])
  {
  }

  lemma SendStep(s: Sock, no: u32, b: byte, now: nat)
    requires (s == OPENED && no == 1) || s == SenderAt(no, s.retx, s.retxNo, s.retxCount, s.retxDeadline)
    ensures Raw(s, PSH_ACK, Byte(b), true, true, now)
      == (SenderAt(Plus(no, 1), Byte(b), no, 0, now + RETX_TIMEOUT), [OneByte(no, b)])
  {
    assert Byte(b)[..1] == Byte(b);
  }

  lemma RewindStep()
    ensures Ticked(SenderAt(2, Byte(1), 1, 0, 1000), false, 1000) == (SenderAt(1, Byte(1), 1, 1, 3000), [])
  {
    assert Shifted(1000, 1) == Shifted(2000, 0) == 2000;
  }

  lemma ArriveStep(no: u32, ring: seq<byte>, b: byte, now: nat)
    requires |ring| < RECV_BUF && no < M - 1
    ensures Received(ReceiverAt(no, ring), OneByte(no, b), FINE, now)
      == (ReceiverAt(no + 1, ring + Byte(b)), [Segment(101, no + 1, ACK, [])])
  {
    var s := ReceiverAt(no, ring);
    var g := OneByte(no, b);
    assert AckSeen(s, g) == s;
    assert Taken(s, g) == Byte(b);
    PlusZero(101);
  }

  lemma RunStep(w: Pair, ms: seq<Move>, i: nat, v: Pair)
    requires i < |ms| && MayMove(w, ms[i]) && Moved(w, ms[i]) == v && IsRun(v, ms[i + 1..])
    ensures IsRun(w, ms[i..]) && After(w, ms[i..]) == After(v, ms[i + 1..])
  {
    assert ms[i..][0] == ms[i] && ms[i..][1..] == ms[i + 1..];
  }

  lemma EmptyRun()
    ensures forall w :: IsRun(w, []) && After(w, []) == w
  {
  }

  /** The sender's three bytes leave it with the second and third numbered 1 and 2. */
  lemma SenderSide(a0: End, a1: End, a2: End, a3: End, a4: End, a5: End)
    requires a0 == Start(0, 100, 0).a
    requires a1 == Next(a0, Deliver(Segment(100, 1, SYN_ACK, []), FINE, 0)) && a2 == Next(a1, Send(Byte(1), true, 0))
    requires a3 == Next(a2, Tick(false, 1000)) && a4 == Next(a3, Send(Byte(2), true, 1000))
    requires a5 == Next(a4, Send(Byte(3), true, 1000))
    ensures OneByte(1, 1) in a2.out && OneByte(2, 3) in a5.out && a5.sent == [1, 2, 3] && |a2.sent| <= 1
    ensures |a4.sent| <= 2
    ensures a1.sent == [] && a3.sent == a2.sent
  {
    hide Received, Raw, Ticked;
    OpenStep(a0.s);
    SendStep(a1.s, 1, 1, 0);
    RewindStep();
    SendStep(a3.s, 1, 2, 1000);
    SendStep(a4.s, 2, 3, 1000);
  }

  lemma ReceiverSide(b0: End, b1: End, b2: End, b3: End)
    requires b0 == Start(0, 100, 0).b
    requires b1 == Next(b0, Deliver(OneByte(1, 1), FINE, 0)) && b2 == Next(b1, Deliver(OneByte(2, 3), FINE, 1000))
    requires b3 == Next(b2, Read(10))
    ensures b3.got == [1, 3]
  {
    hide Received;
    ArriveStep(1, [], 1, 0);
    assert [] + Byte(1) == [1] && [1] + Byte(3) == [1, 3];
    ArriveStep(2, [1], 3, 1000);
    assert b2.s.ring == [1, 3] && b2.got == [];
  }

  ghost predicate LeftMove(x: End, peer: End, m: Move, y: End) {
    m.left && Possible(x, peer, m.act) && Next(x, m.act) == y
  }

  ghost predicate RightMove(x: End, peer: End, m: Move, y: End) {
    !m.left && Possible(x, peer, m.act) && Next(x, m.act) == y
  }

  lemma LeftStep(a: End, b: End, ms: seq<Move>, i: nat, a': End)
    requires i < |ms| && LeftMove(a, b, ms[i], a') && IsRun(Pair(a', b), ms[i + 1..])
    ensures IsRun(Pair(a, b), ms[i..]) && After(Pair(a, b), ms[i..]) == After(Pair(a', b), ms[i + 1..])
  {
    RunStep(Pair(a, b), ms, i, Pair(a', b));
  }

  lemma RightStep(a: End, b: End, ms: seq<Move>, i: nat, b': End)
    requires i < |ms| && RightMove(b, a, ms[i], b') && IsRun(Pair(a, b'), ms[i + 1..])
    ensures IsRun(Pair(a, b), ms[i..]) && After(Pair(a, b), ms[i..]) == After(Pair(a, b'), ms[i + 1..])
  {
    RunStep(Pair(a, b), ms, i, Pair(a, b'));
  }

  lemma EightMoves(ms: seq<Move>, a0: End, a1: End, a2: End, a3: End, a4: End, a5: End, b0: End, b1: End, b2: End,
                   b3: End)
    requires |ms| == 8
    requires LeftMove(a0, b0, ms[0], a1) && LeftMove(a1, b0, ms[1], a2) && RightMove(b0, a2, ms[2], b1)
    requires LeftMove(a2, b1, ms[3], a3) && LeftMove(a3, b1, ms[4], a4) && LeftMove(a4, b1, ms[5], a5)
    requires RightMove(b1, a5, ms[6], b2) && RightMove(b2, a5, ms[7], b3)
    ensures IsRun(Pair(a0, b0), ms) && After(Pair(a0, b0), ms) == Pair(a5, b3)
  {
    hide LeftMove, RightMove, IsRun, After;
    EmptyRun();
    assert ms[8..] == [] && ms[0..] == ms;
    RightStep(a5, b2, ms, 7, b3);
    RightStep(a5, b1, ms, 6, b2);
    LeftStep(a4, b1, ms, 5, a5);
    LeftStep(a3, b1, ms, 4, a4);
    LeftStep(a2, b1, ms, 3, a3);
    RightStep(a2, b0, ms, 2, b1);
    LeftStep(a1, b0, ms, 1, a2);
    LeftStep(a0, b0, ms, 0, a1);
  }

  lemma UnsafeRewind()
    ensures IsRun(Start(0, 100, 0), Rewinding())
    ensures var w := After(Start(0, 100, 0), Rewinding());
      w.a.sent == [1, 2, 3] && w.b.got == [1, 3] && !(w.b.got <= w.a.sent)
  {
    hide Next, Start, Plus, IsRun, After;
    var ms := Rewinding();
    var w0 := Start(0, 100, 0);
    StartOut();
    var a1 := Next(w0.a, ms[0].act);
    var a2 := Next(a1, ms[1].act);
    var b1 := Next(w0.b, ms[2].act);
    var a3 := Next(a2, ms[3].act);
    var a4 := Next(a3, ms[4].act);
    var a5 := Next(a4, ms[5].act);
    var b2 := Next(b1, ms[6].act);
    var b3 := Next(b2, ms[7].act);
    SenderSide(w0.a, a1, a2, a3, a4, a5);
    ReceiverSide(w0.b, b1, b2, b3);
    EightMoves(ms, w0.a, a1, a2, a3, a4, a5, w0.b, b1, b2, b3);
    NotPrefix([1, 3], [1, 2, 3]);
  }

  lemma NotPrefix(x: seq<byte>, y: seq<byte>)
    requires 1 < |x| && 1 < |y| && x[1] != y[1]
    ensures !(x <= y)
  {
  }

  lemma StartOut()
    ensures Segment(100, 1, SYN_ACK, []) in Start(0, 100, 0).b.out
  {
  }
}
