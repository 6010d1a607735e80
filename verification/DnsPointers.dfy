/**
 Compressed names (RFC 1035, section 4.1.4): a name on the wire is a piece, and each piece ends the name or
 points to the next one, anywhere in the packet.
 */
module DnsPointers {
  import opened Bytes
  import opened Dns

  type Label = l: seq<byte> | 1 <= |l| <= 63 witness [DOT]

  /** A piece of a name on the wire: labels, then the end or a pointer to the place of the next piece. */
  datatype Piece = Piece(labels: seq<Label>, next: Option<nat>)

  predicate Pointable(p: Piece) { p.next.Some? ==> p.next.value < 16384 }

  function Written(p: Piece): (b: seq<byte>)
    requires Pointable(p)
    ensures 0 < |b|
    decreases |p.labels|
  {
    if p.labels != [] then [|p.labels[0]|] + (p.labels[0] + Written(p.(labels := p.labels[1..])))
    else if p.next.None? then [0]
    else
      assert p.next.value / 256 < 64;
      [0xC0 + p.next.value / 256, p.next.value % 256]
  }

  function TextOf(labels: seq<Label>): seq<byte> {
    if labels == [] then [] else labels[0] + ([DOT] + TextOf(labels[1..]))
  }

  predicate StandsAt(pkt: seq<byte>, place: nat, p: Piece)
    requires Pointable(p)
  {
    place + |Written(p)| <= |pkt| && pkt[place..place + |Written(p)|] == Written(p)
  }

  /** The pieces of one name: each but the last points to where the next one stands. */
  ghost predicate Joined(pkt: seq<byte>, ps: seq<Piece>) {
    && ps != [] && (forall i :: 0 <= i < |ps| ==> Pointable(ps[i])) && ps[|ps| - 1].next.None?
    && forall i :: 0 <= i < |ps| - 1 ==> ps[i].next.Some? && StandsAt(pkt, ps[i].next.value, ps[i + 1])
  }

  function FullText(ps: seq<Piece>): seq<byte> {
    if ps == [] then [] else TextOf(ps[0].labels) + FullText(ps[1..])
  }

  /** A name is readable if it has at most ten pointers and its text fits. */
  predicate Readable(ps: seq<Piece>, jumps: nat, used: nat, room: nat) {
    jumps + |ps| - 1 <= MAX_JUMPS && (FullText(ps) == [] || used + |FullText(ps)| < room)
  }

  /**
   The decoder reads a name in pieces exactly when it is readable, and then finds the place behind its first
   piece.
   */
  lemma {:induction false} FollowJoined(pkt: seq<byte>, place: nat, ps: seq<Piece>, jumps: nat, used: nat, room: nat)
    requires Joined(pkt, ps) && StandsAt(pkt, place, ps[0]) && jumps <= MAX_JUMPS
    ensures Follow(pkt, place, jumps, used, room) ==
      if Readable(ps, jumps, used, room) then Name(FullText(ps), place + |Written(ps[0])|) else Bad
    decreases |ps|, |ps[0].labels|
  {
    hide Follow, Written, FullText, TextOf, Joined, StandsAt, Readable;
    PieceInPlace(pkt, ps);
    var p := ps[0];
    if p.labels != [] {
      FirstLabel(pkt, place, ps);
      var l, rest := p.labels[0], [DropLabel(p)] + ps[1..];
      FollowLabel(pkt, place, jumps, used, room, l);
      FollowJoined(pkt, place + 1 + |l|, rest, jumps, used + |l| + 1, room);
      ReadableLabel(l, rest, ps, jumps, used, room);
    } else if p.next.None? {
      EndOfName(pkt, place, ps, jumps, used, room);
    } else {
      NextPiece(pkt, place, ps, jumps, used, room);
      if jumps < MAX_JUMPS { FollowJoined(pkt, p.next.value, ps[1..], jumps + 1, used, room); }
    }
  }

  lemma PieceInPlace(pkt: seq<byte>, ps: seq<Piece>)
    requires Joined(pkt, ps)
    ensures ps != [] && Pointable(ps[0])
  {
  }

  lemma EndOfName(pkt: seq<byte>, place: nat, ps: seq<Piece>, jumps: nat, used: nat, room: nat)
    requires Joined(pkt, ps) && StandsAt(pkt, place, ps[0]) && jumps <= MAX_JUMPS
    requires ps[0].labels == [] && ps[0].next.None?
    ensures Readable(ps, jumps, used, room) && Follow(pkt, place, jumps, used, room) == Name([], place + 1)
    ensures FullText(ps) == [] && |Written(ps[0])| == 1
  {
    hide Follow;
    LastPiece(ps);
    assert pkt[place] == pkt[place..place + 1][0];
    FollowZero(pkt, place, jumps, used, room);
  }

  function EndingAt(r: Decoded, end: nat): Decoded { if r.Bad? then Bad else Name(r.text, end) }

  lemma NextPiece(pkt: seq<byte>, place: nat, ps: seq<Piece>, jumps: nat, used: nat, room: nat)
    requires Joined(pkt, ps) && StandsAt(pkt, place, ps[0]) && jumps <= MAX_JUMPS
    requires ps[0].labels == [] && ps[0].next.Some?
    ensures 1 < |ps| && Joined(pkt, ps[1..]) && StandsAt(pkt, ps[0].next.value, ps[1..][0])
    ensures FullText(ps) == FullText(ps[1..]) && |Written(ps[0])| == 2
    ensures jumps == MAX_JUMPS ==> Follow(pkt, place, jumps, used, room) == Bad && !Readable(ps, jumps, used, room)
    ensures jumps < MAX_JUMPS ==>
      (Readable(ps, jumps, used, room) <==> Readable(ps[1..], jumps + 1, used, room))
    ensures jumps < MAX_JUMPS ==>
      Follow(pkt, place, jumps, used, room) == EndingAt(Follow(pkt, ps[0].next.value, jumps + 1, used, room), place + 2)
  {
    PointerStands(pkt, place, ps[0]);
    hide StandsAt, Written, Pointer;
    assert forall i :: 0 <= i < |ps[1..]| ==> ps[1..][i] == ps[i + 1];
  }

  lemma LastPiece(ps: seq<Piece>)
    requires ps != [] && ps[0].next.None? && ps[0].labels == []
    requires forall i :: 0 <= i < |ps| - 1 ==> ps[i].next.Some?
    ensures |ps| == 1 && FullText(ps) == []
  {
    assert ps[1..] == [];
  }

  lemma PointerStands(pkt: seq<byte>, place: nat, p: Piece)
    requires Pointable(p) && StandsAt(pkt, place, p) && p.labels == [] && p.next.Some?
    ensures place + 2 <= |pkt| && |Written(p)| == 2 && pkt[place] >= 0xC0
    ensures Pointer(pkt[place], pkt[place + 1]) == p.next.value
  {
    assert pkt[place] == pkt[place..place + 2][0] && pkt[place + 1] == pkt[place..place + 2][1];
  }

  function DropLabel(p: Piece): Piece
    requires p.labels != []
  {
    p.(labels := p.labels[1..])
  }

  lemma FirstLabel(pkt: seq<byte>, place: nat, ps: seq<Piece>)
    requires Joined(pkt, ps) && StandsAt(pkt, place, ps[0]) && ps[0].labels != []
    ensures var l := ps[0].labels[0];
      place + 1 + |l| <= |pkt| && pkt[place] == |l| && pkt[place + 1..place + 1 + |l|] == l
    ensures var l, q := ps[0].labels[0], DropLabel(ps[0]);
      && Pointable(q) && StandsAt(pkt, place + 1 + |l|, q) && |Written(ps[0])| == 1 + |l| + |Written(q)|
    ensures Joined(pkt, [DropLabel(ps[0])] + ps[1..])
    ensures FullText(ps) == ps[0].labels[0] + ([DOT] + FullText([DropLabel(ps[0])] + ps[1..]))
  {
    hide FullText, TextOf;
    var l, q := ps[0].labels[0], DropLabel(ps[0]);
    JoinedRest(pkt, ps);
    assert Written(ps[0]) == [|l|] + (l + Written(q));
    StandsParts(pkt, place, l, Written(q));
    FirstText(ps);
  }

  lemma StandsParts(pkt: seq<byte>, place: nat, l: Label, rest: seq<byte>)
    requires var w := [|l|] + (l + rest); place + |w| <= |pkt| && pkt[place..place + |w|] == w
    ensures place + 1 + |l| + |rest| <= |pkt| && pkt[place] == |l| && pkt[place + 1..place + 1 + |l|] == l
    ensures pkt[place + 1 + |l|..place + 1 + |l| + |rest|] == rest
  {
    var w := [|l|] + (l + rest);
    assert pkt[place] == pkt[place..place + |w|][0];
    SliceOfSlice(pkt, place, |w|, 1, |l|);
    SliceOfSlice(pkt, place, |w|, 1 + |l|, |rest|);
    assert w[1..1 + |l|] == l && w[1 + |l|..1 + |l| + |rest|] == rest;
  }

  lemma JoinedRest(pkt: seq<byte>, ps: seq<Piece>)
    requires Joined(pkt, ps) && ps[0].labels != []
    ensures Joined(pkt, [DropLabel(ps[0])] + ps[1..])
  {
    hide StandsAt, Written;
    var rest := [DropLabel(ps[0])] + ps[1..];
    assert forall i :: 0 <= i < |ps| ==> rest[i].next == ps[i].next;
    assert forall i :: 0 < i < |ps| ==> rest[i] == ps[i];
  }

  lemma FirstText(ps: seq<Piece>)
    requires ps != [] && ps[0].labels != []
    ensures FullText(ps) == ps[0].labels[0] + ([DOT] + FullText([DropLabel(ps[0])] + ps[1..]))
  {
    var q, rest := DropLabel(ps[0]), [DropLabel(ps[0])] + ps[1..];
    assert rest[1..] == ps[1..];
    TextJoins(ps[0].labels[0], TextOf(q.labels), FullText(ps[1..]));
  }

  lemma TextJoins(l: seq<byte>, a: seq<byte>, b: seq<byte>)
    ensures l + ([DOT] + a) + b == l + ([DOT] + (a + b))
  {
  }

  lemma ReadableLabel(l: Label, rest: seq<Piece>, ps: seq<Piece>, jumps: nat, used: nat, room: nat)
    requires |rest| == |ps| && FullText(ps) == l + ([DOT] + FullText(rest))
    ensures Readable(ps, jumps, used, room) <==>
      used + |l| + 1 < room && Readable(rest, jumps, used + |l| + 1, room)
  {
  }

  /** The labels of an encoded name. */
  function LabelsOf(name: seq<byte>): seq<Label>
    decreases |name|
  {
    if name == [] || !Encodable(name) then [] else [name[..LabelLength(name)]] + LabelsOf(AfterLabel(name))
  }

  /** What the encoder writes is a name in one piece. */
  lemma {:induction false} EncodedIsPiece(name: seq<byte>)
    ensures Encoded(name) == Written(Piece(LabelsOf(name), None))
    ensures Reread(name) == FullText([Piece(LabelsOf(name), None)])
    decreases |name|
  {
    OnePiece(LabelsOf(name));
    if name != [] && Encodable(name) {
      EncodedIsPiece(AfterLabel(name));
      OnePiece(LabelsOf(AfterLabel(name)));
      assert LabelsOf(name)[1..] == LabelsOf(AfterLabel(name));
    }
  }

  lemma OnePiece(labels: seq<Label>)
    ensures FullText([Piece(labels, None)]) == TextOf(labels)
  {
    assert [Piece(labels, None)][1..] == [];
  }
}
