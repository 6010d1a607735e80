/**
 Domain names in DNS messages (RFC 1035, sections 3.1 and 4.1.4): the encoder, and the decoder that
 follows compression pointers in packets nobody has checked.
 */
module Dns {
  import opened Bytes

  const DOT := 0x2E
  const MAX_JUMPS := 10
  const NOT_A_NAME := -1

  // ---- Encoding ----

  function FirstDot(name: seq<byte>): (d: nat)
    ensures d <= |name| && (d < |name| ==> name[d] == DOT)
    ensures forall i :: 0 <= i < d ==> name[i] != DOT
  {
    if name == [] || name[0] == DOT then 0 else 1 + FirstDot(name[1..])
  }

  /** The label length as the code computes it, cut to eight bits. */
  function LabelLength(name: seq<byte>): (n: nat)
    ensures n <= FirstDot(name) && n < 256
  {
    FirstDot(name) % 256
  }

  function AfterLabel(name: seq<byte>): (rest: seq<byte>)
    requires 0 < LabelLength(name)
    ensures |rest| < |name|
  {
    var rest := name[LabelLength(name)..];
    if rest != [] && rest[0] == DOT then rest[1..] else rest
  }

  predicate Encodable(name: seq<byte>) { 0 < LabelLength(name) <= 63 }

  /** What encode_name writes for a C string without its NUL. */
  function Encoded(name: seq<byte>): seq<byte>
    decreases |name|
  {
    if name == [] || !Encodable(name) then [0]
    else [LabelLength(name)] + (name[..LabelLength(name)] + Encoded(AfterLabel(name)))
  }

  /** encode_name; the caller's buffer is taken to be long enough */
  method Encode(name: seq<byte>) returns (out: seq<byte>)
    ensures out == Encoded(name)
  {
    hide Encoded, FirstDot;
    out := [];
    var p := name;
    assert [] + Encoded(p) == Encoded(name);
    while p != []
      invariant out + Encoded(p) == Encoded(name)
      decreases |p|
    {
      var dot := FindDot(p);
      var len := dot % 256;
      if len == 0 || len > 63 { break; }
      EncodedStep(out, p);
      out := out + [len] + p[..len];
      p := p[len..];
      if p != [] && p[0] == DOT { p := p[1..]; }
    }
    EncodedEnd(p);
    out := out + [0];
  }

  /** kstrchr, or the length */
  method FindDot(p: seq<byte>) returns (dot: nat)
    ensures dot == FirstDot(p)
  {
    dot := 0;
    while dot < |p| && p[dot] != DOT
      invariant dot <= |p| && forall i :: 0 <= i < dot ==> p[i] != DOT
    {
      dot := dot + 1;
    }
    FirstDotIs(p, dot);
  }

  lemma EncodedEnd(p: seq<byte>)
    requires p == [] || !Encodable(p)
    ensures Encoded(p) == [0]
  {
  }

  lemma FirstDotIs(name: seq<byte>, d: nat)
    requires d <= |name| && (d < |name| ==> name[d] == DOT)
    requires forall i :: 0 <= i < d ==> name[i] != DOT
    ensures FirstDot(name) == d
  {
    hide FirstDot;
  }

  lemma EncodedStep(out: seq<byte>, p: seq<byte>)
    requires p != [] && Encodable(p)
    ensures out + [LabelLength(p)] + p[..LabelLength(p)] + Encoded(AfterLabel(p)) == out + Encoded(p)
  {
    var n := LabelLength(p);
    assert Encoded(p) == [n] + (p[..n] + Encoded(AfterLabel(p)));
    assert out + [n] + p[..n] + Encoded(AfterLabel(p)) == out + ([n] + (p[..n] + Encoded(AfterLabel(p))));
  }

  // ---- Decoding, by following pointers ----

  /** The labels' text, each followed by a dot, and the place behind the name in the packet. */
  datatype Decoded = Bad | Name(text: seq<byte>, end: nat)

  function Pointer(hi: byte, lo: byte): nat { hi % 64 * 256 + lo }

  /**
   The name at pos, when so many pointers have been followed and so much of the room for text is used.
   A name that ends in a pointer ends behind the pointer.
   */
  function Follow(pkt: seq<byte>, pos: nat, jumps: nat, used: nat, room: nat): (r: Decoded)
    requires jumps <= MAX_JUMPS
    ensures r.Name? ==> pos < r.end <= |pkt|
    ensures r.Name? && r.text != [] ==> used + |r.text| < room && r.text[|r.text| - 1] == DOT
    decreases MAX_JUMPS - jumps, |pkt| - pos
  {
    if pos >= |pkt| then Bad
    else if pkt[pos] == 0 then Name([], pos + 1)
    else if pkt[pos] >= 0xC0 then
      if pos + 1 >= |pkt| || jumps + 1 > MAX_JUMPS then Bad
      else
        match Follow(pkt, Pointer(pkt[pos], pkt[pos + 1]), jumps + 1, used, room)
        case Bad => Bad
        case Name(text, end) => Name(text, pos + 2)
    else
      var len: nat := pkt[pos];
      if pos + 1 + len > |pkt| || used + len + 1 >= room then Bad
      else
        match Follow(pkt, pos + 1 + len, jumps, used + len + 1, room)
        case Bad => Bad
        case Name(text, end) => Name(pkt[pos + 1..pos + 1 + len] + ([DOT] + text), end)
  }

  function Dotted(label_: seq<byte>): seq<byte> { label_ + [DOT] }

  /** The text without the dot behind the last label. */
  function Trimmed(text: seq<byte>): seq<byte> {
    if text != [] && text[|text| - 1] == DOT then text[..|text| - 1] else text
  }

  /**
   decode_name: terminates on every packet, cyclic pointers included, stays inside packet and
   buffer, and agrees with Follow. out receives the name and a NUL.
   */
  method Decode(pkt: seq<byte>, offset: nat, out: array<byte>) returns (res: int)
    requires |pkt| < 65536 && offset < 65536 && 0 < out.Length < 65536
    modifies out
    ensures var r := Follow(pkt, offset, 0, 0, out.Length);
      && res == (if r.Bad? then NOT_A_NAME else r.end)
      && (r.Name? ==> |Trimmed(r.text)| < out.Length && out[..|Trimmed(r.text)| + 1] == Trimmed(r.text) + [0])
    ensures res == NOT_A_NAME || offset < res <= |pkt|
  {
    hide Follow, Continues, Pointer, Trimmed, Dotted;
    var pos: nat, outPos: nat, jumps: nat, endPos := offset, 0, 0, -1;
    ghost var room, whole := out.Length, Follow(pkt, offset, 0, 0, out.Length);
    StartFollow(whole);
    while pos < |pkt|
      invariant jumps <= MAX_JUMPS && outPos < room
      invariant Continues(whole, Follow(pkt, pos, jumps, outPos, room), out[..outPos], endPos)
      decreases MAX_JUMPS - jumps, |pkt| - pos
    {
      var len: nat := pkt[pos];
      ghost var at, read := pos, out[..outPos];
      StepBad(pkt, pos, jumps, outPos, room, whole, read, endPos);
      if len == 0 {
        StepEnd(pkt, pos, jumps, outPos, room, whole, read, endPos);
        Finish(out, outPos);
        return if endPos >= 0 then endPos else pos + 1;
      }
      if len >= 0xC0 {
        if pos + 1 >= |pkt| { return NOT_A_NAME; }
        var ptr := Pointer(pkt[pos], pkt[pos + 1]);
        if jumps < MAX_JUMPS { StepPointer(pkt, pos, jumps, outPos, room, whole, read, endPos); }
        if endPos < 0 { endPos := pos + 2; }
        pos := ptr;
        jumps := jumps + 1;
        if jumps > MAX_JUMPS { return NOT_A_NAME; }
        assert Continues(whole, Follow(pkt, pos, jumps, outPos, room), read, endPos);
        continue;
      }
      pos := pos + 1;
      if pos + len > |pkt| { return NOT_A_NAME; }
      if outPos + len + 1 >= out.Length { return NOT_A_NAME; }
      ghost var l, next, more := pkt[pos..pos + len], pos + len, outPos + len + 1;
      StepLabel(pkt, at, jumps, outPos, room, whole, read, endPos, l, next, more);
      AppendLabel(out, outPos, pkt[pos..pos + len], more);
      outPos := outPos + len;
      outPos := outPos + 1;
      pos := pos + len;
      assert out[..outPos] == read + Dotted(l) && pos == next && outPos == more;
    }
    StepBad(pkt, pos, jumps, outPos, room, whole, out[..outPos], endPos);
    res := NOT_A_NAME;
  }

  /** The dot behind the last label goes, a NUL comes. */
  method Finish(out: array<byte>, used: nat)
    requires used < out.Length
    modifies out
    ensures |Trimmed(old(out[..used]))| < out.Length
    ensures out[..|Trimmed(old(out[..used]))| + 1] == Trimmed(old(out[..used])) + [0]
  {
    var n := used;
    if n > 0 && out[n - 1] == DOT { n := n - 1; }
    out[n] := 0;
  }

  /** The kmemcpy of a label and the dot behind it */
  method AppendLabel(out: array<byte>, at: nat, label_: seq<byte>, ghost end: nat)
    requires end == at + |label_| + 1 <= out.Length
    modifies out
    ensures out[..end] == old(out[..at]) + Dotted(label_)
  {
    forall i | 0 <= i < |label_| { out[at + i] := label_[i]; }
    out[at + |label_|] := DOT;
  }

  lemma StartFollow(whole: Decoded)
    ensures Continues(whole, whole, [], -1)
  {
    if whole.Name? { assert [] + whole.text == whole.text; }
  }

  lemma StepBad(pkt: seq<byte>, pos: nat, jumps: nat, used: nat, room: nat, whole: Decoded, read: seq<byte>,
                endPos: int)
    requires jumps <= MAX_JUMPS && Continues(whole, Follow(pkt, pos, jumps, used, room), read, endPos)
    ensures pos >= |pkt| ==> whole == Bad
    ensures pos < |pkt| && pkt[pos] >= 0xC0 && (pos + 1 >= |pkt| || jumps + 1 > MAX_JUMPS) ==> whole == Bad
    ensures pos < |pkt| && 0 < pkt[pos] < 0xC0 && (pos + 1 + pkt[pos] > |pkt| || used + pkt[pos] + 1 >= room) ==>
      whole == Bad
  {
  }

  lemma StepEnd(pkt: seq<byte>, pos: nat, jumps: nat, used: nat, room: nat, whole: Decoded, read: seq<byte>,
                endPos: int)
    requires jumps <= MAX_JUMPS && Continues(whole, Follow(pkt, pos, jumps, used, room), read, endPos)
    requires pos < |pkt| && pkt[pos] == 0
    ensures whole == Name(read, if endPos >= 0 then endPos else pos + 1)
  {
  }

  lemma StepPointer(pkt: seq<byte>, pos: nat, jumps: nat, used: nat, room: nat, whole: Decoded, read: seq<byte>,
                    endPos: int)
    requires jumps < MAX_JUMPS && Continues(whole, Follow(pkt, pos, jumps, used, room), read, endPos)
    requires pos + 1 < |pkt| && pkt[pos] >= 0xC0
    ensures Continues(whole, Follow(pkt, Pointer(pkt[pos], pkt[pos + 1]), jumps + 1, used, room), read,
                      if endPos < 0 then pos + 2 else endPos)
  {
  }

  /** Label l is read, and next is the place behind it. */
  lemma StepLabel(pkt: seq<byte>, pos: nat, jumps: nat, used: nat, room: nat, whole: Decoded, read: seq<byte>,
                  endPos: int, l: seq<byte>, next: nat, more: nat)
    requires jumps <= MAX_JUMPS && Continues(whole, Follow(pkt, pos, jumps, used, room), read, endPos)
    requires pos < |pkt| && 0 < pkt[pos] < 0xC0 && next == pos + 1 + pkt[pos] <= |pkt| && more < room
    requires more == used + pkt[pos] + 1 && l == pkt[pos + 1..next]
    ensures Continues(whole, Follow(pkt, next, jumps, more, room), read + Dotted(l), endPos)
  {
    var rest := Follow(pkt, next, jumps, more, room);
    if rest.Name? {
      assert read + (l + [DOT]) + rest.text == read + (l + ([DOT] + rest.text));
    }
  }

  /**
   The whole name is what has been read followed by what is still to be read; the end is known once a pointer
   was met.
   */
  ghost predicate Continues(whole: Decoded, rest: Decoded, read: seq<byte>, endPos: int) {
    whole == if rest.Bad? then Bad else Name(read + rest.text, if endPos >= 0 then endPos else rest.end)
  }

  // ---- Round trip ----

  /** Every label has 1 to 63 bytes, and no dot stands at the end: a check on the name alone. */
  predicate GoodName(name: seq<byte>)
    decreases |name|
  {
    name == [] ||
    var d := FirstDot(name);
    && 1 <= d <= 63
    && (d < |name| ==> name[d + 1..] != [] && GoodName(name[d + 1..]))
  }

  /** The text that is read back from an encoded name, dots included. */
  function Reread(name: seq<byte>): (t: seq<byte>)
    ensures t == [] || t[|t| - 1] == DOT
    decreases |name|
  {
    if name == [] || !Encodable(name) then []
    else name[..LabelLength(name)] + ([DOT] + Reread(AfterLabel(name)))
  }

  /** Wherever an encoded name stands in a packet, it is read back, and the place behind it found. */
  lemma {:induction false} FollowEncoded(pre: seq<byte>, name: seq<byte>, post: seq<byte>, jumps: nat, used: nat,
                                         room: nat)
    requires jumps <= MAX_JUMPS
    ensures var pkt := pre + Encoded(name) + post;
      Follow(pkt, |pre|, jumps, used, room) ==
        if Reread(name) == [] || used + |Reread(name)| < room then Name(Reread(name), |pre| + |Encoded(name)|) else Bad
    decreases |name|
  {
    hide Follow, LabelLength, AfterLabel, FirstDot;
    var pkt := pre + Encoded(name) + post;
    if name != [] && Encodable(name) {
      var n := LabelLength(name);
      var l, rest := name[..n], AfterLabel(name);
      var next := pre + [n] + l;
      assert pkt == next + Encoded(rest) + post;
      assert pkt[|pre|] == n && pkt[|pre| + 1..|pre| + 1 + n] == l;
      FollowLabel(pkt, |pre|, jumps, used, room, l);
      FollowEncoded(next, rest, post, jumps, used + n + 1, room);
    } else {
      assert pkt[|pre|] == 0;
      FollowZero(pkt, |pre|, jumps, used, room);
    }
  }

  lemma FollowLabel(pkt: seq<byte>, pos: nat, jumps: nat, used: nat, room: nat, l: seq<byte>)
    requires jumps <= MAX_JUMPS && 1 <= |l| <= 63 && pos + 1 + |l| <= |pkt| && pkt[pos] == |l|
    requires pkt[pos + 1..pos + 1 + |l|] == l
    ensures Follow(pkt, pos, jumps, used, room) ==
      if used + |l| + 1 >= room then Bad else
      match Follow(pkt, pos + 1 + |l|, jumps, used + |l| + 1, room)
      case Bad => Bad
      case Name(text, end) => Name(l + ([DOT] + text), end)
  {
  }

  lemma FollowZero(pkt: seq<byte>, pos: nat, jumps: nat, used: nat, room: nat)
    requires jumps <= MAX_JUMPS && pos < |pkt| && pkt[pos] == 0
    ensures Follow(pkt, pos, jumps, used, room) == Name([], pos + 1)
  {
  }

  /** Reading back gives the name exactly when it is a good one. */
  lemma {:induction false} RereadIsName(name: seq<byte>)
    ensures Trimmed(Reread(name)) == name <==> GoodName(name)
    decreases |name|
  {
    if name != [] && Encodable(name) {
      RereadIsName(AfterLabel(name));
      hide Reread, GoodName;
      RereadOnce(name);
      GoodOnce(name);
      var d, n, rest := FirstDot(name), LabelLength(name), AfterLabel(name);
      var t := Reread(rest);
      if n < d {
        CutLabel(name, n, t);
      } else if t == [] {
        assert name[..d] + ([DOT] + t) == name[..d] + [DOT];
        assert Trimmed(name[..d] + [DOT]) == name[..d];
      } else {
        WholeLabel(name, d, rest, t);
      }
    }
  }

  lemma RereadOnce(name: seq<byte>)
    requires name != [] && Encodable(name)
    ensures Reread(name) == name[..LabelLength(name)] + ([DOT] + Reread(AfterLabel(name)))
    ensures Reread([]) == []
  {
  }

  lemma AfterLabelIs(name: seq<byte>)
    requires name != [] && Encodable(name) && LabelLength(name) == FirstDot(name)
    ensures AfterLabel(name) == if FirstDot(name) == |name| then [] else name[FirstDot(name) + 1..]
  {
    hide FirstDot, LabelLength;
    var d := FirstDot(name);
    if d < |name| { assert name[d..][1..] == name[d + 1..]; }
  }

  lemma LongLabel(name: seq<byte>)
    ensures LabelLength(name) == FirstDot(name) || FirstDot(name) >= 256
  {
    hide FirstDot;
  }

  lemma GoodOnce(name: seq<byte>)
    requires name != [] && Encodable(name)
    ensures LabelLength(name) < FirstDot(name) ==> !GoodName(name)
    ensures LabelLength(name) == FirstDot(name) ==>
      (GoodName(name) <==> FirstDot(name) == |name| || (AfterLabel(name) != [] && GoodName(AfterLabel(name))))
    ensures GoodName([])
    ensures FirstDot(name) == |name| && LabelLength(name) == FirstDot(name) ==> AfterLabel(name) == []
  {
    hide FirstDot, AfterLabel, LabelLength;
    LongLabel(name);
    if LabelLength(name) == FirstDot(name) { AfterLabelIs(name); }
  }

  /** A label of 256 bytes or more is cut, and the dot then stands where the name has none. */
  lemma CutLabel(name: seq<byte>, n: nat, t: seq<byte>)
    requires n < FirstDot(name) && (t == [] || t[|t| - 1] == DOT)
    ensures Trimmed(name[..n] + ([DOT] + t)) != name
  {
    var r := name[..n] + ([DOT] + t);
    assert r[n] == DOT && name[n] != DOT;
    if t != [] { assert Trimmed(r)[n] == DOT; }
  }

  lemma WholeLabel(name: seq<byte>, d: nat, rest: seq<byte>, t: seq<byte>)
    requires d < |name| && name[d] == DOT && rest == name[d + 1..] && t != [] && t[|t| - 1] == DOT
    ensures Trimmed(name[..d] + ([DOT] + t)) == name <==> Trimmed(t) == rest
  {
    var p, r := name[..d] + [DOT], name[..d] + ([DOT] + t);
    assert r == p + t;
    TrimTail(p, t);
    assert name == p + rest;
    SameTail(p, Trimmed(t), rest);
  }

  lemma TrimTail(p: seq<byte>, t: seq<byte>)
    requires t != [] && t[|t| - 1] == DOT
    ensures Trimmed(p + t) == p + Trimmed(t)
  {
  }

  lemma SameTail(a: seq<byte>, x: seq<byte>, y: seq<byte>)
    ensures a + x == a + y <==> x == y
  {
    assert (a + x)[|a|..] == x && (a + y)[|a|..] == y;
  }

  /**
   Decoding undoes encoding: a name with labels of 1 to 63 bytes comes back from any packet that
   contains its encoding, if there is room for it; a name that is not so comes back changed.
   */
  lemma NameRoundTrip(pre: seq<byte>, name: seq<byte>, post: seq<byte>, room: nat)
    requires Reread(name) == [] || |Reread(name)| < room
    ensures var r := Follow(pre + Encoded(name) + post, |pre|, 0, 0, room);
      && r.Name? && r.end == |pre| + |Encoded(name)|
      && (Trimmed(r.text) == name <==> GoodName(name))
  {
    FollowEncoded(pre, name, post, 0, 0, room);
    RereadIsName(name);
  }

  /** The room a good name needs: one more than its length. */
  lemma RoomNeeded(name: seq<byte>)
    requires GoodName(name) && name != []
    ensures |Reread(name)| == |name| + 1
  {
    RereadIsName(name);
  }
}
