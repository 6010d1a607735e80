/** The wire format in plain numbers: labels behind their lengths, two-byte numbers, pointers and addresses. */
module DnsWire {
  import opened Bytes
  import opened Dns
  import opened DnsAnswers

  type Text = seq<byte>

  /** A label as DNS allows it: 1 to 63 bytes without a dot. */
  predicate IsLabel(t: Text) { 1 <= |t| <= 63 && 0x2E !in t }

  predicate Labels(ts: seq<Text>) { forall i :: 0 <= i < |ts| ==> IsLabel(ts[i]) }

  /** The labels with dots between them. */
  function DotText(ts: seq<Text>): Text {
    if ts == [] then [] else if |ts| == 1 then ts[0] else ts[0] + ([0x2E] + DotText(ts[1..]))
  }

  /** Each label behind its length, and a zero byte. */
  function Wire(ts: seq<Text>): seq<byte>
    requires Labels(ts)
  {
    if ts == [] then [0] else
      assert IsLabel(ts[0]);
      [|ts[0]|] + (ts[0] + Wire(ts[1..]))
  }

  lemma {:induction false} FirstDotOf(t: Text, rest: Text)
    requires 0x2E !in t && (rest == [] || rest[0] == 0x2E)
    ensures FirstDot(t + rest) == |t|
  {
    if t == [] {
      assert t + rest == rest;
    } else {
      assert (t + rest)[1..] == t[1..] + rest && t[0] in t;
      FirstDotOf(t[1..], rest);
    }
  }

  /** Every name of such labels is encoded label by label. */
  lemma {:induction false} WireFormat(ts: seq<Text>)
    requires Labels(ts)
    ensures Encoded(DotText(ts)) == Wire(ts)
    decreases |ts|
  {
    hide Encoded;
    if ts == [] {
      EncodedNothing();
    } else {
      assert IsLabel(ts[0]);
      WireFormat(ts[1..]);
      OneLabel(ts[0], if |ts| == 1 then [] else [0x2E] + DotText(ts[1..]), DotText(ts[1..]));
      assert |ts| == 1 ==> ts[1..] == [] && ts[0] + [] == ts[0];
    }
  }

  lemma EncodedNothing()
    ensures Encoded([]) == [0]
  {
  }

  lemma OneLabel(t: Text, rest: Text, more: Text)
    requires IsLabel(t) && rest == if more == [] then [] else [0x2E] + more
    ensures Encoded(t + rest) == [|t|] + (t + Encoded(more))
  {
    hide FirstDot, Encoded;
    FirstDotOf(t, rest);
    var name := t + rest;
    assert name[..|t|] == t && name[|t|..] == rest;
    assert more != [] ==> rest[1..] == more;
    EncodedStep(name, |t|, more);
  }

  lemma EncodedStep(name: Text, n: nat, more: Text)
    requires name != [] && 1 <= n <= 63 && LabelLength(name) == n && n <= |name| && AfterLabel(name) == more
    ensures Encoded(name) == [n] + (name[..n] + Encoded(more))
  {
    hide LabelLength, AfterLabel;
  }

  /** Numbers are stored high byte first. */
  lemma NetworkOrder(pkt: seq<byte>, pos: nat)
    requires pos + 2 <= |pkt|
    ensures Big16(pkt, pos) / 256 == pkt[pos] && Big16(pkt, pos) % 256 == pkt[pos + 1]
  {
  }

  /** The bytes of the word that is returned, lowest first, are the record's data. */
  lemma AddressBytes(b: seq<byte>)
    requires |b| == 4
    ensures var a := Address(b);
      a % 256 == b[0] && a / 256 % 256 == b[1] && a / 65536 % 256 == b[2] && a / 16777216 == b[3]
  {
    var b0: int, b1: int, b2: int, b3: int := b[0], b[1], b[2], b[3];
    var a := Address(b);
    assert a / 256 == b1 + 256 * b2 + 65536 * b3;
    assert a / 65536 == b2 + 256 * b3;
  }

  /** The ten bytes between a record's name and its data: type, class, time to live, length. */
  lemma RecordBytes(r: Record)
    requires Writable(r)
    ensures var f := Fixed(r);
      && f[0] == r.rtype / 256 && f[1] == r.rtype % 256 && f[2] == r.class1 && f[3] == r.class2 && f[4..8] == r.ttl
      && f[8] == |r.data| / 256 && f[9] == |r.data| % 256
  {
  }

  /** The first record of type 1 that holds four bytes decides. */
  lemma {:induction false} FirstOfType(rs: seq<Record>, i: nat)
    requires i <= |rs| && (i < |rs| ==> rs[i].rtype == 1 && |rs[i].data| == 4)
    requires forall k :: 0 <= k < i ==> rs[k].rtype != 1 || |rs[k].data| != 4
    ensures FirstA(rs) == if i < |rs| then Address(rs[i].data) else 0
    decreases i
  {
    if i > 0 { FirstOfType(rs[1..], i - 1); }
  }

  /** A response that reports an error, or is shorter than a header, or announces no answers, yields nothing. */
  lemma NoAnswer(pkt: seq<byte>)
    requires |pkt| < 12 || pkt[3] % 16 != 0 || (pkt[6] == 0 && pkt[7] == 0)
    ensures Answer(pkt) == 0
  {
    hide AfterQuestions, FirstAddress;
  }

  /**
   Two bytes from 192 on say where a name goes on, up to ten times; the place behind it is the one behind the two
   bytes.
   */
  lemma PointerFollowed(pkt: seq<byte>, pos: nat, jumps: nat, used: nat, room: nat)
    requires pos + 1 < |pkt| && pkt[pos] >= 192 && jumps <= 10
    ensures jumps == 10 ==> Follow(pkt, pos, jumps, used, room).Bad?
    ensures jumps < 10 ==>
      var hi: nat, lo: nat := pkt[pos], pkt[pos + 1];
      var there := Follow(pkt, (hi - 192) * 256 + lo, jumps + 1, used, room);
      Follow(pkt, pos, jumps, used, room) == if there.Bad? then Bad else Name(there.text, pos + 2)
  {
    assert pkt[pos] % 64 == pkt[pos] - 192;
  }
}
