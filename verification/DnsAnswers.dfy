/**
 Responses: skipping the questions and looking through the answers for the first IPv4 address. What
 arrives is at most 512 bytes long, which the caller has checked, so 16-bit positions do not wrap.
 */
module DnsAnswers {
  import opened Bytes
  import opened Dns
  import opened DnsPointers

  const HEADER := 12
  const NAME_ROOM := 254
  const PACKET_MAX := 512
  const TYPE_A := 1

  function Big16(pkt: seq<byte>, pos: nat): nat
    requires pos + 2 <= |pkt|
  {
    var hi: int, lo: int := pkt[pos], pkt[pos + 1];
    hi * 256 + lo
  }

  /** htonl of the big-endian number: the number whose bytes in memory are the packet's. */
  function Address(b: seq<byte>): nat
    requires |b| == 4
  {
    var b0: int, b1: int, b2: int, b3: int := b[0], b[1], b[2], b[3];
    b0 + 256 * b1 + 65536 * b2 + 16777216 * b3
  }

  /** The place behind n questions, if they are readable. */
  function AfterQuestions(pkt: seq<byte>, pos: nat, n: nat): (r: Option<nat>)
    ensures r.Some? && pos <= |pkt| ==> pos <= r.value <= |pkt|
    decreases n
  {
    if n == 0 then Some(pos) else
      match Follow(pkt, pos, 0, 0, NAME_ROOM)
      case Bad => None
      case Name(text, end) => if end + 4 > |pkt| then None else AfterQuestions(pkt, end + 4, n - 1)
  }

  /** The first address among n records, 0 if there is none before something unreadable. */
  function FirstAddress(pkt: seq<byte>, pos: nat, n: nat): nat
    decreases n
  {
    if n == 0 || pos >= |pkt| then 0 else
      match Follow(pkt, pos, 0, 0, NAME_ROOM)
      case Bad => 0
      case Name(text, end) =>
        if end + 10 > |pkt| then 0 else
          var len := Big16(pkt, end + 8);
          if end + 10 + len > |pkt| then 0
          else if Big16(pkt, end) == TYPE_A && len == 4 then Address(pkt[end + 10..end + 14])
          else FirstAddress(pkt, end + 10 + len, n - 1)
  }

  function Answer(pkt: seq<byte>): nat {
    if |pkt| < HEADER || pkt[3] % 16 != 0 || Big16(pkt, 6) == 0 then 0
    else
      match AfterQuestions(pkt, HEADER, Big16(pkt, 4))
      case None => 0
      case Some(pos) => FirstAddress(pkt, pos, Big16(pkt, 6))
  }

  /** parse_response: every access stays inside the packet, whatever it contains. */
  method ParseResponse(pkt: seq<byte>) returns (ip: nat)
    requires |pkt| <= PACKET_MAX
    ensures ip == Answer(pkt)
  {
    hide Follow, Big16, Address, Trimmed;
    if |pkt| < HEADER { return 0; }
    var rcode, ancount, qdcount := pkt[3] % 16, Big16(pkt, 6), Big16(pkt, 4);
    if rcode != 0 { return 0; }
    if ancount == 0 { return 0; }
    var pos: nat := HEADER;
    var tmp := new byte[NAME_ROOM];
    var i: nat := 0;
    while i < qdcount
      invariant i <= qdcount && pos <= |pkt|
      invariant AfterQuestions(pkt, pos, qdcount - i) == AfterQuestions(pkt, HEADER, qdcount)
    {
      var next := Decode(pkt, pos, tmp);
      if next < 0 { return 0; }
      pos := next + 4;
      if pos > |pkt| { return 0; }
      i := i + 1;
    }
    i := 0;
    while i < ancount
      invariant i <= ancount && pos <= |pkt|
      invariant FirstAddress(pkt, pos, ancount - i) == Answer(pkt)
    {
      if pos >= |pkt| { return 0; }
      var next := Decode(pkt, pos, tmp);
      if next < 0 { return 0; }
      pos := next;
      if pos + 10 > |pkt| { return 0; }
      var rtype, rdlen := Big16(pkt, pos), Big16(pkt, pos + 8);
      pos := pos + 10;
      if pos + rdlen > |pkt| { return 0; }
      if rtype == TYPE_A && rdlen == 4 { return Address(pkt[pos..pos + 4]); }
      pos := pos + rdlen;
      i := i + 1;
    }
    ip := 0;
  }

  // ---- Messages that a server writes ----

  type Four = s: seq<byte> | |s| == 4 witness [0, 0, 0, 0]

  /** A name is its pieces: the first is written in place, the others are wherever the pointers lead. */
  datatype Question = Question(name: seq<Piece>, tail: Four)

  /** A record: class and time to live are six bytes that the reader skips. */
  datatype Record = Record(name: seq<Piece>, rtype: nat, class1: byte, class2: byte, ttl: Four, data: seq<byte>)

  ghost predicate NameOk(pkt: seq<byte>, ps: seq<Piece>) {
    Joined(pkt, ps) && Readable(ps, 0, 0, NAME_ROOM)
  }

  function InPlace(ps: seq<Piece>): seq<byte> {
    if ps != [] && Pointable(ps[0]) then Written(ps[0]) else []
  }

  predicate Writable(r: Record) { r.rtype < 65536 && |r.data| < 65536 }

  function Fixed(r: Record): (b: seq<byte>)
    requires Writable(r)
    ensures |b| == 10
  {
    TwoBytes(r.rtype) + [r.class1, r.class2] + r.ttl + TwoBytes(|r.data|)
  }

  function TwoBytes(n: nat): (b: seq<byte>)
    requires n < 65536
    ensures |b| == 2 && Big16(b, 0) == n
  {
    assert n / 256 < 256;
    [n / 256, n % 256]
  }

  function Questions(qs: seq<Question>): seq<byte> {
    if qs == [] then [] else InPlace(qs[0].name) + (qs[0].tail + Questions(qs[1..]))
  }

  function Records(rs: seq<Record>): seq<byte>
    requires forall r :: r in rs ==> Writable(r)
  {
    if rs == [] then [] else
      assert rs[0] in rs;
      InPlace(rs[0].name) + (Fixed(rs[0]) + (rs[0].data + Records(rs[1..])))
  }

  /** The address in the first record of type A that has four bytes. */
  function FirstA(rs: seq<Record>): nat {
    if rs == [] then 0
    else if rs[0].rtype == TYPE_A && |rs[0].data| == 4 then Address(rs[0].data)
    else FirstA(rs[1..])
  }

  function Plain(name: seq<byte>): Piece { Piece(LabelsOf(name), None) }

  /** A name as the encoder writes it, and a pointer to such a name, are readable if the text fits. */
  lemma UsualNames(pkt: seq<byte>, name: seq<byte>, p: nat)
    ensures InPlace([Plain(name)]) == Encoded(name)
    ensures NameOk(pkt, [Plain(name)]) <==> Reread(name) == [] || |Reread(name)| < 254
    ensures p < 16384 && p + |Encoded(name)| <= |pkt| && pkt[p..p + |Encoded(name)|] == Encoded(name) ==>
      (NameOk(pkt, [Piece([], Some(p)), Plain(name)]) <==> NameOk(pkt, [Plain(name)]))
  {
    hide Encoded, Reread, LabelsOf, Written, TextOf;
    EncodedIsPiece(name);
    var short := [Piece([], Some(p)), Plain(name)];
    assert short[1..] == [Plain(name)];
    OnePiece([]);
    EmptyText(short);
  }

  lemma EmptyText(ps: seq<Piece>)
    requires ps != [] && ps[0].labels == []
    ensures FullText(ps) == FullText(ps[1..])
  {
  }

  /** A name is read where it stands. */
  lemma NameRead(pkt: seq<byte>, pre: seq<byte>, ps: seq<Piece>, post: seq<byte>)
    requires NameOk(pkt, ps) && pkt == pre + InPlace(ps) + post
    ensures Follow(pkt, |pre|, 0, 0, NAME_ROOM) == Name(FullText(ps), |pre| + |InPlace(ps)|)
    ensures |pre| < |pkt|
  {
    hide Follow, Written, FullText, Readable, Joined, StandsAt;
    PieceInPlace(pkt, ps);
    PieceStands(pkt, pre, ps[0], post);
    FollowJoined(pkt, |pre|, ps, 0, 0, NAME_ROOM);
  }

  lemma PieceStands(pkt: seq<byte>, pre: seq<byte>, p: Piece, post: seq<byte>)
    requires Pointable(p) && pkt == pre + Written(p) + post
    ensures StandsAt(pkt, |pre|, p) && |pre| < |pkt|
  {
    hide Written;
    MiddleOf(pre, Written(p), post);
  }

  lemma {:induction false} QuestionsSkipped(pkt: seq<byte>, pre: seq<byte>, qs: seq<Question>, post: seq<byte>)
    requires pkt == pre + Questions(qs) + post && forall q :: q in qs ==> NameOk(pkt, q.name)
    ensures AfterQuestions(pkt, |pre|, |qs|) == Some(|pre| + |Questions(qs)|)
    decreases |qs|
  {
    hide Follow, InPlace, NameOk, AfterQuestions, Questions, FullText;
    QuestionsOnce(qs);
    if qs == [] {
      NoQuestions(pkt, |pre|);
    } else {
      var q, rest := qs[0], Questions(qs[1..]);
      Regroup(pre, InPlace(q.name), q.tail, rest, post);
      NameRead(pkt, pre, q.name, q.tail + rest + post);
      QuestionStep(pkt, |pre|, |qs|, |pre| + |InPlace(q.name)|, FullText(q.name));
      QuestionsSkipped(pkt, pre + InPlace(q.name) + q.tail, qs[1..], post);
    }
  }

  lemma QuestionsOnce(qs: seq<Question>)
    ensures qs == [] ==> Questions(qs) == []
    ensures qs != [] ==> qs[0] in qs && forall q :: q in qs[1..] ==> q in qs
    ensures qs != [] ==> Questions(qs) == InPlace(qs[0].name) + (qs[0].tail + Questions(qs[1..]))
  {
  }

  lemma NoQuestions(pkt: seq<byte>, pos: nat)
    ensures AfterQuestions(pkt, pos, 0) == Some(pos)
  {
  }

  lemma QuestionStep(pkt: seq<byte>, pos: nat, n: nat, end: nat, text: seq<byte>)
    requires 0 < n && Follow(pkt, pos, 0, 0, NAME_ROOM) == Name(text, end) && end + 4 <= |pkt|
    ensures AfterQuestions(pkt, pos, n) == AfterQuestions(pkt, end + 4, n - 1)
  {
    hide Follow;
  }

  lemma Regroup(a: seq<byte>, b: seq<byte>, c: seq<byte>, d: seq<byte>, e: seq<byte>)
    ensures a + (b + (c + d)) + e == a + b + (c + d + e) == (a + b + c) + d + e
  {
  }

  lemma {:induction false} RecordsScanned(pkt: seq<byte>, pre: seq<byte>, rs: seq<Record>, post: seq<byte>)
    requires forall r :: r in rs ==> Writable(r) && NameOk(pkt, r.name)
    requires pkt == pre + Records(rs) + post
    ensures FirstAddress(pkt, |pre|, |rs|) == FirstA(rs)
    decreases |rs|
  {
    hide Follow, InPlace, NameOk, Fixed, FirstAddress, Writable, Big16, Address, Records, FirstA, FullText;
    if rs == [] {
      NoRecords(pkt, |pre|);
    } else {
      var r, rest := rs[0], Records(rs[1..]);
      RecordsOnce(rs);
      var body := r.data + rest;
      Regroup(pre, InPlace(r.name), Fixed(r), body, post);
      NameRead(pkt, pre, r.name, Fixed(r) + body + post);
      var head := pre + InPlace(r.name);
      RecordFields(head, r, rest, post);
      RecordStep(pkt, |pre|, |rs|, |head|, FullText(r.name), r);
      RecordsScanned(pkt, head + Fixed(r) + r.data, rs[1..], post);
    }
  }

  lemma RecordsOnce(rs: seq<Record>)
    requires rs != [] && forall r :: r in rs ==> Writable(r)
    ensures rs[0] in rs && forall r :: r in rs[1..] ==> r in rs
    ensures Records(rs) == InPlace(rs[0].name) + (Fixed(rs[0]) + (rs[0].data + Records(rs[1..])))
    ensures FirstA(rs) ==
      if rs[0].rtype == TYPE_A && |rs[0].data| == 4 then Address(rs[0].data) else FirstA(rs[1..])
  {
  }

  lemma NoRecords(pkt: seq<byte>, pos: nat)
    ensures FirstAddress(pkt, pos, 0) == 0 && FirstA([]) == 0 && Records([]) == []
  {
  }

  /** One round of the loop over the answers. */
  lemma RecordStep(pkt: seq<byte>, pos: nat, n: nat, end: nat, text: seq<byte>, r: Record)
    requires 0 < n && pos < |pkt| && Follow(pkt, pos, 0, 0, NAME_ROOM) == Name(text, end)
    requires end + 10 + |r.data| <= |pkt| && Big16(pkt, end) == r.rtype && Big16(pkt, end + 8) == |r.data|
    requires pkt[end + 10..end + 10 + |r.data|] == r.data
    ensures FirstAddress(pkt, pos, n) ==
      if r.rtype == TYPE_A && |r.data| == 4 then Address(r.data) else FirstAddress(pkt, end + 10 + |r.data|, n - 1)
  {
    hide Follow, Big16, Address;
  }

  lemma RecordFields(head: seq<byte>, r: Record, rest: seq<byte>, post: seq<byte>)
    requires Writable(r)
    ensures var pkt := head + Fixed(r) + (r.data + rest) + post;
      && pkt == (head + Fixed(r) + r.data) + rest + post
      && |head| + 10 + |r.data| <= |pkt| && pkt[|head| + 10..|head| + 10 + |r.data|] == r.data
      && Big16(pkt, |head|) == r.rtype && Big16(pkt, |head| + 8) == |r.data|
  {
    hide TwoBytes, Big16;
    var f := Fixed(r);
    Regroup3(head, f, r.data, rest, post);
    FixedFields(r);
    MiddleOf(head, f, (r.data + rest) + post);
    MiddleOf(head + f, r.data, rest + post);
    Big16Inside(head, f, (r.data + rest) + post, 0);
    Big16Inside(head, f, (r.data + rest) + post, 8);
  }

  lemma Regroup3(head: seq<byte>, f: seq<byte>, d: seq<byte>, rest: seq<byte>, post: seq<byte>)
    ensures head + f + (d + rest) + post == head + f + ((d + rest) + post) == (head + f) + d + (rest + post)
    ensures head + f + (d + rest) + post == (head + f + d) + rest + post
  {
  }

  lemma FixedFields(r: Record)
    requires Writable(r)
    ensures Big16(Fixed(r), 0) == r.rtype && Big16(Fixed(r), 8) == |r.data|
  {
    hide TwoBytes;
    var f := Fixed(r);
    assert f[0] == TwoBytes(r.rtype)[0] && f[1] == TwoBytes(r.rtype)[1];
    assert f[8] == TwoBytes(|r.data|)[0] && f[9] == TwoBytes(|r.data|)[1];
  }

  lemma MiddleOf(a: seq<byte>, b: seq<byte>, c: seq<byte>)
    ensures (a + b + c)[|a|..|a| + |b|] == b
  {
  }

  lemma Big16Inside(a: seq<byte>, b: seq<byte>, c: seq<byte>, i: nat)
    requires i + 2 <= |b|
    ensures Big16(a + b + c, |a| + i) == Big16(b, i)
  {
  }

  /** A response without an error yields its first IPv4 address, however its names are compressed. */
  lemma AnswersRead(pkt: seq<byte>, header: seq<byte>, qs: seq<Question>, rs: seq<Record>, post: seq<byte>)
    requires |header| == HEADER && header[3] % 16 == 0 && Big16(header, 4) == |qs| && Big16(header, 6) == |rs|
    requires forall r :: r in rs ==> Writable(r)
    requires pkt == header + Questions(qs) + Records(rs) + post
    requires (forall q :: q in qs ==> NameOk(pkt, q.name)) && forall r :: r in rs ==> NameOk(pkt, r.name)
    ensures Answer(pkt) == FirstA(rs)
  {
    hide AfterQuestions, FirstAddress, Questions, Records, NameOk, Writable, FirstA, Big16;
    NoRecords(pkt, 0);
    Regroup4(header, Questions(qs), Records(rs), post);
    SameHeader(header, Questions(qs) + Records(rs) + post);
    QuestionsSkipped(pkt, header, qs, Records(rs) + post);
    RecordsScanned(pkt, header + Questions(qs), rs, post);
  }

  lemma Regroup4(a: seq<byte>, b: seq<byte>, c: seq<byte>, d: seq<byte>)
    ensures a + b + c + d == a + (b + c + d) == a + b + (c + d)
  {
  }

  lemma SameHeader(header: seq<byte>, rest: seq<byte>)
    requires |header| == HEADER
    ensures var pkt := header + rest;
      pkt[3] == header[3] && Big16(pkt, 4) == Big16(header, 4) && Big16(pkt, 6) == Big16(header, 6)
  {
  }
}
