/**
 The expression evaluator: recursive descent over a NUL-terminated text with a position that all
 four parsing routines share. Arithmetic is that of 32-bit unsigned numbers. A division by zero
 traps the processor; here the whole evaluation then has the outcome Trap.
 */
module Evaluator {
  import opened Bytes
  import Arith

  const M := 0x1_0000_0000

  type u32 = x: nat | x < M

  const SPACE := 0x20
  const OPEN := 0x28
  const CLOSE := 0x29
  const TIMES := 0x2A
  const PLUS := 0x2B
  const MINUS := 0x2D
  const OVER := 0x2F

  /** A C string with its terminator and nothing after it. */
  predicate Terminated(s: seq<byte>) {
    s != [] && s[|s| - 1] == 0 && forall i :: 0 <= i < |s| - 1 ==> s[i] != 0
  }

  type Input = s: seq<byte> | Terminated(s) witness [0]

  predicate IsDigit(c: byte) { 0x30 <= c <= 0x39 }

  datatype Outcome = Trap | At(value: u32, pos: nat)

  function Apply(op: byte, a: u32, b: u32): Option<u32> {
    if op == PLUS then Some((a + b) % M)
    else if op == MINUS then Some((a + M - b) % M)
    else if op == TIMES then Some(a * b % M)
    else if b == 0 then None
    else Some(Quotient(a, b))
  }

  function Quotient(a: u32, b: u32): (q: u32)
    requires b != 0
  {
    assert a / b <= a by { QuotientSmall(a, b); }
    a / b
  }

  lemma QuotientSmall(a: nat, b: nat)
    requires b != 0
    ensures a / b <= a
  {
    var q, k := a / b, b - 1;
    assert a == q * b + a % b;
    assert q * (k + 1) == q * k + q;
  }

  // ---- What the routines compute, as functions of text and position ----

  function Skip(s: Input, p: nat): (q: nat)
    requires p < |s|
    ensures p <= q < |s| && s[q] != SPACE
    ensures forall i :: p <= i < q ==> s[i] == SPACE
    decreases |s| - p
  {
    if s[p] == SPACE then Skip(s, p + 1) else p
  }

  function Number(s: Input, p: nat, v: u32): (r: (u32, nat))
    requires p < |s|
    ensures p <= r.1 < |s|
    decreases |s| - p
  {
    if IsDigit(s[p]) then Number(s, p + 1, (v * 10 + (s[p] - 0x30)) % M) else (v, p)
  }

  /** parseFactor */
  function Factor(s: Input, p: nat): (r: Outcome)
    requires p < |s|
    ensures r.At? ==> p <= r.pos < |s|
    decreases |s| - p, 0
  {
    var q := Skip(s, p);
    if s[q] == OPEN then
      match Expression(s, q + 1)
      case Trap => Trap
      case At(v, e) =>
        var f := Skip(s, e);
        At(v, if s[f] == CLOSE then f + 1 else f)
    else
      var n := Number(s, q, 0);
      At(n.0, n.1)
  }

  /** The loop of parseTerm, from a value so far */
  function Products(s: Input, v: u32, p: nat): (r: Outcome)
    requires p < |s|
    ensures r.At? ==> p <= r.pos < |s|
    decreases |s| - p, 1
  {
    var q := Skip(s, p);
    if s[q] != TIMES && s[q] != OVER then At(v, q)
    else
      match Factor(s, q + 1)
      case Trap => Trap
      case At(w, e) =>
        match Apply(s[q], v, w)
        case None => Trap
        case Some(x) => Products(s, x, e)
  }

  /** parseTerm */
  function Term(s: Input, p: nat): (r: Outcome)
    requires p < |s|
    ensures r.At? ==> p <= r.pos < |s|
    decreases |s| - p, 2
  {
    match Factor(s, p)
    case Trap => Trap
    case At(v, q) => Products(s, v, q)
  }

  /** The loop of parseExpression */
  function Sums(s: Input, v: u32, p: nat): (r: Outcome)
    requires p < |s|
    ensures r.At? ==> p <= r.pos < |s|
    decreases |s| - p, 3
  {
    var q := Skip(s, p);
    if s[q] != PLUS && s[q] != MINUS then At(v, q)
    else
      match Term(s, q + 1)
      case Trap => Trap
      case At(w, e) =>
        match Apply(s[q], v, w)
        case None => Trap
        case Some(x) => Sums(s, x, e)
  }

  /** parseExpression */
  function Expression(s: Input, p: nat): (r: Outcome)
    requires p < |s|
    ensures r.At? ==> p <= r.pos < |s|
    decreases |s| - p, 4
  {
    match Term(s, p)
    case Trap => Trap
    case At(v, q) => Sums(s, v, q)
  }

  // ---- The routines themselves ----

  /** One round of the loop of parseExpression. */
  lemma SumsOnce(s: Input, v: u32, p: nat)
    requires p < |s|
    ensures Skip(s, p) < |s|
    ensures var q := Skip(s, p);
      if s[q] != PLUS && s[q] != MINUS then
        Sums(s, v, p) == At(v, q)
      else
        && q + 1 < |s|
        && Sums(s, v, p)
          == match Term(s, q + 1)
             case Trap => Trap
             case At(w, e) => Sums(s, if s[q] == PLUS then (v + w) % M else (v + M - w) % M, e)
  {
    hide Term, Skip;
    if s[Skip(s, p)] != 0 { NotLast(s, Skip(s, p)); }
  }

  lemma NotLast(s: Input, p: nat)
    requires p < |s| && s[p] != 0
    ensures p + 1 < |s|
  {
  }

  class Parser {
    const input: Input
    var pos: nat

    ghost predicate Valid()
      reads this
    {
      pos < |input|
    }

    /** The routine reached the end of its part with this value, or trapped. */
    ghost predicate Reached(r: Outcome, ok: bool, value: u32)
      reads this
    {
      if r.Trap? then !ok else ok && value == r.value && pos == r.pos
    }

    constructor (input: Input)
      ensures Valid() && pos == 0 && this.input == input
    {
      this.input, pos := input, 0;
    }

    method SkipSpaces()
      requires Valid()
      modifies this
      ensures Valid() && pos == Skip(input, old(pos))
    {
      while input[pos] == SPACE
        invariant Valid() && old(pos) <= pos && Skip(input, pos) == Skip(input, old(pos))
        decreases |input| - pos
      {
        pos := pos + 1;
      }
    }

    method ParseNumber() returns (value: u32)
      requires Valid()
      modifies this
      ensures Valid() && (value, pos) == Number(input, old(pos), 0)
    {
      value := 0;
      while IsDigit(input[pos])
        invariant Valid() && old(pos) <= pos && Number(input, pos, value) == Number(input, old(pos), 0)
        decreases |input| - pos
      {
        value := (value * 10 + (input[pos] - 0x30)) % M;
        pos := pos + 1;
      }
    }

    method ParseFactor() returns (ok: bool, value: u32)
      requires Valid()
      modifies this
      ensures Valid() && Reached(Factor(input, old(pos)), ok, value)
      decreases |input| - pos, 0
    {
      SkipSpaces();
      if input[pos] == OPEN {
        pos := pos + 1;
        ok, value := ParseExpression();
        if !ok { return; }
        SkipSpaces();
        if input[pos] == CLOSE { pos := pos + 1; }
        return;
      }
      value := ParseNumber();
      ok := true;
    }

    method ParseTerm() returns (ok: bool, value: u32)
      requires Valid()
      modifies this
      ensures Valid() && Reached(Term(input, old(pos)), ok, value)
      decreases |input| - pos, 2
    {
      hide Factor, Terminated, Skip;
      ghost var start := pos;
      ok, value := ParseFactor();
      if !ok { return; }
      while true
        invariant Valid() && start <= pos && Products(input, value, pos) == Term(input, start)
        decreases |input| - pos
      {
        SkipSpaces();
        var op := input[pos];
        if op != TIMES && op != OVER { return true, value; }
        NotLast(input, pos);
        pos := pos + 1;
        var rhs;
        ok, rhs := ParseFactor();
        if !ok { return; }
        if op == OVER && rhs == 0 { return false, 0; }
        value := if op == TIMES then value * rhs % M else Quotient(value, rhs);
      }
    }

    method ParseExpression() returns (ok: bool, value: u32)
      requires Valid()
      modifies this
      ensures Valid() && Reached(Expression(input, old(pos)), ok, value)
      decreases |input| - pos, 4
    {
      hide Term, Terminated, Skip, Sums;
      ghost var start := pos;
      ok, value := ParseTerm();
      if !ok { return; }
      while true
        invariant Valid() && start <= pos && Sums(input, value, pos) == Expression(input, start)
        decreases |input| - pos
      {
        SumsOnce(input, value, pos);
        SkipSpaces();
        var op := input[pos];
        if op != PLUS && op != MINUS { return true, value; }
        NotLast(input, pos);
        pos := pos + 1;
        var rhs;
        ok, rhs := ParseTerm();
        if !ok { return; }
        value := if op == PLUS then (value + rhs) % M else (value + M - rhs) % M;
      }
    }
  }

  /** evaluate: it terminates on every text, and never reads past the terminator. */
  method Evaluate(text: Input) returns (ok: bool, value: u32)
    ensures ok <==> Expression(text, 0).At?
    ensures ok ==> value == Expression(text, 0).value
  {
    var p := new Parser(text);
    ok, value := p.ParseExpression();
  }

  // ---- Expressions, and how they may be written ----

  datatype Tree = Lit(n: nat) | Node(op: byte, left: Tree, right: Tree)

  predicate Additive(op: byte) { op == PLUS || op == MINUS }

  predicate Multiplicative(op: byte) { op == TIMES || op == OVER }

  /** The value of an expression in 32-bit arithmetic; None if something is divided by zero. */
  function Meaning(t: Tree): Option<u32> {
    match t
    case Lit(n) => Some(n % M)
    case Node(op, l, r) => Combine(op, Meaning(l), Meaning(r))
  }

  function Combine(op: byte, a: Option<u32>, b: Option<u32>): Option<u32> {
    if a.Some? && b.Some? then Apply(op, a.value, b.value) else None
  }

  /** A way to write an expression: how many spaces stand where, and which parts are in parentheses. */
  datatype Layout =
    | Num(before: nat, digits: seq<byte>)
    | Group(before: nat, inner: Layout, after: nat)
    | Infix(left: Layout, gap: nat, op: byte, right: Layout)

  function Spaces(n: nat): (r: seq<byte>)
    ensures |r| == n
  {
    seq(n, i => SPACE)
  }

  function Text(e: Layout): seq<byte> {
    match e
    case Num(before, digits) => Spaces(before) + digits
    case Group(before, inner, after) => Spaces(before) + ([OPEN] + (Text(inner) + (Spaces(after) + [CLOSE])))
    case Infix(left, gap, op, right) => Text(left) + (Spaces(gap) + ([op] + Text(right)))
  }

  function NatOf(digits: seq<byte>): int {
    if digits == [] then 0 else
      var c: int := digits[|digits| - 1];
      10 * NatOf(digits[..|digits| - 1]) + (c - 0x30)
  }

  predicate Digits(d: seq<byte>) { forall c :: c in d ==> IsDigit(c) }

  /** The layout writes tree t where a sum (0), a product (1) or a factor (2) is expected. */
  ghost predicate Writes(e: Layout, t: Tree, level: nat)
    decreases e
  {
    match e
    case Num(before, digits) => digits != [] && Digits(digits) && t.Lit? && t.n == NatOf(digits)
    case Group(before, inner, after) => Writes(inner, t, 0)
    case Infix(left, gap, op, right) =>
      && t.Node? && t.op == op
      && if Additive(op) then level == 0 && Writes(left, t.left, 0) && Writes(right, t.right, 1)
         else Multiplicative(op) && level <= 1 && Writes(left, t.left, 1) && Writes(right, t.right, 2)
  }

  // ---- Reading a written expression ----

  ghost predicate Stands(s: seq<byte>, p: nat, t: seq<byte>) {
    p + |t| <= |s| && s[p..p + |t|] == t
  }

  lemma StandsParts(s: seq<byte>, p: nat, a: seq<byte>, b: seq<byte>)
    requires Stands(s, p, a + b)
    ensures Stands(s, p, a) && Stands(s, p + |a|, b)
  {
    var t := s[p..p + |a + b|];
    assert t[..|a|] == a && t[|a|..] == b;
  }

  lemma {:induction false} SkipStands(s: Input, p: nat, n: nat)
    requires Stands(s, p, Spaces(n)) && p + n < |s| && s[p + n] != SPACE
    ensures Skip(s, p) == p + n
    decreases n
  {
    if n > 0 {
      assert s[p] == s[p..p + n][0] == SPACE;
      assert s[p + 1..p + 1 + (n - 1)] == s[p..p + n][1..] == Spaces(n)[1..] == Spaces(n - 1);
      SkipStands(s, p + 1, n - 1);
    }
  }

  lemma {:induction false} NumberStands(s: Input, p: nat, digits: seq<byte>, k: nat)
    requires Stands(s, p, digits) && Digits(digits) && p + |digits| < |s| && !IsDigit(s[p + |digits|]) && k <= |digits|
    requires NatOf(digits[..k]) >= 0
    ensures NatOf(digits) >= 0
    ensures Number(s, p + k, NatOf(digits[..k]) % M) == (NatOf(digits) % M, p + |digits|)
    decreases |digits| - k
  {
    if k == |digits| {
      assert digits[..k] == digits;
    } else {
      assert s[p + k] == s[p..p + |digits|][k] == digits[k] && digits[k] in digits;
      var v := NatOf(digits[..k]);
      assert digits[..k + 1][..k] == digits[..k];
      assert NatOf(digits[..k + 1]) == 10 * v + (digits[k] - 0x30);
      TimesTen(v, digits[k] - 0x30);
      NumberStands(s, p, digits, k + 1);
    }
  }

  lemma TimesTen(v: nat, d: nat)
    ensures (v % M * 10 + d) % M == (10 * v + d) % M
  {
  }

  function Out(v: Option<u32>, q: nat): Outcome {
    if v.Some? then At(v.value, q) else Trap
  }

  function ProductsFrom(s: Input, v: Option<u32>, q: nat): Outcome
    requires q < |s|
  {
    if v.Some? then Products(s, v.value, q) else Trap
  }

  function SumsFrom(s: Input, v: Option<u32>, q: nat): Outcome
    requires q < |s|
  {
    if v.Some? then Sums(s, v.value, q) else Trap
  }

  /** Where the parts of a parenthesised text are. */
  lemma TextOfGroup(e: Layout)
    requires e.Group?
    ensures Text(e) == Spaces(e.before) + ([OPEN] + (Text(e.inner) + (Spaces(e.after) + [CLOSE])))
    ensures |Text(e)| == e.before + 1 + |Text(e.inner)| + e.after + 1
  {
  }

  lemma GroupPlaces(s: Input, p: nat, e: Layout)
    requires e.Group? && Stands(s, p, Text(e)) && p + |Text(e)| < |s|
    ensures var q := p + e.before; var r := q + 1 + |Text(e.inner)|;
      && q < |s| && Skip(s, p) == q && s[q] == OPEN && Stands(s, q + 1, Text(e.inner))
      && r < |s| && !IsDigit(s[r]) && Skip(s, r) == r + e.after && s[r + e.after] == CLOSE
      && p + |Text(e)| == r + e.after + 1
  {
    hide Stands, Skip, Terminated, IsDigit, Text, Spaces;
    TextOfGroup(e);
    var tail := Spaces(e.after) + [CLOSE];
    OpenPlace(s, p, e.before, Text(e.inner) + tail);
    var q := p + e.before;
    StandsParts(s, q + 1, Text(e.inner), tail);
    ClosePlace(s, q + 1 + |Text(e.inner)|, e.after);
  }

  lemma OpenPlace(s: Input, p: nat, n: nat, rest: seq<byte>)
    requires Stands(s, p, Spaces(n) + ([OPEN] + rest)) && p + n < |s|
    ensures Skip(s, p) == p + n && s[p + n] == OPEN && Stands(s, p + n + 1, rest)
  {
    hide Stands, Skip, Terminated, Spaces;
    StandsParts(s, p, Spaces(n), [OPEN] + rest);
    StandsParts(s, p + n, [OPEN], rest);
    StandsOne(s, p + n, OPEN);
    SkipStands(s, p, n);
  }

  lemma ClosePlace(s: Input, r: nat, n: nat)
    requires Stands(s, r, Spaces(n) + [CLOSE]) && r + n < |s|
    ensures !IsDigit(s[r]) && Skip(s, r) == r + n && s[r + n] == CLOSE
  {
    hide Stands, Skip, Terminated, Spaces;
    StandsParts(s, r, Spaces(n), [CLOSE]);
    StandsOne(s, r + n, CLOSE);
    SkipStands(s, r, n);
    NextIs(s, r, n);
  }

  lemma OperatorIsNone(op: byte)
    requires Additive(op) || Multiplicative(op)
    ensures op != SPACE && !IsDigit(op)
  {
  }

  lemma StandsOne(s: seq<byte>, p: nat, c: byte)
    requires Stands(s, p, [c])
    ensures p < |s| && s[p] == c
  {
    assert s[p] == s[p..p + 1][0];
  }

  /** Where the parts of a text with an operator are. */
  lemma InfixPlaces(s: Input, p: nat, e: Layout)
    requires e.Infix? && (Additive(e.op) || Multiplicative(e.op)) && Stands(s, p, Text(e)) && p + |Text(e)| < |s|
    ensures var q := p + |Text(e.left)|;
      && q < |s| && Stands(s, p, Text(e.left)) && !IsDigit(s[q])
      && Skip(s, q) == q + e.gap && s[q + e.gap] == e.op
      && Stands(s, q + e.gap + 1, Text(e.right)) && q + e.gap + 1 + |Text(e.right)| == p + |Text(e)|
  {
    hide Stands, Skip, Terminated, IsDigit, Additive, Multiplicative;
    OperatorIsNone(e.op);
    var tail := [e.op] + Text(e.right);
    StandsParts(s, p, Text(e.left), Spaces(e.gap) + tail);
    var q := p + |Text(e.left)|;
    StandsParts(s, q, Spaces(e.gap), tail);
    StandsParts(s, q + e.gap, [e.op], Text(e.right));
    StandsOne(s, q + e.gap, e.op);
    SkipStands(s, q, e.gap);
    NextIs(s, q, e.gap);
  }

  lemma FirstDigit(s: Input, q: nat, digits: seq<byte>)
    requires Stands(s, q, digits) && Digits(digits) && digits != []
    ensures q < |s| && IsDigit(s[q])
  {
    assert s[q] == s[q..q + |digits|][0] == digits[0];
    assert digits[0] in digits;
  }

  lemma StartsEmpty(digits: seq<byte>)
    ensures digits[..0] == [] && NatOf(digits[..0]) == 0
  {
    assert digits[..0] == [];
  }

  lemma FactorNumber(s: Input, p: nat, q: nat)
    requires p < |s| && Skip(s, p) == q < |s| && IsDigit(s[q])
    ensures Factor(s, p) == At(Number(s, q, 0).0, Number(s, q, 0).1)
  {
    hide Skip, Expression, Number;
  }

  lemma TextOfNumber(e: Layout)
    requires e.Num?
    ensures Text(e) == Spaces(e.before) + e.digits && |Text(e)| == e.before + |e.digits|
  {
  }

  lemma ReadNumber(s: Input, p: nat, e: Layout)
    requires e.Num? && e.digits != [] && Digits(e.digits)
    requires Stands(s, p, Text(e)) && p + |Text(e)| < |s| && !IsDigit(s[p + |Text(e)|])
    ensures NatOf(e.digits) >= 0 && Factor(s, p) == At(NatOf(e.digits) % M, p + |Text(e)|)
  {
    hide Terminated, Skip, Stands, Digits, IsDigit, NatOf, Number, Factor, Text, Spaces;
    TextOfNumber(e);
    StandsParts(s, p, Spaces(e.before), e.digits);
    var q := p + e.before;
    FirstDigit(s, q, e.digits);
    SkipStands(s, p, e.before);
    StartsEmpty(e.digits);
    NumberStands(s, q, e.digits, 0);
    FactorNumber(s, p, q);
  }

  /** A factor is read completely and yields its value. */
  lemma {:induction false} ReadFactor(s: Input, p: nat, e: Layout, t: Tree)
    requires Writes(e, t, 2) && Stands(s, p, Text(e)) && p + |Text(e)| < |s|
    requires e.Num? ==> !IsDigit(s[p + |Text(e)|])
    ensures Factor(s, p) == Out(Meaning(t), p + |Text(e)|)
    decreases e, 0
  {
    hide Terminated, Stands, Skip, Text, Meaning, Expression, Writes, IsDigit, Sums, Factor, Multiplicative, SumsFrom,
      NatOf, Digits;
    if e.Num? {
      NumMeaning(e, t);
      ReadNumber(s, p, e);
    } else {
      WritesInner(e, t);
      GroupPlaces(s, p, e);
      CloseIsNone();
      ReadSum(s, p + e.before + 1, e.inner, t);
      var r := p + e.before + 1 + |Text(e.inner)|;
      SumsClose(s, Meaning(t), r);
      FactorGroup(s, p, p + e.before, Out(Meaning(t), r + e.after));
    }
  }

  lemma NumMeaning(e: Layout, t: Tree)
    requires e.Num? && Writes(e, t, 2)
    ensures e.digits != [] && Digits(e.digits) && t.Lit? && t.n == NatOf(e.digits) && Meaning(t) == Some(t.n % M)
  {
  }

  lemma WritesInner(e: Layout, t: Tree)
    requires Writes(e, t, 2) && !e.Num?
    ensures e.Group? && Writes(e.inner, t, 0)
  {
  }

  lemma CloseIsNone()
    ensures !Multiplicative(CLOSE) && !Additive(CLOSE) && CLOSE != SPACE && OPEN != SPACE && !IsDigit(CLOSE)
  {
  }

  lemma SumsClose(s: Input, v: Option<u32>, r: nat)
    requires r < |s| && s[Skip(s, r)] == CLOSE
    ensures SumsFrom(s, v, r) == Out(v, Skip(s, r))
  {
  }

  lemma FactorGroup(s: Input, p: nat, q: nat, inner: Outcome)
    requires p < |s| && Skip(s, p) == q && s[q] == OPEN && q + 1 < |s| && Expression(s, q + 1) == inner
    requires inner.At? ==> inner.pos < |s| && s[inner.pos] == CLOSE
    ensures Factor(s, p) == if inner.Trap? then Trap else At(inner.value, inner.pos + 1)
  {
    hide Expression;
  }

  /** Before n spaces and a character that is no digit there is no digit. */
  lemma NextIs(s: Input, p: nat, n: nat)
    requires Stands(s, p, Spaces(n)) && p + n < |s| && !IsDigit(s[p + n])
    ensures !IsDigit(s[p])
  {
    if n > 0 { assert s[p] == s[p..p + n][0] == SPACE; }
  }

  /** One round of parseTerm's loop. */
  lemma ProductsStep(s: Input, v: Option<u32>, w: Option<u32>, q: nat, k: nat, e: nat)
    requires q < |s| && Skip(s, q) == k && Multiplicative(s[k]) && k + 1 < |s| && e < |s|
    requires v.Some? ==> Factor(s, k + 1) == Out(w, e)
    ensures ProductsFrom(s, v, q) == ProductsFrom(s, Combine(s[k], v, w), e)
  {
    hide Apply, Factor;
  }

  /** One round of parseExpression's loop. */
  lemma SumsStep(s: Input, v: Option<u32>, w: Option<u32>, q: nat, k: nat, e: nat)
    requires q < |s| && Skip(s, q) == k && Additive(s[k]) && k + 1 < |s| && e < |s|
    requires Term(s, k + 1) == ProductsFrom(s, w, e) && !Multiplicative(s[Skip(s, e)])
    ensures SumsFrom(s, v, q) == SumsFrom(s, Combine(s[k], v, w), e)
  {
    hide Apply, Term, Products;
    SumsSkip(s, e);
  }

  /** A product is read up to its end, where reading goes on with its value. */
  lemma {:induction false} ReadProduct(s: Input, p: nat, e: Layout, t: Tree)
    requires Writes(e, t, 1) && Stands(s, p, Text(e)) && p + |Text(e)| < |s| && !IsDigit(s[p + |Text(e)|])
    ensures Term(s, p) == ProductsFrom(s, Meaning(t), p + |Text(e)|)
    decreases e, 1
  {
    hide Terminated, Stands, Skip, Text, Factor, Term, Combine, ProductsFrom, Products, Writes, Meaning, IsDigit,
      Additive,
      Multiplicative;
    if e.Infix? {
      InfixParts(e, t, 1);
      InfixPlaces(s, p, e);
      ReadProduct(s, p, e.left, t.left);
      var q := p + |Text(e.left)|;
      ReadFactor(s, q + e.gap + 1, e.right, t.right);
      ProductsStep(s, Meaning(t.left), Meaning(t.right), q, q + e.gap, p + |Text(e)|);
    } else {
      WritesFactor(e, t);
      ReadFactor(s, p, e, t);
      TermIs(s, p, Meaning(t), p + |Text(e)|);
    }
  }

  lemma WritesFactor(e: Layout, t: Tree)
    requires Writes(e, t, 1) && !e.Infix?
    ensures Writes(e, t, 2)
  {
  }

  lemma TermIs(s: Input, p: nat, v: Option<u32>, q: nat)
    requires p < |s| && q < |s| && Factor(s, p) == Out(v, q)
    ensures Term(s, p) == ProductsFrom(s, v, q)
  {
    hide Factor, Products;
  }

  lemma ExpressionIs(s: Input, p: nat, v: Option<u32>, q: nat)
    requires p < |s| && q < |s| && Term(s, p) == ProductsFrom(s, v, q) && !Multiplicative(s[Skip(s, q)])
    ensures Expression(s, p) == SumsFrom(s, v, q)
  {
    hide Term, Products, Sums, Skip, Multiplicative;
    SumsSkip(s, q);
  }

  /** A sum is read up to its end, where reading goes on with its value. */
  lemma {:induction false} ReadSum(s: Input, p: nat, e: Layout, t: Tree)
    requires Writes(e, t, 0) && Stands(s, p, Text(e)) && p + |Text(e)| < |s| && !IsDigit(s[p + |Text(e)|])
    requires !Multiplicative(s[Skip(s, p + |Text(e)|)])
    ensures Expression(s, p) == SumsFrom(s, Meaning(t), p + |Text(e)|)
    decreases e, 2
  {
    hide Terminated, Stands, Skip, Text, Term, Expression, Combine, ProductsFrom, SumsFrom, Products, Sums,
      Multiplicative,
      Writes, Meaning, IsDigit;
    if e.Infix? && Additive(e.op) {
      InfixParts(e, t, 0);
      InfixPlaces(s, p, e);
      AdditiveOnly(e.op);
      ReadSum(s, p, e.left, t.left);
      var q := p + |Text(e.left)|;
      ReadProduct(s, q + e.gap + 1, e.right, t.right);
      SumsStep(s, Meaning(t.left), Meaning(t.right), q, q + e.gap, p + |Text(e)|);
    } else {
      WritesProduct(e, t);
      ReadProduct(s, p, e, t);
      ExpressionIs(s, p, Meaning(t), p + |Text(e)|);
    }
  }

  lemma InfixParts(e: Layout, t: Tree, level: nat)
    requires e.Infix? && Writes(e, t, level) && (level == 1 || (level == 0 && Additive(e.op)))
    ensures t.Node? && t.op == e.op && Meaning(t) == Combine(e.op, Meaning(t.left), Meaning(t.right))
    ensures if level == 0 then Writes(e.left, t.left, 0) && Writes(e.right, t.right, 1)
            else Multiplicative(e.op) && Writes(e.left, t.left, 1) && Writes(e.right, t.right, 2)
  {
  }

  lemma AdditiveOnly(op: byte)
    requires Additive(op)
    ensures !Multiplicative(op)
  {
  }

  lemma WritesProduct(e: Layout, t: Tree)
    requires Writes(e, t, 0) && !(e.Infix? && Additive(e.op))
    ensures Writes(e, t, 1)
  {
  }

  /** Where no product goes on, spaces make no difference. */
  lemma SumsSkip(s: Input, q: nat)
    requires q < |s| && !Multiplicative(s[Skip(s, q)])
    ensures forall v: u32 :: Products(s, v, q) == At(v, Skip(s, q)) && Sums(s, v, Skip(s, q)) == Sums(s, v, q)
  {
  }

  /**
   However an expression is written, with whatever spaces and parentheses its operators' precedence
   and left associativity allow, evaluate yields its value and reads the whole text; it traps exactly
   when something is divided by zero.
   */
  lemma EvaluatesWritten(e: Layout, t: Tree, trailing: nat)
    requires Writes(e, t, 0) && 0 !in Text(e)
    ensures Terminated(Text(e) + Spaces(trailing) + [0])
    ensures Expression(Text(e) + Spaces(trailing) + [0], 0) == Out(Meaning(t), |Text(e)| + trailing)
  {
    hide Text, Writes, Meaning, Skip, Sums, Expression, IsDigit;
    var s: seq<byte> := Text(e) + Spaces(trailing) + [0];
    var q := |Text(e)|;
    TextEnds(Text(e), trailing);
    SkipStands(s, q, trailing);
    ZeroEnds();
    NextIs(s, q, trailing);
    ReadSum(s, 0, e, t);
    SumsEnd(s, Meaning(t), q);
  }

  lemma ZeroEnds()
    ensures !IsDigit(0)
  {
  }

  lemma TextEnds(t: seq<byte>, n: nat)
    requires 0 !in t
    ensures var s := t + Spaces(n) + [0];
      Terminated(s) && Stands(s, 0, t) && Stands(s, |t|, Spaces(n)) && s[|t| + n] == 0 && |s| == |t| + n + 1
  {
    var s := t + Spaces(n) + [0];
    forall i | 0 <= i < |s| - 1 ensures s[i] != 0 {
      if i < |t| { assert s[i] == t[i] && t[i] in t; } else { assert s[i] == SPACE; }
    }
  }

  lemma SumsEnd(s: Input, v: Option<u32>, q: nat)
    requires q < |s| && s[Skip(s, q)] == 0
    ensures SumsFrom(s, v, q) == Out(v, Skip(s, q))
  {
  }

  // ---- A printer: only the parentheses that are needed ----

  predicate WellFormed(t: Tree) {
    t.Node? ==> (Additive(t.op) || Multiplicative(t.op)) && WellFormed(t.left) && WellFormed(t.right)
  }

  function Decimal(n: nat): (d: seq<byte>)
    ensures d != []
  {
    (if n < 10 then [] else Decimal(n / 10)) + [0x30 + n % 10]
  }

  function Show(t: Tree, level: nat): Layout
    requires WellFormed(t)
    decreases t
  {
    match t
    case Lit(n) => Num(0, Decimal(n))
    case Node(op, l, r) =>
      var needed := if Additive(op) then 0 else 1;
      var plain := Infix(Show(l, needed), 0, op, Show(r, needed + 1));
      if needed < level then Group(0, plain, 0) else plain
  }

  lemma {:induction false} DecimalWrites(n: nat)
    ensures Digits(Decimal(n)) && NatOf(Decimal(n)) == n
  {
    var d := Decimal(n);
    assert d[..|d| - 1] == if n < 10 then [] else Decimal(n / 10);
    if n >= 10 { DecimalWrites(n / 10); }
  }

  lemma LitWrites(n: nat, level: nat)
    ensures Writes(Num(0, Decimal(n)), Lit(n), level) && 0 !in Text(Num(0, Decimal(n)))
  {
    DecimalWrites(n);
    assert Spaces(0) == [];
    assert Text(Num(0, Decimal(n))) == [] + Decimal(n);
  }

  lemma {:induction false} ShowWrites(t: Tree, level: nat)
    requires WellFormed(t) && level <= 2
    ensures Writes(Show(t, level), t, level) && 0 !in Text(Show(t, level))
    decreases t
  {
    hide Writes, Text, Meaning;
    match t
    case Lit(n) => LitWrites(n, level);
    case Node(op, l, r) =>
      var needed := if Additive(op) then 0 else 1;
      ShowWrites(l, needed);
      ShowWrites(r, needed + 1);
      InfixNoZero(Show(l, needed), op, Show(r, needed + 1));
      InfixWrites(Show(l, needed), op, Show(r, needed + 1), l, r, needed);
      var plain := Infix(Show(l, needed), 0, op, Show(r, needed + 1));
      if needed < level {
        GroupNoZero(plain);
        GroupWrites(plain, t, needed, level);
      } else {
        LowerLevel(plain, t, needed, level);
      }
  }

  lemma InfixWrites(left: Layout, op: byte, right: Layout, l: Tree, r: Tree, needed: nat)
    requires Additive(op) || Multiplicative(op)
    requires needed == (if Additive(op) then 0 else 1) && Writes(left, l, needed) && Writes(right, r, needed + 1)
    ensures Writes(Infix(left, 0, op, right), Node(op, l, r), needed)
  {
  }

  lemma GroupWrites(e: Layout, t: Tree, needed: nat, level: nat)
    requires e.Infix? && Writes(e, t, needed) && needed <= 1 && level <= 2
    ensures Writes(Group(0, e, 0), t, level)
  {
  }

  lemma LowerLevel(e: Layout, t: Tree, needed: nat, level: nat)
    requires e.Infix? && Writes(e, t, needed) && level <= needed
    ensures Writes(e, t, level)
  {
  }

  lemma InfixNoZero(left: Layout, op: byte, right: Layout)
    requires 0 !in Text(left) && 0 !in Text(right) && op != 0
    ensures 0 !in Text(Infix(left, 0, op, right))
  {
    assert Spaces(0) == [];
    assert Text(Infix(left, 0, op, right)) == Text(left) + ([] + ([op] + Text(right)));
  }

  lemma GroupNoZero(e: Layout)
    requires 0 !in Text(e)
    ensures 0 !in Text(Group(0, e, 0))
  {
    assert Spaces(0) == [];
    assert Text(Group(0, e, 0)) == [] + ([OPEN] + (Text(e) + ([] + [CLOSE])));
  }

  /** Printing and evaluating gives the value back, for every expression. */
  lemma PrintThenEvaluate(t: Tree)
    requires WellFormed(t)
    ensures var text := Text(Show(t, 0));
      Terminated(text + [0]) && Expression(text + [0], 0) == Out(Meaning(t), |text|)
  {
    hide Text, Writes, Meaning, Expression, Terminated, Show, WellFormed;
    ShowWrites(t, 0);
    var text := Text(Show(t, 0));
    EvaluatesWritten(Show(t, 0), t, 0);
    assert text + Spaces(0) + [0] == text + [0];
  }

  // ---- The arithmetic, against whole numbers ----

  /** The value over the integers: "+" 0x2B, "-" 0x2D, "*" 0x2A, and otherwise division, rounded down. */
  function Value(t: Tree): Option<int> {
    match t
    case Lit(n) => Some(n)
    case Node(op, l, r) =>
      if Value(l).None? || Value(r).None? then None else
        var a, b := Value(l).value, Value(r).value;
        if op == 0x2B then Some(a + b)
        else if op == 0x2D then Some(a - b)
        else if op == 0x2A then Some(a * b)
        else if b == 0 then None else Some(a / b)
  }

  predicate DivisionFree(t: Tree) {
    t.Node? ==> t.op != 0x2F && DivisionFree(t.left) && DivisionFree(t.right)
  }

  lemma ModuloIs(x: int, k: int, r: nat)
    requires x == 0x1_0000_0000 * k + r && r < 0x1_0000_0000
    ensures x % 0x1_0000_0000 == r
  {
  }

  lemma ModuloProduct(a: int, b: int)
    ensures (a % 0x1_0000_0000) * (b % 0x1_0000_0000) % 0x1_0000_0000 == a * b % 0x1_0000_0000
  {
    var m := 0x1_0000_0000;
    var x, a0, y, b0 := a / m, a % m, b / m, b % m;
    var z, r := a0 * b0 / m, a0 * b0 % m;
    assert a * b == (m * x + a0) * (m * y + b0);
    SplitProduct(m, x, a0, y, b0);
    assert m * (x * (m * y + b0) + a0 * y) + (m * z + r) == m * (x * (m * y + b0) + a0 * y + z) + r;
    ModuloIs(a * b, x * (m * y + b0) + a0 * y + z, r);
  }

  lemma SplitProduct(m: int, x: int, a0: int, y: int, b0: int)
    ensures (m * x + a0) * (m * y + b0) == m * (x * (m * y + b0) + a0 * y) + a0 * b0
  {
  }

  lemma ModuloSum(a: int, b: int)
    ensures (a % 0x1_0000_0000 + b % 0x1_0000_0000) % 0x1_0000_0000 == (a + b) % 0x1_0000_0000
    ensures (a % 0x1_0000_0000 + 0x1_0000_0000 - b % 0x1_0000_0000) % 0x1_0000_0000 == (a - b) % 0x1_0000_0000
  {
    var m := 0x1_0000_0000;
    var x, a0, y, b0 := a / m, a % m, b / m, b % m;
    var plus, minus := a0 + b0, a0 + m - b0;
    ModuloIs(a + b, x + y + plus / m, plus % m);
    ModuloIs(a - b, x - y - 1 + minus / m, minus % m);
  }

  /** Without division, what comes out is the value modulo 2^32, however often it wraps on the way. */
  lemma {:induction false} WrapsLikeIntegers(t: Tree)
    requires WellFormed(t) && DivisionFree(t)
    ensures Value(t).Some? && Meaning(t).Some? && Meaning(t).value == Value(t).value % 0x1_0000_0000
    decreases t
  {
    if t.Node? {
      WrapsLikeIntegers(t.left);
      WrapsLikeIntegers(t.right);
      var a, b := Value(t.left).value, Value(t.right).value;
      ModuloSum(a, b);
      ModuloProduct(a, b);
    }
  }

  /** Every value on the way is a 32-bit number. */
  predicate NeverWraps(t: Tree) {
    && (Value(t).Some? ==> 0 <= Value(t).value < 0x1_0000_0000)
    && (t.Node? ==> NeverWraps(t.left) && NeverWraps(t.right))
  }

  /** If no value on the way leaves 32 bits, what comes out is the value, division included. */
  lemma {:induction false} ExactInRange(t: Tree)
    requires WellFormed(t) && NeverWraps(t)
    ensures Meaning(t).Some? <==> Value(t).Some?
    ensures Meaning(t).Some? ==> Meaning(t).value == Value(t).value
    decreases t
  {
    if t.Node? {
      ExactInRange(t.left);
      ExactInRange(t.right);
      if Value(t.left).Some? && Value(t.right).Some? && Value(t).Some? {
        InRange(t.op, Value(t.left).value, Value(t.right).value, Value(t).value);
      }
    }
  }

  lemma InRange(op: byte, a: u32, b: u32, c: u32)
    requires Additive(op) || Multiplicative(op)
    requires op == 0x2B ==> c == a + b
    requires op == 0x2D ==> c == a - b
    requires op == 0x2A ==> c == a * b
    requires op == 0x2F ==> b != 0 && c == a / b
    ensures Apply(op, a, b) == Some(c)
  {
    if op == 0x2B {
      ModuloIs(a + b, 0, c);
    } else if op == 0x2D {
      ModuloIs(a + 0x1_0000_0000 - b, 1, c);
    } else if op == 0x2A {
      ModuloIs(a * b, 0, c);
    }
  }

  /** Division rounds down, and fails exactly for a divisor of zero. */
  lemma DividesDown(a: u32, b: u32)
    ensures var q := Apply(0x2F, a, b);
      (q.None? <==> b == 0) && (q.Some? ==> q.value * b <= a < (q.value + 1) * b)
  {
    if b != 0 {
      Arith.Divide(a, b);
      var q := a / b;
      assert (q + 1) * b == q * b + b;
    }
  }

  /** A digit more to the left counts ten times as much. */
  lemma {:induction false} DecimalPlaces(d: seq<byte>, e: seq<byte>)
    ensures NatOf(d + e) == NatOf(d) * Power10(|e|) + NatOf(e)
    decreases |e|
  {
    if e == [] {
      assert d + e == d;
    } else {
      var m := |e| - 1;
      assert (d + e)[..|d + e| - 1] == d + e[..m];
      DecimalPlaces(d, e[..m]);
      TenTimes(NatOf(d), Power10(m));
    }
  }

  lemma TenTimes(a: int, b: int)
    ensures a * (10 * b) == 10 * (a * b)
  {
  }

  function Power10(n: nat): nat { if n == 0 then 1 else 10 * Power10(n - 1) }

  /** The digits are what the numbers below ten are written as. */
  lemma OneDigit(c: byte)
    ensures IsDigit(c) <==> 0 <= NatOf([c]) < 10
    ensures IsDigit(c) ==> Decimal(NatOf([c])) == [c] && NatOf([c]) == c - 48
  {
    assert [c][..0] == [];
  }
}
