/**
 8.3 names. A name is stored as eight plus three upper-case bytes padded with spaces; listing
 a directory turns them back into text. Text here is a sequence of bytes without the final NUL.
 */
module FatNames {
  import opened Bytes
  import opened Arith
  import opened FatSlots

  const SPACE := 0x20
  const DOT := 0x2E

  function Up(c: byte): (u: byte) {
    if 0x61 <= c <= 0x7A then c - 32 else c
  }

  function Upper(s: seq<byte>): (u: seq<byte>)
    ensures |u| == |s|
    ensures forall i :: 0 <= i < |s| ==> u[i] == Up(s[i])
  {
    seq(|s|, i requires 0 <= i < |s| => Up(s[i]))
  }

  /** The bytes before the first space. */
  function UntilSpace(s: seq<byte>): (r: seq<byte>)
    ensures r <= s && SPACE !in r
    ensures |r| < |s| ==> s[|r|] == SPACE
  {
    if s == [] || s[0] == SPACE then [] else [s[0]] + UntilSpace(s[1..])
  }

  /** What parse_83_name makes of the name and extension fields. */
  function Parse83(f: seq<byte>): seq<byte>
    requires |f| == 11
  {
    UntilSpace(f[..8]) + if f[8] != SPACE then [DOT] + UntilSpace(f[8..]) else []
  }

  /** Position of the last dot, or the length of the name. */
  function LastDot(name: seq<byte>): (d: nat)
    ensures d <= |name|
    ensures d < |name| ==> name[d] == DOT
    ensures forall i :: d < i < |name| ==> name[i] != DOT
    ensures d == |name| ==> DOT !in name
  {
    if name == [] then 0
    else if name[|name| - 1] == DOT then |name| - 1
    else
      var d := LastDot(name[..|name| - 1]);
      if d == |name| - 1 then |name| else d
  }

  function Pad(s: seq<byte>, n: nat): (r: seq<byte>)
    ensures |r| == n
  {
    if |s| >= n then s[..n] else s + Blank(n - |s|)
  }

  function Cut(s: seq<byte>, n: nat): (r: seq<byte>)
    ensures r <= s && |r| <= n
    ensures |s| <= n ==> r == s
  {
    if |s| >= n then s[..n] else s
  }

  function Base(name: seq<byte>): seq<byte> { name[..LastDot(name)] }

  function Ext(name: seq<byte>): seq<byte> {
    if LastDot(name) < |name| then name[LastDot(name) + 1..] else []
  }

  /** What make_83 stores. */
  function Make83(name: seq<byte>): (f: seq<byte>)
    ensures |f| == 11
  {
    Pad(Upper(Base(name)), 8) + Pad(Upper(Ext(name)), 3)
  }

  /** kstricmp(a, b) == 0 */
  predicate SameName(a: seq<byte>, b: seq<byte>) { Upper(a) == Upper(b) }

  /** One byte, or one letter of the alphabet in either case. */
  predicate SameLetter(c: byte, d: byte) {
    c == d || (0x41 <= c <= 0x5A && d == c + 32) || (0x41 <= d <= 0x5A && c == d + 32)
  }

  predicate SameLetters(a: seq<byte>, b: seq<byte>) {
    |a| == |b| && forall i :: 0 <= i < |a| ==> SameLetter(a[i], b[i])
  }

  predicate IsLower(c: byte) { 0x61 <= c <= 0x7A }

  /** A search tells names apart exactly if they differ in more than the case of letters. */
  lemma SameNameExact(a: seq<byte>, b: seq<byte>)
    ensures SameName(a, b) <==> SameLetters(a, b)
  {
    if SameLetters(a, b) {
      forall i | 0 <= i < |a| ensures Upper(a)[i] == Upper(b)[i] {
        assert SameLetter(a[i], b[i]);
      }
    }
    if SameName(a, b) {
      forall i | 0 <= i < |a| ensures SameLetter(a[i], b[i]) {
        assert Upper(a)[i] == Upper(b)[i];
      }
    }
  }

  /** The field holds a part of a name in upper case, cut to the field's length or padded with spaces. */
  ghost predicate Stores(field: seq<byte>, part: seq<byte>) {
    forall i :: 0 <= i < |field| ==>
      if i < |part| then SameLetter(field[i], part[i]) && !IsLower(field[i]) else field[i] == 0x20
  }

  lemma PaddedField(part: seq<byte>, n: nat)
    ensures Stores(Pad(Upper(part), n), part)
  {
    var field := Pad(Upper(part), n);
    forall i | 0 <= i < n
      ensures if i < |part| then SameLetter(field[i], part[i]) && !IsLower(field[i]) else field[i] == 0x20
    {
      if i < |part| { assert field[i] == Up(part[i]); }
    }
  }

  /** The part before the last dot goes to the first eight bytes, the part behind it to the other three. */
  lemma StoredFields(base: seq<byte>, ext: seq<byte>)
    requires 0x2E !in ext
    ensures var f := Make83(base + ([0x2E] + ext)); Stores(f[..8], base) && Stores(f[8..], ext)
  {
    hide LastDot, Upper, Pad, Stores;
    var name := base + ([0x2E] + ext);
    assert forall i :: |base| < i < |name| ==> name[i] == ext[i - |base| - 1];
    LastDotIs(name, |base|);
    assert Base(name) == base && Ext(name) == ext;
    PaddedField(base, 8);
    PaddedField(ext, 3);
    assert Make83(name)[..8] == Pad(Upper(base), 8) && Make83(name)[8..] == Pad(Upper(ext), 3);
  }

  lemma StoredWithoutDot(name: seq<byte>)
    requires 0x2E !in name
    ensures Stores(Make83(name)[..8], name) && Stores(Make83(name)[8..], [])
  {
    hide LastDot, Upper, Pad, Stores;
    LastDotIs(name, |name|);
    assert Base(name) == name && Ext(name) == [];
    PaddedField(name, 8);
    PaddedField([], 3);
    assert Make83(name)[..8] == Pad(Upper(name), 8) && Make83(name)[8..] == Pad(Upper([]), 3);
  }

  lemma StoredUpper(name: seq<byte>)
    ensures forall i :: 0 <= i < 11 ==> !IsLower(Make83(name)[i])
  {
    hide LastDot;
    PaddedField(Base(name), 8);
    PaddedField(Ext(name), 3);
    forall i | 0 <= i < 11 ensures !IsLower(Make83(name)[i]) {
      assert Make83(name)[i] == if i < 8 then Pad(Upper(Base(name)), 8)[i] else Pad(Upper(Ext(name)), 3)[i - 8];
    }
  }

  /** A field of n bytes holds a part without spaces, padded with spaces. */
  ghost predicate Holds(field: seq<byte>, part: seq<byte>) {
    part <= field && 0x20 !in part && forall i :: |part| <= i < |field| ==> field[i] == 0x20
  }

  /** A stored name is listed as its first field, and a dot and its second field if there is one. */
  lemma ShownText(f: seq<byte>, base: seq<byte>, ext: seq<byte>)
    requires |f| == 11 && Holds(f[..8], base) && Holds(f[8..], ext)
    ensures Parse83(f) == base + if ext == [] then [] else [0x2E] + ext
  {
    hide UntilSpace;
    UntilSpaceAt(f[..8], |base|);
    UntilSpaceAt(f[8..], |ext|);
    assert f[8] == f[8..][0];
    if ext != [] { assert ext[0] in ext && ext[0] == f[8..][0]; }
  }

  /** Names that survive being stored: a check on the text alone. */
  predicate Fits83(name: seq<byte>) {
    && |Base(name)| <= 8 && SPACE !in Base(name)
    && (LastDot(name) < |name| ==> 1 <= |Ext(name)| <= 3 && SPACE !in Ext(name))
  }

  lemma UpperSpaces(s: seq<byte>)
    ensures SPACE in Upper(s) <==> SPACE in s
  {
    if SPACE in s {
      var i :| 0 <= i < |s| && s[i] == SPACE;
      assert Upper(s)[i] == SPACE;
    }
  }

  lemma UpperTwice(s: seq<byte>)
    ensures Upper(Upper(s)) == Upper(s)
  {
  }

  lemma UpperConcat(a: seq<byte>, b: seq<byte>)
    ensures Upper(a + b) == Upper(a) + Upper(b)
  {
  }

  /** Reading back a padded field: everything up to the first space, at most n bytes. */
  lemma {:induction false} UntilSpacePadded(s: seq<byte>, n: nat)
    ensures UntilSpace(Pad(s, n)) == UntilSpace(Cut(s, n))
    decreases n
  {
    if s == [] {
      assert n > 0 ==> Pad(s, n)[0] == SPACE;
    } else if n > 0 {
      PadTail(s, n);
      UntilSpacePadded(s[1..], n - 1);
    }
  }

  lemma PadTail(s: seq<byte>, n: nat)
    requires 0 < n && s != []
    ensures Pad(s, n) == [s[0]] + Pad(s[1..], n - 1) && Pad(s, n)[1..] == Pad(s[1..], n - 1)
    ensures Cut(s, n) == [s[0]] + Cut(s[1..], n - 1) && Cut(s, n)[1..] == Cut(s[1..], n - 1)
  {
  }

  lemma {:induction false} UntilSpaceAll(s: seq<byte>)
    requires SPACE !in s
    ensures UntilSpace(s) == s
  {
    if s != [] {
      assert s[0] != SPACE && forall c :: c in s[1..] ==> c in s;
      UntilSpaceAll(s[1..]);
    }
  }

  lemma Rejoin(s: seq<byte>, d: nat)
    requires d < |s|
    ensures s == s[..d] + ([s[d]] + s[d + 1..])
  {
  }

  /** The tail of a name: its last dot and what follows it. */
  function Tail(name: seq<byte>): seq<byte> {
    if LastDot(name) < |name| then [DOT] + Ext(name) else []
  }

  lemma NameParts(name: seq<byte>)
    ensures name == Base(name) + Tail(name)
    ensures SPACE in name <==> SPACE in Base(name) || SPACE in Ext(name)
  {
    hide LastDot;
    var d := LastDot(name);
    if d < |name| {
      Rejoin(name, d);
    } else {
      assert name[..d] == name;
    }
  }

  /** What listing shows for a stored name. */
  lemma ParseOfMake(name: seq<byte>)
    ensures var b, x := Cut(Upper(Base(name)), 8), Cut(Upper(Ext(name)), 3);
      Parse83(Make83(name)) == UntilSpace(b) + if x != [] && x[0] != SPACE then [DOT] + UntilSpace(x) else []
  {
    var b, x := Upper(Base(name)), Upper(Ext(name));
    var f := Make83(name);
    assert f[..8] == Pad(b, 8) && f[8..] == Pad(x, 3);
    UntilSpacePadded(b, 8);
    UntilSpacePadded(x, 3);
    assert f[8] == Pad(x, 3)[0];
  }

  /** A stored name is listed as the same name, up to case, exactly when it fits. */
  lemma NameRoundTrip(name: seq<byte>)
    ensures SameName(Parse83(Make83(name)), name) <==> Fits83(name)
  {
    if Fits83(name) {
      FittingName(name);
    } else {
      MisfitShorter(name);
    }
  }

  /** A file created as ".." is listed as ".". */
  lemma TwoDots()
    ensures Parse83(Make83([DOT, DOT])) == [DOT] && !SameName([DOT], [DOT, DOT])
  {
    var name := [DOT, DOT];
    assert LastDot(name) == 1 && Base(name) == [DOT] && Ext(name) == [];
    assert Upper([DOT]) == [DOT] && Upper(Ext(name)) == [];
    assert Pad([DOT], 8) == [DOT] + Blank(7) && Pad([], 3) == Blank(3);
    var f := Make83(name);
    assert f[..8] == Pad([DOT], 8) && f[8..] == Blank(3);
    UntilSpacePadded([DOT], 8);
    UntilSpaceAll([DOT]);
  }

  lemma FittingName(name: seq<byte>)
    requires Fits83(name)
    ensures Parse83(Make83(name)) == Upper(name)
    ensures SameName(Parse83(Make83(name)), name)
  {
    hide LastDot, Parse83, Make83, Upper, UntilSpace, Base, Ext;
    FittingParse(name);
    NameParts(name);
    UpperConcat(Base(name), Tail(name));
    if LastDot(name) < |name| {
      UpperConcat([DOT], Ext(name));
    }
    UpperDot();
    UpperTwice(name);
  }

  lemma FittingParse(name: seq<byte>)
    requires Fits83(name)
    ensures Parse83(Make83(name)) == Upper(Base(name)) + if LastDot(name) < |name| then [DOT] + Upper(Ext(name)) else []
  {
    hide LastDot, Parse83, Make83, Upper, UntilSpace, Base;
    ParseOfMake(name);
    UpperSpaces(Base(name));
    UpperSpaces(Ext(name));
    UntilSpaceAll(Upper(Base(name)));
    UntilSpaceAll(Upper(Ext(name)));
    if LastDot(name) < |name| {
      assert Upper(Ext(name))[0] in Upper(Ext(name));
    }
  }

  lemma UpperDot()
    ensures Upper([DOT]) == [DOT] && Upper([]) == []
  {
  }

  /** A name that does not fit is shown without its spaces or with bytes missing. */
  lemma MisfitShorter(name: seq<byte>)
    requires !Fits83(name)
    ensures !SameName(Parse83(Make83(name)), name)
  {
    hide LastDot, Parse83, Make83, UntilSpace, Upper, Base, Ext, Tail;
    NameParts(name);
    ShownLength(name);
    UpperSpaces(Parse83(Make83(name)));
    UpperSpaces(name);
    TailLength(name);
  }

  lemma TailLength(name: seq<byte>)
    ensures |Tail(name)| == if LastDot(name) < |name| then 1 + |Ext(name)| else 0
    ensures LastDot(name) == |name| ==> Ext(name) == []
  {
  }

  /** What is shown holds no space, and no more bytes than the parts, cut to eight and three, have. */
  lemma ShownLength(name: seq<byte>)
    ensures SPACE !in Parse83(Make83(name))
    ensures |Parse83(Make83(name))| <= Min(|Base(name)|, 8) + if Ext(name) != [] then 1 + Min(|Ext(name)|, 3) else 0
  {
    hide Parse83, Make83, Upper, Base, Ext;
    ParseOfMake(name);
  }

  // ---- The loops of parse_83_name, make_83 and kstricmp ----

  lemma {:induction false} UntilSpaceAt(s: seq<byte>, i: nat)
    requires i <= |s| && SPACE !in s[..i] && (i == |s| || s[i] == SPACE)
    ensures UntilSpace(s) == s[..i]
  {
    if i > 0 {
      assert s[..i][0] == s[0] && s[1..][..i - 1] == s[..i][1..];
      UntilSpaceAt(s[1..], i - 1);
      assert s[..i] == [s[0]] + s[1..][..i - 1];
    }
  }

  method CopyField(field: seq<byte>) returns (out: seq<byte>)
    ensures out == UntilSpace(field)
  {
    out := [];
    var i := 0;
    while i < |field|
      invariant 0 <= i <= |field| && out == field[..i] && SPACE !in out
    {
      if field[i] == SPACE { break; }
      out := out + [field[i]];
      i := i + 1;
    }
    UntilSpaceAt(field, i);
  }

  method ParseName(f: seq<byte>) returns (out: seq<byte>)
    requires |f| == 11
    ensures out == Parse83(f)
  {
    hide UntilSpace;
    out := CopyField(f[..8]);
    if f[8] != SPACE {
      var ext := CopyField(f[8..]);
      out := out + [DOT] + ext;
    }
  }

  lemma LastDotIs(name: seq<byte>, d: nat)
    requires d <= |name| && (d < |name| ==> name[d] == DOT)
    requires forall i :: d < i < |name| ==> name[i] != DOT
    requires d == |name| ==> DOT !in name
    ensures LastDot(name) == d
  {
    hide LastDot;
  }

  /** Copy bytes from..to of the name, upper-cased, over a field of n spaces. */
  method FillField(name: seq<byte>, from: nat, to: nat, n: nat) returns (field: seq<byte>)
    requires from <= to <= |name|
    ensures field == Pad(Upper(name[from..to]), n)
  {
    field := Blank(n);
    var j := 0;
    while from + j < to && j < n
      invariant 0 <= j <= n && from + j <= to
      invariant field == Upper(name[from..from + j]) + Blank(n - j)
    {
      assert name[from..from + j + 1] == name[from..from + j] + [name[from + j]];
      UpperConcat(name[from..from + j], [name[from + j]]);
      field := field[j := Up(name[from + j])];
      j := j + 1;
    }
    assert Upper(name[from..to])[..j] == Upper(name[from..from + j]);
  }

  method MakeName(name: seq<byte>) returns (f: seq<byte>)
    ensures f == Make83(name) && forall i :: 0 <= i < 11 ==> !IsLower(f[i])
  {
    hide LastDot, Pad, Upper;
    StoredUpper(name);
    var dot: nat, p: nat := |name|, 0;
    while p < |name|
      invariant 0 <= p <= |name|
      invariant dot < p || dot == |name|
      invariant dot < |name| ==> name[dot] == DOT && forall i :: dot < i < p ==> name[i] != DOT
      invariant dot == |name| ==> DOT !in name[..p]
    {
      if name[p] == DOT { dot := p; }
      p := p + 1;
    }
    assert dot == |name| ==> name[..p] == name;
    LastDotIs(name, dot);
    f := FillField(name, 0, dot, 8);
    assert name[0..dot] == Base(name);
    var ext: nat := if dot < |name| then dot + 1 else dot;
    var x := FillField(name, ext, |name|, 3);
    assert name[ext..|name|] == Ext(name);
    f := f + x;
  }

  method CompareNames(a: seq<byte>, b: seq<byte>) returns (same: bool)
    ensures same <==> SameName(a, b)
    ensures same <==> SameLetters(a, b)
  {
    SameNameExact(a, b);
    var i := 0;
    while i < |a| && i < |b|
      invariant 0 <= i <= |a| && i <= |b|
      invariant forall k :: 0 <= k < i ==> Up(a[k]) == Up(b[k])
    {
      if Up(a[i]) != Up(b[i]) {
        assert Upper(a)[i] != Upper(b)[i];
        return false;
      }
      i := i + 1;
    }
    same := i == |a| && i == |b|;
    assert same ==> Upper(a) == Upper(b);
    assert !same ==> |Upper(a)| != |Upper(b)|;
  }
}
