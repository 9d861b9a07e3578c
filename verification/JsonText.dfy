/**
 The pieces of JSON text: quoted strings and printed numbers, as JSON.stringify
 writes them. Text is a sequence of UTF-16 code units.

 Both printers are proved to be readable in one way only, whatever follows them.
 */
module JsonText {
  import opened Wrappers
  import opened Digits

  type Text = seq<nat>

  const QUOTE: nat := 34
  const COMMA: nat := 44
  const MINUS: nat := 45
  const DOT: nat := 46
  const COLON: nat := 58
  const BACKSLASH: nat := 92

  // --- Strings (section 7 of RFC 8259, with well-formed escapes for lone surrogates) ---

  predicate IsHigh(u: nat) {
    0xD800 <= u <= 0xDBFF
  }

  predicate IsLow(u: nat) {
    0xDC00 <= u <= 0xDFFF
  }

  function HexUnit(d: nat): nat
    requires d < 16
  {
    if d < 10 then 48 + d else 87 + d
  }

  function Hex4(u: nat): (h: Text)
    requires u < 0x10000
    ensures |h| == 4
  {
    var q := u / 16;
    [HexUnit(q / 16 / 16), HexUnit(q / 16 % 16), HexUnit(q % 16), HexUnit(u % 16)]
  }

  /** The value of a hexadecimal digit, in either case. */
  function UnHex(u: nat): Option<nat> {
    if 48 <= u <= 57 then Some(u - 48)
    else if 97 <= u <= 102 then Some(u - 87)
    else if 65 <= u <= 70 then Some(u - 55)
    else None
  }

  function EscapeUnit(u: nat): Text {
    if u == 8 then [BACKSLASH, 98]
    else if u == 9 then [BACKSLASH, 116]
    else if u == 10 then [BACKSLASH, 110]
    else if u == 12 then [BACKSLASH, 102]
    else if u == 13 then [BACKSLASH, 114]
    else if u == QUOTE || u == BACKSLASH then [BACKSLASH, u]
    else if u < 32 || IsHigh(u) || IsLow(u) then
      [BACKSLASH, 117] + Hex4(u)
    else [u]
  }

  /** A surrogate pair is one character and is copied; a surrogate on its own is escaped. */
  function Escaped(s: Text): Text {
    if s == [] then []
    else if |s| > 1 && IsHigh(s[0]) && IsLow(s[1]) then [s[0], s[1]] + Escaped(s[2..])
    else EscapeUnit(s[0]) + Escaped(s[1..])
  }

  function Quoted(s: Text): Text {
    [QUOTE] + Escaped(s) + [QUOTE]
  }

  function UnHex4(h: Text): Option<nat>
    requires |h| == 4
  {
    var a :- UnHex(h[0]);
    var b :- UnHex(h[1]);
    var c :- UnHex(h[2]);
    var d :- UnHex(h[3]);
    Some(a * 4096 + b * 256 + c * 16 + d)
  }

  function UnescapeLetter(u: nat): Option<nat> {
    if u == 98 then Some(8) else if u == 116 then Some(9) else if u == 110 then Some(10)
    else if u == 102 then Some(12) else if u == 114 then Some(13)
    else if u == QUOTE || u == BACKSLASH || u == 47 then Some(u)
    else None
  }

  /**
   Reads up to the closing quote, by the grammar: the string, and what follows it.
   Control characters have to be escaped, and only known escapes are read.
   */
  function ReadQuoted(t: Text): (r: Option<(Text, Text)>)
    ensures r.Some? ==> |r.value.1| < |t|
  {
    if t == [] then None
    else if t[0] == QUOTE then Some(([], t[1..]))
    else if t[0] < 32 then None
    else if t[0] != BACKSLASH then
      var (s, rest) :- ReadQuoted(t[1..]);
      Some(([t[0]] + s, rest))
    else if |t| >= 6 && t[1] == 117 then
      var u :- UnHex4(t[2..6]);
      var (s, rest) :- ReadQuoted(t[6..]);
      Some(([u] + s, rest))
    else if |t| >= 2 then
      var u :- UnescapeLetter(t[1]);
      var (s, rest) :- ReadQuoted(t[2..]);
      Some(([u] + s, rest))
    else None
  }

  lemma UnHexUnit(d: nat)
    requires d < 16
    ensures UnHex(HexUnit(d)) == Some(d)
  {
  }

  lemma FourHexDigits(u: nat)
    requires u < 0x10000
    ensures UnHex4(Hex4(u)) == Some(u)
  {
    hide HexUnit, UnHex;
    var q := u / 16;
    UnHexUnit(q / 16 / 16);
    UnHexUnit(q / 16 % 16);
    UnHexUnit(q % 16);
    UnHexUnit(u % 16);
  }

  /** Reading one escaped unit gives the unit back and goes on behind it. */
  lemma ReadUnit(u: nat, tail: Text)
    requires ReadQuoted(tail).Some?
    ensures ReadQuoted(EscapeUnit(u) + tail) ==
            Some(([u] + ReadQuoted(tail).value.0, ReadQuoted(tail).value.1))
  {
    hide UnHex4, Hex4, ReadQuoted;
    var e := EscapeUnit(u);
    if |e| == 6 {
      FourHexDigits(u);
      ReadHexEscape(Hex4(u), tail);
    } else if |e| == 2 {
      assert e[1] != 117 && UnescapeLetter(e[1]) == Some(u);
      ReadLetterEscape(e[1], tail);
    } else {
      ReadPlain(u, tail);
    }
  }

  lemma ReadHexEscape(h: Text, tail: Text)
    requires |h| == 4 && UnHex4(h).Some? && ReadQuoted(tail).Some?
    ensures ReadQuoted([BACKSLASH, 117] + h + tail) ==
            Some(([UnHex4(h).value] + ReadQuoted(tail).value.0, ReadQuoted(tail).value.1))
  {
    hide UnHex4;
    var t := [BACKSLASH, 117] + h + tail;
    assert t[2..6] == h && t[6..] == tail;
  }

  lemma ReadLetterEscape(letter: nat, tail: Text)
    requires letter != 117 && UnescapeLetter(letter).Some? && ReadQuoted(tail).Some?
    ensures ReadQuoted([BACKSLASH, letter] + tail) ==
            Some(([UnescapeLetter(letter).value] + ReadQuoted(tail).value.0, ReadQuoted(tail).value.1))
  {
    hide UnHex4, UnescapeLetter;
    assert ([BACKSLASH, letter] + tail)[2..] == tail;
  }

  lemma ReadEnd(rest: Text)
    ensures ReadQuoted([QUOTE] + rest) == Some(([], rest))
  {
    assert ([QUOTE] + rest)[1..] == rest;
  }

  lemma ReadPlain(u: nat, tail: Text)
    requires u >= 32 && u != QUOTE && u != BACKSLASH && ReadQuoted(tail).Some?
    ensures ReadQuoted([u] + tail) == Some(([u] + ReadQuoted(tail).value.0, ReadQuoted(tail).value.1))
  {
    assert ([u] + tail)[1..] == tail;
  }

  lemma {:induction false} ReadEscaped(s: Text, rest: Text)
    ensures ReadQuoted(Escaped(s) + [QUOTE] + rest) == Some((s, rest))
    decreases |s|
  {
    EscapedOne(s);
    hide Escaped, EscapeUnit, ReadQuoted, IsHigh, IsLow;
    if s == [] {
      ReadEnd(rest);
      assert Escaped(s) + [QUOTE] + rest == [QUOTE] + rest;
    } else if |s| > 1 && IsHigh(s[0]) && IsLow(s[1]) {
      ReadEscaped(s[2..], rest);
      ReadPair(s[0], s[1], Escaped(s[2..]) + [QUOTE] + rest);
      Glue([s[0], s[1]], Escaped(s[2..]), rest);
      assert s == [s[0], s[1]] + s[2..];
    } else {
      ReadEscaped(s[1..], rest);
      ReadUnit(s[0], Escaped(s[1..]) + [QUOTE] + rest);
      Glue(EscapeUnit(s[0]), Escaped(s[1..]), rest);
      assert s == [s[0]] + s[1..];
    }
  }

  lemma EscapedOne(s: Text)
    ensures Escaped(s) ==
            if s == [] then []
            else if |s| > 1 && IsHigh(s[0]) && IsLow(s[1]) then [s[0], s[1]] + Escaped(s[2..])
            else EscapeUnit(s[0]) + Escaped(s[1..])
  {
  }

  lemma Glue(a: Text, b: Text, rest: Text)
    ensures (a + b) + [QUOTE] + rest == a + (b + [QUOTE] + rest)
  {
  }

  lemma ReadPair(high: nat, low: nat, tail: Text)
    requires IsHigh(high) && IsLow(low) && ReadQuoted(tail).Some?
    ensures ReadQuoted([high, low] + tail) ==
            Some(([high, low] + ReadQuoted(tail).value.0, ReadQuoted(tail).value.1))
  {
    hide ReadQuoted;
    ReadPlain(low, tail);
    ReadPlain(high, [low] + tail);
    assert [high, low] + tail == [high] + ([low] + tail);
    assert forall x: Text :: [high] + ([low] + x) == [high, low] + x;
  }

  /** A quoted string ends where it ends, and says only one thing. */
  lemma QuotedUnique(s: Text, r: Text, s': Text, r': Text)
    requires Quoted(s) + r == Quoted(s') + r'
    ensures s == s' && r == r'
  {
    hide Escaped, ReadQuoted;
    ReadEscaped(s, r);
    ReadEscaped(s', r');
    assert (Quoted(s) + r)[1..] == Escaped(s) + [QUOTE] + r;
    assert (Quoted(s') + r')[1..] == Escaped(s') + [QUOTE] + r';
  }

  /** Units that are printed as they are: no control, quote or backslash, surrogates only in pairs. */
  predicate Copied(s: Text) {
    forall i :: 0 <= i < |s| ==> CopiedAt(s, i)
  }

  predicate CopiedAt(s: Text, i: nat)
    requires i < |s|
  {
    s[i] >= 32 && s[i] != QUOTE && s[i] != BACKSLASH
    && (IsHigh(s[i]) ==> i + 1 < |s| && IsLow(s[i + 1]))
    && (IsLow(s[i]) ==> i > 0 && IsHigh(s[i - 1]))
  }

  /** A string is printed as it is exactly when nothing in it has to be escaped. */
  lemma {:induction false} EscapesOnlyWhatMust(s: Text)
    ensures |Escaped(s)| >= |s|
    ensures Escaped(s) == s <==> Copied(s)
    decreases |s|
  {
    if s == [] {
    } else if |s| > 1 && IsHigh(s[0]) && IsLow(s[1]) {
      EscapesOnlyWhatMust(s[2..]);
      CopiedPair(s);
      assert s == [s[0], s[1]] + s[2..];
      assert Escaped(s)[2..] == Escaped(s[2..]);
    } else {
      EscapesOnlyWhatMust(s[1..]);
      CopiedUnit(s);
      assert s == [s[0]] + s[1..];
      assert EscapeUnit(s[0]) == [s[0]] ==> Escaped(s)[1..] == Escaped(s[1..]);
    }
  }

  lemma CopiedPair(s: Text)
    requires |s| > 1 && IsHigh(s[0]) && IsLow(s[1])
    ensures Copied(s) <==> Copied(s[2..])
  {
    assert CopiedAt(s, 0) && CopiedAt(s, 1);
    forall i | 2 <= i < |s|
      ensures CopiedAt(s, i) <==> CopiedAt(s[2..], i - 2)
    {
    }
    assert forall i :: 0 <= i < |s[2..]| ==> (CopiedAt(s, i + 2) <==> CopiedAt(s[2..], i));
  }

  lemma CopiedUnit(s: Text)
    requires s != [] && !(|s| > 1 && IsHigh(s[0]) && IsLow(s[1]))
    ensures Copied(s) <==> EscapeUnit(s[0]) == [s[0]] && Copied(s[1..])
  {
    assert CopiedAt(s, 0) <==> EscapeUnit(s[0]) == [s[0]];
    forall i | 1 <= i < |s|
      ensures CopiedAt(s, i) <==> CopiedAt(s[1..], i - 1)
    {
    }
    assert forall i :: 0 <= i < |s[1..]| ==> (CopiedAt(s, i + 1) <==> CopiedAt(s[1..], i));
  }

  /** Escapes are letters where there is one, and lower-case hexadecimal where there is not. */
  lemma EscapeForm(u: nat)
    requires !Copied([u])
    ensures var e := EscapeUnit(u);
            |e| == (if u in {8, 9, 10, 12, 13, QUOTE, BACKSLASH} then 2 else 6)
            && forall i :: 0 <= i < |e| ==> !(65 <= e[i] <= 70)
  {
    assert !CopiedAt([u], 0);
  }

  // --- Numbers ---

  /**
   A double as its printer sees it: the shortest decimal digits that name it and the
   position of the point, so the value is 0.d1d2d3... times ten to `point`.
   */
  datatype Number =
    | NotFinite
    | Zero(negative: bool)
    | Finite(negative: bool, digits: seq<nat>, point: int)
  {
    predicate Valid() {
      Finite? ==> |digits| > 0 && IsDigits(digits, 10) && digits[0] != 0 && digits[|digits| - 1] != 0
    }
  }

  function DigitUnits(ds: seq<nat>): (t: Text)
    ensures |t| == |ds| && forall i :: 0 <= i < |t| ==> t[i] == 48 + ds[i]
  {
    seq(|ds|, i requires 0 <= i < |ds| => 48 + ds[i])
  }

  /** A number laid out: digits, fraction digits if any, exponent if any. */
  datatype Layout = Layout(whole: seq<nat>, frac: seq<nat>, exponent: Option<int>) {
    predicate Valid() {
      IsDigits(whole, 10) && IsDigits(frac, 10)
    }
  }

  /** The four layouts of Number::toString. */
  function LayoutOf(ds: seq<nat>, point: int): Layout
    requires |ds| > 0
  {
    var k := |ds|;
    if k <= point <= 21 then Layout(ds + Zeros(point - k), [], None)
    else if 0 < point <= 21 then Layout(ds[..point], ds[point..], None)
    else if -6 < point <= 0 then Layout([0], Zeros(-point) + ds, None)
    else Layout(ds[..1], ds[1..], Some(point - 1))
  }

  function ExponentText(e: Option<int>): Text {
    match e
    case None => []
    case Some(n) =>
      var abs: nat := if n < 0 then -n else n;
      [101, if n < 0 then MINUS else 43] + DigitUnits(DigitsOf(abs, 10))
  }

  function LayoutText(l: Layout): Text {
    DigitUnits(l.whole) + ((if l.frac == [] then [] else [DOT] + DigitUnits(l.frac)) + ExponentText(l.exponent))
  }

  /** The text of a finite number. Both zeros print the same. */
  function NumberText(x: Number): Text
    requires x.Valid() && !x.NotFinite?
  {
    match x
    case Zero(_) => [48]
    case Finite(negative, ds, point) =>
      (if negative then [MINUS] else []) + LayoutText(LayoutOf(ds, point))
  }

  predicate IsDigitUnit(u: nat) {
    48 <= u <= 57
  }

  predicate IsNumberUnit(u: nat) {
    IsDigitUnit(u) || u == DOT || u == MINUS || u == 43 || u == 101
  }

  predicate Stops(p: nat -> bool, t: Text) {
    t == [] || !p(t[0])
  }

  function RunLength(p: nat -> bool, t: Text): nat {
    if t != [] && p(t[0]) then 1 + RunLength(p, t[1..]) else 0
  }

  lemma {:induction false} RunLengthOf(p: nat -> bool, a: Text, x: Text)
    requires forall i :: 0 <= i < |a| ==> p(a[i])
    requires Stops(p, x)
    ensures RunLength(p, a + x) == |a|
  {
    if a == [] {
      assert a + x == x;
    } else {
      RunLengthOf(p, a[1..], x);
      assert (a + x)[1..] == a[1..] + x;
    }
  }

  /** The longest run of units with a property is determined by the text. */
  lemma Span(p: nat -> bool, a: Text, x: Text, b: Text, y: Text)
    requires a + x == b + y
    requires forall i :: 0 <= i < |a| ==> p(a[i])
    requires forall i :: 0 <= i < |b| ==> p(b[i])
    requires Stops(p, x) && Stops(p, y)
    ensures a == b && x == y
  {
    RunLengthOf(p, a, x);
    RunLengthOf(p, b, y);
    assert a == (a + x)[..|a|] && b == (b + y)[..|b|];
    assert x == (a + x)[|a|..] && y == (b + y)[|b|..];
  }

  lemma DigitUnitsInjective(a: seq<nat>, b: seq<nat>)
    requires DigitUnits(a) == DigitUnits(b)
    ensures a == b
  {
    forall i | 0 <= i < |a|
      ensures a[i] == b[i]
    {
      assert DigitUnits(a)[i] == DigitUnits(b)[i];
    }
  }

  lemma ExponentUnique(e: Option<int>, f: Option<int>)
    requires ExponentText(e) == ExponentText(f)
    ensures e == f
  {
    assert ExponentText(e) == [] <==> e.None?;
    assert ExponentText(f) == [] <==> f.None?;
    if e.Some? && f.Some? {
      var m: nat := if e.value < 0 then -e.value else e.value;
      var n: nat := if f.value < 0 then -f.value else f.value;
      assert ExponentText(e)[2..] == DigitUnits(DigitsOf(m, 10));
      assert ExponentText(f)[2..] == DigitUnits(DigitsOf(n, 10));
      DigitUnitsInjective(DigitsOf(m, 10), DigitsOf(n, 10));
      ValueOfDigits(m, 10);
      ValueOfDigits(n, 10);
      assert ExponentText(e)[1] == ExponentText(f)[1];
    }
  }

  lemma LayoutTextUnique(l: Layout, m: Layout)
    requires l.Valid() && m.Valid() && LayoutText(l) == LayoutText(m)
    ensures l == m
  {
    hide ExponentText;
    var el, em := ExponentText(l.exponent), ExponentText(m.exponent);
    ExponentStarts(l.exponent);
    ExponentStarts(m.exponent);
    var fl := (if l.frac == [] then [] else [DOT] + DigitUnits(l.frac)) + el;
    var fm := (if m.frac == [] then [] else [DOT] + DigitUnits(m.frac)) + em;
    Span(IsDigitUnit, DigitUnits(l.whole), fl, DigitUnits(m.whole), fm);
    DigitUnitsInjective(l.whole, m.whole);
    assert if l.frac == [] then fl == el else fl[0] == DOT;
    assert if m.frac == [] then fm == em else fm[0] == DOT;
    if l.frac != [] && m.frac != [] {
      assert fl[1..] == DigitUnits(l.frac) + el && fm[1..] == DigitUnits(m.frac) + em;
      Span(IsDigitUnit, DigitUnits(l.frac), el, DigitUnits(m.frac), em);
      DigitUnitsInjective(l.frac, m.frac);
    }
    ExponentUnique(l.exponent, m.exponent);
  }

  lemma ExponentStarts(e: Option<int>)
    ensures ExponentText(e) == [] || ExponentText(e)[0] == 101
  {
  }

  lemma LayoutUnique(ds: seq<nat>, p: int, es: seq<nat>, q: int)
    requires |ds| > 0 && IsDigits(ds, 10) && ds[0] != 0 && ds[|ds| - 1] != 0
    requires |es| > 0 && IsDigits(es, 10) && es[0] != 0 && es[|es| - 1] != 0
    requires LayoutOf(ds, p) == LayoutOf(es, q)
    ensures ds == es && p == q
  {
    hide IsDigits, Zeros;
    var l, m := LayoutOf(ds, p), LayoutOf(es, q);
    if l.exponent.None? && l.frac == [] {
      TrailingZeros(ds, p, es, q);
    } else if l.exponent.None? && l.whole == [0] {
      LeadingZeros(ds, -p, es, -q);
    } else {
      assert ds == l.whole + l.frac;
      assert es == m.whole + m.frac;
    }
  }

  lemma TrailingZeros(ds: seq<nat>, p: nat, es: seq<nat>, q: nat)
    requires 0 < |ds| <= p && ds[|ds| - 1] != 0
    requires 0 < |es| <= q && es[|es| - 1] != 0
    requires ds + Zeros(p - |ds|) == es + Zeros(q - |es|)
    ensures ds == es && p == q
  {
    var l, m := ds + Zeros(p - |ds|), es + Zeros(q - |es|);
    assert p == |l| == |m| == q;
    assert l[|ds| - 1] == m[|ds| - 1] && l[|es| - 1] == m[|es| - 1];
    assert ds == l[..|ds|] && es == m[..|es|];
  }

  lemma LeadingZeros(ds: seq<nat>, a: nat, es: seq<nat>, b: nat)
    requires 0 < |ds| && ds[0] != 0 && 0 < |es| && es[0] != 0
    requires Zeros(a) + ds == Zeros(b) + es
    ensures ds == es && a == b
  {
    var l, m := Zeros(a) + ds, Zeros(b) + es;
    assert l[a] == m[a] && l[b] == m[b];
    assert ds == l[a..] && es == m[b..];
  }

  lemma LayoutTextUnits(l: Layout)
    requires l.Valid()
    ensures forall i :: 0 <= i < |LayoutText(l)| ==> IsNumberUnit(LayoutText(l)[i])
  {
  }

  lemma LayoutStarts(ds: seq<nat>, p: int)
    requires |ds| > 0 && IsDigits(ds, 10)
    ensures LayoutOf(ds, p).Valid() && LayoutOf(ds, p).whole != []
    ensures LayoutText(LayoutOf(ds, p)) != [] && IsDigitUnit(LayoutText(LayoutOf(ds, p))[0])
  {
    assert LayoutText(LayoutOf(ds, p))[0] == 48 + LayoutOf(ds, p).whole[0];
  }

  lemma {:induction false} NumberUnits(x: Number)
    requires x.Valid() && !x.NotFinite?
    ensures var t := NumberText(x);
            t != [] && (IsDigitUnit(t[0]) || t[0] == MINUS)
            && forall i :: 0 <= i < |t| ==> IsNumberUnit(t[i])
  {
    if x.Finite? {
      LayoutStarts(x.digits, x.point);
      LayoutTextUnits(LayoutOf(x.digits, x.point));
    }
  }

  /** Exponents are for what is not below 1e21 or is below 1e-6, and then one digit stands before the point. */
  lemma ExponentOnlyOutside(x: Number)
    requires x.Valid() && x.Finite?
    ensures 101 in NumberText(x) <==> x.point > 21 || x.point <= -6
    ensures var t := if x.negative then NumberText(x)[1..] else NumberText(x);
            101 in t ==> |t| > 1 && IsDigitUnit(t[0]) && !IsDigitUnit(t[1])
  {
    var l := LayoutOf(x.digits, x.point);
    var t := LayoutText(l);
    assert (if x.negative then NumberText(x)[1..] else NumberText(x)) == t;
    assert NumberText(x) == (if x.negative then [MINUS] else []) + t;
    LayoutExponent(l);
  }

  lemma LayoutExponent(l: Layout)
    requires l.Valid()
    ensures 101 in LayoutText(l) <==> l.exponent.Some?
    ensures l.exponent.Some? && |l.whole| == 1 ==>
              |LayoutText(l)| > 1 && IsDigitUnit(LayoutText(l)[0]) && !IsDigitUnit(LayoutText(l)[1])
  {
    hide DigitsOf;
    var t := LayoutText(l);
    var i := |t| - |ExponentText(l.exponent)|;
    assert l.exponent.Some? ==> t[i] == 101;
    assert forall k :: 0 <= k < i ==> t[k] != 101;
  }

  predicate SameNumber(x: Number, y: Number) {
    x == y || (x.Zero? && y.Zero?)
  }

  /** Distinct numbers print differently, the two zeros excepted. */
  lemma {:induction false} NumberTextUnique(x: Number, y: Number)
    requires x.Valid() && !x.NotFinite? && y.Valid() && !y.NotFinite?
    ensures NumberText(x) == NumberText(y) <==> SameNumber(x, y)
  {
    hide LayoutText, LayoutOf;
    if NumberText(x) == NumberText(y) {
      if x.Finite? && y.Finite? {
        LayoutStarts(x.digits, x.point);
        LayoutStarts(y.digits, y.point);
        var lx, ly := LayoutOf(x.digits, x.point), LayoutOf(y.digits, y.point);
        assert NumberText(x)[if x.negative then 1 else 0..] == LayoutText(lx);
        assert NumberText(y)[if y.negative then 1 else 0..] == LayoutText(ly);
        assert NumberText(x)[0] == MINUS <==> x.negative;
        assert NumberText(y)[0] == MINUS <==> y.negative;
        LayoutTextUnique(lx, ly);
        LayoutUnique(x.digits, x.point, y.digits, y.point);
      } else if x.Finite? {
        FiniteIsNotZero(x);
      } else if y.Finite? {
        FiniteIsNotZero(y);
      }
    }
  }

  lemma FiniteIsNotZero(x: Number)
    requires x.Valid() && x.Finite?
    ensures NumberText(x) != [48]
  {
    var l := LayoutOf(x.digits, x.point);
    if x.negative {
      assert NumberText(x)[0] == MINUS;
    } else if -6 < x.point <= 0 {
      assert |LayoutText(l)| > 1;
    } else {
      assert NumberText(x) == LayoutText(l);
      assert l.whole[0] == x.digits[0];
      assert LayoutText(l)[0] == 48 + l.whole[0];
    }
  }
}
