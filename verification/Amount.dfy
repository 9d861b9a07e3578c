/**
 Token amounts between base units and human text: amount.ts and the two codec
 functions of funding.ts. A printed amount is integer text, so the platform's
 BigInt reader is written out in full.
 */
module Amount {
  import opened Wrappers
  import opened Digits

  // --- The string operations the codecs use ---

  /** JavaScript white space and line terminators, as trim and BigInt skip them. */
  predicate IsSpace(c: char) {
    var u := c as int;
    9 <= u <= 13 || u == 32 || u == 0xA0 || u == 0x1680 || 0x2000 <= u <= 0x200A
    || u == 0x2028 || u == 0x2029 || u == 0x202F || u == 0x205F || u == 0x3000 || u == 0xFEFF
  }

  function TrimStart(s: string): string {
    if s != [] && IsSpace(s[0]) then TrimStart(s[1..]) else s
  }

  function TrimEnd(s: string): string {
    if s != [] && IsSpace(s[|s| - 1]) then TrimEnd(s[..|s| - 1]) else s
  }

  function Trim(s: string): string {
    TrimEnd(TrimStart(s))
  }

  function Repeat(c: char, k: nat): (s: string)
    ensures |s| == k && forall i :: 0 <= i < k ==> s[i] == c
  {
    seq(k, _ => c)
  }

  function PadStart(s: string, k: nat): string {
    if |s| >= k then s else Repeat('0', k - |s|) + s
  }

  function PadEnd(s: string, k: nat): string {
    if |s| >= k then s else s + Repeat('0', k - |s|)
  }

  /** Drops the run of zeros at the end, if any. */
  function StripZeros(s: string): (r: string)
    ensures |r| <= |s| && s == r + Repeat('0', |s| - |r|)
    ensures r != [] ==> r[|r| - 1] != '0'
  {
    if s != [] && s[|s| - 1] == '0' then
      var r := StripZeros(s[..|s| - 1]);
      assert Repeat('0', |s| - |r|) == Repeat('0', |s| - 1 - |r|) + "0";
      r
    else s
  }

  /** Position of the first c, or the length when there is none. */
  function IndexOf(s: string, c: char): (i: nat)
    ensures i <= |s| && c !in s[..i] && (i < |s| ==> s[i] == c)
  {
    if s == [] || s[0] == c then 0 else
      var i := 1 + IndexOf(s[1..], c);
      assert s[..i] == [s[0]] + s[1..][..i - 1];
      i
  }

  lemma {:induction false} IndexOfUnique(a: string, c: char, b: string)
    requires c !in a
    ensures IndexOf(a + [c] + b, c) == |a| && IndexOf(a, c) == |a|
  {
    if a != [] {
      IndexOfUnique(a[1..], c, b);
      assert (a + [c] + b)[1..] == a[1..] + [c] + b;
      assert a[0] in a;
    }
  }

  /** The first two pieces of s.split("."), the second empty when there is no dot. */
  function SplitDot(s: string): (p: (string, string)) {
    var i := IndexOf(s, '.');
    if i == |s| then (s, "")
    else var rest := s[i + 1..]; (s[..i], rest[..IndexOf(rest, '.')])
  }

  /** BigInt of a string: None is the SyntaxError. */
  function ParseBigInt(text: string): Option<int> {
    var s := Trim(text);
    if s == "" then Some(0)
    else if IsNumeral(s, 10) then Some(NumeralValue(s, 10))
    else if s[0] in "+-" && IsNumeral(s[1..], 10) then
      var v: int := NumeralValue(s[1..], 10); Some(if s[0] == '-' then -v else v)
    else if |s| > 2 && s[0] == '0' && s[1] in "xXoObB" then
      var radix := if s[1] in "xX" then 16 else if s[1] in "oO" then 8 else 2;
      if IsNumeral(s[2..], radix) then Some(NumeralValue(s[2..], radix)) else None
    else None
  }

  // --- Moving the decimal point ---

  /** w times ten to the k. */
  function Shift(w: int, k: nat): int {
    if k == 0 then w else 10 * Shift(w, k - 1)
  }

  lemma {:induction false} ShiftIsProduct(w: int, k: nat)
    ensures Shift(w, k) == w * Pow(10, k)
  {
    if k > 0 {
      ShiftIsProduct(w, k - 1);
      assert 10 * (w * Pow(10, k - 1)) == w * (10 * Pow(10, k - 1));
    }
  }

  /** The whole part and the remainder of n over ten to the k, one place at a time. */
  function Places(n: nat, k: nat): (p: (nat, nat))
    ensures n == Shift(p.0, k) + p.1 && p.1 < Pow(10, k)
  {
    if k == 0 then (n, 0)
    else var (whole, frac) := Places(n / 10, k - 1); (whole, 10 * frac + n % 10)
  }

  lemma {:induction false} PlacesExact(n: nat, k: nat)
    ensures Places(n, k) == (n / Pow(10, k), n % Pow(10, k))
  {
    hide Places, Shift, Pow;
    var p := Pow(10, k);
    ShiftIsProduct(Places(n, k).0, k);
    DivRemExact(n, p);
    LastDigit(Places(n, k).0, Places(n, k).1, DivRem(n, p).0, DivRem(n, p).1, p);
  }

  // --- amount.ts ---

  function FormatAmount(units: int, decimals: nat): string {
    var abs: nat := if units < 0 then -units else units;
    var (whole, frac) := Places(abs, decimals);
    var out := Decimal(whole) + if frac > 0 then "." + StripZeros(PadStart(Decimal(frac), decimals)) else "";
    if units < 0 then "-" + out else out
  }

  /** The text after any sign: the whole part and the first `decimals` fraction digits. */
  function ParseMagnitude(body: string, decimals: nat): Option<int> {
    var (whole, frac) := SplitDot(body);
    var fracPadded := (frac + Repeat('0', decimals))[..decimals];
    var w :- ParseBigInt(if whole == "" then "0" else whole);
    var f :- ParseBigInt(if fracPadded == "" then "0" else fracPadded);
    Some(Shift(w, decimals) + f)
  }

  function ParseAmount(human: string, decimals: nat): Option<int> {
    var trimmed := Trim(human);
    var negative := "-" <= trimmed;
    var units :- ParseMagnitude(if negative then trimmed[1..] else trimmed, decimals);
    Some(if negative then -units else units)
  }

  // --- funding.ts ---

  function FormatUnits(amount: int, decimals: nat): string {
    var abs: nat := if amount < 0 then -amount else amount;
    var (whole, rest) := Places(abs, decimals);
    var frac := StripZeros(PadStart(Decimal(rest), decimals));
    var body := if frac == "" then Decimal(whole) else Decimal(whole) + "." + frac;
    if amount < 0 then "-" + body else body
  }

  /** The pattern: digits, then optionally a dot and at least one more digit. */
  predicate IsDecimalAmount(s: string) {
    var i := IndexOf(s, '.');
    IsNumeral(s[..i], 10) && (i < |s| ==> IsNumeral(s[i + 1..], 10))
  }

  function ParseUnits(value: string, decimals: nat): Option<int> {
    var trimmed := Trim(value);
    if !IsDecimalAmount(trimmed) then None
    else
      var (whole, frac) := SplitDot(trimmed);
      if |frac| > decimals then None else ParseBigInt(whole + PadEnd(frac, decimals))
  }

  // --- Facts about printed digits ---

  predicate Plain(s: string) {
    forall i :: 0 <= i < |s| ==> '0' <= s[i] <= '9'
  }

  lemma TrimNothing(s: string)
    requires s == "" || (!IsSpace(s[0]) && !IsSpace(s[|s| - 1]))
    ensures Trim(s) == s
  {
  }

  lemma ParsePlain(s: string)
    requires Plain(s) && s != ""
    ensures IsNumeral(s, 10) && ParseBigInt(s) == Some(NumeralValue(s, 10))
  {
    TrimNothing(s);
  }

  /** The other texts BigInt reads: a sign before decimal digits, a prefix before digits of its base, and nothing. */
  lemma {:induction false} BigIntForms(ds: string)
    ensures ParseBigInt("") == Some(0)
    ensures IsNumeral(ds, 10) ==> ParseBigInt("-" + ds) == Some(0 - NumeralValue(ds, 10) as int)
    ensures IsNumeral(ds, 10) ==> ParseBigInt("+" + ds) == Some(NumeralValue(ds, 10))
    ensures IsNumeral(ds, 16) ==> ParseBigInt("0x" + ds) == ParseBigInt("0X" + ds) == Some(NumeralValue(ds, 16))
    ensures IsNumeral(ds, 8) ==> ParseBigInt("0o" + ds) == ParseBigInt("0O" + ds) == Some(NumeralValue(ds, 8))
    ensures IsNumeral(ds, 2) ==> ParseBigInt("0b" + ds) == ParseBigInt("0B" + ds) == Some(NumeralValue(ds, 2))
  {
    hide NumeralValue;
    if ds != "" && CharDigit(ds[|ds| - 1]).Some? {
      SignReads('-', ds);
      SignReads('+', ds);
      PrefixReads("0x", ds);
      PrefixReads("0X", ds);
      PrefixReads("0o", ds);
      PrefixReads("0O", ds);
      PrefixReads("0b", ds);
      PrefixReads("0B", ds);
    }
  }

  lemma SignReads(sign: char, ds: string)
    requires sign in "+-" && ds != "" && CharDigit(ds[|ds| - 1]).Some?
    ensures IsNumeral(ds, 10) ==>
              var v: int := NumeralValue(ds, 10); ParseBigInt([sign] + ds) == Some(if sign == '-' then -v else v)
  {
    hide NumeralValue;
    var s := [sign] + ds;
    TrimNothing(s);
    assert s[1..] == ds && CharDigit(s[0]).None?;
  }

  lemma PrefixReads(prefix: string, ds: string)
    requires |prefix| == 2 && prefix[0] == '0' && prefix[1] in "xXoObB" && ds != "" && CharDigit(ds[|ds| - 1]).Some?
    ensures var radix := if prefix[1] in "xX" then 16 else if prefix[1] in "oO" then 8 else 2;
            ParseBigInt(prefix + ds) == if IsNumeral(ds, radix) then Some(NumeralValue(ds, radix)) else None
  {
    hide NumeralValue;
    var s := prefix + ds;
    TrimNothing(s);
    assert s[2..] == ds && s[0] == '0' && s[1] == prefix[1];
    assert !AllDigits(s, 10) by {
      assert CharDigit(s[1]).None? || CharDigit(s[1]).value >= 10;
    }
  }

  /** And it reads no others: anything else is a SyntaxError. */
  lemma BigIntRefuses(text: string)
    ensures var t := Trim(text);
            ParseBigInt(text).None? <==>
              t != "" && !IsNumeral(t, 10) && !(t[0] in "+-" && IsNumeral(t[1..], 10))
              && !(|t| > 2 && t[0] == '0' && ((t[1] in "xX" && IsNumeral(t[2..], 16))
                                              || (t[1] in "oO" && IsNumeral(t[2..], 8))
                                              || (t[1] in "bB" && IsNumeral(t[2..], 2))))
  {
  }

  lemma NumeralPlain(s: string)
    requires AllDigits(s, 10)
    ensures Plain(s) && '.' !in s
  {
    forall i | 0 <= i < |s|
      ensures '0' <= s[i] <= '9'
    {
      assert CharDigit(s[i]).value < 10;
    }
  }

  lemma ConcatNumeral(a: string, b: string)
    requires Plain(a) && Plain(b)
    ensures AllDigits(a, 10) && AllDigits(b, 10) && AllDigits(a + b, 10)
    ensures NumeralValue(a + b, 10) == Shift(NumeralValue(a, 10), |b|) + NumeralValue(b, 10)
  {
    hide Shift, Pow, ValueOf;
    assert Scan(a + b, 10) == Scan(a, 10) + Scan(b, 10);
    ValueConcat(Scan(a, 10), Scan(b, 10), 10);
    ShiftIsProduct(NumeralValue(a, 10), |b|);
  }

  lemma ZeroNumeral(k: nat)
    ensures AllDigits(Repeat('0', k), 10) && NumeralValue(Repeat('0', k), 10) == 0
  {
    assert Scan(Repeat('0', k), 10) == Zeros(k);
    ZerosValue(k, 10);
  }

  /** The fraction part as printed: zero-padded to full width and still worth frac. */
  lemma PaddedFraction(frac: nat, decimals: nat)
    requires frac < Pow(10, decimals) && (decimals > 0 || frac > 0)
    ensures var p := PadStart(Decimal(frac), decimals);
            |p| == decimals && Plain(p) && AllDigits(p, 10) && NumeralValue(p, 10) == frac
  {
    DigitsFit(frac, 10, decimals);
    var d := Decimal(frac);
    assert |d| == |DigitsOf(frac, 10)|;
    var zeros := Repeat('0', decimals - |d|);
    ZeroNumeral(decimals - |d|);
    ConcatNumeral(zeros, d);
    ShiftIsProduct(0, |d|);
    assert PadStart(d, decimals) == zeros + d;
  }

  /** Filling a stripped fraction back up to full width undoes the stripping. */
  lemma RefillStripped(p: string, decimals: nat)
    requires |p| == decimals
    ensures (StripZeros(p) + Repeat('0', decimals))[..decimals] == p
    ensures PadEnd(StripZeros(p), decimals) == p
  {
    var r := StripZeros(p);
    assert (r + Repeat('0', decimals))[..decimals] == r + Repeat('0', decimals - |r|);
  }

  lemma {:induction false} StrippedZero(p: string)
    requires Plain(p)
    ensures StripZeros(p) == "" <==> p == Repeat('0', |p|)
    decreases |p|
  {
    if p != [] && p[|p| - 1] == '0' {
      StrippedZero(p[..|p| - 1]);
      assert p == p[..|p| - 1] + "0";
      assert Repeat('0', |p|) == Repeat('0', |p| - 1) + "0";
    } else if p != [] {
      assert Repeat('0', |p|)[|p| - 1] == '0';
    }
  }

  /** A full-width fraction strips to nothing exactly when it is worth nothing. */
  lemma {:induction false} StrippedFraction(frac: nat, decimals: nat)
    requires frac < Pow(10, decimals)
    ensures StripZeros(PadStart(Decimal(frac), decimals)) == "" <==> frac == 0
  {
    ZeroPadded(decimals);
    hide Decimal, PadStart, ValueOf;
    if decimals > 0 {
      PaddedFraction(frac, decimals);
      StrippedZero(PadStart(Decimal(frac), decimals));
      ZeroNumeral(decimals);
    }
  }

  lemma ZeroPadded(decimals: nat)
    ensures decimals > 0 ==> PadStart(Decimal(0), decimals) == Repeat('0', decimals)
    ensures StripZeros(PadStart(Decimal(0), decimals)) == ""
  {
    assert DigitsOf(0, 10) == [0];
    assert Decimal(0) == "0";
    var p := PadStart("0", decimals);
    assert p == Repeat('0', |p|);
    StrippedZero(p);
  }

  /** Both readers' view of digits with an optional fraction. */
  lemma SplitPlain(whole: string, frac: string)
    requires Plain(whole) && Plain(frac)
    ensures SplitDot(whole) == (whole, "")
    ensures SplitDot(whole + "." + frac) == (whole, frac)
  {
    IndexOfUnique(whole, '.', frac);
    IndexOfUnique(frac, '.', "");
    var s := whole + "." + frac;
    assert s == whole + ['.'] + frac;
    assert s[..|whole|] == whole && s[|whole| + 1..] == frac;
    assert frac[..|frac|] == frac;
  }

  /** A number as text: digits, then a dot and the fraction when there is one. */
  function Body(whole: string, frac: string): string {
    if frac == "" then whole else whole + "." + frac
  }

  function Signed(negative: bool, body: string): string {
    if negative then "-" + body else body
  }

  lemma SplitBody(whole: string, frac: string)
    requires Plain(whole) && Plain(frac)
    ensures SplitDot(Body(whole, frac)) == (whole, frac)
  {
    SplitPlain(whole, frac);
  }

  lemma {:induction false} ParsePadded(frac: string, decimals: nat)
    requires Plain(frac) && |frac| <= decimals
    ensures (frac + Repeat('0', decimals))[..decimals] == PadEnd(frac, decimals)
    ensures var p := PadEnd(frac, decimals);
            AllDigits(p, 10) && ParseBigInt(if p == "" then "0" else p) == Some(NumeralValue(p, 10))
  {
    var p := PadEnd(frac, decimals);
    assert (frac + Repeat('0', decimals))[..decimals] == p;
    if p == "" {
      ParsePlain("0");
      assert Scan("0", 10) == Zeros(1);
      ZerosValue(1, 10);
      assert Scan("", 10) == [];
    } else {
      ParsePlain(p);
    }
  }

  /** What the lenient reader makes of digits with a fraction of at most full width. */
  lemma {:induction false} ParseBody(whole: string, frac: string, decimals: nat)
    requires Plain(whole) && whole != "" && Plain(frac) && |frac| <= decimals
    ensures AllDigits(whole, 10) && AllDigits(PadEnd(frac, decimals), 10)
    ensures ParseMagnitude(Body(whole, frac), decimals) ==
            Some(Shift(NumeralValue(whole, 10), decimals) + NumeralValue(PadEnd(frac, decimals), 10))
  {
    hide Shift, Pow, ValueOf, SplitDot, ParseBigInt, Body, PadEnd;
    SplitBody(whole, frac);
    ParsePlain(whole);
    ParsePadded(frac, decimals);
  }

  lemma BodyEnds(whole: string, frac: string)
    requires Plain(whole) && whole != "" && Plain(frac)
    ensures var t := Body(whole, frac);
            t != "" && '0' <= t[0] <= '9' && '0' <= t[|t| - 1] <= '9'
  {
    var t := Body(whole, frac);
    assert t[0] == whole[0];
    assert t[|t| - 1] == if frac == "" then whole[|whole| - 1] else frac[|frac| - 1];
  }

  lemma {:induction false} ParseSigned(negative: bool, body: string, decimals: nat, v: int)
    requires body != "" && '0' <= body[0] <= '9' && '0' <= body[|body| - 1] <= '9'
    requires ParseMagnitude(body, decimals) == Some(v)
    ensures ParseAmount(Signed(negative, body), decimals) == Some(if negative then -v else v)
  {
    hide ParseMagnitude;
    TrimNothing(Signed(negative, body));
    assert negative ==> Signed(negative, body)[1..] == body;
  }

  /** The two parts of a printed amount, and what they are worth when read back. */
  lemma {:induction false} PrintedParts(abs: nat, decimals: nat) returns (whole: string, frac: string)
    ensures var (w, f) := Places(abs, decimals);
            whole == Decimal(w) && frac == StripZeros(PadStart(Decimal(f), decimals))
    ensures Plain(whole) && whole != "" && Plain(frac) && |frac| <= decimals
    ensures AllDigits(PadEnd(frac, decimals), 10)
    ensures abs == Shift(NumeralValue(whole, 10), decimals) + NumeralValue(PadEnd(frac, decimals), 10)
  {
    hide Shift, Decimal, StripZeros, PadStart;
    var (w, f) := Places(abs, decimals);
    whole := Decimal(w);
    var p := PadStart(Decimal(f), decimals);
    frac := StripZeros(p);
    StrippedFraction(f, decimals);
    if decimals == 0 {
      assert Scan("", 10) == [];
    } else {
      PaddedFraction(f, decimals);
      RefillStripped(p, decimals);
      assert p[..|frac|] == frac;
    }
  }

  lemma PrintedAmount(n: int, decimals: nat) returns (abs: nat, whole: string, frac: string)
    ensures abs == if n < 0 then -n else n
    ensures Plain(whole) && whole != "" && Plain(frac) && |frac| <= decimals
    ensures AllDigits(PadEnd(frac, decimals), 10)
    ensures abs == Shift(NumeralValue(whole, 10), decimals) + NumeralValue(PadEnd(frac, decimals), 10)
    ensures whole[0] == '0' ==> whole == Decimal(0)
    ensures frac == "" || frac[|frac| - 1] != '0'
    ensures FormatAmount(n, decimals) == FormatUnits(n, decimals) == Signed(n < 0, Body(whole, frac))
  {
    hide Shift, Pow, NumeralValue, Decimal, StripZeros, PadStart, PadEnd, Places;
    abs := if n < 0 then -n else n;
    whole, frac := PrintedParts(abs, decimals);
    var (w, f) := Places(abs, decimals);
    StrippedFraction(f, decimals);
    assert whole + "" == whole;
    assert whole + ("." + frac) == whole + "." + frac;
  }

  // --- Main results ---

  /** Printing then reading an amount gives back the same base units, for every token. */
  lemma {:induction false} AmountRoundTrip(n: int, decimals: nat)
    ensures ParseAmount(FormatAmount(n, decimals), decimals) == Some(n)
  {
    hide *;
    var abs, whole, frac := PrintedAmount(n, decimals);
    ParseBody(whole, frac, decimals);
    BodyEnds(whole, frac);
    ParseSigned(n < 0, Body(whole, frac), decimals, abs);
  }

  /**
   The printed text is the shortest there is: no zero before the whole part, none after
   the fraction, no dot without a fraction, and a sign on negative amounts only.
   */
  lemma {:induction false} PrintedShortest(n: int, decimals: nat) returns (whole: string, frac: string)
    ensures FormatAmount(n, decimals) == Signed(n < 0, Body(whole, frac))
    ensures Plain(whole) && Plain(frac) && |frac| <= decimals
    ensures |whole| == 1 || (|whole| > 1 && whole[0] != '0')
    ensures frac == "" || frac[|frac| - 1] != '0'
  {
    hide *;
    var abs;
    abs, whole, frac := PrintedAmount(n, decimals);
    ZeroPrints();
  }

  /** The lenient reader cuts a fraction off at full width, where the strict one refuses it. */
  lemma {:induction false} LenientCuts(whole: string, frac: string, decimals: nat)
    requires Plain(whole) && whole != "" && Plain(frac) && |frac| > decimals
    ensures ParseMagnitude(Body(whole, frac), decimals) == ParseMagnitude(Body(whole, frac[..decimals]), decimals)
    ensures ParseUnits(Body(whole, frac), decimals) == None
  {
    hide ParseBigInt, SplitDot, Shift;
    SplitBody(whole, frac);
    SplitBody(whole, frac[..decimals]);
    assert (frac + Repeat('0', decimals))[..decimals] == frac[..decimals];
    assert (frac[..decimals] + Repeat('0', decimals))[..decimals] == frac[..decimals];
    StrictBody(whole, frac, decimals);
  }

  /** The two printers of the application never disagree. */
  lemma {:induction false} PrintersAgree(n: int, decimals: nat)
    ensures FormatUnits(n, decimals) == FormatAmount(n, decimals)
  {
    hide *;
    var _, _, _ := PrintedAmount(n, decimals);
  }

  /** The strict reader on text of its own pattern. */
  lemma {:induction false} StrictBody(whole: string, frac: string, decimals: nat)
    requires Plain(whole) && whole != "" && Plain(frac)
    ensures Trim(Body(whole, frac)) == Body(whole, frac) && IsDecimalAmount(Body(whole, frac))
    ensures AllDigits(whole, 10) && AllDigits(PadEnd(frac, decimals), 10)
    ensures ParseUnits(Body(whole, frac), decimals) ==
            if |frac| > decimals then None
            else Some(Shift(NumeralValue(whole, 10), decimals) + NumeralValue(PadEnd(frac, decimals), 10))
  {
    hide Shift, Pow, NumeralValue, ParseBigInt, SplitDot, IndexOf;
    var t := Body(whole, frac);
    BodyEnds(whole, frac);
    TrimNothing(t);
    IndexOfUnique(whole, '.', frac);
    assert t[..|whole|] == whole;
    ConcatNumeral(whole, frac);
    if frac != "" {
      assert t == whole + ['.'] + frac;
      assert t[|whole| + 1..] == frac;
    }
    SplitBody(whole, frac);
    var padded := PadEnd(frac, decimals);
    ConcatNumeral(whole, padded);
    ParsePlain(whole + padded);
  }

  lemma PatternParts(t: string) returns (whole: string, frac: string)
    requires IsDecimalAmount(t)
    ensures Plain(whole) && whole != "" && Plain(frac) && t == Body(whole, frac)
  {
    var i := IndexOf(t, '.');
    whole := t[..i];
    NumeralPlain(whole);
    frac := if i < |t| then t[i + 1..] else "";
    if i < |t| {
      NumeralPlain(frac);
    }
  }

  /** Wherever the strict reader gives an answer, the lenient one gives the same. */
  lemma {:induction false} ReadersAgree(value: string, decimals: nat)
    requires ParseUnits(value, decimals).Some?
    ensures ParseAmount(value, decimals) == ParseUnits(value, decimals)
  {
    hide Shift, Pow, NumeralValue, PadEnd, ParseBigInt, SplitDot, IndexOf, ParseMagnitude;
    var t := Trim(value);
    var whole, frac := PatternParts(t);
    StrictBody(whole, frac, decimals);
    ParseBody(whole, frac, decimals);
    BodyEnds(whole, frac);
    ParseSigned(false, t, decimals, ParseUnits(value, decimals).value);
  }

  /**
   The strict reader undoes its printer exactly for the amounts its pattern can
   write down: a minus sign is not part of it.
   */
  lemma {:induction false} UnitsRoundTrip(n: int, decimals: nat)
    ensures ParseUnits(FormatUnits(n, decimals), decimals) == if n >= 0 then Some(n) else None
  {
    hide *;
    var abs, whole, frac := PrintedAmount(n, decimals);
    BodyEnds(whole, frac);
    if n >= 0 {
      Unsigned(Body(whole, frac));
      StrictBody(whole, frac, decimals);
    } else {
      StrictRefusesSign(Body(whole, frac), decimals);
    }
  }

  lemma Unsigned(body: string)
    ensures Signed(false, body) == body
  {
  }

  lemma StrictRefusesSign(body: string, decimals: nat)
    requires body != "" && '0' <= body[|body| - 1] <= '9'
    ensures ParseUnits(Signed(true, body), decimals) == None
  {
    hide Shift, Pow, NumeralValue, PadEnd, ParseBigInt, SplitDot;
    var text := Signed(true, body);
    TrimNothing(text);
    var i := IndexOf(text, '.');
    assert i > 0 && text[..i][0] == '-';
  }
}
