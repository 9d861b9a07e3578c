/**
 Positional notation, most significant digit first, and its printed form.

 Every printer of the application that goes through BigInt's toString, and every
 reader that goes through BigInt or Number, is built on these.
 */
module Digits {
  import opened Wrappers

  function Pow(b: nat, e: nat): (p: nat)
    ensures b > 0 ==> p > 0
  {
    if e == 0 then 1 else b * Pow(b, e - 1)
  }

  type Byte = n: nat | n < 256

  predicate IsDigits(ds: seq<nat>, b: nat) {
    forall i :: 0 <= i < |ds| ==> ds[i] < b
  }

  /**
   Quotient and remainder, by repeated subtraction: a variable divisor under / or %
   is out of the solver's reach. DivRemExact says they are / and %.
   */
  function DivRem(n: nat, b: nat): (qr: (nat, nat))
    requires b > 0
    ensures n == qr.0 * b + qr.1 && qr.1 < b
    ensures qr.0 <= n && (b >= 2 && n >= b ==> 1 <= qr.0 < n)
    decreases n
  {
    if n < b then (n - n, n)
    else
      var (q, r) := DivRem(n - b, b);
      assert (q + 1) * b == q * b + b;
      (q + 1, r)
  }

  /** The digits of n in base b, with no leading zero except for zero itself. */
  function DigitsOf(n: nat, b: nat): (ds: seq<nat>)
    requires b >= 2
    ensures |ds| >= 1 && IsDigits(ds, b)
    ensures ds[0] == 0 ==> n == 0
  {
    if n < b then [n] else var (q, r) := DivRem(n, b); DigitsOf(q, b) + [r]
  }

  function ValueOf(ds: seq<nat>, b: nat): nat {
    if ds == [] then 0 else ValueOf(ds[..|ds| - 1], b) * b + ds[|ds| - 1]
  }

  function Zeros(k: nat): (z: seq<nat>)
    ensures |z| == k && forall i :: 0 <= i < k ==> z[i] == 0
  {
    seq(k, _ => 0)
  }

  /** Reading the printed digits gives the number back. */
  lemma {:induction false} ValueOfDigits(n: nat, b: nat)
    requires b >= 2
    ensures ValueOf(DigitsOf(n, b), b) == n
  {
    if n < b {
      assert [n][..0] == [];
    } else {
      var (q, r) := DivRem(n, b);
      ValueOfDigits(q, b);
      assert DigitsOf(n, b)[..|DigitsOf(n, b)| - 1] == DigitsOf(q, b);
    }
  }

  lemma {:induction false} ValueConcat(xs: seq<nat>, ys: seq<nat>, b: nat)
    ensures ValueOf(xs + ys, b) == ValueOf(xs, b) * Pow(b, |ys|) + ValueOf(ys, b)
  {
    if ys == [] {
      assert xs + ys == xs;
    } else {
      var front, last := ys[..|ys| - 1], ys[|ys| - 1];
      ValueConcat(xs, front, b);
      assert (xs + ys)[..|xs + ys| - 1] == xs + front;
      assert (xs + ys)[|xs + ys| - 1] == last;
      Horner(ValueOf(xs, b), Pow(b, |front|), ValueOf(front, b), b, last);
    }
  }

  lemma Horner(x: nat, p: nat, y: nat, b: nat, last: nat)
    ensures (x * p + y) * b + last == x * (b * p) + (y * b + last)
  {
    assert x * p * b == x * (b * p);
  }

  /** A number takes at most k digits exactly when it is below b to the k. */
  lemma {:induction false} DigitsFit(n: nat, b: nat, k: nat)
    requires b >= 2 && k >= 1
    ensures |DigitsOf(n, b)| <= k <==> n < Pow(b, k)
  {
    if n < b {
      PowAtLeast(b, k);
    } else if k == 1 {
      assert Pow(b, 1) == b * Pow(b, 0) == b;
    } else {
      var (q, r) := DivRem(n, b);
      DigitsFit(q, b, k - 1);
      QuotientBound(q, r, b, Pow(b, k - 1));
    }
  }

  lemma {:induction false} PowAtLeast(b: nat, k: nat)
    requires b >= 1 && k >= 1
    ensures Pow(b, k) >= b
  {
    assert Pow(b, k - 1) >= 1;
    assert b * Pow(b, k - 1) >= b * 1;
  }

  lemma {:induction false} QuotientBound(q: nat, r: nat, b: nat, p: nat)
    requires r < b
    ensures q < p <==> q * b + r < b * p
  {
    if q < p {
      Gap(q, p, b);
    } else {
      assert q * b == p * b + (q - p) * b;
    }
  }

  lemma {:induction false} DivRemExact(n: nat, b: nat)
    requires b > 0
    ensures DivRem(n, b) == (n / b, n % b)
  {
    hide DivRem;
    var (q, r) := DivRem(n, b);
    Euclid(n, b);
    LastDigit(q, r, n / b, n % b, b);
  }

  lemma Euclid(n: nat, b: nat)
    requires b > 0
    ensures n == n / b * b + n % b && n % b < b
  {
  }

  lemma {:induction false} ZerosValue(k: nat, b: nat)
    ensures ValueOf(Zeros(k), b) == 0
  {
    if k > 0 {
      ZerosValue(k - 1, b);
      assert Zeros(k)[..k - 1] == Zeros(k - 1);
    }
  }

  /** Leading zeros do not change a value. */
  lemma PadValue(k: nat, ds: seq<nat>, b: nat)
    ensures ValueOf(Zeros(k) + ds, b) == ValueOf(ds, b)
  {
    ValueConcat(Zeros(k), ds, b);
    ZerosValue(k, b);
  }

  /** Digit strings of one length are determined by their value. */
  lemma {:induction false} ValueInjective(xs: seq<nat>, ys: seq<nat>, b: nat)
    requires b >= 1 && IsDigits(xs, b) && IsDigits(ys, b)
    requires |xs| == |ys| && ValueOf(xs, b) == ValueOf(ys, b)
    ensures xs == ys
  {
    if xs != [] {
      var k := |xs| - 1;
      LastDigit(ValueOf(xs[..k], b), xs[k], ValueOf(ys[..k], b), ys[k], b);
      ValueInjective(xs[..k], ys[..k], b);
      assert xs == xs[..k] + [xs[k]];
      assert ys == ys[..k] + [ys[k]];
    }
  }

  /** Digits with no leading zero are the ones their value prints as. */
  lemma {:induction false} DigitsUnique(ds: seq<nat>, b: nat)
    requires b >= 2 && IsDigits(ds, b) && |ds| >= 1 && (|ds| == 1 || ds[0] != 0)
    ensures DigitsOf(ValueOf(ds, b), b) == ds
  {
    var k := |ds| - 1;
    var front, last := ds[..k], ds[k];
    assert ds == front + [last];
    if k == 0 {
      assert ValueOf(front, b) == 0;
    } else {
      DigitsUnique(front, b);
      var v := ValueOf(front, b);
      assert ValueOf(ds, b) == v * b + last;
      assert v == 0 ==> front == [0];
      hide ValueOf;
      DigitsMore(v, last, b);
    }
  }

  lemma DigitsMore(v: nat, last: nat, b: nat)
    requires b >= 2 && v >= 1 && last < b
    ensures DigitsOf(v * b + last, b) == DigitsOf(v, b) + [last]
  {
    AtLeastBase(v, b);
    hide DivRem;
    var (q, r) := DivRem(v * b + last, b);
    LastDigit(q, r, v, last, b);
  }

  lemma AtLeastBase(v: nat, b: nat)
    requires v >= 1
    ensures v * b >= b
  {
  }

  lemma {:induction false} LastDigit(p: nat, x: nat, q: nat, y: nat, b: nat)
    requires x < b && y < b && p * b + x == q * b + y
    ensures p == q && x == y
  {
    if p < q {
      Gap(p, q, b);
      assert false;
    } else if q < p {
      Gap(q, p, b);
      assert false;
    }
  }

  lemma {:induction false} Gap(p: nat, q: nat, b: nat)
    requires p < q
    ensures q * b >= p * b + b
  {
    var k: nat := q - p - 1;
    assert (p + 1 + k) * b == p * b + b + k * b;
  }

  // Printed digits: 0-9 then a-f, as toString writes them.

  function DigitChar(d: nat): (c: char)
    requires d < 16
    ensures CharDigit(c) == Some(d)
    ensures d < 10 ==> '0' <= c <= '9'
  {
    if d < 10 then '0' + d as char else 'a' + (d - 10) as char
  }

  /** The digit a character stands for, in either case. */
  function CharDigit(c: char): (d: Option<nat>)
    ensures d.Some? ==> d.value < 16
  {
    if '0' <= c <= '9' then Some((c as int - '0' as int) as nat)
    else if 'a' <= c <= 'f' then Some((c as int - 'a' as int + 10) as nat)
    else if 'A' <= c <= 'F' then Some((c as int - 'A' as int + 10) as nat)
    else None
  }

  function Print(ds: seq<nat>): (s: string)
    requires IsDigits(ds, 16)
    ensures |s| == |ds|
    ensures forall i :: 0 <= i < |s| ==> s[i] == DigitChar(ds[i])
  {
    seq(|ds|, i requires 0 <= i < |ds| => DigitChar(ds[i]))
  }

  /** True when s is non-empty and every character is a digit below b. */
  predicate IsNumeral(s: string, b: nat) {
    |s| >= 1 && AllDigits(s, b)
  }

  predicate AllDigits(s: string, b: nat) {
    forall i :: 0 <= i < |s| ==> CharDigit(s[i]).Some? && CharDigit(s[i]).value < b
  }

  function Scan(s: string, b: nat): (ds: seq<nat>)
    requires AllDigits(s, b)
    ensures |ds| == |s| && IsDigits(ds, b)
    ensures forall i :: 0 <= i < |s| ==> ds[i] == CharDigit(s[i]).value
  {
    seq(|s|, i requires 0 <= i < |s| => CharDigit(s[i]).value)
  }

  function NumeralValue(s: string, b: nat): nat
    requires AllDigits(s, b)
  {
    ValueOf(Scan(s, b), b)
  }

  lemma ScanPrint(ds: seq<nat>, b: nat)
    requires b <= 16 && IsDigits(ds, b)
    ensures AllDigits(Print(ds), b) && Scan(Print(ds), b) == ds
  {
    forall i | 0 <= i < |ds|
      ensures CharDigit(Print(ds)[i]) == Some(ds[i])
    {
      assert Print(ds)[i] == DigitChar(ds[i]);
    }
  }

  function Decimal(n: nat): (s: string)
    ensures IsNumeral(s, 10) && NumeralValue(s, 10) == n
    ensures forall i :: 0 <= i < |s| ==> '0' <= s[i] <= '9'
    ensures s[0] == '0' ==> n == 0
  {
    var ds := DigitsOf(n, 10);
    ScanPrint(ds, 10);
    ValueOfDigits(n, 10);
    Print(ds)
  }

  lemma ZeroPrints()
    ensures Decimal(0) == "0"
  {
    assert DigitsOf(0, 10) == [0];
  }
}
