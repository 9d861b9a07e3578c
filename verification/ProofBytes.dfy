/**
 The byte layouts: convert.ts (proofs and field elements as the verifier wants them),
 the verifier's own slicing in verifier/src/lib.rs, and the felt codec of
 starknetWallet.ts.
 */
module ProofBytes {
  import opened Wrappers
  import opened Digits
  import opened Amount

  // --- convert.ts ---

  /** Sixty-four hex digits, or None where the code throws. */
  function FieldToBe32Hex(v: nat): Option<string> {
    var h := Print(DigitsOf(v, 16));
    if |h| > 64 then None else Some(PadStart(h, 64))
  }

  datatype G1 = G1(x: nat, y: nat)

  /** Each coordinate has two components, c0 first. */
  datatype G2 = G2(x0: nat, x1: nat, y0: nat, y1: nat)

  datatype SnarkProof = SnarkProof(a: G1, b: G2, c: G1)

  /** The field elements in the order they are written: in B, c1 before c0. */
  function Layout(p: SnarkProof): seq<nat> {
    [p.a.x, p.a.y] + [p.b.x1, p.b.x0, p.b.y1, p.b.y0] + [p.c.x, p.c.y]
  }

  function FieldsHex(vs: seq<nat>): Option<string> {
    if vs == [] then Some("")
    else
      var front :- FieldsHex(vs[..|vs| - 1]);
      var last :- FieldToBe32Hex(vs[|vs| - 1]);
      Some(front + last)
  }

  function ProofToSorobanHex(p: SnarkProof): Option<string> {
    var hex :- FieldsHex(Layout(p));
    if |hex| != 512 then None else Some(hex)
  }

  /** The bytes of hex text, a digit pair each. An odd digit at the end is dropped. */
  function BytesOfHex(hex: string): (bs: seq<Byte>)
    requires AllDigits(hex, 16)
    ensures |bs| == |hex| / 2
  {
    seq(|hex| / 2, i requires 0 <= i < |hex| / 2 =>
      (CharDigit(hex[2 * i]).value * 16 + CharDigit(hex[2 * i + 1]).value) as Byte)
  }

  /** The length of the run of hex digits a text starts with. */
  function HexRun(s: string): (n: nat)
    ensures n <= |s| && AllDigits(s[..n], 16) && (n < |s| ==> CharDigit(s[n]).None?)
  {
    if s == "" || CharDigit(s[0]).None? then 0
    else
      var n := 1 + HexRun(s[1..]);
      assert s[..n] == [s[0]] + s[1..][..n - 1];
      n
  }

  /** parseInt of a text in base 16: space, sign and prefix skipped, then the digits there are. None is NaN. */
  function ParseInt16(text: string): Option<int> {
    var s := TrimStart(text);
    var signed := s != "" && s[0] in "+-";
    var u := if signed then s[1..] else s;
    var v := if |u| >= 2 && u[0] == '0' && u[1] in "xX" then u[2..] else u;
    var n := HexRun(v);
    if n == 0 then None
    else
      var value: int := NumeralValue(v[..n], 16);
      Some(if signed && s[0] == '-' then -value else value)
  }

  /** What a byte array keeps of a number: its low eight bits, nothing of NaN. */
  function ToByte(v: Option<int>): Byte {
    if v.None? then 0 else v.value % 256
  }

  /** The bytes of any text, two characters each. */
  function ParsedBytes(hex: string): (bs: seq<Byte>)
    ensures |bs| == |hex| / 2
  {
    seq(|hex| / 2, i requires 0 <= i < |hex| / 2 => ToByte(ParseInt16(hex[2 * i..2 * i + 2])))
  }

  method HexToBytes(hex: string) returns (out: array<Byte>)
    ensures out[..] == ParsedBytes(hex)
    ensures AllDigits(hex, 16) ==> out[..] == BytesOfHex(hex)
  {
    hide ParseInt16, ToByte, BytesOfHex, AllDigits;
    out := new Byte[|hex| / 2];
    for i := 0 to out.Length
      invariant out[..i] == ParsedBytes(hex)[..i]
    {
      out[i] := ToByte(ParseInt16(hex[2 * i..2 * i + 2]));
    }
    if AllDigits(hex, 16) {
      ParsedHex(hex);
    }
  }

  /** A pair of digits is their value. */
  lemma ParsedPair(c: char, d: char)
    requires AllDigits([c, d], 16)
    ensures ToByte(ParseInt16([c, d])) == CharDigit(c).value * 16 + CharDigit(d).value
  {
    hide ParseInt16, NumeralValue, CharDigit;
    ParsedInt([c, d]);
    PairValue([c, d]);
  }

  /** No blank, sign or prefix to skip. */
  lemma ParsedInt(pair: string)
    requires |pair| == 2 && AllDigits(pair, 16)
    ensures ParseInt16(pair) == Some(NumeralValue(pair, 16))
  {
    hide NumeralValue;
    assert CharDigit(pair[0]).Some? && CharDigit(pair[1]).Some?;
    assert TrimStart(pair) == pair;
    assert HexRun(pair[1..]) == 1 && HexRun(pair) == 2 && pair[..2] == pair;
  }

  lemma PairValue(pair: string)
    requires |pair| == 2 && AllDigits(pair, 16)
    ensures NumeralValue(pair, 16) == CharDigit(pair[0]).value * 16 + CharDigit(pair[1]).value
  {
    hide CharDigit;
    var ds := Scan(pair, 16);
    assert ds == [ds[0], ds[1]] && ds[..1] == [ds[0]] && [ds[0]][..0] == [];
    assert ValueOf([ds[0]], 16) == ds[0];
  }

  /**
   What any two characters are worth as a byte: two digits their value, a digit and
   something else the digit, a digit behind a blank or a plus that digit, behind a minus
   its complement, and everything else nothing.
   */
  lemma {:induction false} AnyPair(c: char, d: char)
    ensures ToByte(ParseInt16([c, d])) ==
            var high, low := CharDigit(c), CharDigit(d);
            if high.Some? then if low.Some? then high.value * 16 + low.value else high.value
            else if low.None? then 0
            else if IsSpace(c) || c == '+' then low.value
            else if c == '-' then (256 - low.value) % 256
            else 0
  {
    var pair := [c, d];
    if CharDigit(c).Some? {
      if CharDigit(d).Some? {
        ParsedPair(c, d);
      } else {
        DigitThenOther(c, d);
      }
    } else {
      assert pair[1..] == [d];
      OneCharacter(d);
      OtherFirst(c, d);
    }
  }

  /** One character on its own, blanks aside. */
  lemma OneCharacter(d: char)
    ensures HexRun([d]) == if CharDigit(d).Some? then 1 else 0
    ensures CharDigit(d).Some? ==> AllDigits([d], 16) && NumeralValue([d], 16) == CharDigit(d).value
  {
    if CharDigit(d).Some? {
      assert Scan([d], 16) == [CharDigit(d).value];
      assert ValueOf([CharDigit(d).value], 16) == CharDigit(d).value by {
        assert [CharDigit(d).value][..0] == [];
      }
    }
  }

  lemma DigitThenOther(c: char, d: char)
    requires CharDigit(c).Some? && CharDigit(d).None?
    ensures ToByte(ParseInt16([c, d])) == CharDigit(c).value
  {
    var pair := [c, d];
    hide NumeralValue;
    OneCharacter(c);
    OneCharacter(d);
    assert TrimStart(pair) == pair;
    assert pair[1..] == [d] && pair[2..] == [] && pair[..1] == [c];
    assert HexRun(pair) == 1 && HexRun([]) == 0;
  }

  lemma OtherFirst(c: char, d: char)
    requires CharDigit(c).None?
    ensures ToByte(ParseInt16([c, d])) ==
            if CharDigit(d).None? then 0
            else if IsSpace(c) || c == '+' then CharDigit(d).value
            else if c == '-' then (256 - CharDigit(d).value) % 256
            else 0
  {
    hide NumeralValue;
    var pair := [c, d];
    OneCharacter(d);
    assert pair[1..] == [d] && [d][1..] == [] && [d][..1] == [d];
    assert TrimStart([d]) == if IsSpace(d) then [] else [d];
    assert TrimStart(pair) == if IsSpace(c) then TrimStart([d]) else pair;
    assert HexRun([]) == 0 && HexRun(pair) == 0;
    assert CharDigit(d).Some? ==> !IsSpace(d) && d != '+' && d != '-';
  }

  /** On hex text the pairs are read as digits. */
  lemma ParsedHex(hex: string)
    requires AllDigits(hex, 16)
    ensures ParsedBytes(hex) == BytesOfHex(hex)
  {
    hide ToByte, ParseInt16;
    forall i | 0 <= i < |hex| / 2
      ensures ParsedBytes(hex)[i] == BytesOfHex(hex)[i]
    {
      assert hex[2 * i..2 * i + 2] == [hex[2 * i], hex[2 * i + 1]];
      ParsedPair(hex[2 * i], hex[2 * i + 1]);
    }
  }

  /** One byte as two hex digits. */
  function ByteHex(b: Byte): (s: string)
    ensures |s| == 2 && AllDigits(s, 16) && CharDigit(s[0]).value * 16 + CharDigit(s[1]).value == b
  {
    [DigitChar(b / 16), DigitChar(b % 16)]
  }

  function HexOfBytes(bs: seq<Byte>): (s: string)
    ensures |s| == 2 * |bs| && AllDigits(s, 16)
    ensures forall i :: 0 <= i < |bs| ==> s[2 * i] == ByteHex(bs[i])[0] && s[2 * i + 1] == ByteHex(bs[i])[1]
  {
    if bs == [] then ""
    else
      var n := |bs| - 1;
      HexOfBytes(bs[..n]) + ByteHex(bs[n])
  }

  method BytesToHex(bytes: array<Byte>) returns (s: string)
    ensures s == HexOfBytes(bytes[..])
  {
    s := "";
    for i := 0 to bytes.Length
      invariant s == HexOfBytes(bytes[..i])
    {
      assert bytes[..i + 1][..i] == bytes[..i];
      var digits := Print(DigitsOf(bytes[i], 16));
      TwoDigits(bytes[i]);
      s := s + PadStart(digits, 2);
    }
    assert bytes[..bytes.Length] == bytes[..];
  }

  /** toString(16) padded to two places is the byte's two digits. */
  lemma TwoDigits(b: Byte)
    ensures PadStart(Print(DigitsOf(b, 16)), 2) == ByteHex(b)
  {
    var ds := DigitsOf(b, 16);
    if b >= 16 {
      var (q, r) := DivRem(b, 16);
      assert q < 16 && DigitsOf(q, 16) == [q];
      assert ds == [q] + [r];
      assert b / 16 == q && b % 16 == r;
    }
  }

  /** The proof as the contract receives it: its text is hex, so its pairs are digits (ParsedHex). */
  function ProofToSorobanBytes(p: SnarkProof): Option<seq<Byte>> {
    var hex :- ProofToSorobanHex(p);
    FieldsHexFacts(Layout(p));
    Some(BytesOfHex(hex))
  }

  // --- The verifier's slicing ---

  const G1_SIZE: nat := 64
  const G2_SIZE: nat := 128

  function ParseProof(proof: seq<Byte>): Option<(seq<Byte>, seq<Byte>, seq<Byte>)> {
    if |proof| != G1_SIZE + G2_SIZE + G1_SIZE then None
    else Some((proof[..G1_SIZE], proof[G1_SIZE..G1_SIZE + G2_SIZE], proof[G1_SIZE + G2_SIZE..]))
  }

  /** A big-endian number. */
  function Be(bs: seq<Byte>): nat {
    ValueOf(bs, 256)
  }

  /** The points in the parsed bytes, B read as c1 before c0. */
  function Points(parts: (seq<Byte>, seq<Byte>, seq<Byte>)): SnarkProof
    requires |parts.0| == 64 && |parts.1| == 128 && |parts.2| == 64
  {
    var (a, b, c) := parts;
    SnarkProof(G1(Be(a[..32]), Be(a[32..])),
               G2(Be(b[32..64]), Be(b[..32]), Be(b[96..]), Be(b[64..96])),
               G1(Be(c[..32]), Be(c[32..])))
  }

  // --- starknetWallet.ts ---

  /** The low k bytes of a number, as & 0xff and >> 8 see it. */
  function LowBytes(v: int, k: nat): (bs: seq<Byte>)
    ensures |bs| == k
    decreases k
  {
    if k == 0 then [] else LowBytes(v / 256, k - 1) + [v % 256]
  }

  function HighPart(v: int, k: nat): int
    decreases k
  {
    if k == 0 then v else HighPart(v / 256, k - 1)
  }

  method FeltToBytes32(value: int) returns (out: array<Byte>)
    ensures out[..] == LowBytes(value, 32)
  {
    out := new Byte[32];
    var v, i := value, 32;
    while i > 0
      invariant 0 <= i <= 32
      invariant LowBytes(value, 32) == LowBytes(v, i) + out[i..]
    {
      i := i - 1;
      ghost var done := out[i + 1..];
      out[i] := v % 256;
      assert out[i..] == [v % 256] + done;
      v := v / 256;
    }
  }

  method Bytes32ToFelt(bytes: array<Byte>) returns (acc: nat)
    ensures acc == Be(bytes[..])
  {
    acc := 0;
    for i := 0 to bytes.Length
      invariant acc == Be(bytes[..i])
    {
      assert bytes[..i + 1][..i] == bytes[..i];
      acc := acc * 256 + bytes[i];
    }
    assert bytes[..bytes.Length] == bytes[..];
  }

  // --- Hex and bytes undo each other ---

  lemma HexBack(bs: seq<Byte>)
    ensures BytesOfHex(HexOfBytes(bs)) == bs
  {
    hide HexOfBytes, DigitChar, CharDigit;
    var s := HexOfBytes(bs);
    forall i | 0 <= i < |bs|
      ensures BytesOfHex(s)[i] == bs[i]
    {
      assert s[2 * i] == ByteHex(bs[i])[0] && s[2 * i + 1] == ByteHex(bs[i])[1];
    }
  }

  /** Printing bytes and reading them back changes nothing. */
  lemma HexThenBytes(bs: seq<Byte>)
    ensures ParsedBytes(HexOfBytes(bs)) == bs
  {
    hide HexOfBytes, ParsedBytes, BytesOfHex;
    ParsedHex(HexOfBytes(bs));
    HexBack(bs);
  }

  /** The digits toString writes: no capitals. */
  predicate IsLowerHex(s: string) {
    AllDigits(s, 16) && forall i :: 0 <= i < |s| ==> !('A' <= s[i] <= 'F')
  }

  lemma DigitCharBack(c: char)
    requires CharDigit(c).Some?
    ensures DigitChar(CharDigit(c).value) == c <==> !('A' <= c <= 'F')
  {
  }

  /** What comes back is each digit printed afresh. */
  lemma DigitsBack(s: string, j: nat)
    requires AllDigits(s, 16) && j < 2 * (|s| / 2)
    ensures HexOfBytes(BytesOfHex(s))[j] == DigitChar(CharDigit(s[j]).value)
  {
    hide HexOfBytes, DigitChar, CharDigit;
    var bs, i := BytesOfHex(s), j / 2;
    var t := HexOfBytes(bs);
    var x, y := CharDigit(s[2 * i]).value, CharDigit(s[2 * i + 1]).value;
    PairDigits(x, y);
    assert bs[i] == x * 16 + y;
    assert ByteHex(bs[i]) == [DigitChar(x), DigitChar(y)];
    assert t[2 * i] == DigitChar(x) && t[2 * i + 1] == DigitChar(y);
  }

  lemma {:induction false} DigitsThenHex(s: string)
    requires AllDigits(s, 16)
    ensures HexOfBytes(BytesOfHex(s)) == s <==> IsLowerHex(s) && |s| % 2 == 0
  {
    hide HexOfBytes, BytesOfHex, DigitChar, CharDigit;
    var t := HexOfBytes(BytesOfHex(s));
    forall j | 0 <= j < |t|
      ensures t[j] == DigitChar(CharDigit(s[j]).value) && (t[j] == s[j] <==> !('A' <= s[j] <= 'F'))
    {
      DigitsBack(s, j);
      DigitCharBack(s[j]);
    }
    if |s| % 2 == 0 && IsLowerHex(s) {
      assert t == s;
    }
  }

  /** Of all texts only those that bytes print as come back: whole pairs of small digits. */
  lemma BytesThenHex(s: string)
    ensures HexOfBytes(ParsedBytes(s)) == s <==> IsLowerHex(s) && |s| % 2 == 0
  {
    hide HexOfBytes, ParsedBytes, BytesOfHex;
    if AllDigits(s, 16) {
      ParsedHex(s);
      DigitsThenHex(s);
    }
  }

  lemma PairDigits(x: nat, y: nat)
    requires x < 16 && y < 16
    ensures (x * 16 + y) / 16 == x && (x * 16 + y) % 16 == y
  {
  }

  // --- Felts ---

  lemma {:induction false} LowAndHigh(v: int, k: nat)
    ensures v == Be(LowBytes(v, k)) + HighPart(v, k) * Pow(256, k)
    ensures 0 <= v < Pow(256, k) <==> HighPart(v, k) == 0
    decreases k
  {
    if k > 0 {
      LowAndHigh(v / 256, k - 1);
      LowStep(v, k);
      hide LowBytes, HighPart, Be;
      Carry(v / 256, v % 256, Be(LowBytes(v / 256, k - 1)), HighPart(v, k), Pow(256, k - 1));
    }
  }

  lemma LowStep(v: int, k: nat)
    requires k > 0
    ensures Be(LowBytes(v, k)) == Be(LowBytes(v / 256, k - 1)) * 256 + v % 256
    ensures HighPart(v, k) == HighPart(v / 256, k - 1)
  {
    assert LowBytes(v, k)[..k - 1] == LowBytes(v / 256, k - 1);
  }

  lemma Carry(q: int, r: int, x: nat, h: int, p: nat)
    requires 0 <= r < 256 && q == x + h * p
    ensures 256 * q + r == x * 256 + r + h * (256 * p)
    ensures 0 <= 256 * q + r < 256 * p <==> 0 <= q < p
  {
    assert h * (256 * p) == 256 * (h * p);
  }

  /** A felt survives the trip exactly when it fits in thirty-two bytes. */
  lemma FeltRoundTrip(v: int)
    ensures Be(LowBytes(v, 32)) == v <==> 0 <= v < Pow(256, 32)
  {
    hide Pow, LowBytes, Be;
    LowAndHigh(v, 32);
    var h, p := HighPart(v, 32), Pow(256, 32);
    ZeroProduct(h, p);
  }

  lemma ZeroProduct(h: int, p: nat)
    requires p > 0
    ensures h * p == 0 <==> h == 0
  {
  }

  lemma {:induction false} BytesRoundTrip(bs: seq<Byte>)
    ensures LowBytes(Be(bs), |bs|) == bs
  {
    if bs != [] {
      var n := |bs| - 1;
      BytesRoundTrip(bs[..n]);
      assert Be(bs) == Be(bs[..n]) * 256 + bs[n];
      assert Be(bs) / 256 == Be(bs[..n]) && Be(bs) % 256 == bs[n];
      assert bs == bs[..n] + [bs[n]];
    }
  }

  // --- Proofs ---

  /** Hex digits in pairs are the same number in base 256. */
  lemma {:induction false} PairsValue(s: string)
    requires AllDigits(s, 16) && |s| % 2 == 0
    ensures Be(BytesOfHex(s)) == NumeralValue(s, 16)
    decreases |s|
  {
    hide ValueOf, BytesOfHex, Scan;
    if s == "" {
      PairsNone();
    } else {
      var n := |s|;
      PairsValue(s[..n - 2]);
      PairsBytes(s);
      PairsDigits(s);
    }
  }

  lemma PairsNone()
    ensures Be(BytesOfHex("")) == NumeralValue("", 16)
  {
  }

  lemma PairsBytes(s: string)
    requires AllDigits(s, 16) && |s| % 2 == 0 && s != ""
    ensures var n := |s|;
            Be(BytesOfHex(s)) ==
              Be(BytesOfHex(s[..n - 2])) * 256 + (CharDigit(s[n - 2]).value * 16 + CharDigit(s[n - 1]).value)
  {
    var n := |s|;
    var bs := BytesOfHex(s);
    assert bs[..|bs| - 1] == BytesOfHex(s[..n - 2]);
  }

  lemma PairsDigits(s: string)
    requires AllDigits(s, 16) && |s| >= 2
    ensures var n := |s|;
            NumeralValue(s, 16) ==
              (NumeralValue(s[..n - 2], 16) * 16 + CharDigit(s[n - 2]).value) * 16 + CharDigit(s[n - 1]).value
  {
    var n, ds := |s|, Scan(s, 16);
    var front := ds[..n - 1];
    assert front[..n - 2] == Scan(s[..n - 2], 16);
    assert ValueOf(ds, 16) == ValueOf(front, 16) * 16 + ds[n - 1];
    assert ValueOf(front, 16) == ValueOf(front[..n - 2], 16) * 16 + front[n - 2];
  }

  /** A field element prints when it is below 2^256, as sixty-four digits worth its value. */
  lemma FieldHex(v: nat)
    ensures FieldToBe32Hex(v).Some? <==> v < Pow(16, 64)
    ensures FieldToBe32Hex(v).Some? ==>
              var h := FieldToBe32Hex(v).value;
              |h| == 64 && AllDigits(h, 16) && NumeralValue(h, 16) == v && Be(BytesOfHex(h)) == v
  {
    hide Pow, ValueOf;
    DigitsFit(v, 16, 64);
    var ds := DigitsOf(v, 16);
    ScanPrint(ds, 16);
    ValueOfDigits(v, 16);
    if |ds| <= 64 {
      PadValue(64 - |ds|, ds, 16);
      PaddedDigits(ds, 64);
      hide PadStart, Print, Scan, BytesOfHex, Be, DigitsOf;
      PairsValue(PadStart(Print(ds), 64));
    }
  }

  lemma PaddedDigit(ds: seq<nat>, k: nat, i: nat)
    requires IsDigits(ds, 16) && |ds| <= k && i < k
    ensures |PadStart(Print(ds), k)| == k
    ensures CharDigit(PadStart(Print(ds), k)[i]) == Some((Zeros(k - |ds|) + ds)[i])
  {
    var s, n := Print(ds), k - |ds|;
    hide Print, DigitChar, IsDigits;
    if i < n {
      assert PadStart(s, k)[i] == '0';
    } else {
      assert PadStart(s, k)[i] == s[i - n] == DigitChar(ds[i - n]);
    }
  }

  lemma PaddedDigits(ds: seq<nat>, k: nat)
    requires IsDigits(ds, 16) && |ds| <= k
    ensures var h := PadStart(Print(ds), k);
            |h| == k && AllDigits(h, 16) && Scan(h, 16) == Zeros(k - |ds|) + ds
  {
    var h, padded := PadStart(Print(ds), k), Zeros(k - |ds|) + ds;
    assert k == 0 ==> h == [];
    hide CharDigit, Print, PadStart, Zeros, Scan;
    forall i | 0 <= i < k
      ensures |h| == k && CharDigit(h[i]) == Some(padded[i])
    {
      PaddedDigit(ds, k, i);
    }
    assert Scan(h, 16) == padded;
  }

  lemma BytesConcat(s: string, t: string)
    requires AllDigits(s, 16) && AllDigits(t, 16) && |s| % 2 == 0
    ensures AllDigits(s + t, 16) && BytesOfHex(s + t) == BytesOfHex(s) + BytesOfHex(t)
  {
    var u := s + t;
    assert |u| / 2 == |s| / 2 + |t| / 2;
    forall i | 0 <= i < |u| / 2
      ensures BytesOfHex(u)[i] == (BytesOfHex(s) + BytesOfHex(t))[i]
    {
      if i >= |s| / 2 {
        var j := i - |s| / 2;
        assert u[2 * i] == t[2 * j] && u[2 * i + 1] == t[2 * j + 1];
      }
    }
  }

  /** Thirty-two bytes per field element, each worth its value. */
  predicate Holds(bs: seq<Byte>, vs: seq<nat>) {
    |bs| == 32 * |vs| && forall i :: 0 <= i < |vs| ==> Be(bs[32 * i..32 * i + 32]) == vs[i]
  }

  lemma {:induction false} FieldsHexFacts(vs: seq<nat>)
    ensures FieldsHex(vs).Some? <==> forall i :: 0 <= i < |vs| ==> vs[i] < Pow(16, 64)
    ensures FieldsHex(vs).Some? ==>
              var h := FieldsHex(vs).value;
              AllDigits(h, 16) && |h| == 64 * |vs| && Holds(BytesOfHex(h), vs)
  {
    hide FieldToBe32Hex, Pow, BytesOfHex, Be;
    if vs != [] {
      var n := |vs| - 1;
      FieldsHexFacts(vs[..n]);
      FieldHex(vs[n]);
      if FieldsHex(vs).Some? {
        var front, last := FieldsHex(vs[..n]).value, FieldToBe32Hex(vs[n]).value;
        BytesConcat(front, last);
        HoldsMore(BytesOfHex(front), vs[..n], BytesOfHex(last), vs[n]);
        assert vs == vs[..n] + [vs[n]];
      }
    }
  }

  lemma HoldsMore(bs: seq<Byte>, vs: seq<nat>, cs: seq<Byte>, v: nat)
    requires Holds(bs, vs) && |cs| == 32 && Be(cs) == v
    ensures Holds(bs + cs, vs + [v])
  {
    hide Be;
    forall i | 0 <= i < |vs| + 1
      ensures Be((bs + cs)[32 * i..32 * i + 32]) == (vs + [v])[i]
    {
      if i < |vs| {
        assert (bs + cs)[32 * i..32 * i + 32] == bs[32 * i..32 * i + 32];
      } else {
        assert (bs + cs)[32 * i..32 * i + 32] == cs;
      }
    }
  }

  // --- Main results ---

  /** Exactly the proofs with coordinates below 2^256 are written. */
  lemma WrittenExactlyInRange(p: SnarkProof)
    ensures ProofToSorobanBytes(p).Some? <==> forall i :: 0 <= i < |Layout(p)| ==> Layout(p)[i] < Pow(16, 64)
    ensures ProofToSorobanBytes(p).Some? ==> |ProofToSorobanBytes(p).value| == 256
  {
    hide FieldsHex, Pow;
    FieldsHexFacts(Layout(p));
  }

  /** The verifier's slicing recovers the three points of what was written. */
  lemma VerifierReadsTheProof(p: SnarkProof)
    requires ProofToSorobanBytes(p).Some?
    ensures var parts := ParseProof(ProofToSorobanBytes(p).value);
            parts.Some? && |parts.value.0| == 64 && |parts.value.1| == 128 && |parts.value.2| == 64
            && Points(parts.value) == p
  {
    hide FieldsHex, Be, BytesOfHex;
    var vs := Layout(p);
    FieldsHexFacts(vs);
    var bs := ProofToSorobanBytes(p).value;
    assert Holds(bs, vs);
    PointsOf(bs, p);
  }

  lemma SubSlice(bs: seq<Byte>, i: nat, j: nat, k: nat, l: nat)
    requires i <= j <= |bs| && k <= l && i + l <= j
    ensures bs[i..j][k..l] == bs[i + k..i + l]
  {
    var mid := bs[i..j];
    forall m | 0 <= m < l - k
      ensures mid[k..l][m] == bs[i + k..i + l][m]
    {
      assert mid[k..l][m] == mid[k + m];
    }
  }

  lemma PointsOf(bs: seq<Byte>, p: SnarkProof)
    requires Holds(bs, Layout(p))
    ensures ParseProof(bs).Some? && Points(ParseProof(bs).value) == p
  {
    hide Be;
    var (a, b, c) := ParseProof(bs).value;
    var vs := Layout(p);
    SubSlice(bs, 64, 192, 0, 32);
    SubSlice(bs, 64, 192, 32, 64);
    SubSlice(bs, 64, 192, 64, 96);
    SubSlice(bs, 64, 192, 96, 128);
    assert b[..32] == b[0..32] && b[96..] == b[96..128];
    assert a[..32] == bs[32 * 0..32 * 0 + 32] && a[32..] == bs[32 * 1..32 * 1 + 32];
    assert b[..32] == bs[32 * 2..32 * 2 + 32] && b[32..64] == bs[32 * 3..32 * 3 + 32];
    assert b[64..96] == bs[32 * 4..32 * 4 + 32] && b[96..] == bs[32 * 5..32 * 5 + 32];
    assert c[..32] == bs[32 * 6..32 * 6 + 32] && c[32..] == bs[32 * 7..32 * 7 + 32];
    assert Be(a[..32]) == vs[0] && Be(a[32..]) == vs[1];
    assert Be(b[..32]) == vs[2] && Be(b[32..64]) == vs[3];
    assert Be(b[64..96]) == vs[4] && Be(b[96..]) == vs[5];
    assert Be(c[..32]) == vs[6] && Be(c[32..]) == vs[7];
  }

  /** So no two proofs have the same bytes. */
  lemma ProofBytesInjective(p: SnarkProof, q: SnarkProof)
    requires ProofToSorobanBytes(p).Some? && ProofToSorobanBytes(p) == ProofToSorobanBytes(q)
    ensures p == q
  {
    VerifierReadsTheProof(p);
    VerifierReadsTheProof(q);
  }

  lemma {:induction false} SamePowers(k: nat)
    ensures Pow(256, k) == Pow(16, 2 * k)
  {
    if k > 0 {
      SamePowers(k - 1);
      assert Pow(16, 2 * k) == 16 * (16 * Pow(16, 2 * k - 2));
    }
  }

  /** The two encoders of a field element write the same thirty-two bytes. */
  lemma EncodersAgree(v: nat)
    requires FieldToBe32Hex(v).Some?
    ensures AllDigits(FieldToBe32Hex(v).value, 16) && BytesOfHex(FieldToBe32Hex(v).value) == LowBytes(v, 32)
  {
    hide FieldToBe32Hex, Pow, LowBytes, BytesOfHex, Be;
    FieldHex(v);
    SamePowers(32);
    FeltRoundTrip(v);
    SameBe(BytesOfHex(FieldToBe32Hex(v).value), LowBytes(v, 32));
  }

  lemma SameBe(bs: seq<Byte>, cs: seq<Byte>)
    requires |bs| == |cs| && Be(bs) == Be(cs)
    ensures bs == cs
  {
    ValueInjective(bs, cs, 256);
  }
}
