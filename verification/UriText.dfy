/**
 encodeURIComponent and decodeURIComponent (section 2.1 of RFC 3986, with the UTF-8 of
 section 3 of RFC 3629), and the form decoding URLSearchParams applies. Strings are
 sequences of Unicode scalar values.
 */
module UriText {
  import opened Wrappers
  import opened Digits

  // --- UTF-8 ---

  function Utf8(c: char): (bs: seq<Byte>)
    ensures 1 <= |bs| <= 4
  {
    var u := c as int;
    if u < 0x80 then [u]
    else if u < 0x800 then [0xC0 + u / 64, 0x80 + u % 64]
    else if u < 0x10000 then [0xE0 + u / 4096, 0x80 + u / 64 % 64, 0x80 + u % 64]
    else [0xF0 + u / 262144, 0x80 + u / 4096 % 64, 0x80 + u / 64 % 64, 0x80 + u % 64]
  }

  /** How many bytes a first byte announces; None for a byte that cannot come first. */
  function Announced(first: Byte): (n: Option<nat>)
    ensures n.Some? ==> 1 <= n.value <= 4
  {
    if first < 0x80 then Some(1)
    else if first < 0xC0 then None
    else if first < 0xE0 then Some(2)
    else if first < 0xF0 then Some(3)
    else if first < 0xF8 then Some(4)
    else None
  }

  predicate Continues(b: Byte) {
    0x80 <= b < 0xC0
  }

  /** The character of its own bytes: shortest form only, no surrogates, nothing past 0x10FFFF. */
  function FromUtf8(bs: seq<Byte>): Option<char>
    requires 1 <= |bs| <= 4
  {
    if exists i :: 1 <= i < |bs| && !Continues(bs[i]) then None
    else if |bs| == 1 then Scalar(bs[0], 0)
    else if |bs| == 2 then Scalar(Payload(bs[0], 0xC0) * 64 + Payload(bs[1], 0x80), 0x80)
    else if |bs| == 3 then
      Scalar(Payload(bs[0], 0xE0) * 4096 + Payload(bs[1], 0x80) * 64 + Payload(bs[2], 0x80), 0x800)
    else
      Scalar(Payload(bs[0], 0xF0) * 262144 + Payload(bs[1], 0x80) * 4096 + Payload(bs[2], 0x80) * 64
             + Payload(bs[3], 0x80), 0x10000)
  }

  function Payload(b: Byte, tag: int): int {
    b - tag
  }

  function Scalar(u: int, least: int): Option<char> {
    if u < least || u < 0 || 0xD800 <= u < 0xE000 || u > 0x10FFFF then None else Some(u as char)
  }

  lemma {:induction false} Utf8RoundTrip(c: char)
    ensures Announced(Utf8(c)[0]) == Some(|Utf8(c)|)
    ensures FromUtf8(Utf8(c)) == Some(c)
  {
    var u := c as int;
    SixBits(u);
    SixBits(u / 64);
    SixBits(u / 4096);
    Shifts(u);
  }

  lemma SixBits(u: nat)
    ensures u == u / 64 * 64 + u % 64 && u % 64 < 64
  {
  }

  lemma Shifts(u: nat)
    ensures u / 64 / 64 == u / 4096 && u / 4096 / 64 == u / 262144
  {
  }

  // --- Percent triplets ---

  function HexUpper(d: nat): (c: char)
    requires d < 16
    ensures CharDigit(c) == Some(d) && c != '%' && c != '/'
  {
    if d < 10 then '0' + d as char else 'A' + (d - 10) as char
  }

  function Triplet(b: Byte): string {
    ['%', HexUpper(b / 16), HexUpper(b % 16)]
  }

  function Triplets(bs: seq<Byte>): (s: string)
    ensures |s| == 3 * |bs|
  {
    if bs == [] then "" else Triplets(bs[..|bs| - 1]) + Triplet(bs[|bs| - 1])
  }

  /** The byte of the triplet at position i. */
  function ByteAt(s: string, i: nat): Option<Byte> {
    if i + 3 > |s| || s[i] != '%' then None
    else
      var high :- CharDigit(s[i + 1]);
      var low :- CharDigit(s[i + 2]);
      Some(high * 16 + low)
  }

  /** The first n triplets. */
  function ReadBytes(s: string, n: nat): (r: Option<seq<Byte>>)
    ensures r.Some? ==> |r.value| == n && 3 * n <= |s|
  {
    if n == 0 then Some([])
    else
      var front :- ReadBytes(s, n - 1);
      var last :- ByteAt(s, 3 * (n - 1));
      Some(front + [last])
  }

  lemma {:induction false} ReadTriplets(bs: seq<Byte>, rest: string, n: nat)
    requires n <= |bs|
    ensures ReadBytes(Triplets(bs) + rest, n) == Some(bs[..n])
  {
    if n > 0 {
      ReadTriplets(bs, rest, n - 1);
      TripletAt(bs, rest, n - 1);
      assert bs[..n] == bs[..n - 1] + [bs[n - 1]];
    }
  }

  lemma {:induction false} TripletAt(bs: seq<Byte>, rest: string, k: nat)
    requires k < |bs|
    ensures ByteAt(Triplets(bs) + rest, 3 * k) == Some(bs[k])
    decreases |bs|
  {
    var n := |bs| - 1;
    var s := Triplets(bs) + rest;
    if k == n {
      assert s[3 * n..3 * n + 3] == Triplet(bs[n]);
      assert s[3 * n] == s[3 * n..3 * n + 3][0];
      assert s[3 * n + 1] == s[3 * n..3 * n + 3][1];
      assert s[3 * n + 2] == s[3 * n..3 * n + 3][2];
    } else {
      TripletAt(bs[..n], Triplet(bs[n]) + rest, k);
      assert s == Triplets(bs[..n]) + (Triplet(bs[n]) + rest);
    }
  }

  // --- Components ---

  /** What encodeURIComponent leaves alone. */
  predicate Unreserved(c: char) {
    'a' <= c <= 'z' || 'A' <= c <= 'Z' || '0' <= c <= '9' || c in "-_.!~*'()"
  }

  function EncodeChar(c: char): string {
    if Unreserved(c) then [c] else Triplets(Utf8(c))
  }

  function EncodeComponent(s: string): string {
    if s == "" then "" else EncodeChar(s[0]) + EncodeComponent(s[1..])
  }

  /** decodeURIComponent; None where it throws. */
  function DecodeComponent(s: string): Option<string>
    decreases |s|
  {
    if s == "" then Some("")
    else if s[0] != '%' then
      var rest :- DecodeComponent(s[1..]);
      Some([s[0]] + rest)
    else
      var first :- ByteAt(s, 0);
      var n :- Announced(first);
      var bytes :- ReadBytes(s, n);
      var c :- FromUtf8(bytes);
      var rest :- DecodeComponent(s[3 * n..]);
      Some([c] + rest)
  }

  lemma DecodeEncodedChar(c: char, rest: string)
    ensures DecodeComponent(rest).Some? ==>
              DecodeComponent(EncodeChar(c) + rest) == Some([c] + DecodeComponent(rest).value)
  {
    var s := EncodeChar(c) + rest;
    if Unreserved(c) {
      assert s[1..] == rest;
    } else {
      hide Utf8, FromUtf8, Announced, Triplets, ReadBytes, ByteAt;
      var bs := Utf8(c);
      Utf8RoundTrip(c);
      TripletAt(bs, rest, 0);
      ReadTriplets(bs, rest, |bs|);
      assert bs[..|bs|] == bs;
      assert s[3 * |bs|..] == rest;
      StartsWithPercent(s);
    }
  }

  lemma StartsWithPercent(s: string)
    requires ByteAt(s, 0).Some?
    ensures |s| >= 3 && s[0] == '%'
  {
  }

  /** Decoding undoes encoding, on every string. */
  lemma {:induction false} ComponentRoundTrip(s: string)
    ensures DecodeComponent(EncodeComponent(s)) == Some(s)
  {
    hide DecodeComponent, EncodeChar;
    if s == "" {
      NothingDecodes();
    } else {
      ComponentRoundTrip(s[1..]);
      DecodeEncodedChar(s[0], EncodeComponent(s[1..]));
      assert s == [s[0]] + s[1..];
    }
  }

  lemma NothingDecodes()
    ensures DecodeComponent("") == Some("")
  {
  }

  lemma {:induction false} TripletsNoSlash(bs: seq<Byte>)
    ensures '/' !in Triplets(bs)
  {
    if bs != [] {
      TripletsNoSlash(bs[..|bs| - 1]);
    }
  }

  /** An encoded component is one path segment: no slash, and empty only for empty text. */
  lemma {:induction false} EncodedIsOneSegment(s: string)
    ensures '/' !in EncodeComponent(s) && (EncodeComponent(s) == "" <==> s == "")
  {
    if s != "" {
      EncodedIsOneSegment(s[1..]);
      TripletsNoSlash(Utf8(s[0]));
    }
  }

  predicate IsHexUpper(c: char) {
    '0' <= c <= '9' || 'A' <= c <= 'F'
  }

  /** Text in the encoded alphabet: unreserved characters and triplets with capital hexadecimal digits. */
  predicate WellEncoded(s: string)
    decreases |s|
  {
    s == ""
    || (Unreserved(s[0]) && WellEncoded(s[1..]))
    || (|s| >= 3 && s[0] == '%' && IsHexUpper(s[1]) && IsHexUpper(s[2]) && WellEncoded(s[3..]))
  }

  lemma TripletLast(bs: seq<Byte>, rest: string)
    requires bs != []
    ensures Triplets(bs) + rest == Triplets(bs[..|bs| - 1]) + (Triplet(bs[|bs| - 1]) + rest)
  {
    hide Triplet;
  }

  lemma NoTriplets(rest: string)
    ensures Triplets([]) == [] && Triplets([]) + rest == rest
  {
  }

  lemma {:induction false} TripletFirst(bs: seq<Byte>, rest: string)
    requires bs != []
    ensures Triplets(bs) + rest == Triplet(bs[0]) + (Triplets(bs[1..]) + rest)
    decreases |bs|
  {
    var n := |bs| - 1;
    TripletLast(bs, rest);
    if n == 0 {
      assert bs[..0] == [] && bs[1..] == [];
      NoTriplets(rest);
      assert Triplet(bs[0]) + rest == Triplet(bs[0]) + ([] + rest);
    } else {
      TripletLast(bs[1..], rest);
      hide Triplets, Triplet;
      TripletFirst(bs[..n], Triplet(bs[n]) + rest);
      assert bs[1..][..n - 1] == bs[..n][1..];
    }
  }

  lemma {:induction false} TripletsWellEncoded(bs: seq<Byte>, rest: string)
    requires WellEncoded(rest)
    ensures WellEncoded(Triplets(bs) + rest)
    decreases |bs|
  {
    if bs == [] {
      assert Triplets(bs) + rest == rest;
    } else {
      TripletFirst(bs, rest);
      TripletsWellEncoded(bs[1..], rest);
      var s := Triplets(bs) + rest;
      assert s[3..] == Triplets(bs[1..]) + rest;
    }
  }

  /** Encoded text is in its alphabet, and is the text itself exactly when nothing needed encoding. */
  lemma {:induction false} EncodesOnlyWhatMust(s: string)
    ensures WellEncoded(EncodeComponent(s)) && |EncodeComponent(s)| >= |s|
    ensures EncodeComponent(s) == s <==> forall i :: 0 <= i < |s| ==> Unreserved(s[i])
  {
    if s != "" {
      EncodesOnlyWhatMust(s[1..]);
      var rest := EncodeComponent(s[1..]);
      if Unreserved(s[0]) {
        assert EncodeComponent(s)[1..] == rest;
        assert s == [s[0]] + s[1..];
      } else {
        TripletsWellEncoded(Utf8(s[0]), rest);
      }
    }
  }

  // --- Form decoding ---

  /** The bytes of a query name or value: plus is a space, a broken triplet stands for itself. */
  function FormBytes(s: string): seq<Byte>
    decreases |s|
  {
    if s == "" then []
    else if s[0] == '+' then [0x20] + FormBytes(s[1..])
    else if ByteAt(s, 0).Some? then [ByteAt(s, 0).value] + FormBytes(s[3..])
    else Utf8(s[0]) + FormBytes(s[1..])
  }

  function AsciiBytes(s: string): seq<Byte>
    requires forall i :: 0 <= i < |s| ==> s[i] as int < 0x80
  {
    seq(|s|, i requires 0 <= i < |s| => s[i] as int)
  }

  /** Plain ASCII text without plus or percent is its own bytes. */
  lemma {:induction false} FormPlain(s: string)
    requires forall i :: 0 <= i < |s| ==> s[i] as int < 0x80 && s[i] != '+' && s[i] != '%'
    ensures FormBytes(s) == AsciiBytes(s)
  {
    if s != "" {
      FormPlain(s[1..]);
      assert AsciiBytes(s) == [s[0] as int] + AsciiBytes(s[1..]);
    }
  }
}
