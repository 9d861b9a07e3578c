/**
 A reader of JSON text, by the grammar of RFC 8259 (without blanks), that knows nothing
 of the serializer.

 Read back, canonical text gives the value that was written, with its object keys in
 ascending order. So the text is JSON, it says what the value says, and it says it in
 the order of section 3.2.3 of RFC 8785.
 */
module JsonReader {
  import opened Wrappers
  import opened Digits
  import opened JsonText
  import opened CanonicalJson

  // --- Numbers (section 6) ---

  /** A run of digits and what follows it. */
  function ReadDigits(t: Text): (r: (seq<nat>, Text))
    ensures |r.0| + |r.1| == |t|
  {
    if t == [] || !IsDigitUnit(t[0]) then ([], t)
    else
      var (ds, rest) := ReadDigits(t[1..]);
      ([t[0] - 48] + ds, rest)
  }

  function ReadFraction(t: Text): (r: Option<(seq<nat>, Text)>)
    ensures r.Some? ==> |r.value.1| <= |t|
  {
    if t == [] || t[0] != DOT then Some(([], t))
    else
      var (ds, rest) := ReadDigits(t[1..]);
      if ds == [] then None else Some((ds, rest))
  }

  function ReadExponent(t: Text): (r: Option<(int, Text)>)
    ensures r.Some? ==> |r.value.1| <= |t|
  {
    if t == [] || (t[0] != 101 && t[0] != 69) then Some((0, t))
    else
      var signed := |t| > 1 && (t[1] == 43 || t[1] == MINUS);
      var (ds, rest) := ReadDigits(if signed then t[2..] else t[1..]);
      var e: int := ValueOf(ds, 10);
      if ds == [] then None else Some((if signed && t[1] == MINUS then -e else e, rest))
  }

  /** 0.d1d2d3... times ten to `point`, with the zeros at both ends dropped. */
  function Normal(negative: bool, ds: seq<nat>, point: int): Number {
    if ds == [] then Zero(negative)
    else if ds[0] == 0 then Normal(negative, ds[1..], point - 1)
    else if ds[|ds| - 1] == 0 then Normal(negative, ds[..|ds| - 1], point)
    else Finite(negative, ds, point)
  }

  function ReadNumber(t: Text): (r: Option<(Number, Text)>)
    ensures r.Some? ==> |r.value.1| < |t|
  {
    var negative := t != [] && t[0] == MINUS;
    var (whole, r) := ReadDigits(if negative then t[1..] else t);
    if whole == [] || (|whole| > 1 && whole[0] == 0) then None
    else
      var (frac, r') :- ReadFraction(r);
      var (e, rest) :- ReadExponent(r');
      Some((Normal(negative, whole + frac, |whole| + e), rest))
  }

  lemma {:induction false} DigitsReadBack(ds: seq<nat>, rest: Text)
    requires IsDigits(ds, 10) && Stops(IsDigitUnit, rest)
    ensures ReadDigits(DigitUnits(ds) + rest) == (ds, rest)
  {
    var t := DigitUnits(ds) + rest;
    if ds == [] {
      assert t == rest;
    } else {
      DigitsReadBack(ds[1..], rest);
      assert t[1..] == DigitUnits(ds[1..]) + rest;
      assert ds == [ds[0]] + ds[1..];
    }
  }

  lemma ExponentReadBack(e: Option<int>, rest: Text)
    requires Delimited(rest)
    ensures ReadExponent(ExponentText(e) + rest) == Some((if e.Some? then e.value else 0, rest))
  {
    hide DigitsOf, ReadExponent, DigitUnits;
    if e.None? {
      assert ExponentText(e) + rest == rest;
      NoExponent(rest);
    } else {
      var abs: nat := if e.value < 0 then -e.value else e.value;
      SignedExponent(e.value < 0, DigitsOf(abs, 10), rest);
      ValueOfDigits(abs, 10);
    }
  }

  lemma NoExponent(rest: Text)
    requires Delimited(rest)
    ensures ReadExponent(rest) == Some((0, rest))
  {
  }

  lemma SignedExponent(negative: bool, ds: seq<nat>, rest: Text)
    requires ds != [] && IsDigits(ds, 10) && Delimited(rest)
    ensures ReadExponent([101, if negative then MINUS else 43] + DigitUnits(ds) + rest) ==
            Some((if negative then -(ValueOf(ds, 10) as int) else ValueOf(ds, 10), rest))
  {
    hide ValueOf, ReadDigits, DigitUnits, IsDigits;
    var t := [101, if negative then MINUS else 43] + DigitUnits(ds) + rest;
    assert t[2..] == DigitUnits(ds) + rest;
    DigitsReadBack(ds, rest);
  }

  lemma FractionReadBack(frac: seq<nat>, rest: Text)
    requires IsDigits(frac, 10) && Stops(IsDigitUnit, rest) && (rest == [] || rest[0] != DOT)
    ensures ReadFraction((if frac == [] then [] else [DOT] + DigitUnits(frac)) + rest) == Some((frac, rest))
  {
    hide ReadDigits;
    var t := (if frac == [] then [] else [DOT] + DigitUnits(frac)) + rest;
    if frac == [] {
      assert t == rest;
    } else {
      assert t[1..] == DigitUnits(frac) + rest;
      DigitsReadBack(frac, rest);
    }
  }

  lemma NormalZero(negative: bool, ds: seq<nat>, point: int)
    requires ds != [] && ds[0] == 0
    ensures Normal(negative, ds, point) == Normal(negative, ds[1..], point - 1)
  {
  }

  /** Zeros at either end of the digits do not change the number. */
  lemma {:induction false} NormalLeading(negative: bool, k: nat, ds: seq<nat>, point: int)
    ensures Normal(negative, Zeros(k) + ds, point) == Normal(negative, ds, point - k)
  {
    if k == 0 {
      assert Zeros(k) + ds == ds;
    } else {
      NormalLeading(negative, k - 1, ds, point - 1);
      NormalZero(negative, Zeros(k) + ds, point);
      hide Normal, Zeros;
      assert (Zeros(k) + ds)[1..] == Zeros(k - 1) + ds;
    }
  }

  lemma {:induction false} NormalTrailing(negative: bool, ds: seq<nat>, k: nat, point: int)
    requires ds != [] && ds[0] != 0
    ensures Normal(negative, ds + Zeros(k), point) == Normal(negative, ds, point)
  {
    if k == 0 {
      assert ds + Zeros(k) == ds;
    } else {
      NormalTrailing(negative, ds, k - 1, point);
      var all := ds + Zeros(k);
      assert all[..|all| - 1] == ds + Zeros(k - 1);
    }
  }

  lemma NormalPlain(negative: bool, ds: seq<nat>, point: int)
    requires |ds| > 0 && ds[0] != 0 && ds[|ds| - 1] != 0
    ensures Normal(negative, ds, point) == Finite(negative, ds, point)
  {
  }

  /** Where the point of a layout stands, counted from its first digit. */
  function PointOf(l: Layout): int {
    |l.whole| + if l.exponent.Some? then l.exponent.value else 0
  }

  /** Each of the four layouts writes the digits with the point where it belongs. */
  lemma LayoutSays(negative: bool, ds: seq<nat>, point: int)
    requires |ds| > 0 && IsDigits(ds, 10) && ds[0] != 0 && ds[|ds| - 1] != 0
    ensures var l := LayoutOf(ds, point);
            l.whole != [] && (|l.whole| > 1 ==> l.whole[0] != 0)
            && Normal(negative, l.whole + l.frac, PointOf(l)) == Finite(negative, ds, point)
  {
    hide Zeros, Normal, IsDigits;
    NormalPlain(negative, ds, point);
    var l := LayoutOf(ds, point);
    if l.exponent.None? && l.frac == [] {
      NormalTrailing(negative, ds, point - |ds|, point);
      assert l.whole + l.frac == l.whole;
    } else if l.exponent.None? && l.whole == [0] {
      NormalLeading(negative, 1 - point, ds, 1);
      assert Zeros(1 - point) + ds == l.whole + l.frac;
    } else {
      assert l.whole + l.frac == ds;
    }
  }

  /** What the reader makes of a number: the number, without the sign of zero. */
  function Unsigned(x: Number): Number {
    if x.Zero? then Zero(false) else x
  }

  lemma LayoutReadBack(negative: bool, l: Layout, rest: Text)
    requires l.Valid() && l.whole != [] && (|l.whole| > 1 ==> l.whole[0] != 0)
    requires Delimited(rest)
    ensures ReadNumber((if negative then [MINUS] else []) + LayoutText(l) + rest) ==
            Some((Normal(negative, l.whole + l.frac, PointOf(l)), rest))
  {
    hide ReadDigits, ReadFraction, ReadExponent, ExponentText, Normal;
    var t := (if negative then [MINUS] else []) + LayoutText(l) + rest;
    var e := ExponentText(l.exponent) + rest;
    var f := (if l.frac == [] then [] else [DOT] + DigitUnits(l.frac)) + e;
    ExponentStarts(l.exponent);
    assert (if negative then t[1..] else t) == DigitUnits(l.whole) + f;
    assert e == [] || e[0] == 101 || (e == rest && Delimited(e));
    assert if l.frac == [] then f == e else f[0] == DOT;
    DigitsReadBack(l.whole, f);
    FractionReadBack(l.frac, e);
    ExponentReadBack(l.exponent, rest);
    assert t[0] == MINUS <==> negative by {
      assert !negative ==> t[0] == 48 + l.whole[0];
    }
  }

  lemma ZeroLayout()
    ensures LayoutText(Layout([0], [], None)) == [48]
  {
    assert DigitUnits([0]) == [48];
  }

  lemma NumberReadsBack(x: Number, rest: Text)
    requires x.Valid() && !x.NotFinite? && Delimited(rest)
    ensures ReadNumber(NumberText(x) + rest) == Some((Unsigned(x), rest))
  {
    hide LayoutOf, LayoutText, ReadNumber;
    match x
    case Zero(_) =>
      var l := Layout([0], [], None);
      LayoutReadBack(false, l, rest);
      ZeroLayout();
      assert [] + [48] + rest == [48] + rest;
      assert [0] + [] == [0];
    case Finite(negative, ds, point) =>
      LayoutSays(negative, ds, point);
      LayoutStarts(ds, point);
      LayoutReadBack(negative, LayoutOf(ds, point), rest);
  }

  // --- Values ---

  function ReadValue(t: Text): (r: Option<(Json, Text)>)
    ensures r.Some? ==> |r.value.1| < |t|
    decreases |t|, 0
  {
    if t == [] then None
    else if t[0] == QUOTE then
      var (s, rest) :- ReadString(t);
      Some((Str(s), rest))
    else if t[0] == 91 then
      if |t| > 1 && t[1] == 93 then Some((Arr([]), t[2..]))
      else
        var (xs, rest) :- ReadItems(t[1..]);
        Some((Arr(xs), rest))
    else if t[0] == 123 then
      if |t| > 1 && t[1] == 125 then Some((Obj([]), t[2..]))
      else
        var (ms, rest) :- ReadMembers(t[1..]);
        Some((Obj(ms), rest))
    else if [110, 117, 108, 108] <= t then Some((Null, t[4..]))
    else if [116, 114, 117, 101] <= t then Some((Bool(true), t[4..]))
    else if [102, 97, 108, 115, 101] <= t then Some((Bool(false), t[5..]))
    else
      var (n, rest) :- ReadNumber(t);
      Some((Num(n), rest))
  }

  function ReadString(t: Text): (r: Option<(Text, Text)>)
    ensures r.Some? ==> |r.value.1| < |t|
  {
    if t == [] || t[0] != QUOTE then None else ReadQuoted(t[1..])
  }

  /** The items of an array up to the closing bracket; there is at least one. */
  function ReadItems(t: Text): (r: Option<(seq<Json>, Text)>)
    ensures r.Some? ==> |r.value.1| < |t|
    decreases |t|, 1
  {
    var (x, r) :- ReadValue(t);
    if r == [] then None
    else if r[0] == 93 then Some(([x], r[1..]))
    else if r[0] == COMMA then
      var (xs, rest) :- ReadItems(r[1..]);
      Some(([x] + xs, rest))
    else None
  }

  function ReadMember(t: Text): (r: Option<(Member, Text)>)
    ensures r.Some? ==> |r.value.1| < |t|
    decreases |t|, 1
  {
    var (k, r) :- ReadString(t);
    if r == [] || r[0] != COLON then None
    else
      var (v, rest) :- ReadValue(r[1..]);
      Some((Member(k, v), rest))
  }

  function ReadMembers(t: Text): (r: Option<(seq<Member>, Text)>)
    ensures r.Some? ==> |r.value.1| < |t|
    decreases |t|, 2
  {
    var (m, r) :- ReadMember(t);
    if r == [] then None
    else if r[0] == 125 then Some(([m], r[1..]))
    else if r[0] == COMMA then
      var (ms, rest) :- ReadMembers(r[1..]);
      Some(([m] + ms, rest))
    else None
  }

  // --- What reading canonical text gives ---

  /** The order of section 3.2.3 of RFC 8785: a proper prefix first, else the first unit that differs decides. */
  predicate Precedes(a: Text, b: Text) {
    exists i :: 0 <= i < |b| && AgreeTo(a, b, i) && (i == |a| || a[i] < b[i])
  }

  predicate AgreeTo(a: Text, b: Text, i: nat) {
    i <= |a| && i <= |b| && forall j :: 0 <= j < i ==> a[j] == b[j]
  }

  predicate KeysAscend(ms: seq<Member>) {
    forall i, j :: 0 <= i < j < |ms| ==> Precedes(ms[i].key, ms[j].key)
  }

  /** A value as JSON itself has it, with its object keys in order. */
  predicate Tidy(v: Json) {
    match v
    case Null => true
    case Bool(_) => true
    case Num(n) => n.Valid() && !n.NotFinite? && n != Zero(true)
    case Str(_) => true
    case Arr(xs) => forall i :: 0 <= i < |xs| ==> Tidy(xs[i])
    case Obj(ms) => KeysAscend(ms) && forall i :: 0 <= i < |ms| ==> Tidy(ms[i].value)
    case _ => false
  }

  lemma {:induction false} BeforePrecedes(a: Text, b: Text)
    ensures Before(a, b) <==> Precedes(a, b)
  {
    if b != [] && a != [] && a[0] == b[0] {
      BeforePrecedes(a[1..], b[1..]);
      if i :| 0 <= i < |b[1..]| && AgreeTo(a[1..], b[1..], i) && (i == |a[1..]| || a[1..][i] < b[1..][i]) {
        assert AgreeTo(a, b, i + 1) by {
          assert forall j :: 0 < j <= i ==> a[j] == a[1..][j - 1] && b[j] == b[1..][j - 1];
        }
      }
      if i :| 0 <= i < |b| && AgreeTo(a, b, i) && (i == |a| || a[i] < b[i]) {
        assert AgreeTo(a[1..], b[1..], i - 1);
      }
    } else {
      assert AgreeTo(a, b, 0);
    }
  }

  lemma OrderedAscend(es: seq<Member>)
    requires Ordered(es)
    ensures KeysAscend(es)
  {
    hide Before, Precedes;
    forall i, j | 0 <= i < j < |es|
      ensures Precedes(es[i].key, es[j].key)
    {
      BeforePrecedes(es[i].key, es[j].key);
    }
  }

  /** Reading, back, the value written before a delimiter. */
  predicate ReadsAs(v: Json, t: Text, rest: Text, w: Json) {
    ReadValue(t + rest) == Some((w, rest)) && Tidy(w) && Same(v, w)
  }

  lemma StringReadsBack(s: Text, rest: Text)
    ensures ReadString(Quoted(s) + rest) == Some((s, rest))
  {
    hide Escaped, ReadQuoted;
    ReadEscaped(s, rest);
    assert (Quoted(s) + rest)[1..] == Escaped(s) + [QUOTE] + rest;
  }

  /**
   Canonical text is JSON and says what the value says: read by the grammar, before any
   delimiter, it gives the same value with its keys ascending, and leaves the rest.
   */
  lemma {:induction false} ReadsBack(v: Json, rest: Text) returns (w: Json)
    requires WellFormed(v) && HoleFree(v) && Canonical(v).Some? && Delimited(rest)
    ensures ReadsAs(v, Canonical(v).value, rest, w)
    decreases v
  {
    hide ReadNumber, NumberText, Quoted, ReadString, Normal, Same, Tidy, ItemTexts, MemberTexts;
    var t := Canonical(v).value + rest;
    TextStarts(v);
    if v.Arr? {
      w := ArrReadsBack(v, rest);
    } else if v.Obj? {
      w := ObjReadsBack(v, rest);
    } else {
      w := if v.Num? then Num(Unsigned(v.n)) else v;
      PlainReads(v, w);
      if v.Num? {
        NumberUnits(v.n);
        NumberReadsBack(v.n, rest);
      } else if v.Str? {
        StringReadsBack(v.s, rest);
      } else {
        assert t[|Canonical(v).value|..] == rest;
      }
    }
  }

  lemma PlainReads(v: Json, w: Json)
    requires WellFormed(v) && Canonical(v).Some? && !v.Arr? && !v.Obj?
    requires w == if v.Num? then Num(Unsigned(v.n)) else v
    ensures Tidy(w) && Same(v, w)
  {
  }

  lemma {:induction false} ArrReadsBack(v: Json, rest: Text) returns (w: Json)
    requires v.Arr? && WellFormed(v) && HoleFree(v) && Canonical(v).Some? && Delimited(rest)
    ensures ReadsAs(v, Canonical(v).value, rest, w)
    decreases v, 2 + |v.items|
  {
    hide Join, ItemTexts, ReadItems;
    var t, close := Canonical(v).value + rest, [93] + rest;
    var ts := ItemTexts(v, v.items).value;
    assert t[1..] == Join(ts) + close;
    BareStarts(v, v.items, close);
    BareHoleFree(v.items);
    assert t[1] == t[1..][0];
    if v.items == [] {
      w := Arr([]);
      assert t[2..] == close[1..] == rest;
    } else {
      var ws := ItemsReadBack(v, v.items, rest);
      w := Arr(ws);
    }
  }

  lemma {:induction false} ItemsReadBack(v: Json, xs: seq<Json>, rest: Text) returns (ws: seq<Json>)
    requires xs != []
    requires forall i :: 0 <= i < |xs| ==> xs[i] < v && WellFormed(xs[i]) && !xs[i].Hole? && HoleFree(xs[i])
    requires ItemTexts(v, xs).Some? && Delimited(rest)
    ensures ReadItems(Join(ItemTexts(v, xs).value) + ([93] + rest)) == Some((ws, rest)) && |ws| == |xs|
    ensures forall i :: 0 <= i < |xs| ==>
              Tidy(ws[i]) && ((Nullish(xs[i]) && Nullish(ws[i])) || Same(xs[i], ws[i]))
    decreases v, 1 + |xs|
  {
    hide Join, Canonical, WellFormed, HoleFree, Same, Tidy, ReadValue;
    var ts, close := ItemTexts(v, xs).value, [93] + rest;
    ItemTextsLength(v, xs);
    JoinFirst(ts, close);
    var behind := Behind(ts, close);
    var w := ItemReadsBack(v, xs[0], behind);
    if |xs| == 1 {
      ws := [w];
      assert behind[1..] == rest;
    } else {
      assert behind[1..] == Join(ts[1..]) + close;
      var others := ItemsReadBack(v, xs[1..], rest);
      ws := [w] + others;
      assert forall i :: 0 < i < |xs| ==> xs[i] == xs[1..][i - 1] && ws[i] == others[i - 1];
    }
  }

  lemma {:induction false} ItemReadsBack(v: Json, x: Json, rest: Text) returns (w: Json)
    requires x < v && WellFormed(x) && !x.Hole? && HoleFree(x)
    requires ItemText(v, x).Some? && Delimited(rest)
    ensures ReadValue(ItemText(v, x).value + rest) == Some((w, rest))
    ensures Tidy(w) && ((Nullish(x) && Nullish(w)) || Same(x, w))
    decreases v, 0
  {
    if x.Undefined? {
      w := Null;
      assert (ItemText(v, x).value + rest)[4..] == rest;
    } else {
      w := ReadsBack(x, rest);
    }
  }

  lemma {:induction false} ObjReadsBack(v: Json, rest: Text) returns (w: Json)
    requires v.Obj? && WellFormed(v) && HoleFree(v) && Canonical(v).Some? && Delimited(rest)
    ensures ReadsAs(v, Canonical(v).value, rest, w)
    decreases v, 1 + |Sorted(Defined(v.members))|
  {
    hide Join, MemberTexts, Sorted, Defined, ReadMembers, Fields;
    var t, close := Canonical(v).value + rest, [125] + rest;
    var es := Sorted(Defined(v.members));
    var ts := MemberTexts(v, es).value;
    assert t[1..] == Join(ts) + close;
    MembersStart(v, es, close);
    EntriesAreFields(v.members);
    assert t[1] == t[1..][0];
    if es == [] {
      w := Obj([]);
      JoinNothing(close);
      assert t[2..] == close[1..] == rest;
      SameTidyFields(v.members, es, []);
    } else {
      var ws := MembersReadBack(v, es, rest);
      w := Obj(ws);
      SameTidyFields(v.members, es, ws);
    }
  }

  /** Entries with the same keys in the same order have the same fields. */
  lemma SameTidyFields(ms: seq<Member>, es: seq<Member>, ws: seq<Member>)
    requires DistinctKeys(ms) && es == Sorted(Defined(ms)) && |ws| == |es|
    requires forall i :: 0 <= i < |es| ==>
               ws[i].key == es[i].key && Tidy(ws[i].value) && Same(es[i].value, ws[i].value)
    ensures Tidy(Obj(ws)) && Same(Obj(ms), Obj(ws))
  {
    hide Sorted, Defined, Before, Precedes, Fields, Same, Tidy, HasKey;
    EntriesAreFields(ms);
    OrderedAscend(es);
    OrderedDistinct(es);
    TidyObject(ws);
    TidyFields(ws);
    forall k
      ensures k in Fields(ms) <==> k in Fields(ws)
      ensures k in Fields(ms) && k in Fields(ws) ==> Same(Fields(ms)[k], Fields(ws)[k])
    {
      SameKeys(es, ws, k);
      if HasKey(es, k) {
        var i := PlaceOf(es, k);
      }
    }
    SameObject(ms, ws);
  }

  lemma TidyObject(ws: seq<Member>)
    ensures Tidy(Obj(ws)) <==> KeysAscend(ws) && forall i :: 0 <= i < |ws| ==> Tidy(ws[i].value)
    ensures Tidy(Obj(ws)) ==> forall i :: 0 <= i < |ws| ==> !ws[i].value.Undefined?
  {
  }

  lemma SameObject(ms: seq<Member>, ws: seq<Member>)
    requires forall k :: k in Fields(ms) <==> k in Fields(ws)
    requires forall k :: k in Fields(ms) && k in Fields(ws) ==> Same(Fields(ms)[k], Fields(ws)[k])
    ensures Same(Obj(ms), Obj(ws))
  {
    hide Fields;
  }

  lemma SameKeys(es: seq<Member>, ws: seq<Member>, k: Text)
    requires |ws| == |es| && forall i :: 0 <= i < |es| ==> ws[i].key == es[i].key
    ensures HasKey(es, k) <==> HasKey(ws, k)
  {
  }

  lemma PlaceOf(es: seq<Member>, k: Text) returns (i: nat)
    requires HasKey(es, k)
    ensures i < |es| && es[i].key == k
  {
    i :| 0 <= i < |es| && es[i].key == k;
  }

  lemma OrderedDistinct(es: seq<Member>)
    requires Ordered(es)
    ensures DistinctKeys(es)
  {
    hide Before;
    forall i, j | 0 <= i < j < |es|
      ensures es[i].key != es[j].key
    {
      BeforeTotal(es[i].key, es[j].key);
    }
  }

  lemma HasKeyStep(ws: seq<Member>, k: Text)
    requires ws != []
    ensures HasKey(ws, k) <==> k == ws[0].key || HasKey(ws[1..], k)
  {
    if HasKey(ws[1..], k) {
      var i := PlaceOf(ws[1..], k);
      assert ws[i + 1].key == k;
    }
    if HasKey(ws, k) && k != ws[0].key {
      var i := PlaceOf(ws, k);
      assert ws[1..][i - 1].key == k;
    }
  }

  lemma {:induction false} TidyFields(ws: seq<Member>)
    requires DistinctKeys(ws) && forall i :: 0 <= i < |ws| ==> !ws[i].value.Undefined?
    ensures forall k :: k in Fields(ws) <==> HasKey(ws, k)
    ensures forall i :: 0 <= i < |ws| ==> ws[i].key in Fields(ws) && Fields(ws)[ws[i].key] == ws[i].value
  {
    if ws == [] {
    } else {
      TidyFields(ws[1..]);
      FieldsMore(ws);
      forall k
        ensures HasKey(ws, k) <==> k == ws[0].key || HasKey(ws[1..], k)
      {
        HasKeyStep(ws, k);
      }
      hide HasKey, Fields;
      assert forall i :: 0 < i < |ws| ==> ws[1..][i - 1] == ws[i];
    }
  }

  lemma FieldsMore(ws: seq<Member>)
    requires ws != [] && !ws[0].value.Undefined?
    ensures Fields(ws) == Fields(ws[1..])[ws[0].key := ws[0].value]
  {
  }

  lemma {:induction false} MembersReadBack(v: Json, es: seq<Member>, rest: Text) returns (ws: seq<Member>)
    requires es != []
    requires forall i :: 0 <= i < |es| ==> es[i].value < v && WellFormed(es[i].value) && HoleFree(es[i].value)
    requires MemberTexts(v, es).Some? && Delimited(rest)
    ensures ReadMembers(Join(MemberTexts(v, es).value) + ([125] + rest)) == Some((ws, rest)) && |ws| == |es|
    ensures forall i :: 0 <= i < |es| ==>
              ws[i].key == es[i].key && Tidy(ws[i].value) && Same(es[i].value, ws[i].value)
    decreases v, |es|
  {
    hide Join, Canonical, WellFormed, HoleFree, Same, Tidy, ReadMember;
    var ts, close := MemberTexts(v, es).value, [125] + rest;
    MemberTextsLength(v, es);
    JoinFirst(ts, close);
    var behind := Behind(ts, close);
    var w := MemberReadsBack(v, es[0], behind);
    if |es| == 1 {
      ws := [w];
      assert behind[1..] == rest;
    } else {
      assert behind[1..] == Join(ts[1..]) + close;
      var others := MembersReadBack(v, es[1..], rest);
      ws := [w] + others;
      assert forall i :: 0 < i < |es| ==> es[i] == es[1..][i - 1] && ws[i] == others[i - 1];
    }
  }

  lemma {:induction false} MemberReadsBack(v: Json, e: Member, rest: Text) returns (w: Member)
    requires e.value < v && WellFormed(e.value) && HoleFree(e.value)
    requires Canonical(e.value).Some? && Delimited(rest)
    ensures ReadMember(MemberText(e, Canonical(e.value).value) + rest) == Some((w, rest))
    ensures w.key == e.key && Tidy(w.value) && Same(e.value, w.value)
    decreases v, 0
  {
    hide Quoted, ReadString, Canonical, ReadValue;
    var t := Canonical(e.value).value;
    var x := ReadsBack(e.value, rest);
    StringReadsBack(e.key, [COLON] + (t + rest));
    assert MemberText(e, t) + rest == Quoted(e.key) + ([COLON] + (t + rest));
    assert ([COLON] + (t + rest))[1..] == t + rest;
    w := Member(e.key, x);
  }

  /** There is only one value to read: tidy values that mean the same are equal. */
  lemma {:induction false} TidyUnique(a: Json, b: Json)
    requires Tidy(a) && Tidy(b) && Same(a, b)
    ensures a == b
    decreases a
  {
    match a
    case Arr(xs) =>
      forall i | 0 <= i < |xs|
        ensures xs[i] == b.items[i]
      {
        if !Nullish(xs[i]) || !Nullish(b.items[i]) {
          TidyUnique(xs[i], b.items[i]);
        }
      }
      assert xs == b.items;
    case Obj(ms) =>
      TidyMembers(ms, b.members);
      forall i | 0 <= i < |ms|
        ensures ms[i] == b.members[i]
      {
        TidyUnique(ms[i].value, b.members[i].value);
      }
      assert ms == b.members;
    case _ =>
  }

  lemma TidyMembers(ms: seq<Member>, ns: seq<Member>)
    requires Tidy(Obj(ms)) && Tidy(Obj(ns)) && Same(Obj(ms), Obj(ns))
    ensures |ms| == |ns|
    ensures forall i :: 0 <= i < |ms| ==> ms[i].key == ns[i].key && Same(ms[i].value, ns[i].value)
  {
    TidyObject(ms);
    TidyObject(ns);
    AscendOrdered(ms);
    AscendOrdered(ns);
    OrderedDistinct(ms);
    OrderedDistinct(ns);
    TidyFields(ms);
    TidyFields(ns);
    SameFieldKeys(ms, ns);
    hide Fields, Tidy, Before, HasKey;
    SameKeySequence(ms, ns);
    forall i | 0 <= i < |ms|
      ensures Same(ms[i].value, ns[i].value)
    {
      assert ms[i].key in Fields(ms);
    }
  }

  lemma SameFieldKeys(ms: seq<Member>, ns: seq<Member>)
    requires Same(Obj(ms), Obj(ns))
    ensures forall k :: k in Fields(ms) <==> k in Fields(ns)
    ensures forall k :: k in Fields(ms) && k in Fields(ns) ==> Same(Fields(ms)[k], Fields(ns)[k])
  {
    hide Fields;
    assert Fields(ms).Keys == Fields(ns).Keys;
    forall k
      ensures k in Fields(ms) <==> k in Fields(ns)
    {
      assert k in Fields(ms).Keys <==> k in Fields(ns).Keys;
    }
  }

  lemma AscendOrdered(es: seq<Member>)
    requires KeysAscend(es)
    ensures Ordered(es)
  {
    hide Before, Precedes;
    forall i, j | 0 <= i < j < |es|
      ensures Before(es[i].key, es[j].key)
    {
      BeforePrecedes(es[i].key, es[j].key);
    }
  }
}
