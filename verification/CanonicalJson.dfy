/**
 Canonical JSON, the body part of what a signature commits to: authBinding.ts.

 Two bodies that mean the same get one text, two that differ in any value get two.
 The theorem is Exact, and ExactWithHoles over arrays with holes as well; HolesBreakIt
 says for which values the code's own promise about holes fails.
 */
module CanonicalJson {
  import opened Wrappers
  import opened JsonText

  /**
   A JavaScript value. Undefined may be a member or an item, Hole only an item, and
   Foreign is a bigint, a function or a symbol.
   */
  datatype Json =
    | Undefined
    | Hole
    | Foreign
    | Null
    | Bool(b: bool)
    | Num(n: Number)
    | Str(s: Text)
    | Arr(items: seq<Json>)
    | Obj(members: seq<Member>)

  datatype Member = Member(key: Text, value: Json)

  // --- Key order ---

  /** The < of JavaScript strings: by code unit, a proper prefix first. */
  predicate Before(a: Text, b: Text) {
    b != [] && (a == [] || a[0] < b[0] || (a[0] == b[0] && Before(a[1..], b[1..])))
  }

  lemma {:induction false} BeforeTotal(a: Text, b: Text)
    ensures a != b ==> Before(a, b) || Before(b, a)
    ensures Before(a, b) ==> !Before(b, a) && a != b
  {
    if a != [] && b != [] && a[0] == b[0] {
      BeforeTotal(a[1..], b[1..]);
      assert a == [a[0]] + a[1..] && b == [b[0]] + b[1..];
    }
  }

  lemma {:induction false} BeforeTransitive(a: Text, b: Text, c: Text)
    requires Before(a, b) && Before(b, c)
    ensures Before(a, c)
  {
    if a != [] && a[0] == b[0] == c[0] {
      BeforeTransitive(a[1..], b[1..], c[1..]);
    }
  }

  function Insert(m: Member, es: seq<Member>): (r: seq<Member>)
    ensures multiset(r) == multiset(es) + multiset{m}
  {
    if es == [] || !Before(es[0].key, m.key) then [m] + es
    else
      assert es == [es[0]] + es[1..];
      [es[0]] + Insert(m, es[1..])
  }

  /** The entries in key order. */
  function Sorted(es: seq<Member>): (r: seq<Member>)
    ensures multiset(r) == multiset(es) && |r| == |es|
    ensures forall i :: 0 <= i < |r| ==> r[i] in es
  {
    if es == [] then []
    else
      var r := Insert(es[0], Sorted(es[1..]));
      assert es == [es[0]] + es[1..];
      SameElements(r, es);
      r
  }

  lemma SameElements<T>(a: seq<T>, b: seq<T>)
    requires multiset(a) == multiset(b)
    ensures |a| == |b|
    ensures forall i :: 0 <= i < |a| ==> a[i] in b
  {
    assert |a| == |multiset(a)| == |multiset(b)| == |b|;
    forall i | 0 <= i < |a|
      ensures a[i] in b
    {
      assert a[i] in multiset(a);
    }
  }

  // --- canonicalJson ---

  function Join(ts: seq<Text>): Text {
    if ts == [] then [] else if |ts| == 1 then ts[0] else ts[0] + [COMMA] + Join(ts[1..])
  }

  /** Object.entries with the undefined members filtered out. */
  function Defined(ms: seq<Member>): (r: seq<Member>)
    ensures forall m <- r :: m in ms && !m.value.Undefined?
    ensures forall m <- ms :: !m.value.Undefined? ==> m in r
  {
    if ms == [] then []
    else if ms[0].value.Undefined? then Defined(ms[1..])
    else [ms[0]] + Defined(ms[1..])
  }

  /** The canonical text, or None where the code throws. */
  function Canonical(v: Json): Option<Text>
    decreases v
  {
    match v
    case Null => Some([110, 117, 108, 108])
    case Bool(b) => Some(if b then [116, 114, 117, 101] else [102, 97, 108, 115, 101])
    case Num(n) => if n.NotFinite? || !n.Valid() then None else Some(NumberText(n))
    case Str(s) => Some(Quoted(s))
    case Undefined => None
    case Foreign => None
    case Hole => None
    case Arr(items) =>
      var ts :- ItemTexts(v, items);
      Some([91] + Join(ts) + [93])
    case Obj(members) =>
      var ts :- MemberTexts(v, Sorted(Defined(members)));
      Some([123] + Join(ts) + [125])
  }

  /** map over an array passes a hole over, and join prints it as nothing. */
  function ItemText(parent: Json, x: Json): Option<Text>
    requires x < parent
    decreases parent, 0
  {
    if x.Undefined? then Some([110, 117, 108, 108]) else if x.Hole? then Some([]) else Canonical(x)
  }

  function ItemTexts(parent: Json, xs: seq<Json>): (r: Option<seq<Text>>)
    requires forall i :: 0 <= i < |xs| ==> xs[i] < parent
    decreases parent, 1 + |xs|
  {
    if xs == [] then Some([])
    else
      var t :- ItemText(parent, xs[0]);
      var ts :- ItemTexts(parent, xs[1..]);
      Some([t] + ts)
  }

  function MemberText(e: Member, t: Text): Text {
    Quoted(e.key) + [COLON] + t
  }

  function MemberTexts(parent: Json, es: seq<Member>): (r: Option<seq<Text>>)
    requires forall i :: 0 <= i < |es| ==> es[i].value < parent
    decreases parent, |es|
  {
    if es == [] then Some([])
    else
      var t :- Canonical(es[0].value);
      var ts :- MemberTexts(parent, es[1..]);
      Some([MemberText(es[0], t)] + ts)
  }

  // --- What a value means ---

  /** The members an object really has: undefined ones do not count, order does not matter. */
  function Fields(ms: seq<Member>): (r: map<Text, Json>)
    ensures forall k <- r :: Member(k, r[k]) in ms && !r[k].Undefined?
  {
    if ms == [] then map[]
    else if ms[0].value.Undefined? then Fields(ms[1..])
    else Fields(ms[1..])[ms[0].key := ms[0].value]
  }

  predicate Nullish(x: Json) {
    x.Null? || x.Undefined?
  }

  /**
   Equal values, up to the order of object members, members that are undefined,
   array items that are undefined (read as null), and the sign of zero.
   */
  predicate Same(a: Json, b: Json)
    decreases a
  {
    match a
    case Null => b.Null?
    case Bool(_) => b == a
    case Num(x) => b.Num? && SameNumber(x, b.n)
    case Str(_) => b == a
    case Arr(xs) =>
      b.Arr? && |xs| == |b.items|
      && forall i :: 0 <= i < |xs| ==> (Nullish(xs[i]) && Nullish(b.items[i])) || Same(xs[i], b.items[i])
    case Obj(ms) =>
      b.Obj? && Fields(ms).Keys == Fields(b.members).Keys
      && forall k <- Fields(ms) :: Same(Fields(ms)[k], Fields(b.members)[k])
    case _ => false
  }

  /** The arrays whose text is a pair of brackets. */
  predicate Bare(xs: seq<Json>) {
    xs == [] || xs == [Hole]
  }

  /** The same, holes standing against holes, and one hole like none. */
  predicate Alike(a: Json, b: Json)
    decreases a, 0
  {
    match a
    case Null => b.Null?
    case Bool(_) => b == a
    case Num(x) => b.Num? && SameNumber(x, b.n)
    case Str(_) => b == a
    case Arr(xs) =>
      b.Arr?
      && ((Bare(xs) && Bare(b.items))
          || (|xs| == |b.items| && forall i :: 0 <= i < |xs| ==> AlikeItem(xs[i], b.items[i])))
    case Obj(ms) =>
      b.Obj? && Fields(ms).Keys == Fields(b.members).Keys
      && forall k <- Fields(ms) :: Alike(Fields(ms)[k], Fields(b.members)[k])
    case _ => false
  }

  predicate AlikeItem(x: Json, y: Json)
    decreases x, 1
  {
    (Nullish(x) && Nullish(y)) || (x.Hole? && y.Hole?) || Alike(x, y)
  }

  predicate DistinctKeys(ms: seq<Member>) {
    forall i, j :: 0 <= i < j < |ms| ==> ms[i].key != ms[j].key
  }

  /** What the language guarantees of any value: object keys are distinct, numbers are numbers. */
  predicate WellFormed(v: Json) {
    match v
    case Num(n) => n.Valid()
    case Arr(xs) => forall i :: 0 <= i < |xs| ==> WellFormed(xs[i])
    case Obj(ms) => DistinctKeys(ms) && forall i :: 0 <= i < |ms| ==> WellFormed(ms[i].value)
    case _ => true
  }

  predicate HoleFree(v: Json) {
    match v
    case Arr(xs) => forall i :: 0 <= i < |xs| ==> !xs[i].Hole? && HoleFree(xs[i])
    case Obj(ms) => forall i :: 0 <= i < |ms| ==> !ms[i].value.Hole? && HoleFree(ms[i].value)
    case _ => true
  }

  /** A value JSON can carry exactly. */
  predicate Representable(v: Json) {
    match v
    case Num(n) => n.Valid() && !n.NotFinite?
    case Arr(xs) => forall i :: 0 <= i < |xs| ==> xs[i].Undefined? || xs[i].Hole? || Representable(xs[i])
    case Obj(ms) => forall i :: 0 <= i < |ms| ==> ms[i].value.Undefined? || Representable(ms[i].value)
    case Null => true
    case Bool(_) => true
    case Str(_) => true
    case _ => false
  }

  // --- The code refuses exactly what cannot be represented ---

  lemma {:induction false} RefusesExactly(v: Json)
    ensures Canonical(v).Some? <==> Representable(v)
    decreases v
  {
    match v
    case Arr(xs) => ItemsRefuse(v, xs);
    case Obj(ms) => ObjRefuses(v);
    case _ =>
  }

  lemma {:induction false} ObjRefuses(v: Json)
    requires v.Obj?
    ensures Canonical(v).Some? <==> Representable(v)
    decreases v, 1 + |Sorted(Defined(v.members))|
  {
    hide Sorted, Defined, MemberTexts;
    var ms, es := v.members, Sorted(Defined(v.members));
    MembersRefuse(v, es);
    if forall i :: 0 <= i < |es| ==> Representable(es[i].value) {
      forall i | 0 <= i < |ms| && !ms[i].value.Undefined?
        ensures Representable(ms[i].value)
      {
        EntryOf(ms, i);
      }
    }
  }

  /** A defined member is among the sorted entries. */
  lemma EntryOf(ms: seq<Member>, i: nat)
    requires i < |ms| && !ms[i].value.Undefined?
    ensures ms[i] in Sorted(Defined(ms))
  {
    hide Sorted, Defined;
    assert ms[i] in multiset(Sorted(Defined(ms)));
  }

  lemma {:induction false} ItemsRefuse(parent: Json, xs: seq<Json>)
    requires forall i :: 0 <= i < |xs| ==> xs[i] < parent
    ensures ItemTexts(parent, xs).Some? <==>
            forall i :: 0 <= i < |xs| ==> xs[i].Undefined? || xs[i].Hole? || Representable(xs[i])
    decreases parent, |xs|
  {
    if xs != [] {
      RefusesExactly(xs[0]);
      ItemsRefuse(parent, xs[1..]);
      assert xs == [xs[0]] + xs[1..];
    }
  }

  lemma {:induction false} MembersRefuse(parent: Json, es: seq<Member>)
    requires forall i :: 0 <= i < |es| ==> es[i].value < parent
    ensures MemberTexts(parent, es).Some? <==>
            forall i :: 0 <= i < |es| ==> Representable(es[i].value)
    decreases parent, |es|
  {
    if es != [] {
      RefusesExactly(es[0].value);
      MembersRefuse(parent, es[1..]);
      assert es == [es[0]] + es[1..];
    }
  }

  // --- Entries in key order ---

  predicate Ordered(es: seq<Member>) {
    forall i, j :: 0 <= i < j < |es| ==> Before(es[i].key, es[j].key)
  }

  lemma {:induction false} InsertOrdered(m: Member, es: seq<Member>)
    requires Ordered(es) && forall e <- es :: e.key != m.key
    ensures Ordered(Insert(m, es))
  {
    var r := Insert(m, es);
    if es == [] {
    } else if !Before(es[0].key, m.key) {
      BeforeTotal(es[0].key, m.key);
      forall j | 0 < j < |es|
        ensures Before(m.key, es[j].key)
      {
        BeforeTransitive(m.key, es[0].key, es[j].key);
      }
    } else {
      InsertOrdered(m, es[1..]);
      var rest := Insert(m, es[1..]);
      forall j | 0 <= j < |rest|
        ensures Before(es[0].key, rest[j].key)
      {
        assert rest[j] in multiset(es[1..]) + multiset{m};
      }
    }
  }

  lemma {:induction false} SortedOrdered(es: seq<Member>)
    requires DistinctKeys(es)
    ensures Ordered(Sorted(es))
  {
    if es != [] {
      SortedOrdered(es[1..]);
      forall e <- Sorted(es[1..])
        ensures e.key != es[0].key
      {
        assert e in es[1..];
      }
      InsertOrdered(es[0], Sorted(es[1..]));
    }
  }

  lemma {:induction false} DefinedDistinct(ms: seq<Member>)
    requires DistinctKeys(ms)
    ensures DistinctKeys(Defined(ms))
    ensures forall m <- Defined(ms) :: m.key in Fields(ms) && Fields(ms)[m.key] == m.value
  {
    if ms != [] {
      DefinedDistinct(ms[1..]);
      forall m <- Defined(ms[1..])
        ensures m.key != ms[0].key
      {
        assert m in ms[1..];
      }
    }
  }

  predicate HasKey(es: seq<Member>, k: Text) {
    exists i :: 0 <= i < |es| && es[i].key == k
  }

  /** The sorted entries list the fields of the object, each once, in key order. */
  lemma {:induction false} EntriesAreFields(ms: seq<Member>)
    requires DistinctKeys(ms)
    ensures var es := Sorted(Defined(ms));
            Ordered(es)
            && (forall i :: 0 <= i < |es| ==> es[i].key in Fields(ms) && Fields(ms)[es[i].key] == es[i].value)
            && forall k :: HasKey(es, k) <==> k in Fields(ms)
  {
    var es := Sorted(Defined(ms));
    DefinedDistinct(ms);
    SortedOrdered(Defined(ms));
    forall k | k in Fields(ms)
      ensures HasKey(es, k)
    {
      var m := Member(k, Fields(ms)[k]);
      assert m in Defined(ms);
      assert m in multiset(es);
    }
  }

  lemma FirstKey(es: seq<Member>)
    requires Ordered(es)
    ensures es == [] ==> forall k :: !HasKey(es, k)
    ensures es != [] ==> HasKey(es, es[0].key)
    ensures es != [] ==> forall k :: HasKey(es, k) ==> k == es[0].key || Before(es[0].key, k)
    ensures es != [] ==> forall k :: HasKey(es[1..], k) <==> HasKey(es, k) && k != es[0].key
  {
    if es != [] {
      assert es[0].key == es[0].key;
      forall k
        ensures HasKey(es[1..], k) <==> HasKey(es, k) && k != es[0].key
      {
        if HasKey(es[1..], k) {
          var i :| 0 <= i < |es[1..]| && es[1..][i].key == k;
          assert es[i + 1].key == k;
          BeforeTotal(es[0].key, k);
        }
        if HasKey(es, k) && k != es[0].key {
          var i :| 0 <= i < |es| && es[i].key == k;
          assert es[1..][i - 1].key == k;
        }
      }
    }
  }

  /** Ordered entries over one set of keys have their keys in the same places. */
  lemma {:induction false} SameKeySequence(es: seq<Member>, fs: seq<Member>)
    requires Ordered(es) && Ordered(fs)
    requires forall k :: HasKey(es, k) <==> HasKey(fs, k)
    ensures |es| == |fs| && forall i :: 0 <= i < |es| ==> es[i].key == fs[i].key
  {
    hide HasKey, Before;
    FirstKey(es);
    FirstKey(fs);
    assert fs != [] ==> HasKey(fs, fs[0].key);
    if es != [] {
      assert HasKey(fs, es[0].key);
      BeforeTotal(es[0].key, fs[0].key);
      SameKeySequence(es[1..], fs[1..]);
    }
  }

  // --- Same meaning, same text ---

  lemma {:induction false} SameText(a: Json, b: Json)
    requires WellFormed(a) && WellFormed(b)
    requires Canonical(a).Some? && Canonical(b).Some? && Alike(a, b)
    ensures Canonical(a) == Canonical(b)
    decreases a
  {
    match a
    case Num(n) => NumberTextUnique(n, b.n);
    case Arr(xs) =>
      if Bare(xs) && Bare(b.items) {
        BareText(a);
        BareText(b);
      } else {
        ItemsSameText(a, xs, b, b.items);
      }
    case Obj(ms) =>
      var es, fs := Sorted(Defined(ms)), Sorted(Defined(b.members));
      SameEntries(ms, b.members);
      MembersSameText(a, es, b, fs);
    case _ =>
  }

  /** Objects with the same fields have the same keys in order, holding the same. */
  lemma {:induction false} SameEntries(ms: seq<Member>, ns: seq<Member>)
    requires DistinctKeys(ms) && DistinctKeys(ns)
    requires Fields(ms).Keys == Fields(ns).Keys
    requires forall k <- Fields(ms) :: Alike(Fields(ms)[k], Fields(ns)[k])
    ensures var es, fs := Sorted(Defined(ms)), Sorted(Defined(ns));
            |es| == |fs|
            && forall i :: 0 <= i < |es| ==> es[i].key == fs[i].key && Alike(es[i].value, fs[i].value)
  {
    hide Sorted, Defined, Fields, Alike, HasKey;
    var es, fs := Sorted(Defined(ms)), Sorted(Defined(ns));
    EntriesAreFields(ms);
    EntriesAreFields(ns);
    SameKeySequence(es, fs);
  }

  lemma BareText(v: Json)
    requires v.Arr? && Bare(v.items)
    ensures Canonical(v) == Some([91, 93])
  {
    var none: seq<Text> := [];
    assert Join(none) == Join([[]]) == [];
    assert [91] + [] + [93] == [91, 93];
    if v.items != [] {
      assert v.items[0] == Hole && v.items[1..] == [];
      assert ItemText(v, v.items[0]) == Some([]);
      assert ItemTexts(v, v.items[1..]) == Some(none);
      assert ItemTexts(v, v.items) == Some([[]] + none);
    }
  }

  /** Items printed without looking inside. */
  lemma PlainItems(a: Json, x: Json, b: Json, y: Json)
    requires (Nullish(x) && Nullish(y)) || (x.Hole? && y.Hole?)
    requires x < a && y < b
    ensures ItemText(a, x) == ItemText(b, y)
  {
  }

  lemma {:induction false} ItemsSameText(a: Json, xs: seq<Json>, b: Json, ys: seq<Json>)
    requires forall i :: 0 <= i < |xs| ==> xs[i] < a && WellFormed(xs[i])
    requires forall i :: 0 <= i < |ys| ==> ys[i] < b && WellFormed(ys[i])
    requires ItemTexts(a, xs).Some? && ItemTexts(b, ys).Some?
    requires |xs| == |ys|
    requires forall i :: 0 <= i < |xs| ==> AlikeItem(xs[i], ys[i])
    ensures ItemTexts(a, xs) == ItemTexts(b, ys)
    decreases a, |xs|
  {
    hide Canonical, WellFormed, Alike;
    if xs != [] {
      if (Nullish(xs[0]) && Nullish(ys[0])) || (xs[0].Hole? && ys[0].Hole?) {
        PlainItems(a, xs[0], b, ys[0]);
      } else {
        NotPlain(xs[0], ys[0]);
        SameText(xs[0], ys[0]);
      }
      assert ItemText(a, xs[0]) == ItemText(b, ys[0]);
      ItemsSameText(a, xs[1..], b, ys[1..]);
    }
  }

  lemma NotPlain(x: Json, y: Json)
    requires Alike(x, y) && !(Nullish(x) && Nullish(y))
    ensures !x.Undefined? && !y.Undefined? && !x.Hole? && !y.Hole?
  {
  }

  lemma {:induction false} MembersSameText(a: Json, es: seq<Member>, b: Json, fs: seq<Member>)
    requires forall i :: 0 <= i < |es| ==> es[i].value < a && WellFormed(es[i].value)
    requires forall i :: 0 <= i < |fs| ==> fs[i].value < b && WellFormed(fs[i].value)
    requires MemberTexts(a, es).Some? && MemberTexts(b, fs).Some?
    requires |es| == |fs|
    requires forall i :: 0 <= i < |es| ==> es[i].key == fs[i].key && Alike(es[i].value, fs[i].value)
    ensures MemberTexts(a, es) == MemberTexts(b, fs)
    decreases a, |es|
  {
    if es != [] {
      SameText(es[0].value, fs[0].value);
      MembersSameText(a, es[1..], b, fs[1..]);
    }
  }

  // --- Same text, same meaning ---

  /** What may stand behind a value: nothing, a comma or a closing bracket. */
  predicate Delimited(r: Text) {
    r == [] || r[0] == COMMA || r[0] == 93 || r[0] == 125
  }

  /** The first unit of a value's text gives its kind away. */
  predicate Starts(v: Json, u: nat) {
    match v
    case Null => u == 110
    case Bool(b) => u == if b then 116 else 102
    case Num(_) => IsDigitUnit(u) || u == MINUS
    case Str(_) => u == QUOTE
    case Arr(_) => u == 91
    case Obj(_) => u == 123
    case _ => false
  }

  lemma TextStarts(v: Json)
    requires Canonical(v).Some?
    ensures Canonical(v).value != [] && Starts(v, Canonical(v).value[0])
  {
    if v.Num? {
      NumberUnits(v.n);
    }
  }

  /** The text of a list behind its first element. */
  function Behind(ts: seq<Text>, close: Text): Text
    requires ts != []
  {
    if |ts| == 1 then close else [COMMA] + (Join(ts[1..]) + close)
  }

  lemma JoinNothing(close: Text)
    ensures Join([]) + close == close
  {
  }

  lemma JoinFirst(ts: seq<Text>, close: Text)
    requires ts != []
    ensures Join(ts) + close == ts[0] + Behind(ts, close)
  {
  }

  lemma {:induction false} Unique(a: Json, ra: Text, b: Json, rb: Text)
    requires WellFormed(a) && WellFormed(b)
    requires Canonical(a).Some? && Canonical(b).Some?
    requires Delimited(ra) && Delimited(rb)
    requires Canonical(a).value + ra == Canonical(b).value + rb
    ensures Alike(a, b) && ra == rb
    decreases a
  {
    hide ItemTexts, MemberTexts, Sorted, Defined, Fields, NumberText, Quoted;
    var ta, tb := Canonical(a).value, Canonical(b).value;
    TextStarts(a);
    TextStarts(b);
    assert ta[0] == (ta + ra)[0] == (tb + rb)[0] == tb[0];
    if a.Num? {
      NumberUnits(a.n);
      NumberUnits(b.n);
      Span(IsNumberUnit, ta, ra, tb, rb);
      NumberTextUnique(a.n, b.n);
    } else if a.Str? {
      QuotedUnique(a.s, ra, b.s, rb);
    } else if a.Arr? {
      ArrUnique(a, ra, b, rb);
    } else if a.Obj? {
      ObjUnique(a, ra, b, rb);
    } else {
      assert ra == (ta + ra)[|ta|..] && rb == (tb + rb)[|tb|..];
    }
  }

  lemma {:induction false} ArrUnique(a: Json, ra: Text, b: Json, rb: Text)
    requires a.Arr? && b.Arr?
    requires WellFormed(a) && WellFormed(b)
    requires Canonical(a).Some? && Canonical(b).Some?
    requires Delimited(ra) && Delimited(rb)
    requires Canonical(a).value + ra == Canonical(b).value + rb
    ensures Alike(a, b) && ra == rb
    decreases a, 2 + |a.items|
  {
    hide Join, ItemTexts;
    var ts, us := ItemTexts(a, a.items).value, ItemTexts(b, b.items).value;
    var ca, cb := [93] + ra, [93] + rb;
    assert (Canonical(a).value + ra)[1..] == Join(ts) + ca;
    assert (Canonical(b).value + rb)[1..] == Join(us) + cb;
    BareStarts(a, a.items, ca);
    BareStarts(b, b.items, cb);
    if Bare(a.items) {
      assert ra == ca[1..] && rb == cb[1..];
    } else {
      ItemsUnique(a, a.items, ra, b, b.items, rb);
    }
  }

  lemma {:induction false} ObjUnique(a: Json, ra: Text, b: Json, rb: Text)
    requires a.Obj? && b.Obj?
    requires WellFormed(a) && WellFormed(b)
    requires Canonical(a).Some? && Canonical(b).Some?
    requires Delimited(ra) && Delimited(rb)
    requires Canonical(a).value + ra == Canonical(b).value + rb
    ensures Alike(a, b) && ra == rb
    decreases a, 1 + |Sorted(Defined(a.members))|
  {
    hide Join, Sorted, Defined, Fields, MemberTexts;
    var es, fs := Sorted(Defined(a.members)), Sorted(Defined(b.members));
    var ts, us := MemberTexts(a, es).value, MemberTexts(b, fs).value;
    assert (Canonical(a).value + ra)[1..] == Join(ts) + ([125] + ra);
    assert (Canonical(b).value + rb)[1..] == Join(us) + ([125] + rb);
    MembersUnique(a, es, ra, b, fs, rb);
    SameFields(a.members, b.members);
  }

  lemma {:induction false} ItemsUnique(a: Json, xs: seq<Json>, ra: Text, b: Json, ys: seq<Json>, rb: Text)
    requires xs != [] && ys != []
    requires forall i :: 0 <= i < |xs| ==> xs[i] < a && WellFormed(xs[i])
    requires forall i :: 0 <= i < |ys| ==> ys[i] < b && WellFormed(ys[i])
    requires ItemTexts(a, xs).Some? && ItemTexts(b, ys).Some?
    requires Join(ItemTexts(a, xs).value) + ([93] + ra) == Join(ItemTexts(b, ys).value) + ([93] + rb)
    ensures ra == rb && |xs| == |ys|
    ensures forall i :: 0 <= i < |xs| ==> AlikeItem(xs[i], ys[i])
    decreases a, 1 + |xs|
  {
    hide Join, Canonical, WellFormed, AlikeItem;
    var ts, us := ItemTexts(a, xs).value, ItemTexts(b, ys).value;
    var ca, cb := [93] + ra, [93] + rb;
    ItemTextsLength(a, xs);
    ItemTextsLength(b, ys);
    JoinFirst(ts, ca);
    JoinFirst(us, cb);
    ItemUnique(a, xs[0], Behind(ts, ca), b, ys[0], Behind(us, cb));
    BehindUnique(ts, ca, us, cb, 93);
    if |xs| == 1 {
      assert ra == ca[1..] && rb == cb[1..];
    } else {
      ItemsUnique(a, xs[1..], ra, b, ys[1..], rb);
    }
  }

  lemma {:induction false} ItemUnique(a: Json, x: Json, ra: Text, b: Json, y: Json, rb: Text)
    requires x < a && WellFormed(x)
    requires y < b && WellFormed(y)
    requires ItemText(a, x).Some? && ItemText(b, y).Some?
    requires Delimited(ra) && Delimited(rb)
    requires ItemText(a, x).value + ra == ItemText(b, y).value + rb
    ensures AlikeItem(x, y) && ra == rb
    decreases a, 0
  {
    hide Canonical, WellFormed, Alike;
    var ta, tb := ItemText(a, x).value, ItemText(b, y).value;
    ItemStarts(a, x);
    ItemStarts(b, y);
    NothingShows(ta, ra);
    NothingShows(tb, rb);
    if x.Hole? {
      assert ra == ta + ra && rb == tb + rb;
    } else if Nullish(x) || Nullish(y) {
      assert ta[0] == (ta + ra)[0] == (tb + rb)[0] == tb[0];
      assert ra == (ta + ra)[4..] && rb == (tb + rb)[4..];
    } else {
      Unique(x, ra, y, rb);
    }
  }

  /** An empty text shows by the delimiter behind it. */
  lemma NothingShows(t: Text, r: Text)
    requires Delimited(r) && (t == [] || !Delimited(t))
    ensures Delimited(t + r) <==> t == []
  {
    assert t == [] ==> t + r == r;
  }

  lemma ItemStarts(a: Json, x: Json)
    requires x < a && ItemText(a, x).Some?
    ensures var t := ItemText(a, x).value;
            if x.Hole? then t == []
            else t != [] && !Delimited(t) && (t[0] == 110 <==> Nullish(x)) && (Nullish(x) ==> |t| == 4)
  {
    if !x.Undefined? && !x.Hole? {
      TextStarts(x);
    }
  }

  /** Whether there is anything between the brackets shows in the first unit behind the first. */
  lemma BareStarts(a: Json, xs: seq<Json>, close: Text)
    requires forall i :: 0 <= i < |xs| ==> xs[i] < a
    requires ItemTexts(a, xs).Some? && close != [] && close[0] == 93
    ensures var t := Join(ItemTexts(a, xs).value) + close;
            t != [] && (t[0] == 93 <==> Bare(xs)) && (Bare(xs) ==> t == close)
  {
    hide ItemText;
    ItemTextsLength(a, xs);
    var ts := ItemTexts(a, xs).value;
    if xs == [] {
      JoinNothing(close);
    } else {
      ItemStarts(a, xs[0]);
      JoinFirst(ts, close);
    }
  }

  lemma {:induction false} ItemTextsLength(a: Json, xs: seq<Json>)
    requires forall i :: 0 <= i < |xs| ==> xs[i] < a
    requires ItemTexts(a, xs).Some?
    ensures |ItemTexts(a, xs).value| == |xs|
    decreases |xs|
  {
    if xs != [] {
      ItemTextsLength(a, xs[1..]);
    }
  }

  lemma BehindUnique(ts: seq<Text>, ca: Text, us: seq<Text>, cb: Text, bracket: nat)
    requires ts != [] && us != [] && bracket != COMMA
    requires ca != [] && ca[0] == bracket && cb != [] && cb[0] == bracket
    requires Behind(ts, ca) == Behind(us, cb)
    ensures |ts| == 1 <==> |us| == 1
    ensures if |ts| == 1 then ca == cb else Join(ts[1..]) + ca == Join(us[1..]) + cb
  {
    var x, y := Behind(ts, ca), Behind(us, cb);
    assert |ts| > 1 ==> x[0] == COMMA && x[1..] == Join(ts[1..]) + ca;
    assert |us| > 1 ==> y[0] == COMMA && y[1..] == Join(us[1..]) + cb;
  }

  lemma {:induction false} MembersUnique(a: Json, es: seq<Member>, ra: Text, b: Json, fs: seq<Member>, rb: Text)
    requires forall i :: 0 <= i < |es| ==> es[i].value < a && WellFormed(es[i].value)
    requires forall i :: 0 <= i < |fs| ==> fs[i].value < b && WellFormed(fs[i].value)
    requires MemberTexts(a, es).Some? && MemberTexts(b, fs).Some?
    requires Join(MemberTexts(a, es).value) + ([125] + ra) == Join(MemberTexts(b, fs).value) + ([125] + rb)
    ensures ra == rb && |es| == |fs|
    ensures forall i :: 0 <= i < |es| ==> es[i].key == fs[i].key && Alike(es[i].value, fs[i].value)
    decreases a, |es|
  {
    var ts, us := MemberTexts(a, es).value, MemberTexts(b, fs).value;
    var ca, cb := [125] + ra, [125] + rb;
    MembersStart(a, es, ca);
    MembersStart(b, fs, cb);
    if es == [] {
      assert ra == (Join(ts) + ca)[1..] && rb == (Join(us) + cb)[1..];
    } else {
      JoinFirst(ts, ca);
      JoinFirst(us, cb);
      MemberUnique(a, es[0], Behind(ts, ca), b, fs[0], Behind(us, cb));
      BehindUnique(ts, ca, us, cb, 125);
      if |es| == 1 {
        assert ra == ca[1..] && rb == cb[1..];
      } else {
        MembersUnique(a, es[1..], ra, b, fs[1..], rb);
      }
    }
  }

  lemma {:induction false} MemberUnique(a: Json, e: Member, ra: Text, b: Json, f: Member, rb: Text)
    requires e.value < a && WellFormed(e.value)
    requires f.value < b && WellFormed(f.value)
    requires Canonical(e.value).Some? && Canonical(f.value).Some?
    requires Delimited(ra) && Delimited(rb)
    requires MemberText(e, Canonical(e.value).value) + ra == MemberText(f, Canonical(f.value).value) + rb
    ensures e.key == f.key && Alike(e.value, f.value) && ra == rb
    decreases a, 0
  {
    hide Canonical, Quoted, Alike;
    var va, vb := Canonical(e.value).value, Canonical(f.value).value;
    var xa, xb := [COLON] + (va + ra), [COLON] + (vb + rb);
    assert MemberText(e, va) + ra == Quoted(e.key) + xa;
    assert MemberText(f, vb) + rb == Quoted(f.key) + xb;
    QuotedUnique(e.key, xa, f.key, xb);
    assert va + ra == xa[1..] && vb + rb == xb[1..];
    Unique(e.value, ra, f.value, rb);
  }

  lemma MembersStart(a: Json, es: seq<Member>, close: Text)
    requires forall i :: 0 <= i < |es| ==> es[i].value < a
    requires MemberTexts(a, es).Some? && close != [] && Delimited(close)
    ensures |MemberTexts(a, es).value| == |es|
    ensures var t := Join(MemberTexts(a, es).value) + close; t != [] && (Delimited(t) <==> es == [])
  {
    MemberTextsLength(a, es);
    var ts := MemberTexts(a, es).value;
    if es == [] {
      assert Join(ts) + close == close;
    } else {
      JoinFirst(ts, close);
      assert ts[0][0] == QUOTE;
    }
  }

  lemma {:induction false} MemberTextsLength(a: Json, es: seq<Member>)
    requires forall i :: 0 <= i < |es| ==> es[i].value < a
    requires MemberTexts(a, es).Some?
    ensures |MemberTexts(a, es).value| == |es|
    decreases |es|
  {
    if es != [] {
      MemberTextsLength(a, es[1..]);
    }
  }

  lemma {:induction false} SameFields(ms: seq<Member>, ns: seq<Member>)
    requires DistinctKeys(ms) && DistinctKeys(ns)
    requires var es, fs := Sorted(Defined(ms)), Sorted(Defined(ns));
             |es| == |fs|
             && forall i :: 0 <= i < |es| ==> es[i].key == fs[i].key && Alike(es[i].value, fs[i].value)
    ensures Fields(ms).Keys == Fields(ns).Keys
    ensures forall k <- Fields(ms) :: Alike(Fields(ms)[k], Fields(ns)[k])
  {
    hide Sorted, Defined, Fields, Alike;
    var es, fs := Sorted(Defined(ms)), Sorted(Defined(ns));
    EntriesAreFields(ms);
    EntriesAreFields(ns);
    forall k | k in Fields(ms)
      ensures k in Fields(ns) && Alike(Fields(ms)[k], Fields(ns)[k])
    {
      assert HasKey(es, k);
      var i :| 0 <= i < |es| && es[i].key == k;
      assert fs[i].key in Fields(ns);
    }
    forall k | k in Fields(ns)
      ensures k in Fields(ms)
    {
      assert HasKey(fs, k);
      var i :| 0 <= i < |fs| && fs[i].key == k;
      assert es[i].key in Fields(ms);
    }
  }

  // --- Main results ---

  /**
   Any two values have one text exactly when they are alike: what means the same, holes
   standing against holes, and an array of one hole like the empty array.
   */
  lemma {:induction false} ExactWithHoles(a: Json, b: Json)
    requires WellFormed(a) && WellFormed(b)
    requires Canonical(a).Some? && Canonical(b).Some?
    ensures Canonical(a) == Canonical(b) <==> Alike(a, b)
  {
    hide Canonical, Alike, WellFormed;
    assert Canonical(a).value + [] == Canonical(a).value;
    assert Canonical(b).value + [] == Canonical(b).value;
    if Canonical(a) == Canonical(b) {
      Unique(a, [], b, []);
    }
    if Alike(a, b) {
      SameText(a, b);
    }
  }

  lemma {:induction false} AlikeIsSame(a: Json, b: Json)
    requires HoleFree(a) && HoleFree(b)
    ensures Alike(a, b) <==> Same(a, b)
    decreases a
  {
    match a
    case Arr(xs) =>
      BareHoleFree(xs);
      if b.Arr? {
        BareHoleFree(b.items);
        forall i | 0 <= i < |xs| && i < |b.items|
          ensures Alike(xs[i], b.items[i]) <==> Same(xs[i], b.items[i])
        {
          AlikeIsSame(xs[i], b.items[i]);
        }
      }
    case Obj(ms) =>
      if b.Obj? {
        forall k | k in Fields(ms) && k in Fields(b.members)
          ensures Alike(Fields(ms)[k], Fields(b.members)[k]) <==> Same(Fields(ms)[k], Fields(b.members)[k])
        {
          FieldHoleFree(ms, k);
          FieldHoleFree(b.members, k);
          AlikeIsSame(Fields(ms)[k], Fields(b.members)[k]);
        }
      }
    case _ =>
  }

  lemma BareHoleFree(xs: seq<Json>)
    requires forall i :: 0 <= i < |xs| ==> !xs[i].Hole?
    ensures Bare(xs) <==> xs == []
  {
    assert xs != [] ==> !xs[0].Hole?;
  }

  lemma FieldHoleFree(ms: seq<Member>, k: Text)
    requires k in Fields(ms) && forall i :: 0 <= i < |ms| ==> HoleFree(ms[i].value)
    ensures HoleFree(Fields(ms)[k])
  {
    assert Member(k, Fields(ms)[k]) in ms;
  }

  /** Hole-free values have one text exactly when they mean the same. */
  lemma Exact(a: Json, b: Json)
    requires WellFormed(a) && WellFormed(b) && HoleFree(a) && HoleFree(b)
    requires Canonical(a).Some? && Canonical(b).Some?
    ensures Canonical(a) == Canonical(b) <==> Same(a, b)
  {
    hide Canonical, Alike, Same, WellFormed, HoleFree;
    ExactWithHoles(a, b);
    AlikeIsSame(a, b);
  }

  // --- Array holes ---

  /** The documented reading of a hole: null, as JSON.stringify has it. */
  function FillHoles(v: Json): Json
    decreases v, 0
  {
    match v
    case Hole => Null
    case Arr(xs) => Arr(FillItems(xs))
    case Obj(ms) => Obj(FillMembers(ms))
    case _ => v
  }

  function FillItems(xs: seq<Json>): (r: seq<Json>)
    ensures |r| == |xs|
    decreases xs, 0
  {
    if xs == [] then [] else [FillHoles(xs[0])] + FillItems(xs[1..])
  }

  function FillMember(m: Member): Member
    decreases m, 0
  {
    Member(m.key, FillHoles(m.value))
  }

  function FillMembers(ms: seq<Member>): (r: seq<Member>)
    ensures |r| == |ms|
    decreases ms, 0
  {
    if ms == [] then [] else [FillMember(ms[0])] + FillMembers(ms[1..])
  }

  lemma {:induction false} FillNothing(v: Json)
    requires HoleFree(v) && !v.Hole?
    ensures FillHoles(v) == v
    decreases v, 0
  {
    match v
    case Arr(xs) => FillNoItems(xs);
    case Obj(ms) => FillNoMembers(ms);
    case _ =>
  }

  lemma {:induction false} FillNoItems(xs: seq<Json>)
    requires forall i :: 0 <= i < |xs| ==> !xs[i].Hole? && HoleFree(xs[i])
    ensures FillItems(xs) == xs
    decreases xs, 0
  {
    if xs != [] {
      FillNothing(xs[0]);
      FillNoItems(xs[1..]);
    }
  }

  lemma {:induction false} FillNoMembers(ms: seq<Member>)
    requires forall i :: 0 <= i < |ms| ==> !ms[i].value.Hole? && HoleFree(ms[i].value)
    ensures FillMembers(ms) == ms
    decreases ms, 0
  {
    if ms != [] {
      FillNothing(ms[0].value);
      FillNoMembers(ms[1..]);
    }
  }

  lemma FillKind(m: Member)
    requires !m.value.Hole?
    ensures FillMember(m).key == m.key && (FillMember(m).value.Undefined? <==> m.value.Undefined?)
  {
  }

  lemma {:induction false} FillConcat(a: seq<Member>, b: seq<Member>)
    ensures FillMembers(a + b) == FillMembers(a) + FillMembers(b)
  {
    hide FillMember;
    if a == [] {
      assert a + b == b;
    } else {
      FillConcat(a[1..], b);
      assert (a + b)[1..] == a[1..] + b;
    }
  }

  lemma {:induction false} FillDefined(ms: seq<Member>)
    requires forall i :: 0 <= i < |ms| ==> !ms[i].value.Hole?
    ensures Defined(FillMembers(ms)) == FillMembers(Defined(ms))
  {
    hide FillMember;
    if ms != [] {
      FillDefined(ms[1..]);
      FillKind(ms[0]);
      assert FillMembers(ms)[1..] == FillMembers(ms[1..]);
      FillConcat([ms[0]], Defined(ms[1..]));
    }
  }

  lemma {:induction false} FillInsert(m: Member, es: seq<Member>)
    requires !m.value.Hole? && forall i :: 0 <= i < |es| ==> !es[i].value.Hole?
    ensures Insert(FillMember(m), FillMembers(es)) == FillMembers(Insert(m, es))
  {
    hide FillMember, Before;
    FillKind(m);
    if es == [] {
      FillConcat([m], []);
    } else {
      FillKind(es[0]);
      FillInsert(m, es[1..]);
      assert FillMembers(es)[1..] == FillMembers(es[1..]);
      FillConcat([m], es);
      FillConcat([es[0]], Insert(m, es[1..]));
    }
  }

  lemma {:induction false} FillSorted(es: seq<Member>)
    requires forall i :: 0 <= i < |es| ==> !es[i].value.Hole?
    ensures Sorted(FillMembers(es)) == FillMembers(Sorted(es))
  {
    hide FillMember, Insert;
    if es != [] {
      FillSorted(es[1..]);
      assert FillMembers(es)[1..] == FillMembers(es[1..]);
      FillInsert(es[0], Sorted(es[1..]));
    }
  }

  /** Longer pieces make a longer list. */
  lemma {:induction false} LongerJoin(ts: seq<Text>, us: seq<Text>)
    requires |ts| == |us| && forall i :: 0 <= i < |ts| ==> |ts[i]| <= |us[i]|
    ensures |Join(ts)| <= |Join(us)|
    ensures (exists i :: 0 <= i < |ts| && |ts[i]| < |us[i]|) ==> |Join(ts)| < |Join(us)|
  {
    if |ts| > 1 {
      LongerJoin(ts[1..], us[1..]);
      if i :| 0 <= i < |ts| && |ts[i]| < |us[i]| {
        assert i > 0 ==> |ts[1..][i - 1]| < |us[1..][i - 1]|;
      }
    }
  }

  /** Filling holes never shortens the text, and lengthens it when there is a hole to fill. */
  lemma {:induction false} FillGrows(v: Json)
    requires Canonical(v).Some?
    ensures Canonical(FillHoles(v)).Some?
    ensures |Canonical(v).value| <= |Canonical(FillHoles(v)).value|
    ensures !HoleFree(v) ==> |Canonical(v).value| < |Canonical(FillHoles(v)).value|
    decreases v
  {
    match v
    case Arr(xs) =>
      var w := FillHoles(v);
      ItemsGrow(v, xs, w);
      LongerJoin(ItemTexts(v, xs).value, ItemTexts(w, w.items).value);
    case Obj(ms) => MembersFill(v);
    case _ =>
  }

  lemma {:induction false} ItemGrows(v: Json, x: Json, w: Json)
    requires x < v && FillHoles(x) < w && ItemText(v, x).Some?
    ensures ItemText(w, FillHoles(x)).Some?
    ensures GrownOne(ItemText(v, x).value, ItemText(w, FillHoles(x)).value, x)
    decreases v, 0
  {
    if x.Hole? {
      assert FillHoles(x) == Null;
      assert Canonical(Null) == Some([110, 117, 108, 108]);
    } else if !x.Undefined? {
      FillGrows(x);
    }
  }

  lemma {:induction false} ItemsGrow(v: Json, xs: seq<Json>, w: Json)
    requires forall i :: 0 <= i < |xs| ==> xs[i] < v
    requires forall i :: 0 <= i < |xs| ==> FillItems(xs)[i] < w
    requires ItemTexts(v, xs).Some?
    ensures ItemTexts(w, FillItems(xs)).Some?
    ensures Grown(ItemTexts(v, xs).value, ItemTexts(w, FillItems(xs)).value, xs)
    decreases v, |xs|
  {
    hide ItemText, FillHoles, GrownOne, Canonical;
    if xs != [] {
      var ys := FillItems(xs);
      assert ys[1..] == FillItems(xs[1..]);
      assert ys[0] == FillHoles(xs[0]) < w;
      ItemGrows(v, xs[0], w);
      ItemsGrow(v, xs[1..], w);
      GrownCons(ItemText(v, xs[0]).value, ItemText(w, ys[0]).value, xs[0],
                ItemTexts(v, xs[1..]).value, ItemTexts(w, ys[1..]).value, xs[1..]);
      assert xs == [xs[0]] + xs[1..];
    }
  }

  predicate GrownOne(t: Text, u: Text, x: Json) {
    |t| <= |u| && (x.Hole? || !HoleFree(x) ==> |t| < |u|)
  }

  /** Piece by piece no shorter, and longer wherever the value has a hole. */
  predicate Grown(ts: seq<Text>, us: seq<Text>, xs: seq<Json>) {
    |ts| == |us| == |xs| && forall i :: 0 <= i < |xs| ==> GrownOne(ts[i], us[i], xs[i])
  }

  lemma GrownCons(t: Text, u: Text, x: Json, ts: seq<Text>, us: seq<Text>, xs: seq<Json>)
    requires GrownOne(t, u, x) && Grown(ts, us, xs)
    ensures Grown([t] + ts, [u] + us, [x] + xs)
  {
  }

  function Values(es: seq<Member>): (xs: seq<Json>)
    ensures |xs| == |es| && forall i :: 0 <= i < |xs| ==> xs[i] == es[i].value
  {
    seq(|es|, i requires 0 <= i < |es| => es[i].value)
  }

  lemma {:induction false} MembersFill(v: Json)
    requires v.Obj? && Canonical(v).Some?
    ensures Canonical(FillHoles(v)).Some?
    ensures |Canonical(v).value| <= |Canonical(FillHoles(v)).value|
    ensures !HoleFree(v) ==> |Canonical(v).value| < |Canonical(FillHoles(v)).value|
    decreases v, 1 + |Sorted(Defined(v.members))|
  {
    hide MemberTexts, Sorted, Defined, FillMembers, Join;
    var w := FillHoles(v);
    var es := Sorted(Defined(v.members));
    FilledEntries(v);
    MembersGrow(v, es, w);
    var ts, us := MemberTexts(v, es).value, MemberTexts(w, FillMembers(es)).value;
    LongerJoin(ts, us);
    if !HoleFree(v) {
      var j := HoleyEntry(v);
      assert |ts[j]| < |us[j]|;
    }
  }

  lemma {:induction false} HoleyEntry(v: Json) returns (j: nat)
    requires v.Obj? && Canonical(v).Some? && !HoleFree(v)
    ensures var es := Sorted(Defined(v.members)); j < |es| && !HoleFree(es[j].value)
  {
    hide Canonical, Sorted, Defined;
    RefusesExactly(v);
    var ms, es := v.members, Sorted(Defined(v.members));
    var i :| 0 <= i < |ms| && !HoleFree(ms[i].value);
    EntryOf(ms, i);
    j :| 0 <= j < |es| && es[j] == ms[i];
  }

  lemma {:induction false} FilledEntries(v: Json)
    requires v.Obj? && Canonical(v).Some?
    ensures FillHoles(v).Obj?
    ensures Sorted(Defined(FillHoles(v).members)) == FillMembers(Sorted(Defined(v.members)))
    ensures forall e <- FillMembers(Sorted(Defined(v.members))) :: e.value < FillHoles(v)
  {
    hide Canonical, Sorted, Defined, FillMembers;
    RefusesExactly(v);
    FillDefined(v.members);
    FillSorted(Defined(v.members));
    forall e <- FillMembers(Sorted(Defined(v.members)))
      ensures e.value < FillHoles(v)
    {
      assert e in multiset(Sorted(Defined(FillHoles(v).members)));
      assert e in FillHoles(v).members;
    }
  }

  lemma {:induction false} MembersGrow(v: Json, es: seq<Member>, w: Json)
    requires forall i :: 0 <= i < |es| ==> es[i].value < v
    requires forall e <- FillMembers(es) :: e.value < w
    requires MemberTexts(v, es).Some?
    ensures MemberTexts(w, FillMembers(es)).Some?
    ensures Grown(MemberTexts(v, es).value, MemberTexts(w, FillMembers(es)).value, Values(es))
    decreases v, |es|
  {
    if es != [] {
      FillGrows(es[0].value);
      var fs := FillMembers(es);
      assert fs[1..] == FillMembers(es[1..]) && fs[0] == FillMember(es[0]);
      MembersGrow(v, es[1..], w);
      assert Values(es)[1..] == Values(es[1..]);
      var t, u := MemberText(es[0], Canonical(es[0].value).value), MemberText(fs[0], Canonical(fs[0].value).value);
      GrownCons(t, u, es[0].value, MemberTexts(v, es[1..]).value, MemberTexts(w, fs[1..]).value, Values(es[1..]));
      assert Values(es) == [es[0].value] + Values(es[1..]);
    }
  }

  /** A hole is signed as null exactly in the values that have none. */
  lemma {:induction false} HolesBreakIt(v: Json)
    requires Canonical(v).Some?
    ensures Canonical(FillHoles(v)) == Canonical(v) <==> HoleFree(v)
  {
    if HoleFree(v) {
      FillNothing(v);
    } else {
      FillGrows(v);
    }
  }

  /** One hole is signed as the empty array, which it is not. */
  lemma HoleCollision()
    ensures Canonical(Arr([Hole])).Some? && Canonical(Arr([Hole])) == Canonical(Arr([]))
    ensures !Same(Arr([Hole]), Arr([]))
  {
    BareText(Arr([Hole]));
    BareText(Arr([]));
  }
}
