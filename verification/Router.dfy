/** Where the application is: router.ts, with the legacy circle query of appRoute.ts. */
module Router {
  import opened Wrappers
  import opened Digits
  import opened Amount
  import opened UriText

  const MAX_CIRCLE_ID: nat := 0xFFFF_FFFF

  datatype Route =
    | Landing | Home | Explore | MyCircles | Invitations | CirclePage(circleId: int) | Standing | NewCircle
    | PrizeSavings | Invite(token: string) | Console | Admin | AuthCallback | AuthConfirm | Onboarding
    | NotFound(path: string)

  datatype Resolved = Resolved(route: Route, redirectTo: Option<string>)

  predicate IsCircleId(n: int) {
    1 <= n <= MAX_CIRCLE_ID
  }

  /** Strictly decimal digits, naming an id. */
  function CircleIdOf(digits: string): (r: Option<int>)
    ensures r.Some? ==> IsCircleId(r.value)
  {
    if IsNumeral(digits, 10) && IsCircleId(NumeralValue(digits, 10)) then Some(NumeralValue(digits, 10)) else None
  }

  /** The non-empty pieces between slashes. */
  function SegmentsOf(s: string): (parts: seq<string>)
    ensures forall k :: 0 <= k < |parts| ==> parts[k] != "" && '/' !in parts[k]
    decreases |s|
  {
    var i := IndexOf(s, '/');
    var rest := if i == |s| then [] else SegmentsOf(s[i + 1..]);
    if i == 0 then rest else [s[..i]] + rest
  }

  /** None where the code throws. */
  function CirclePath(id: int): Option<string> {
    if IsCircleId(id) then Some("/app/circles/" + Decimal(id)) else None
  }

  /** The path for a route; None where the code throws. */
  function HrefFor(r: Route): Option<string> {
    match r
    case Landing => Some("/")
    case Home => Some("/app")
    case Explore => Some("/app/explore")
    case MyCircles => Some("/app/circles")
    case Invitations => Some("/app/invitations")
    case CirclePage(id) => CirclePath(id)
    case Standing => Some("/app/standing")
    case NewCircle => Some("/app/create")
    case PrizeSavings => Some("/app/prize-savings")
    case Invite(token) => Some("/invite/" + EncodeComponent(token))
    case Console => Some("/strk20")
    case Admin => Some("/admin")
    case AuthCallback => Some("/auth/callback")
    case AuthConfirm => Some("/auth/confirm")
    case Onboarding => Some("/app/onboarding")
    case NotFound(path) => Some(path)
  }

  // --- The legacy query ---

  /** The pieces between ampersands, the empty ones left out. */
  function Pairs(s: string): seq<string>
    decreases |s|
  {
    var i := IndexOf(s, '&');
    var rest := if i == |s| then [] else Pairs(s[i + 1..]);
    if i == 0 then rest else [s[..i]] + rest
  }

  function NameOf(pair: string): string {
    pair[..IndexOf(pair, '=')]
  }

  function ValueText(pair: string): string {
    var i := IndexOf(pair, '=');
    if i == |pair| then "" else pair[i + 1..]
  }

  const CIRCLE_PARAM: string := "circle"

  /** The decoded values of every parameter with the name. */
  function ValuesOf(pairs: seq<string>): seq<seq<Byte>> {
    if pairs == [] then []
    else
      var rest := ValuesOf(pairs[1..]);
      if FormBytes(NameOf(pairs[0])) == AsciiBytes(CIRCLE_PARAM) then [FormBytes(ValueText(pairs[0]))] + rest else rest
  }

  /** Bytes that are all decimal digits, as text. */
  function DigitText(bs: seq<Byte>): Option<string> {
    if exists i :: 0 <= i < |bs| && !(0x30 <= bs[i] <= 0x39) then None
    else Some(seq(|bs|, i requires 0 <= i < |bs| => bs[i] as char))
  }

  /** The one circle a query names, or None. */
  function ParseCircleId(search: string): (r: Option<int>)
    ensures r.Some? ==> IsCircleId(r.value)
  {
    var query := if search != "" && search[0] == '?' then search[1..] else search;
    var all := ValuesOf(Pairs(query));
    if |all| != 1 then None
    else
      var digits :- DigitText(all[0]);
      CircleIdOf(digits)
  }

  // --- Resolving ---

  function Plain(r: Route): Resolved {
    Resolved(r, None)
  }

  function Resolve(pathname: string, search: string): Resolved {
    ResolveParts(SegmentsOf(pathname), pathname, ParseCircleId(search))
  }

  /** `legacy` is the circle a first-phase query names. */
  function ResolveParts(parts: seq<string>, pathname: string, legacy: Option<int>): Resolved {
    var n := |parts|;
    var notFound := Plain(NotFound(pathname));
    if n == 0 then Plain(Landing)
    else if n == 1 && parts[0] == "start" then Resolved(NewCircle, Some("/app/create"))
    else if n == 1 && parts[0] == "onboarding" then Resolved(Onboarding, Some("/app/onboarding"))
    else if parts[0] == "admin" then if n == 1 then Plain(Admin) else notFound
    else if n == 2 && parts[0] == "auth" && parts[1] == "callback" then Plain(AuthCallback)
    else if n == 2 && parts[0] == "auth" && parts[1] == "confirm" then Plain(AuthConfirm)
    else if parts[0] == "strk20" then if n == 1 then Plain(Console) else notFound
    else if parts[0] == "invite" then
      if n != 2 then notFound
      else
        var token := DecodeComponent(parts[1]);
        if token.None? || token.value == "" then notFound else Plain(Invite(token.value))
    else if parts[0] != "app" then notFound
    else if n == 1 then
      if legacy.Some? then Resolved(CirclePage(legacy.value), CirclePath(legacy.value)) else Plain(Home)
    else if n == 2 then
      if parts[1] == "explore" then Plain(Explore)
      else if parts[1] == "circles" then Plain(MyCircles)
      else if parts[1] == "invitations" then Plain(Invitations)
      else if parts[1] == "standing" then Plain(Standing)
      else if parts[1] == "create" then Plain(NewCircle)
      else if parts[1] == "prize-savings" then Plain(PrizeSavings)
      else if parts[1] == "onboarding" then Plain(Onboarding)
      else notFound
    else if n == 3 && parts[1] == "circles" then
      var id := CircleIdOf(parts[2]);
      if id.None? then notFound else Plain(CirclePage(id.value))
    else notFound
  }

  // --- Paths and their segments ---

  predicate IsSegment(s: string) {
    s != "" && '/' !in s
  }

  lemma SegmentsTail(s: string)
    requires s != "" && s[0] == '/'
    ensures SegmentsOf(s) == SegmentsOf(s[1..])
  {
  }

  lemma SegmentsLast(a: string)
    requires IsSegment(a)
    ensures SegmentsOf(a) == [a]
  {
    IndexOfUnique(a, '/', "");
    assert a[..|a|] == a;
  }

  lemma SegmentsMore(a: string, rest: string)
    requires IsSegment(a)
    ensures SegmentsOf(a + "/" + rest) == [a] + SegmentsOf(rest)
  {
    IndexOfUnique(a, '/', rest);
    var s := a + "/" + rest;
    assert s[..|a|] == a && s[|a| + 1..] == rest;
  }

  lemma OnePart(s: string, a: string)
    requires IsSegment(a) && s == "/" + a
    ensures SegmentsOf(s) == [a]
  {
    SegmentsTail(s);
    assert s[1..] == a;
    SegmentsLast(a);
  }

  lemma FirstPart(s: string, a: string, rest: string)
    requires IsSegment(a) && s == "/" + (a + "/" + rest)
    ensures SegmentsOf(s) == [a] + SegmentsOf(rest)
  {
    SegmentsTail(s);
    hide SegmentsOf, IsSegment;
    assert s[1..] == a + "/" + rest;
    SegmentsMore(a, rest);
  }

  lemma TwoParts(s: string, a: string, b: string)
    requires IsSegment(a) && IsSegment(b) && s == "/" + (a + "/" + b)
    ensures SegmentsOf(s) == [a, b]
  {
    hide SegmentsOf;
    FirstPart(s, a, b);
    SegmentsLast(b);
  }

  lemma ThreeParts(s: string, a: string, b: string, c: string)
    requires IsSegment(a) && IsSegment(b) && IsSegment(c) && s == "/" + (a + "/" + (b + "/" + c))
    ensures SegmentsOf(s) == [a, b, c]
  {
    hide SegmentsOf, IsSegment;
    FirstPart(s, a, b + "/" + c);
    SegmentsMore(b, c);
    SegmentsLast(c);
  }

  // --- Every route's path leads back to it ---

  lemma DecimalSegment(n: nat)
    ensures IsSegment(Decimal(n))
  {
    hide Decimal;
    var s := Decimal(n);
    assert forall i :: 0 <= i < |s| ==> s[i] != '/';
  }

  lemma CirclePathResolves(id: int, search: string)
    requires IsCircleId(id)
    ensures Resolve(CirclePath(id).value, search) == Plain(CirclePage(id))
  {
    hide Decimal, SegmentsOf, NumeralValue;
    var digits := Decimal(id);
    DecimalSegment(id);
    ThreeParts(CirclePath(id).value, "app", "circles", digits);
    assert CircleIdOf(digits) == Some(id);
  }

  lemma InvitePathResolves(token: string, search: string)
    requires token != ""
    ensures Resolve(HrefFor(Invite(token)).value, search) == Plain(Invite(token))
  {
    hide SegmentsOf, EncodeComponent, DecodeComponent;
    EncodedIsOneSegment(token);
    ComponentRoundTrip(token);
    TwoParts(HrefFor(Invite(token)).value, "invite", EncodeComponent(token));
  }

  /** The routes with nothing in them. */
  predicate IsFixed(r: Route) {
    !r.CirclePage? && !r.Invite? && !r.NotFound?
  }

  lemma NoQuery()
    ensures ParseCircleId("") == None
  {
  }

  /** The segments of a fixed route's path. */
  function PartsFor(r: Route): seq<string>
    requires IsFixed(r)
  {
    match r
    case Landing => []
    case Home => ["app"]
    case Explore => ["app", "explore"]
    case MyCircles => ["app", "circles"]
    case Invitations => ["app", "invitations"]
    case Standing => ["app", "standing"]
    case NewCircle => ["app", "create"]
    case PrizeSavings => ["app", "prize-savings"]
    case Console => ["strk20"]
    case Admin => ["admin"]
    case AuthCallback => ["auth", "callback"]
    case AuthConfirm => ["auth", "confirm"]
    case Onboarding => ["app", "onboarding"]
  }

  lemma PartsResolve(r: Route, pathname: string)
    requires IsFixed(r)
    ensures ResolveParts(PartsFor(r), pathname, None) == Plain(r)
  {
    hide CirclePath, DecodeComponent, CircleIdOf;
  }

  lemma ShortHref(r: Route)
    requires r in {Landing, Home, Console, Admin}
    ensures HrefFor(r).Some? && SegmentsOf(HrefFor(r).value) == PartsFor(r)
  {
    RootSegments();
    hide SegmentsOf, CirclePath, EncodeComponent;
    if r == Home {
      OnePart("/app", "app");
    } else if r == Console {
      OnePart("/strk20", "strk20");
    } else if r == Admin {
      OnePart("/admin", "admin");
    }
  }

  lemma RootSegments()
    ensures SegmentsOf("/") == []
  {
    SegmentsTail("/");
    assert SegmentsOf("") == [];
  }

  lemma {:induction false} AppHref(r: Route)
    requires r in {Explore, MyCircles, Invitations, Standing}
    ensures HrefFor(r).Some? && SegmentsOf(HrefFor(r).value) == PartsFor(r)
  {
    hide SegmentsOf, CirclePath, EncodeComponent;
    if r == Explore {
      TwoParts("/app/explore", "app", "explore");
    } else if r == MyCircles {
      TwoParts("/app/circles", "app", "circles");
    } else if r == Invitations {
      TwoParts("/app/invitations", "app", "invitations");
    } else {
      TwoParts("/app/standing", "app", "standing");
    }
  }

  lemma {:induction false} MoreHref(r: Route)
    requires r in {NewCircle, PrizeSavings, AuthCallback, AuthConfirm, Onboarding}
    ensures HrefFor(r).Some? && SegmentsOf(HrefFor(r).value) == PartsFor(r)
  {
    hide SegmentsOf, CirclePath, EncodeComponent;
    if r == NewCircle {
      TwoParts("/app/create", "app", "create");
    } else if r == PrizeSavings {
      TwoParts("/app/prize-savings", "app", "prize-savings");
    } else if r == AuthCallback {
      TwoParts("/auth/callback", "auth", "callback");
    } else if r == AuthConfirm {
      TwoParts("/auth/confirm", "auth", "confirm");
    } else {
      TwoParts("/app/onboarding", "app", "onboarding");
    }
  }

  lemma {:induction false} FixedPathResolves(r: Route)
    requires IsFixed(r)
    ensures HrefFor(r).Some? && Resolve(HrefFor(r).value, "") == Plain(r)
  {
    NoQuery();
    hide ResolveParts, HrefFor, SegmentsOf, ParseCircleId, PartsFor;
    if r in {Landing, Home, Console, Admin} {
      ShortHref(r);
    } else if r in {Explore, MyCircles, Invitations, Standing} {
      AppHref(r);
    } else {
      MoreHref(r);
    }
    PartsResolve(r, HrefFor(r).value);
  }

  /** What Resolve can return: an id in range, a token that is not empty, a path that leads nowhere. */
  lemma {:induction false} ResolveReturns(pathname: string, search: string)
    ensures var r := Resolve(pathname, search).route;
            && (r.CirclePage? ==> IsCircleId(r.circleId))
            && (r.Invite? ==> r.token != "")
            && (r.NotFound? ==> r.path == pathname && Resolve(pathname, "") == Plain(r))
    ensures Resolve(pathname, search).redirectTo.Some? ==>
              var r := Resolve(pathname, search).route;
              !r.NotFound? && !r.Invite? && Resolve(pathname, search).redirectTo == HrefFor(r)
  {
    hide SegmentsOf, ParseCircleId, DecodeComponent, CircleIdOf, Decimal;
  }

  /**
   For every location: the route it resolves to prints as a path that resolves to that
   same route with no redirect; and a redirect target is that path.
   */
  lemma {:induction false} RouteRoundTrip(pathname: string, search: string)
    ensures var r := Resolve(pathname, search).route;
            HrefFor(r).Some? && Resolve(HrefFor(r).value, "") == Plain(r)
    ensures var to := Resolve(pathname, search).redirectTo;
            to.Some? ==> Resolve(to.value, "") == Plain(Resolve(pathname, search).route)
  {
    ResolveReturns(pathname, search);
    var r := Resolve(pathname, search).route;
    hide Resolve;
    if r.CirclePage? {
      CirclePathResolves(r.circleId, "");
    } else if r.Invite? {
      InvitePathResolves(r.token, "");
    } else if !r.NotFound? {
      FixedPathResolves(r);
    }
  }

  /** Two locations show the same route exactly when what they show has the same path. */
  lemma {:induction false} PathsTellRoutesApart(p: string, q: string, s: string, t: string)
    ensures var a, b := Resolve(p, s).route, Resolve(q, t).route;
            a == b <==> HrefFor(a) == HrefFor(b)
  {
    RouteRoundTrip(p, s);
    RouteRoundTrip(q, t);
  }

  /**
   A mistyped circle id never opens a circle: a path opens one exactly when it is
   /app/circles/ and decimal digits worth an id, up to extra slashes, and then that one.
   */
  lemma {:induction false} CircleOpensExactly(pathname: string, search: string, id: int)
    ensures Resolve(pathname, search) == Plain(CirclePage(id)) <==>
              var parts := SegmentsOf(pathname);
              |parts| == 3 && parts[0] == "app" && parts[1] == "circles"
              && IsNumeral(parts[2], 10) && NumeralValue(parts[2], 10) == id && 1 <= id <= 0xFFFF_FFFF
  {
    hide SegmentsOf, ParseCircleId, DecodeComponent, NumeralValue, Decimal;
  }

  /** An invitation opens exactly at /invite/ and one segment that decodes, to what it decodes to. */
  lemma {:induction false} InviteOpensExactly(pathname: string, search: string, token: string)
    ensures Resolve(pathname, search).route == Invite(token) <==>
              var parts := SegmentsOf(pathname);
              |parts| == 2 && parts[0] == "invite" && DecodeComponent(parts[1]) == Some(token) && token != ""
  {
    hide SegmentsOf, ParseCircleId, DecodeComponent, NumeralValue, CirclePath;
  }

  // --- The legacy link ---

  lemma NumeralBytes(digits: string)
    requires IsNumeral(digits, 10)
    ensures DigitText(FormBytes(digits)) == Some(digits)
  {
    forall i | 0 <= i < |digits|
      ensures '0' <= digits[i] <= '9'
    {
      assert CharDigit(digits[i]).Some? && CharDigit(digits[i]).value < 10;
    }
    FormPlain(digits);
    var bs := FormBytes(digits);
    assert seq(|bs|, i requires 0 <= i < |bs| => bs[i] as char) == digits;
  }

  /** A link of the first phase opens the circle it names, and is replaced by that circle's path. */
  lemma LegacyLinkOpens(id: int)
    requires IsCircleId(id)
    ensures Resolve("/app", "?circle=" + Decimal(id)) == Resolved(CirclePage(id), CirclePath(id))
  {
    OnePart("/app", "app");
    LegacyQueryReads(id);
    hide ParseCircleId, SegmentsOf, Decimal;
  }

  lemma {:induction false} OnePair(query: string)
    requires query != "" && '&' !in query
    ensures Pairs(query) == [query]
  {
    IndexOfUnique(query, '&', "");
    assert query[..|query|] == query;
  }

  lemma LegacyQueryReads(id: int)
    requires IsCircleId(id)
    ensures ParseCircleId("?circle=" + Decimal(id)) == Some(id)
  {
    hide Decimal, FormBytes, NumeralValue, DigitText;
    var digits := Decimal(id);
    var query := CIRCLE_PARAM + "=" + digits;
    var search := "?circle=" + digits;
    assert search[1..] == query;
    forall i | 0 <= i < |query|
      ensures query[i] != '&'
    {
      assert i >= 7 ==> query[i] == digits[i - 7];
    }
    OnePair(query);
    OneValue(query, digits);
    NumeralBytes(digits);
    hide Pairs, ValuesOf, IsNumeral;
    assert CircleIdOf(digits) == Some(id) by { NumeralIsId(id); }
  }

  lemma NumeralIsId(id: int)
    requires IsCircleId(id)
    ensures CircleIdOf(Decimal(id)) == Some(id)
  {
    hide Decimal, NumeralValue;
  }

  lemma OneValue(query: string, digits: string)
    requires query == CIRCLE_PARAM + "=" + digits
    ensures ValuesOf([query]) == [FormBytes(digits)]
  {
    hide FormBytes;
    IndexOfUnique(CIRCLE_PARAM, '=', digits);
    assert query == CIRCLE_PARAM + ['='] + digits;
    assert NameOf(query) == CIRCLE_PARAM && ValueText(query) == digits;
    FormPlain(CIRCLE_PARAM);
    assert ValuesOf([query][1..]) == [];
  }
}
