/**
 The other half of what a session check means: a session that was not revoked, and whose
 wallet has not signed in four more times, passes exactly until it has ended.
 */
module SessionLasts {
  import opened Wrappers
  import opened Sessions
  import opened SessionRuns
  import opened SessionSweeps

  // --- How many sessions of a wallet are newer ---

  /** The wallet's records behind the one with the token, all of them when there is none. */
  function Newer(items: Items, token: Token, address: Felt): nat {
    if items == [] then 0
    else
      var n := |items| - 1;
      if items[n].tokenHash == token then 0
      else Newer(items[..n], token, address) + if items[n].address == address then 1 else 0
  }

  lemma {:induction false} NewerFilter(p: Session -> bool, items: Items, x: Session)
    requires Distinct(items) && x in items && p(x)
    ensures Newer(Filter(p, items), x.tokenHash, x.address) <= Newer(items, x.tokenHash, x.address)
  {
    var n := |items| - 1;
    assert items == items[..n] + [items[n]];
    if items[n].tokenHash != x.tokenHash {
      NewerFilter(p, items[..n], x);
    } else {
      assert items[n] == x;
    }
  }

  lemma {:induction false} NewerDeleteAll(items: Items, rs: Items, x: Session)
    requires Distinct(items) && x in items && forall r <- rs :: r.tokenHash != x.tokenHash
    ensures Newer(DeleteAll(items, rs), x.tokenHash, x.address) <= Newer(items, x.tokenHash, x.address)
  {
    if rs != [] {
      var front, last := rs[..|rs| - 1], rs[|rs| - 1];
      assert rs == front + [last];
      NewerDeleteAll(items, front, x);
      DeleteAllDistinct(items, front);
      DeleteAllMembers(items, front);
      NewerFilter((y: Session) => y.tokenHash != last.tokenHash, DeleteAll(items, front), x);
    }
  }

  /** The same wallets and tokens in the same places. */
  predicate Matched(items: Items, others: Items) {
    |items| == |others|
    && forall i :: 0 <= i < |items| ==>
         items[i].tokenHash == others[i].tokenHash && items[i].address == others[i].address
         && items[i].createdAt == others[i].createdAt
  }

  lemma {:induction false} NewerMatched(items: Items, others: Items, token: Token, address: Felt)
    requires Matched(items, others)
    ensures Newer(items, token, address) == Newer(others, token, address)
  {
    if items != [] {
      NewerMatched(items[..|items| - 1], others[..|items| - 1], token, address);
    }
  }

  /** Using a session leaves its record where it is. */
  lemma {:induction false} PutMatched(items: Items, r: Session, t: int)
    requires Distinct(items) && r in items
    ensures Matched(items, Put(items, r.(lastUsedAt := t)))
  {
    assert items == [items[0]] + items[1..];
    if items[0].tokenHash != r.tokenHash {
      PutMatched(items[1..], r, t);
    } else {
      assert items[0] == r;
    }
  }

  // --- Insertion order is age ---

  lemma {:induction false} AgedFilter(p: Session -> bool, items: Items)
    requires Aged(items)
    ensures Aged(Filter(p, items))
  {
    if items != [] {
      var front, last := items[..|items| - 1], items[|items| - 1];
      AgedFilter(p, front);
      var rest := Filter(p, front);
      forall i | 0 <= i < |rest|
        ensures rest[i].createdAt <= last.createdAt
      {
        assert rest[i] in front;
        var j :| 0 <= j < |front| && front[j] == rest[i];
        assert items[j].createdAt <= items[|items| - 1].createdAt;
      }
    }
  }

  lemma {:induction false} AgedDeleteAll(items: Items, rs: Items)
    requires Aged(items)
    ensures Aged(DeleteAll(items, rs))
  {
    if rs != [] {
      AgedDeleteAll(items, rs[..|rs| - 1]);
      AgedFilter((x: Session) => x.tokenHash != rs[|rs| - 1].tokenHash, DeleteAll(items, rs[..|rs| - 1]));
    }
  }

  /** Sorting what is in order changes nothing. */
  lemma {:induction false} ByAgeOfAged(rs: Items)
    requires Aged(rs)
    ensures ByAge(rs) == rs
  {
    if rs != [] {
      ByAgeOfAged(rs[1..]);
      assert rs == [rs[0]] + rs[1..];
      assert |rs| > 1 ==> rs[0].createdAt <= rs[1].createdAt;
    }
  }

  /** The place of a record among its wallet's. */
  lemma {:induction false} PlaceOfMine(items: Items, x: Session) returns (q: nat)
    requires Distinct(items) && x in items
    ensures var mine := Mine(items, x.address);
            q < |mine| && mine[q] == x && |mine| - 1 - q == Newer(items, x.tokenHash, x.address)
  {
    var n := |items| - 1;
    assert items == items[..n] + [items[n]];
    if items[n].tokenHash == x.tokenHash {
      assert items[n] == x;
      q := |Mine(items[..n], x.address)|;
    } else {
      q := PlaceOfMine(items[..n], x);
    }
  }

  /** Minting drops a session only when its wallet holds four newer ones. */
  lemma NotDropped(items: Items, x: Session, address: Felt)
    requires Distinct(items) && Aged(items) && x in items
    requires x.address == address ==> Newer(items, x.tokenHash, address) < MAX_SESSIONS_PER_ADDRESS - 1
    ensures forall r <- Dropped(items, address) :: r.tokenHash != x.tokenHash
  {
    var mine, gone := Mine(items, address), Dropped(items, address);
    AgedFilter((r: Session) => r.address == address, items);
    ByAgeOfAged(mine);
    FilterDistinct((r: Session) => r.address == address, items);
    forall r | r in gone
      ensures r.tokenHash != x.tokenHash
    {
      assert r in mine;
      OneHash(items, x);
      if x.address == address {
        var q := PlaceOfMine(items, x);
        var i :| 0 <= i < |gone| && gone[i] == r;
        assert mine[i] == r && i < q;
      }
    }
  }

  // --- Runs ---

  /** How often the wallet signed in after event c, a refusal at the cap included. */
  function MintsSince(run: seq<Event>, c: nat, address: Felt): nat {
    if |run| <= c + 1 then 0
    else
      var e := run[|run| - 1];
      MintsSince(run[..|run| - 1], c, address)
        + if e.Created? && e.address == address then 1 else 0
  }

  /** The store that keeps ended sessions, in order of age, none from the future. */
  ghost predicate Orderly(all: Items, t: int) {
    Distinct(all) && Aged(all) && forall x <- all :: x.createdAt <= t
  }

  lemma OrderlyFilter(all: Items, p: Session -> bool, t: int)
    requires Orderly(all, t)
    ensures Orderly(Filter(p, all), t)
  {
    FilterDistinct(p, all);
    AgedFilter(p, all);
  }

  lemma OrderlyCreated(all: Items, token: Token, address: Felt, chainId: Felt, sweptAt: int, before: int, t: int)
    requires Orderly(all, before) && before <= t && Find(all, token).None?
    ensures Orderly(KeptCreate(all, token, address, chainId, sweptAt, t).0, t)
  {
    hide Dropped, DeleteAll, Trimmed, Swept, Distinct, Aged, Find, Put;
    var gone := Dropped(Swept(all, sweptAt), address);
    var rest := DeleteAll(all, gone);
    DeleteAllDistinct(all, gone);
    DeleteAllMembers(all, gone);
    AgedDeleteAll(all, gone);
    NotFound(all, token);
    NotFound(rest, token);
    OrderlyMore(rest, Minted(token, address, chainId, t), t);
  }

  lemma OrderlyMore(items: Items, r: Session, t: int)
    requires Orderly(items, t) && r.createdAt == t && Find(items, r.tokenHash).None?
    ensures Orderly(Put(items, r), t)
  {
    hide Distinct, Find, Put;
    PutMembers(items, r);
    PutNew(items, r);
  }

  lemma OrderlyUsed(all: Items, r: Session, t: int, at: int)
    requires Orderly(all, t) && r in all
    ensures Orderly(Put(all, r.(lastUsedAt := at)), t)
  {
    PutMembers(all, r.(lastUsedAt := at));
    PutMatched(all, r, at);
  }

  lemma {:induction false} OrderlyAfter(start: int, run: seq<Event>)
    requires Run(run) && Monotone(start, run)
    ensures Orderly(KeptAfter(run), Clock(start, run))
  {
    hide Orderly, KeptCreate, Find, Possible, Put;
    if run == [] {
      EmptyOrderly(start);
    } else {
      var n := |run| - 1;
      var past, e := run[..n], run[n];
      RunPrefix(run, n);
      MonotonePrefix(start, run, n);
      OrderlyAfter(start, past);
      var all, before := KeptAfter(past), Clock(start, past);
      assert before <= First(e, before) <= Last(e, before);
      KeptStep(start, run, n);
      match e {
        case Created(token, a, c, sweptAt, t, _) =>
          OrderlyCreated(all, token, a, c, sweptAt, before, t);
        case Checked(token, c, t, _) =>
          OrderlyLater(all, before, t);
          if KeptValidate(all, token, c, t).1.Some? {
            OrderlyUsed(all, Find(all, token).value, t, t);
          }
        case Revoked(token) => OrderlyFilter(all, (x: Session) => x.tokenHash != token, before);
        case RevokedAll(a) =>
          if a.Some? {
            OrderlyFilter(all, (r: Session) => r.address != a.value, before);
          }
      }
    }
  }

  lemma EmptyOrderly(start: int)
    ensures Orderly([], start)
  {
  }

  lemma OrderlyLater(all: Items, s: int, t: int)
    requires Orderly(all, s) && s <= t
    ensures Orderly(all, t)
  {
  }

  /** What event n finds: answers as the run has them, and a fresh token when it mints. */
  lemma KeptStep(start: int, run: seq<Event>, n: nat)
    requires Run(run) && Monotone(start, run) && n < |run|
    ensures var e, all := run[n], KeptAfter(run[..n]);
            && (e.Created? ==> Find(all, e.token).None?
                               && e.made == KeptCreate(all, e.token, e.address, e.chainId, e.sweptAt, e.at).1)
            && (e.Checked? ==> Handed(e.answer) == KeptValidate(all, e.token, e.expected, e.at).1)
  {
    hide Agree, Validate, KeptValidate, Create, KeptCreate, AllMinted, Find;
    StepAgrees(start, run, n);
    if run[n].Created? {
      KeptMintedBefore(start, run, n);
      FreshToken(run, n, KeptAfter(run[..n]));
    }
  }

  lemma KeptMintedBefore(start: int, run: seq<Event>, n: nat)
    requires Run(run) && Monotone(start, run) && n < |run|
    ensures AllMinted(run[..n], KeptAfter(run[..n]))
  {
    if n == 0 {
      assert KeptAfter(run[..0]) == [];
    } else {
      StepAgrees(start, run, n - 1);
    }
  }

  // --- One session, from its mint on ---

  /** The session minted at c as it stands after the run. */
  function StandingAs(run: seq<Event>, c: nat): Session
    requires c < |run| && run[c].Created? && LastUse(run, run[c].token).Some?
  {
    var e := run[c];
    Minted(e.token, e.address, e.chainId, e.at).(lastUsedAt := LastUse(run, e.token).value)
  }

  /** Its record is there, with no more newer ones than its wallet has minted since. */
  ghost predicate Kept(run: seq<Event>, c: nat)
    requires c < |run| && run[c].Created?
  {
    var all, token, a := KeptAfter(run), run[c].token, run[c].address;
    LastUse(run, token).Some? && StandingAs(run, c) in all && Newer(all, token, a) <= MintsSince(run, c, a)
  }

  /** Not revoked, and at most four sign-ins of the wallet since. */
  predicate Spared(run: seq<Event>, c: nat)
    requires c < |run| && run[c].Created?
  {
    MintsSince(run, c, run[c].address) < MAX_SESSIONS_PER_ADDRESS
    && forall j :: c < j < |run| ==> !EndedBy(run[j], run[c].token, run[c].address)
  }

  lemma SparedPrefix(run: seq<Event>, c: nat)
    requires c < |run| - 1 && run[c].Created? && Spared(run, c)
    ensures Spared(run[..|run| - 1], c)
  {
    var past := run[..|run| - 1];
    assert forall j :: c < j < |past| ==> past[j] == run[j];
  }

  lemma {:induction false} KeptSince(start: int, run: seq<Event>, c: nat)
    requires Run(run) && Monotone(start, run) && c < |run| && run[c].Created? && run[c].made.Some?
    requires Spared(run, c)
    ensures Kept(run, c)
  {
    hide Possible, KeptCreate, KeptValidate, Kept, Spared, MintsSince, Orderly, EndedBy;
    var n := |run| - 1;
    RunPrefix(run, n);
    MonotonePrefix(start, run, n);
    KeptStep(start, run, n);
    OrderlyAfter(start, run[..n]);
    if c == n {
      JustKept(start, run);
    } else {
      SparedPrefix(run, c);
      KeptSince(start, run[..n], c);
      var e := run[n];
      if e.Created? {
        KeptMinting(start, run, c);
      } else if e.Checked? {
        KeptChecking(start, run, c);
      } else {
        KeptRevoking(run, c, Clock(start, run[..n]));
      }
    }
  }

  lemma JustKept(start: int, run: seq<Event>)
    requires run != [] && run[|run| - 1].Created? && run[|run| - 1].made.Some?
    requires var e, all := run[|run| - 1], KeptAfter(run[..|run| - 1]);
             Find(all, e.token).None? && e.made == KeptCreate(all, e.token, e.address, e.chainId, e.sweptAt, e.at).1
    ensures Kept(run, |run| - 1)
  {
    hide Dropped, Trimmed, Swept;
    var e, all := run[|run| - 1], KeptAfter(run[..|run| - 1]);
    var gone := Dropped(Swept(all, e.sweptAt), e.address);
    DeleteAllMembers(all, gone);
    NotFound(all, e.token);
    NotFound(DeleteAll(all, gone), e.token);
    PutNew(DeleteAll(all, gone), Minted(e.token, e.address, e.chainId, e.at));
  }

  /** A mint of the wallet adds one newer record; any mint leaves the session where it is. */
  lemma KeptMinting(start: int, run: seq<Event>, c: nat)
    requires c < |run| - 1 && run[c].Created? && run[|run| - 1].Created? && Spared(run, c)
    requires Kept(run[..|run| - 1], c) && Orderly(KeptAfter(run[..|run| - 1]), Clock(start, run[..|run| - 1]))
    requires var e, all := run[|run| - 1], KeptAfter(run[..|run| - 1]);
             Find(all, e.token).None? && e.made == KeptCreate(all, e.token, e.address, e.chainId, e.sweptAt, e.at).1
    ensures Kept(run, c)
  {
    hide Dropped, Trimmed, Swept, Find, Put, Live;
    var past, e := run[..|run| - 1], run[|run| - 1];
    var all, x := KeptAfter(past), StandingAs(past, c);
    var gone := Dropped(Swept(all, e.sweptAt), e.address);
    var rest := DeleteAll(all, gone);
    GoneSpares(all, x, e.address, e.sweptAt, MintsSince(past, c, x.address));
    DeleteAllMembers(all, gone);
    NewerDeleteAll(all, gone, x);
    NotFound(all, e.token);
    NotFound(rest, e.token);
    PutNew(rest, Minted(e.token, e.address, e.chainId, e.at));
  }

  lemma GoneSpares(all: Items, x: Session, address: Felt, sweptAt: int, mints: nat)
    requires Distinct(all) && Aged(all) && x in all && Newer(all, x.tokenHash, x.address) <= mints
    requires x.address == address ==> mints < MAX_SESSIONS_PER_ADDRESS - 1
    ensures forall r <- Dropped(Swept(all, sweptAt), address) :: r.tokenHash != x.tokenHash
  {
    var live := Swept(all, sweptAt);
    FilterDistinct((r: Session) => Live(r, sweptAt), all);
    AgedFilter((r: Session) => Live(r, sweptAt), all);
    if Live(x, sweptAt) {
      NewerFilter((r: Session) => Live(r, sweptAt), all, x);
      NotDropped(live, x, address);
    } else {
      OneHash(all, x);
      DroppedAreMine(live, address);
    }
  }

  lemma DroppedAreMine(items: Items, address: Felt)
    ensures forall r <- Dropped(items, address) :: r in items
  {
    SortedMembers(Mine(items, address));
  }

  lemma KeptChecking(start: int, run: seq<Event>, c: nat)
    requires c < |run| - 1 && run[c].Created? && run[|run| - 1].Checked?
    requires Kept(run[..|run| - 1], c) && Orderly(KeptAfter(run[..|run| - 1]), Clock(start, run[..|run| - 1]))
    requires var e, all := run[|run| - 1], KeptAfter(run[..|run| - 1]);
             Handed(e.answer) == KeptValidate(all, e.token, e.expected, e.at).1
    ensures Kept(run, c)
  {
    hide Put, Live, Newer;
    var past, e := run[..|run| - 1], run[|run| - 1];
    var all, x := KeptAfter(past), StandingAs(past, c);
    if e.answer.Valid? {
      var r := Find(all, e.token).value;
      OneHash(all, x);
      PutMembers(all, r.(lastUsedAt := e.at));
      PutMatched(all, r, e.at);
      NewerMatched(all, KeptAfter(run), x.tokenHash, x.address);
    }
  }

  lemma KeptRevoking(run: seq<Event>, c: nat, t: int)
    requires c < |run| - 1 && run[c].Created? && Spared(run, c)
    requires !run[|run| - 1].Created? && !run[|run| - 1].Checked?
    requires Kept(run[..|run| - 1], c) && Orderly(KeptAfter(run[..|run| - 1]), t)
    ensures Kept(run, c)
  {
    hide Newer;
    var past, e := run[..|run| - 1], run[|run| - 1];
    var all, x := KeptAfter(past), StandingAs(past, c);
    assert !EndedBy(e, x.tokenHash, x.address);
    match e {
      case Revoked(token) => NewerFilter((y: Session) => y.tokenHash != token, all, x);
      case RevokedAll(a) =>
        if a.Some? {
          NewerFilter((y: Session) => y.address != a.value, all, x);
        }
    }
  }

  // --- Main result ---

  /**
   A session that was not revoked, and whose wallet has signed in at most four more times,
   passes a check on its chain exactly until eight hours after its mint or thirty minutes
   after its last use, whichever comes first.
   */
  lemma PassesUntilItEnds(start: int, run: seq<Event>, c: nat, i: nat)
    requires Run(run) && Monotone(start, run) && c < i < |run| && run[c].Created? && run[c].made.Some?
    requires run[i].Checked? && run[i].token == run[c].token && run[i].expected == Some(run[c].chainId)
    requires Spared(run[..i], c)
    ensures LastUse(run[..i], run[c].token).Some?
    ensures run[i].answer.Valid? <==>
              run[i].at - run[c].at <= SESSION_ABSOLUTE_MS
              && run[i].at - LastUse(run[..i], run[c].token).value <= SESSION_IDLE_MS
  {
    hide Possible, Spared, LastUse, Orderly, Newer, MintsSince;
    RunPrefix(run, i);
    MonotonePrefix(start, run, i);
    assert run[..i][c] == run[c];
    KeptSince(start, run[..i], c);
    KeptStep(start, run, i);
    OrderlyAfter(start, run[..i]);
    OrderlyIsDistinct(KeptAfter(run[..i]), Clock(start, run[..i]));
    FoundIs(KeptAfter(run[..i]), StandingAs(run[..i], c));
  }

  lemma OrderlyIsDistinct(all: Items, t: int)
    requires Orderly(all, t)
    ensures Distinct(all)
  {
  }
}
