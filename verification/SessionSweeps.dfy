/** Sweeping never shows: the session store answers as one that keeps ended sessions for good. */
module SessionSweeps {
  import opened Wrappers
  import opened Sessions
  import opened SessionRuns

  // --- The store that keeps ended sessions ---

  /** Room is made, and the cap is counted, among the live. */
  function KeptCreate(all: Items, token: Token, address: Felt, chainId: Felt, sweptAt: int, t: int)
    : (Items, Option<Session>)
  {
    var live := Swept(all, sweptAt);
    var rest := DeleteAll(all, Dropped(live, address));
    if |Trimmed(live, address)| >= MAX_SESSIONS then (rest, None)
    else (Put(rest, Minted(token, address, chainId, t)), Some(Minted(token, address, chainId, t)))
  }

  /** The session as it is after the check, None when it is refused. */
  function KeptValidate(all: Items, token: Token, expected: Option<Felt>, t: int): (Items, Option<Session>) {
    var found := Find(all, token);
    if found.None? || !Live(found.value, t) || expected != Some(found.value.chainId) then (all, None)
    else
      var used := found.value.(lastUsedAt := t);
      (Put(all, used), Some(used))
  }

  function KeptNext(all: Items, e: Event): Items {
    match e
    case Created(token, a, c, sweptAt, t, _) => KeptCreate(all, token, a, c, sweptAt, t).0
    case Checked(token, c, t, _) => KeptValidate(all, token, c, t).0
    case Revoked(token) => Delete(all, token)
    case RevokedAll(a) => RevokeAll(all, a)
  }

  function KeptAfter(run: seq<Event>): Items {
    if run == [] then [] else KeptNext(KeptAfter(run[..|run| - 1]), run[|run| - 1])
  }

  // --- The clock ---

  /** The readings of one call, first and last. */
  function First(e: Event, before: int): int {
    match e
    case Created(_, _, _, sweptAt, _, _) => sweptAt
    case Checked(_, _, t, _) => t
    case _ => before
  }

  function Last(e: Event, before: int): int {
    match e
    case Created(_, _, _, _, t, _) => t
    case Checked(_, _, t, _) => t
    case _ => before
  }

  function Clock(start: int, run: seq<Event>): int {
    if run == [] then start else Last(run[|run| - 1], Clock(start, run[..|run| - 1]))
  }

  /** It never goes back. */
  predicate Monotone(start: int, run: seq<Event>) {
    forall i :: 0 <= i < |run| ==>
      var before := Clock(start, run[..i]);
      before <= First(run[i], before) <= Last(run[i], before)
  }

  // --- What the two stores share ---

  /** The same live sessions, in the same order. */
  predicate Agree(items: Items, all: Items, t: int) {
    Distinct(items) && Distinct(all) && Swept(items, t) == Swept(all, t)
  }

  lemma {:induction false} SweptLater(items: Items, s: int, t: int)
    requires s <= t
    ensures Swept(Swept(items, s), t) == Swept(items, t)
  {
    if items != [] {
      SweptLater(items[..|items| - 1], s, t);
    }
  }

  lemma AgreeLater(items: Items, all: Items, s: int, t: int)
    requires Agree(items, all, s) && s <= t
    ensures Agree(items, all, t)
  {
    hide Swept;
    SweptLater(items, s, t);
    SweptLater(all, s, t);
  }

  lemma {:induction false} SweptDeleteAll(items: Items, rs: Items, t: int)
    ensures Swept(DeleteAll(items, rs), t) == DeleteAll(Swept(items, t), rs)
  {
    if rs != [] {
      var front, token := rs[..|rs| - 1], rs[|rs| - 1].tokenHash;
      SweptDeleteAll(items, front, t);
      FilterCommutes((r: Session) => Live(r, t), (x: Session) => x.tokenHash != token, DeleteAll(items, front));
    }
  }

  lemma {:induction false} SweptConcat(a: Items, b: Items, t: int)
    ensures Swept(a + b, t) == Swept(a, t) + Swept(b, t)
  {
    if b == [] {
      assert a + b == a;
    } else {
      SweptConcat(a, b[..|b| - 1], t);
      assert (a + b)[..|a + b| - 1] == a + b[..|b| - 1];
    }
  }

  lemma SweptCons(head: Session, tail: Items, t: int)
    ensures Swept([head] + tail, t) == if Live(head, t) then [head] + Swept(tail, t) else Swept(tail, t)
  {
    SweptConcat([head], tail, t);
    assert [head][..0] == [];
  }

  lemma PutCons(head: Session, tail: Items, r: Session)
    ensures Put([head] + tail, r) == if head.tokenHash == r.tokenHash then [r] + tail else [head] + Put(tail, r)
  {
    assert ([head] + tail)[1..] == tail;
  }

  lemma {:induction false} PutNew(items: Items, r: Session)
    requires Find(items, r.tokenHash).None?
    ensures Put(items, r) == items + [r]
  {
    if items != [] {
      PutNew(items[1..], r);
    }
  }

  lemma NotFound(items: Items, token: Token)
    ensures Find(items, token).None? <==> forall x <- items :: x.tokenHash != token
  {
  }

  /** A use of a live session is a use of it among the live. */
  lemma {:induction false} SweptPut(items: Items, r: Session, used: Session, t: int)
    requires Distinct(items) && r in items && used.tokenHash == r.tokenHash && Live(r, t) && Live(used, t)
    ensures Swept(Put(items, used), t) == Put(Swept(items, t), used)
  {
    var head, tail := items[0], items[1..];
    assert items == [head] + tail;
    if head.tokenHash != r.tokenHash {
      SweptPut(tail, r, used, t);
    }
    hide Swept, Put, Live;
    SweptCons(head, tail, t);
    PutCons(head, tail, used);
    PutCons(head, Swept(tail, t), used);
    SweptCons(used, tail, t);
    SweptCons(head, Put(tail, used), t);
  }

  lemma FoundIs(items: Items, r: Session)
    requires Distinct(items) && r in items
    ensures Find(items, r.tokenHash) == Some(r)
  {
  }

  /** The two stores find the same live session, or neither finds one. */
  lemma SameLive(items: Items, all: Items, token: Token, t: int)
    requires Agree(items, all, t)
    ensures var a, b := Find(items, token), Find(all, token);
            (a.Some? && Live(a.value, t)) || (b.Some? && Live(b.value, t)) ==> a == b
  {
    var a, b := Find(items, token), Find(all, token);
    if a.Some? && Live(a.value, t) {
      assert a.value in Swept(items, t);
      FoundIs(all, a.value);
    }
    if b.Some? && Live(b.value, t) {
      assert b.value in Swept(all, t);
      FoundIs(items, b.value);
    }
  }

  // --- Steps ---

  /** Removing records from both leaves the same live ones. */
  lemma AgreeFiltered(items: Items, all: Items, p: Session -> bool, t: int)
    requires Agree(items, all, t)
    ensures Agree(Filter(p, items), Filter(p, all), t)
  {
    FilterDistinct(p, items);
    FilterDistinct(p, all);
    FilterCommutes((r: Session) => Live(r, t), p, items);
    FilterCommutes((r: Session) => Live(r, t), p, all);
  }

  lemma AgreeCreated(items: Items, all: Items, token: Token, address: Felt, chainId: Felt, sweptAt: int, t: int)
    requires Agree(items, all, sweptAt) && sweptAt <= t
    requires Find(items, token).None? && Find(all, token).None?
    ensures Create(items, token, address, chainId, sweptAt, t).1 ==
            KeptCreate(all, token, address, chainId, sweptAt, t).1
    ensures Agree(Create(items, token, address, chainId, sweptAt, t).0,
                  KeptCreate(all, token, address, chainId, sweptAt, t).0, t)
  {
    hide Swept, Dropped, DeleteAll, Distinct, Put, Find;
    var live := Swept(items, sweptAt);
    var gone := Dropped(live, address);
    var small, big := DeleteAll(live, gone), DeleteAll(all, gone);
    SweptDistinct(items, sweptAt);
    DeleteAllDistinct(live, gone);
    DeleteAllDistinct(all, gone);
    SweptDeleteAll(live, gone, t);
    SweptDeleteAll(all, gone, t);
    SweptLater(items, sweptAt, t);
    AgreeLater(items, all, sweptAt, t);
    assert Agree(small, big, t);
    FreshInBoth(items, all, sweptAt, gone, token);
    AgreeAppended(small, big, Minted(token, address, chainId, t), t);
  }

  lemma SweptDistinct(items: Items, t: int)
    requires Distinct(items)
    ensures Distinct(Swept(items, t))
  {
    FilterDistinct((r: Session) => Live(r, t), items);
  }

  lemma FreshInBoth(items: Items, all: Items, s: int, gone: Items, token: Token)
    requires Find(items, token).None? && Find(all, token).None?
    ensures Find(DeleteAll(Swept(items, s), gone), token).None? && Find(DeleteAll(all, gone), token).None?
  {
    DeleteAllMembers(Swept(items, s), gone);
    DeleteAllMembers(all, gone);
    NotFound(DeleteAll(Swept(items, s), gone), token);
    NotFound(DeleteAll(all, gone), token);
  }

  lemma AgreeAppended(items: Items, all: Items, r: Session, t: int)
    requires Agree(items, all, t) && Find(items, r.tokenHash).None? && Find(all, r.tokenHash).None?
    ensures Agree(Put(items, r), Put(all, r), t)
  {
    hide Swept;
    PutNew(items, r);
    PutNew(all, r);
    SweptConcat(items, [r], t);
    SweptConcat(all, [r], t);
  }

  /** The session a check hands back, if it does. */
  function Handed(v: Validation): Option<Session> {
    if v.Valid? then Some(v.session) else None
  }

  lemma AgreeChecked(items: Items, all: Items, token: Token, expected: Option<Felt>, t: int)
    requires Agree(items, all, t)
    ensures Handed(Validate(items, token, expected, t).1) == KeptValidate(all, token, expected, t).1
    ensures Agree(Validate(items, token, expected, t).0, KeptValidate(all, token, expected, t).0, t)
  {
    SameLive(items, all, token, t);
    hide Agree, Put, Delete, Live;
    var found := Find(items, token);
    LiveIs(found, t);
    LiveIs(Find(all, token), t);
    if found.Some? && Live(found.value, t) {
      if expected == Some(found.value.chainId) {
        AgreeUsed(items, all, found.value, t);
      }
    } else if found.Some? {
      AgreeDead(items, all, found.value, t);
    }
  }

  lemma LiveIs(r: Option<Session>, t: int)
    ensures r.Some? ==> (Live(r.value, t) <==> !(t > r.value.expiresAt) && !(t - r.value.lastUsedAt > SESSION_IDLE_MS))
  {
  }

  lemma AgreeUsed(items: Items, all: Items, r: Session, t: int)
    requires Agree(items, all, t) && r in items && r in all && Live(r, t)
    ensures Agree(Put(items, r.(lastUsedAt := t)), Put(all, r.(lastUsedAt := t)), t)
  {
    var used := r.(lastUsedAt := t);
    PutMembers(items, used);
    PutMembers(all, used);
    SweptPut(items, r, used, t);
    SweptPut(all, r, used, t);
  }

  lemma AgreeDead(items: Items, all: Items, r: Session, t: int)
    requires Agree(items, all, t) && r in items && !Live(r, t)
    ensures Agree(Delete(items, r.tokenHash), all, t)
  {
    FilterDistinct((x: Session) => x.tokenHash != r.tokenHash, items);
    FilterCommutes((x: Session) => Live(x, t), (x: Session) => x.tokenHash != r.tokenHash, items);
    OneHash(items, r);
    DeleteNone(Swept(items, t), r.tokenHash);
  }

  // --- Runs ---

  /** Every record of either store was minted in the run. */
  ghost predicate AllMinted(run: seq<Event>, items: Items) {
    forall x <- items :: MintedIn(run, x.tokenHash)
  }

  lemma MintedMore(run: seq<Event>, n: nat, token: Token)
    requires n <= |run| && MintedIn(run[..n], token)
    ensures MintedIn(run, token)
  {
    var i :| 0 <= i < n && run[..n][i].Created? && run[..n][i].token == token;
    assert run[i].Created? && run[i].token == token;
  }

  /** What a step leaves was there, was used, or was minted by it. */
  lemma KeptMembers(all: Items, e: Event)
    requires Distinct(all)
    ensures forall x <- KeptNext(all, e) ::
              (exists y :: y in all && y.tokenHash == x.tokenHash) || (e.Created? && x.tokenHash == e.token)
  {
    match e
    case Created(token, a, c, sweptAt, t, _) =>
      var gone := Dropped(Swept(all, sweptAt), a);
      DeleteAllMembers(all, gone);
      DeleteAllDistinct(all, gone);
      PutMembers(DeleteAll(all, gone), Minted(token, a, c, t));
    case Checked(token, c, t, _) =>
      var found := Find(all, token);
      if found.Some? {
        PutMembers(all, found.value.(lastUsedAt := t));
      }
    case _ =>
  }

  lemma KeptMinted(run: seq<Event>, all: Items)
    requires run != [] && Distinct(all) && AllMinted(run[..|run| - 1], all)
    ensures AllMinted(run, KeptNext(all, run[|run| - 1]))
  {
    hide KeptNext, MintedIn;
    var n, e := |run| - 1, run[|run| - 1];
    KeptMembers(all, e);
    forall x | x in KeptNext(all, e)
      ensures MintedIn(run, x.tokenHash)
    {
      if y :| y in all && y.tokenHash == x.tokenHash {
        MintedMore(run, n, y.tokenHash);
      } else {
        JustMinted(run, n);
      }
    }
  }

  lemma JustMinted(run: seq<Event>, i: nat)
    requires i < |run| && run[i].Created?
    ensures MintedIn(run, run[i].token)
  {
  }

  /** A fresh token is in neither store. */
  lemma FreshToken(run: seq<Event>, n: nat, all: Items)
    requires Run(run) && n < |run| && run[n].Created? && AllMinted(run[..n], all)
    ensures Find(After(run[..n]), run[n].token).None? && Find(all, run[n].token).None?
  {
    hide Known;
    RunPrefix(run, n);
    InvAfter(run[..n]);
    var items, token := After(run[..n]), run[n].token;
    forall x | x in items
      ensures x.tokenHash != token
    {
      KnownWasMinted(run[..n], x);
    }
    NotFound(items, token);
    NotFound(all, token);
  }

  lemma BothEmpty(start: int)
    ensures Agree([], [], start) && AllMinted([], [])
  {
  }

  lemma MonotonePrefix(start: int, run: seq<Event>, n: nat)
    requires Monotone(start, run) && n <= |run|
    ensures Monotone(start, run[..n])
  {
    forall i | 0 <= i < n
      ensures run[..n][..i] == run[..i]
    {
    }
  }

  /** The answers at event n agree, and so do the stores after it. */
  lemma {:induction false} StepAgrees(start: int, run: seq<Event>, n: nat)
    requires Run(run) && Monotone(start, run) && n < |run|
    ensures var e, all := run[n], KeptAfter(run[..n]);
            && (e.Created? ==> e.made == KeptCreate(all, e.token, e.address, e.chainId, e.sweptAt, e.at).1)
            && (e.Checked? ==> Handed(e.answer) == KeptValidate(all, e.token, e.expected, e.at).1)
    ensures Agree(After(run[..n + 1]), KeptAfter(run[..n + 1]), Clock(start, run[..n + 1]))
    ensures AllMinted(run[..n + 1], KeptAfter(run[..n + 1]))
  {
    hide Agree, Validate, KeptValidate, Create, KeptCreate, AllMinted, Known;
    var past, e := run[..n], run[n];
    RunPrefix(run, n);
    MonotonePrefix(start, run, n);
    if n == 0 {
      BothEmpty(start);
    } else {
      StepAgrees(start, run, n - 1);
    }
    var items, all, before := After(past), KeptAfter(past), Clock(start, past);
    assert run[..n + 1][..n] == past && run[..n + 1][n] == e;
    assert before <= First(e, before) <= Last(e, before);
    DistinctBoth(items, all, before);
    KeptMinted(run[..n + 1], all);
    match e {
      case Created(token, a, c, sweptAt, t, _) =>
        FreshToken(run, n, all);
        AgreeLater(items, all, before, sweptAt);
        AgreeCreated(items, all, token, a, c, sweptAt, t);
      case Checked(token, c, t, _) =>
        AgreeLater(items, all, before, t);
        AgreeChecked(items, all, token, c, t);
      case Revoked(token) =>
        AgreeFiltered(items, all, (x: Session) => x.tokenHash != token, before);
      case RevokedAll(a) =>
        if a.Some? {
          AgreeFiltered(items, all, (r: Session) => r.address != a.value, before);
        }
    }
  }

  lemma DistinctBoth(items: Items, all: Items, t: int)
    requires Agree(items, all, t)
    ensures Distinct(items) && Distinct(all)
  {
  }

  /**
   Sweeping never shows, whatever the run: a session is minted or refused, and a check
   passes with the same session or is refused, as in a store that never drops what ended.
   */
  lemma SweepNeverShows(start: int, run: seq<Event>, i: nat)
    requires Run(run) && Monotone(start, run) && i < |run|
    ensures var e, all := run[i], KeptAfter(run[..i]);
            && (e.Created? ==> e.made == KeptCreate(all, e.token, e.address, e.chainId, e.sweptAt, e.at).1)
            && (e.Checked? ==> Handed(e.answer) == KeptValidate(all, e.token, e.expected, e.at).1)
  {
    StepAgrees(start, run, i);
  }
}
