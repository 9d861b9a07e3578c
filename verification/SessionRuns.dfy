/** What a successful read-session check means in any run, and what minting may take away. */
module SessionRuns {
  import opened Wrappers
  import opened Sessions

  // --- Facts about the map ---

  lemma {:induction false} FilterDistinct(p: Session -> bool, items: Items)
    requires Distinct(items)
    ensures Distinct(Filter(p, items))
  {
    if items != [] {
      var front, last := items[..|items| - 1], items[|items| - 1];
      FilterDistinct(p, front);
      var rest := Filter(p, front);
      forall i | 0 <= i < |rest|
        ensures rest[i].tokenHash != last.tokenHash
      {
        assert rest[i] in front;
      }
    }
  }

  lemma {:induction false} DeleteAllMembers(items: Items, rs: Items)
    ensures forall x :: x in DeleteAll(items, rs) <==> x in items && forall r <- rs :: r.tokenHash != x.tokenHash
    ensures |DeleteAll(items, rs)| <= |items|
    ensures |DeleteAll(items, rs)| == |items| ==> DeleteAll(items, rs) == items
  {
    if rs != [] {
      DeleteAllMembers(items, rs[..|rs| - 1]);
      assert rs == rs[..|rs| - 1] + [rs[|rs| - 1]];
    }
  }

  lemma {:induction false} DeleteAllDistinct(items: Items, rs: Items)
    requires Distinct(items)
    ensures Distinct(DeleteAll(items, rs))
  {
    if rs != [] {
      DeleteAllDistinct(items, rs[..|rs| - 1]);
      FilterDistinct((x: Session) => x.tokenHash != rs[|rs| - 1].tokenHash, DeleteAll(items, rs[..|rs| - 1]));
    }
  }

  lemma {:induction false} PutMembers(items: Items, r: Session)
    requires Distinct(items)
    ensures Distinct(Put(items, r))
    ensures forall x :: x in Put(items, r) <==> x == r || (x in items && x.tokenHash != r.tokenHash)
  {
    if items != [] {
      assert items == [items[0]] + items[1..];
      if items[0].tokenHash != r.tokenHash {
        PutMembers(items[1..], r);
        var rest := Put(items[1..], r);
        forall j | 0 <= j < |rest|
          ensures rest[j].tokenHash != items[0].tokenHash
        {
          assert rest[j] in rest;
        }
      }
    }
  }

  /** Deleting records of a distinct map takes each out once. */
  lemma {:induction false} DeleteAllCount(items: Items, rs: Items)
    requires Distinct(items) && Distinct(rs) && forall r <- rs :: r in items
    ensures |DeleteAll(items, rs)| == |items| - |rs|
  {
    if rs != [] {
      var front, last := rs[..|rs| - 1], rs[|rs| - 1];
      assert rs == front + [last];
      DeleteAllCount(items, front);
      DeleteAllMembers(items, front);
      DeleteAllDistinct(items, front);
      DeleteOne(DeleteAll(items, front), last);
    }
  }

  lemma {:induction false} DeleteOne(items: Items, r: Session)
    requires Distinct(items) && r in items
    ensures |Delete(items, r.tokenHash)| == |items| - 1
  {
    var n := |items| - 1;
    var front := items[..n];
    assert items == front + [items[n]];
    if items[n] == r {
      DeleteNone(front, r.tokenHash);
    } else {
      DeleteOne(front, r);
    }
  }

  lemma {:induction false} DeleteNone(items: Items, token: Token)
    requires forall x <- items :: x.tokenHash != token
    ensures Delete(items, token) == items
  {
    if items != [] {
      DeleteNone(items[..|items| - 1], token);
    }
  }

  /** Filters on different questions can be asked in either order. */
  lemma {:induction false} FilterCommutes(p: Session -> bool, q: Session -> bool, items: Items)
    ensures Filter(p, Filter(q, items)) == Filter(q, Filter(p, items))
  {
    if items != [] {
      FilterCommutes(p, q, items[..|items| - 1]);
    }
  }

  lemma {:induction false} MineOfDeleteAll(items: Items, rs: Items, address: Felt)
    ensures Mine(DeleteAll(items, rs), address) == DeleteAll(Mine(items, address), rs)
  {
    if rs != [] {
      var token := rs[|rs| - 1].tokenHash;
      MineOfDeleteAll(items, rs[..|rs| - 1], address);
      FilterCommutes((r: Session) => r.address == address, (x: Session) => x.tokenHash != token,
                     DeleteAll(items, rs[..|rs| - 1]));
    }
  }

  // --- Sorting and dropping ---

  predicate Aged(rs: Items) {
    forall i, j :: 0 <= i < j < |rs| ==> rs[i].createdAt <= rs[j].createdAt
  }

  lemma {:induction false} InsertAged(r: Session, rs: Items)
    requires Aged(rs)
    ensures Aged(InsertByAge(r, rs))
  {
    if rs != [] && r.createdAt > rs[0].createdAt {
      InsertAged(r, rs[1..]);
      var rest := InsertByAge(r, rs[1..]);
      forall j | 0 <= j < |rest|
        ensures rs[0].createdAt <= rest[j].createdAt
      {
        assert rest[j] in multiset(rs[1..]) + multiset{r};
      }
    }
  }

  lemma {:induction false} ByAgeAged(rs: Items)
    ensures Aged(ByAge(rs))
  {
    if rs != [] {
      ByAgeAged(rs[1..]);
      InsertAged(rs[0], ByAge(rs[1..]));
    }
  }

  lemma {:induction false} InsertDistinct(r: Session, rs: Items)
    requires Distinct(rs) && forall x <- rs :: x.tokenHash != r.tokenHash
    ensures Distinct(InsertByAge(r, rs))
  {
    if rs != [] && r.createdAt > rs[0].createdAt {
      InsertDistinct(r, rs[1..]);
      var rest := InsertByAge(r, rs[1..]);
      forall j | 0 <= j < |rest|
        ensures rest[j].tokenHash != rs[0].tokenHash
      {
        assert rest[j] in multiset(rs[1..]) + multiset{r};
      }
    }
  }

  lemma {:induction false} ByAgeDistinct(rs: Items)
    requires Distinct(rs)
    ensures Distinct(ByAge(rs))
  {
    if rs != [] {
      ByAgeDistinct(rs[1..]);
      forall x | x in ByAge(rs[1..])
        ensures x.tokenHash != rs[0].tokenHash
      {
        assert x in multiset(ByAge(rs[1..]));
      }
      InsertDistinct(rs[0], ByAge(rs[1..]));
    }
  }

  lemma SortedMembers(rs: Items)
    ensures forall x :: x in ByAge(rs) <==> x in rs
  {
    forall x
      ensures x in ByAge(rs) <==> x in rs
    {
      assert x in ByAge(rs) <==> x in multiset(ByAge(rs));
      assert x in rs <==> x in multiset(rs);
    }
  }

  /** Trimming takes a wallet's oldest, only as many as needed, and nothing of anyone else. */
  lemma TrimmedFacts(items: Items, address: Felt)
    requires Distinct(items)
    ensures var rest := Trimmed(items, address);
            Distinct(rest) && |rest| <= |items| && (|rest| == |items| ==> rest == items)
            && |Mine(rest, address)| <= MAX_SESSIONS_PER_ADDRESS - 1
            && (forall x :: x in rest ==> x in items)
            && (forall x :: x in items && x.address != address ==> x in rest)
            && (forall x :: x in items && x !in rest ==>
                 |Mine(items, address)| >= MAX_SESSIONS_PER_ADDRESS
                 && forall y :: y in rest && y.address == address ==> x.createdAt <= y.createdAt)
  {
    hide ByAge, Distinct;
    var mine, k := Mine(items, address), Excess(items, address);
    var sorted := ByAge(mine);
    var gone := sorted[..k];
    FilterDistinct((r: Session) => r.address == address, items);
    ByAgeDistinct(mine);
    ByAgeAged(mine);
    SortedMembers(mine);
    PrefixDistinct(sorted, k);
    DeleteAllMembers(items, gone);
    DeleteAllDistinct(items, gone);
    MineOfDeleteAll(items, gone, address);
    DeleteAllCount(mine, gone);
    var rest := Trimmed(items, address);
    forall x, y | x in items && x !in rest && y in rest && y.address == address
      ensures x.createdAt <= y.createdAt
    {
      GoneAreOldest(items, sorted, k, x, y);
    }
    forall x | x in items && x.address != address
      ensures x in rest
    {
      OthersKept(items, gone, x, address);
    }
  }

  lemma PrefixDistinct(rs: Items, k: nat)
    requires Distinct(rs) && k <= |rs|
    ensures Distinct(rs[..k])
  {
  }

  lemma GoneAreOldest(items: Items, sorted: Items, k: nat, x: Session, y: Session)
    requires k <= |sorted| && Aged(sorted) && Distinct(items)
    requires x in items && exists r :: r in sorted[..k] && r.tokenHash == x.tokenHash
    requires forall r <- sorted :: r in items
    requires y in sorted && y !in sorted[..k]
    ensures x.createdAt <= y.createdAt
  {
    var r :| r in sorted[..k] && r.tokenHash == x.tokenHash;
    assert r in items;
    assert r == x;
    var i :| 0 <= i < k && sorted[i] == x;
    forall j | 0 <= j < k
      ensures sorted[j] in sorted[..k]
    {
      assert sorted[j] == sorted[..k][j];
    }
    var j :| 0 <= j < |sorted| && sorted[j] == y;
  }

  lemma OthersKept(items: Items, gone: Items, x: Session, address: Felt)
    requires Distinct(items) && x in items && x.address != address
    requires forall r <- gone :: r in items && r.address == address
    ensures forall r <- gone :: r.tokenHash != x.tokenHash
  {
  }

  // --- Minting ---

  /** How many sessions a wallet holds. */
  function Held(items: Items, address: Felt): nat {
    |Mine(items, address)|
  }

  predicate Capped(items: Items, address: Felt) {
    Held(items, address) <= MAX_SESSIONS_PER_ADDRESS
  }

  lemma {:induction false} FilterTwice(p: Session -> bool, q: Session -> bool, items: Items)
    ensures |Filter(p, Filter(q, items))| <= |Filter(p, items)|
  {
    if items != [] {
      FilterTwice(p, q, items[..|items| - 1]);
    }
  }

  lemma {:induction false} HeldAfterPut(items: Items, r: Session, address: Felt)
    requires forall x <- items :: x.tokenHash == r.tokenHash ==> x.address == r.address
    ensures Held(Put(items, r), address) ==
            Held(items, address) + if Find(items, r.tokenHash).None? && r.address == address then 1 else 0
  {
    if items == [] {
      MineConcat([], [r], address);
    } else if items[0].tokenHash == r.tokenHash {
      assert items == [items[0]] + items[1..];
      MineConcat([items[0]], items[1..], address);
      MineConcat([r], items[1..], address);
    } else {
      HeldAfterPut(items[1..], r, address);
      assert items == [items[0]] + items[1..];
      MineConcat([items[0]], items[1..], address);
      MineConcat([items[0]], Put(items[1..], r), address);
    }
  }

  lemma {:induction false} MineConcat(a: Items, b: Items, address: Felt)
    ensures Mine(a + b, address) == Mine(a, address) + Mine(b, address)
    ensures |a| == 1 ==> |Mine(a, address)| == if a[0].address == address then 1 else 0
  {
    if b == [] {
      assert a + b == a;
      if |a| == 1 {
        assert a[..0] == [];
      }
    } else {
      MineConcat(a, b[..|b| - 1], address);
      assert (a + b)[..|a + b| - 1] == a + b[..|b| - 1];
    }
  }

  /**
   What minting may take away: ended sessions, and the wallet's own oldest when it
   holds five. A refusal takes no live session at all.
   */
  lemma MintingIsFair(items: Items, token: Token, address: Felt, chainId: Felt, sweptAt: int, t: int)
    requires Distinct(items) && |items| <= MAX_SESSIONS
    requires forall x <- items :: x.tokenHash != token
    ensures var (after, made) := Create(items, token, address, chainId, sweptAt, t);
            Distinct(after) && |after| <= MAX_SESSIONS
            && (forall x :: x in after ==> x in items || made == Some(x))
            && (forall x :: x in items && Live(x, sweptAt) && x.address != address ==> x in after)
            && (made.None? ==> forall x :: x in items && Live(x, sweptAt) ==> x in after)
            && (forall x :: x in items && Live(x, sweptAt) && x !in after ==>
                 Held(Swept(items, sweptAt), address) >= MAX_SESSIONS_PER_ADDRESS
                 && forall y :: y in after && y in items && y.address == address ==> x.createdAt <= y.createdAt)
  {
    hide Trimmed, Held, Distinct, Live;
    var swept := Swept(items, sweptAt);
    FilterDistinct((r: Session) => Live(r, sweptAt), items);
    TrimmedFacts(swept, address);
    var rest := Trimmed(swept, address);
    if |rest| < MAX_SESSIONS {
      PutMembers(rest, Minted(token, address, chainId, t));
    }
    assert Held(swept, address) == |Mine(swept, address)| by { HeldIs(swept, address); }
  }

  /** Revoking ends that session, or that wallet's, and no other; an address nobody can read ends none. */
  lemma RevokingIsFair(items: Items, token: Token, address: Option<Felt>)
    ensures forall x :: x in Delete(items, token) <==> x in items && x.tokenHash != token
    ensures forall x :: x in RevokeAll(items, address) <==> x in items && Some(x.address) != address
    ensures Distinct(items) ==> Distinct(Delete(items, token)) && Distinct(RevokeAll(items, address))
  {
    if Distinct(items) {
      FilterDistinct((x: Session) => x.tokenHash != token, items);
      if address.Some? {
        FilterDistinct((x: Session) => x.address != address.value, items);
      }
    }
  }

  lemma HeldIs(items: Items, address: Felt)
    ensures Held(items, address) == |Mine(items, address)|
  {
  }

  lemma MintingCaps(items: Items, token: Token, address: Felt, chainId: Felt, sweptAt: int, t: int, other: Felt)
    requires Distinct(items) && Capped(items, other)
    requires forall x <- items :: x.tokenHash != token
    ensures Capped(Create(items, token, address, chainId, sweptAt, t).0, other)
  {
    hide Trimmed, Distinct;
    var swept := Swept(items, sweptAt);
    FilterDistinct((r: Session) => Live(r, sweptAt), items);
    FilterTwice((r: Session) => r.address == other, (r: Session) => Live(r, sweptAt), items);
    TrimmedFacts(swept, address);
    var rest := Trimmed(swept, address);
    if other != address {
      TrimmedOthers(swept, address, other);
    }
    var r := Minted(token, address, chainId, t);
    if |rest| < MAX_SESSIONS {
      HeldAfterPut(rest, r, other);
    }
  }

  lemma TrimmedOthers(items: Items, address: Felt, other: Felt)
    ensures Held(Trimmed(items, address), other) <= Held(items, other)
  {
    MineOfDeleteAll(items, Dropped(items, address), other);
    DeleteAllMembers(Mine(items, other), Dropped(items, address));
  }

  // --- Runs ---

  datatype Event =
    | Created(token: Token, address: Felt, chainId: Felt, sweptAt: int, at: int, made: Option<Session>)
    | Checked(token: Token, expected: Option<Felt>, at: int, answer: Validation)
    | Revoked(token: Token)
    | RevokedAll(who: Option<Felt>)

  function Next(items: Items, e: Event): Items {
    match e
    case Created(token, a, c, sweptAt, t, _) => Create(items, token, a, c, sweptAt, t).0
    case Checked(token, c, t, _) => Validate(items, token, c, t).0
    case Revoked(token) => Delete(items, token)
    case RevokedAll(a) => RevokeAll(items, a)
  }

  function After(run: seq<Event>): Items {
    if run == [] then [] else Next(After(run[..|run| - 1]), run[|run| - 1])
  }

  predicate MintedIn(run: seq<Event>, token: Token) {
    exists i :: 0 <= i < |run| && run[i].Created? && run[i].token == token
  }

  predicate Possible(past: seq<Event>, e: Event) {
    match e
    case Created(token, a, c, sweptAt, t, made) =>
      !MintedIn(past, token) && made == Create(After(past), token, a, c, sweptAt, t).1
    case Checked(token, c, t, answer) => answer == Validate(After(past), token, c, t).1
    case Revoked(_) => true
    case RevokedAll(_) => true
  }

  predicate Run(run: seq<Event>) {
    forall i :: 0 <= i < |run| ==> Possible(run[..i], run[i])
  }

  /** The last time a token was minted or passed a check. */
  function LastUse(run: seq<Event>, token: Token): Option<int> {
    if run == [] then None
    else
      var e := run[|run| - 1];
      if e.Created? && e.token == token && e.made.Some? then Some(e.at)
      else if e.Checked? && e.token == token && e.answer.Valid? then Some(e.at)
      else LastUse(run[..|run| - 1], token)
  }

  predicate EndedBy(e: Event, token: Token, address: Felt) {
    (e.Revoked? && e.token == token) || (e.RevokedAll? && e.who == Some(address))
  }

  /** Minted at c for this wallet and chain, and never revoked since. */
  predicate Stands(run: seq<Event>, c: int, token: Token, address: Felt, chainId: Felt, at: int) {
    0 <= c < |run| && run[c].Created? && run[c].token == token && run[c].made.Some?
    && run[c].address == address && run[c].chainId == chainId && run[c].at == at
    && forall j :: c < j < |run| ==> !EndedBy(run[j], token, address)
  }

  ghost predicate Known(run: seq<Event>, r: Session) {
    r.expiresAt == r.createdAt + SESSION_ABSOLUTE_MS && LastUse(run, r.tokenHash) == Some(r.lastUsedAt)
    && exists c :: Stands(run, c, r.tokenHash, r.address, r.chainId, r.createdAt)
  }

  lemma StandsOn(run: seq<Event>, c: int, r: Session)
    requires run != [] && !EndedBy(run[|run| - 1], r.tokenHash, r.address)
    requires Stands(run[..|run| - 1], c, r.tokenHash, r.address, r.chainId, r.createdAt)
    ensures Stands(run, c, r.tokenHash, r.address, r.chainId, r.createdAt)
  {
    var past := run[..|run| - 1];
    forall j | c < j < |run|
      ensures !EndedBy(run[j], r.tokenHash, r.address)
    {
      if j < |past| {
        assert run[j] == past[j];
      }
    }
  }

  lemma KnownWasMinted(run: seq<Event>, r: Session)
    requires Known(run, r)
    ensures MintedIn(run, r.tokenHash)
  {
    var c :| Stands(run, c, r.tokenHash, r.address, r.chainId, r.createdAt);
    assert run[c].Created?;
  }

  /** A record that a step leaves alone stays known. */
  lemma KnownStays(run: seq<Event>, r: Session)
    requires run != [] && Known(run[..|run| - 1], r) && !EndedBy(run[|run| - 1], r.tokenHash, r.address)
    requires var e := run[|run| - 1];
             !(e.Created? && e.token == r.tokenHash) && !(e.Checked? && e.token == r.tokenHash && e.answer.Valid?)
    ensures Known(run, r)
  {
    var c :| Stands(run[..|run| - 1], c, r.tokenHash, r.address, r.chainId, r.createdAt);
    StandsOn(run, c, r);
  }

  ghost predicate Inv(run: seq<Event>) {
    var items := After(run);
    Distinct(items) && |items| <= MAX_SESSIONS && (forall a :: Capped(items, a))
    && forall r :: r in items ==> Known(run, r)
  }

  lemma {:induction false} RunPrefix(run: seq<Event>, n: nat)
    requires Run(run) && n <= |run|
    ensures Run(run[..n]) && (n < |run| ==> Possible(run[..n], run[n]))
  {
    hide Possible;
    var past := run[..n];
    forall i | 0 <= i < n
      ensures Possible(past[..i], past[i])
    {
      assert past[..i] == run[..i];
    }
  }

  lemma {:induction false} InvAfter(run: seq<Event>)
    requires Run(run)
    ensures Inv(run)
  {
    hide Inv, Run, Possible;
    if run == [] {
      InvStart();
    } else {
      var n := |run| - 1;
      RunPrefix(run, n);
      InvAfter(run[..n]);
      if run[n].Created? {
        InvCreated(run);
      } else if run[n].Checked? {
        InvChecked(run);
      } else {
        InvRevoked(run);
      }
    }
  }

  lemma InvStart()
    ensures Inv([])
  {
  }

  lemma InvRevoked(run: seq<Event>)
    requires run != [] && Inv(run[..|run| - 1]) && !run[|run| - 1].Created? && !run[|run| - 1].Checked?
    ensures Inv(run)
  {
    hide Inv;
    var past, e := run[..|run| - 1], run[|run| - 1];
    match e {
      case Revoked(token) => InvFiltered(run, (x: Session) => x.tokenHash != token);
      case RevokedAll(a) =>
        if a.Some? {
          InvFiltered(run, (x: Session) => x.address != a.value);
        } else {
          FilterAll(After(past));
          InvFiltered(run, (x: Session) => true);
        }
    }
  }

  lemma {:induction false} FilterAll(items: Items)
    ensures Filter((x: Session) => true, items) == items
  {
    if items != [] {
      FilterAll(items[..|items| - 1]);
    }
  }

  lemma InvFiltered(run: seq<Event>, p: Session -> bool)
    requires run != [] && Inv(run[..|run| - 1]) && After(run) == Filter(p, After(run[..|run| - 1]))
    requires var e := run[|run| - 1];
             !e.Created? && !e.Checked? && forall r: Session :: EndedBy(e, r.tokenHash, r.address) ==> !p(r)
    ensures Inv(run)
  {
    hide Known, EndedBy, Capped, Distinct, LastUse;
    var items := After(run[..|run| - 1]);
    FilterDistinct(p, items);
    forall a
      ensures Capped(After(run), a)
    {
      assert Capped(items, a);
      CappedFilter(p, items, a);
    }
    forall r | r in After(run)
      ensures Known(run, r)
    {
      KnownStays(run, r);
    }
  }

  lemma CappedFilter(p: Session -> bool, items: Items, a: Felt)
    requires Capped(items, a)
    ensures Capped(Filter(p, items), a)
  {
    FilterTwice((r: Session) => r.address == a, p, items);
  }

  lemma {:induction false} InvCreated(run: seq<Event>)
    requires run != [] && Inv(run[..|run| - 1]) && run[|run| - 1].Created? && Possible(run[..|run| - 1], run[|run| - 1])
    ensures Inv(run)
  {
    hide Known, Capped, Distinct, LastUse, Create;
    var past, e := run[..|run| - 1], run[|run| - 1];
    var items := After(past);
    forall x | x in items
      ensures x.tokenHash != e.token
    {
      KnownWasMinted(past, x);
    }
    MintingIsFair(items, e.token, e.address, e.chainId, e.sweptAt, e.at);
    forall a
      ensures Capped(After(run), a)
    {
      assert Capped(items, a);
      MintingCaps(items, e.token, e.address, e.chainId, e.sweptAt, e.at, a);
    }
    forall r | r in After(run)
      ensures Known(run, r)
    {
      if e.made == Some(r) {
        MintedIsKnown(run);
      } else {
        KnownStays(run, r);
      }
    }
  }

  lemma MintedIsKnown(run: seq<Event>)
    requires run != [] && run[|run| - 1].Created? && run[|run| - 1].made.Some?
    requires Possible(run[..|run| - 1], run[|run| - 1])
    ensures Known(run, run[|run| - 1].made.value)
  {
    var r := run[|run| - 1].made.value;
    assert Stands(run, |run| - 1, r.tokenHash, r.address, r.chainId, r.createdAt);
  }

  lemma ValidateMembers(items: Items, token: Token, expected: Option<Felt>, t: int)
    requires Distinct(items)
    ensures var (after, answer) := Validate(items, token, expected, t);
            Distinct(after) && |after| <= |items|
            && (answer.Valid? ==> Find(items, token).Some?
                                  && answer.session == Find(items, token).value.(lastUsedAt := t))
            && forall x :: x in after ==>
                 (x in items && (answer.Valid? ==> x.tokenHash != token)) || (answer.Valid? && x == answer.session)
    ensures forall a :: Held(Validate(items, token, expected, t).0, a) <= Held(items, a)
  {
    hide Held;
    var found := Find(items, token);
    if found.Some? {
      var r := found.value;
      FilterDistinct((x: Session) => x.tokenHash != r.tokenHash, items);
      PutMembers(items, r.(lastUsedAt := t));
      forall a
        ensures Held(Put(items, r.(lastUsedAt := t)), a) <= Held(items, a)
        ensures Held(Delete(items, r.tokenHash), a) <= Held(items, a)
      {
        OneHash(items, r);
        HeldAfterPut(items, r.(lastUsedAt := t), a);
        HeldIs(items, a);
        HeldIs(Delete(items, r.tokenHash), a);
        FilterTwice((r: Session) => r.address == a, (x: Session) => x.tokenHash != r.tokenHash, items);
      }
    }
  }

  lemma OneHash(items: Items, r: Session)
    requires Distinct(items) && r in items
    ensures forall x <- items :: x.tokenHash == r.tokenHash ==> x == r
  {
  }

  lemma InvChecked(run: seq<Event>)
    requires run != [] && Inv(run[..|run| - 1]) && run[|run| - 1].Checked? && Possible(run[..|run| - 1], run[|run| - 1])
    ensures Inv(run)
  {
    hide Known, Distinct, Validate, Held, LastUse;
    var past, e := run[..|run| - 1], run[|run| - 1];
    var items := After(past);
    ValidateMembers(items, e.token, e.expected, e.at);
    forall a
      ensures Capped(After(run), a)
    {
      assert Capped(items, a);
    }
    forall r | r in After(run)
      ensures Known(run, r)
    {
      if e.answer.Valid? && r == e.answer.session {
        UsedIsKnown(run, Find(items, e.token).value);
      } else {
        KnownStays(run, r);
      }
    }
  }

  lemma UsedIsKnown(run: seq<Event>, r: Session)
    requires run != [] && Known(run[..|run| - 1], r)
    requires run[|run| - 1].Checked? && run[|run| - 1].token == r.tokenHash && run[|run| - 1].answer.Valid?
    ensures Known(run, r.(lastUsedAt := run[|run| - 1].at))
  {
    var c :| Stands(run[..|run| - 1], c, r.tokenHash, r.address, r.chainId, r.createdAt);
    StandsOn(run, c, r);
  }

  // --- Main results ---

  /** At any time at most five sessions a wallet and ten thousand in all. */
  lemma {:induction false} AlwaysCapped(run: seq<Event>, address: Felt)
    requires Run(run)
    ensures |After(run)| <= MAX_SESSIONS && Held(After(run), address) <= MAX_SESSIONS_PER_ADDRESS
  {
    InvAfter(run);
    assert Capped(After(run), address);
  }

  /**
   A check that passes proves all of it: the token was minted in this run for this
   wallet and chain, at most eight hours ago, was never revoked since, and was last
   used at most thirty minutes ago.
   */
  lemma {:induction false} PassedMeans(run: seq<Event>, i: nat) returns (c: nat)
    requires Run(run) && i < |run| && run[i].Checked? && run[i].answer.Valid?
    ensures var e, s := run[i], run[i].answer.session;
            Stands(run[..i], c, e.token, s.address, s.chainId, s.createdAt)
            && e.expected == Some(s.chainId) && e.at - s.createdAt <= SESSION_ABSOLUTE_MS
            && LastUse(run[..i], e.token).Some? && e.at - LastUse(run[..i], e.token).value <= SESSION_IDLE_MS
  {
    var past, e := run[..i], run[i];
    RunPrefix(run, i);
    InvAfter(past);
    var r := Find(After(past), e.token).value;
    assert Known(past, r);
    c :| Stands(past, c, r.tokenHash, r.address, r.chainId, r.createdAt);
  }

  /** The token was minted here, or passed a check. */
  predicate UsedAt(run: seq<Event>, j: nat, token: Token)
    requires j < |run|
  {
    (run[j].Created? && run[j].token == token && run[j].made.Some?)
    || (run[j].Checked? && run[j].token == token && run[j].answer.Valid?)
  }

  lemma {:induction false} LastUseIs(run: seq<Event>, i: nat, j: nat, token: Token)
    requires i < j <= |run| && UsedAt(run, i, token) && forall k :: i < k < j ==> !UsedAt(run, k, token)
    ensures LastUse(run[..j], token) == Some(run[i].at)
  {
    assert run[..j][..j - 1] == run[..j - 1];
    if j > i + 1 {
      LastUseIs(run, i, j - 1, token);
      assert !UsedAt(run, j - 1, token);
    }
  }

  /** A token in use was minted in the run. */
  lemma UsedWasMinted(run: seq<Event>, i: nat, j: nat, token: Token)
    requires Run(run) && i < j <= |run| && UsedAt(run, i, token)
    ensures MintedIn(run[..j], token)
  {
    if run[i].Created? {
      assert run[..j][i].Created?;
    } else {
      var c := PassedMeans(run, i);
      assert run[..j][c] == run[..i][c];
      assert run[..j][c].Created?;
    }
  }

  /** Between any two consecutive uses of a token no more than thirty minutes go by. */
  lemma NoLongGap(run: seq<Event>, i: nat, j: nat, token: Token)
    requires Run(run) && i < j < |run| && UsedAt(run, i, token) && UsedAt(run, j, token)
    requires forall k :: i < k < j ==> !UsedAt(run, k, token)
    ensures run[j].Checked? && run[j].at - run[i].at <= SESSION_IDLE_MS
  {
    hide UsedAt, Stands, Known, MintedIn;
    UsedWasMinted(run, i, j, token);
    RunPrefix(run, j);
    LastUseIs(run, i, j, token);
    SecondUse(run, j, token);
    var c := PassedMeans(run, j);
  }

  lemma SecondUse(run: seq<Event>, j: nat, token: Token)
    requires j < |run| && Possible(run[..j], run[j]) && MintedIn(run[..j], token) && UsedAt(run, j, token)
    ensures run[j].Checked? && run[j].token == token && run[j].answer.Valid?
  {
  }

  /** And nothing else is refused: a live session of the store on its own chain always passes. */
  lemma LivePasses(items: Items, r: Session, t: int)
    requires Distinct(items) && r in items
    ensures Validate(items, r.tokenHash, Some(r.chainId), t).1.Valid? <==> Live(r, t)
  {
    OneHash(items, r);
  }
}
