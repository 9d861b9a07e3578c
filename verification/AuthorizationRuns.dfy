/** One signature, one operation, at most once: over every run of challenges, signatures and requests. */
module AuthorizationRuns {
  import opened Wrappers
  import opened JsonText
  import opened CanonicalJson
  import opened Authorization

  /** A signed message commits to exactly one operation, nonce, chain and account. */
  lemma {:induction false} BindingExact(a: Operation, da: Digest, n: Nonce, c: Felt, x: Felt,
                                        b: Operation, db: Digest, m: Nonce, d: Felt, y: Felt)
    requires JsonBody(a.body) && JsonBody(b.body)
    requires HashBody(a.body) == Some(da) && HashBody(b.body) == Some(db)
    ensures AuthorizationMessage(a, da, n, c, x) == AuthorizationMessage(b, db, m, d, y)
            <==> SameOperation(a, b) && n == m && c == d && x == y
  {
    hide Canonical, Same, Upper, NormalPath, SameLetters, SamePath, SameBody;
    UpperAlike(a.verb, b.verb);
    PathsAlikeExactly(a.path, b.path);
    BodiesAlike(a.body, b.body);
    Exact(BoundBody(a.body), BoundBody(b.body));
  }

  /** Bodies are bound alike exactly when they say the same. */
  lemma BodiesAlike(a: Json, b: Json)
    requires a.Obj? ==> DistinctKeys(a.members)
    requires b.Obj? ==> DistinctKeys(b.members)
    ensures Same(BoundBody(a), BoundBody(b)) <==> SameBody(a, b)
  {
    hide Fields;
    NoFields([]);
    if a.Obj? {
      NoFields(a.members);
    }
    if b.Obj? {
      NoFields(b.members);
    }
  }

  lemma {:induction false} NoFields(ms: seq<Member>)
    ensures Fields(ms) == map[] <==> forall i :: 0 <= i < |ms| ==> ms[i].value.Undefined?
  {
    if ms != [] {
      NoFields(ms[1..]);
      assert ms == [ms[0]] + ms[1..];
      assert ms[0].value.Undefined? || ms[0].key in Fields(ms);
    }
  }

  // --- Methods and paths ---

  lemma {:induction false} StripsClean(t: Text)
    ensures var r := StripSlashes(t);
            (r != [] ==> r[|r| - 1] != 47) && r <= t && forall i :: |r| <= i < |t| ==> t[i] == 47
  {
    if t != [] && t[|t| - 1] == 47 {
      StripsClean(t[..|t| - 1]);
    }
  }

  lemma LowerAlike(x: Text, y: Text)
    ensures Lower(x) == Lower(y) <==> SameLetters(x, y)
  {
    if SameLetters(x, y) {
      forall i | 0 <= i < |x|
        ensures Lower(x)[i] == Lower(y)[i]
      {
        assert SameLetter(x[i], y[i]);
      }
      assert Lower(x) == Lower(y);
    }
    if Lower(x) == Lower(y) {
      assert |x| == |y|;
      forall i | 0 <= i < |x|
        ensures SameLetter(x[i], y[i])
      {
        assert Lower(x)[i] == Lower(y)[i];
      }
    }
  }

  lemma UpperAlike(x: Text, y: Text)
    ensures Upper(x) == Upper(y) <==> SameLetters(x, y)
  {
    if SameLetters(x, y) {
      forall i | 0 <= i < |x|
        ensures Upper(x)[i] == Upper(y)[i]
      {
        assert SameLetter(x[i], y[i]);
      }
      assert Upper(x) == Upper(y);
    }
    if Upper(x) == Upper(y) {
      assert |x| == |y|;
      forall i | 0 <= i < |x|
        ensures SameLetter(x[i], y[i])
      {
        assert Upper(x)[i] == Upper(y)[i];
      }
    }
  }

  /** Slashes at the end come off, however many there are. */
  lemma {:induction false} StripAway(t: Text, i: nat)
    requires i <= |t| && OnlySlashes(t[i..])
    ensures StripSlashes(t) == StripSlashes(t[..i])
    decreases |t|
  {
    if i < |t| {
      var n := |t| - 1;
      assert t[i..][n - i] == 47;
      assert t[..n][i..] == t[i..][..n - i] && t[..n][..i] == t[..i];
      StripAway(t[..n], i);
    } else {
      assert t[..i] == t;
    }
  }

  lemma {:induction false} StripAlike(x: Text, y: Text)
    requires SameLetters(x, y)
    ensures SameLetters(StripSlashes(x), StripSlashes(y))
  {
    if x != [] {
      var n := |x| - 1;
      assert SameLetter(x[n], y[n]);
      if x[n] == 47 {
        StripAlike(x[..n], y[..n]);
      }
    }
  }

  /** Two paths are the same exactly when what is left without slashes at the end is. */
  lemma SamePathStripped(a: Text, b: Text)
    ensures SamePath(a, b) <==> SameLetters(StripSlashes(a), StripSlashes(b))
  {
    hide SameLetters;
    if SamePath(a, b) {
      var i, j :| 0 <= i <= |a| && 0 <= j <= |b| && OnlySlashes(a[i..]) && OnlySlashes(b[j..])
                  && SameLetters(a[..i], b[..j]);
      StripAway(a, i);
      StripAway(b, j);
      StripAlike(a[..i], b[..j]);
    }
    if SameLetters(StripSlashes(a), StripSlashes(b)) {
      StripsClean(a);
      StripsClean(b);
      var i, j := |StripSlashes(a)|, |StripSlashes(b)|;
      assert a[..i] == StripSlashes(a) && b[..j] == StripSlashes(b);
      assert OnlySlashes(a[i..]) && OnlySlashes(b[j..]);
    }
  }

  /** Two paths bind alike exactly when they differ in case and in slashes at the end only. */
  lemma PathsAlikeExactly(a: Text, b: Text)
    ensures NormalPath(a) == NormalPath(b) <==> SamePath(a, b)
  {
    SamePathStripped(a, b);
    StripsClean(a);
    StripsClean(b);
    var x, y := StripSlashes(a), StripSlashes(b);
    assert x != [] ==> Lower(x)[|x| - 1] != 47;
    assert y != [] ==> Lower(y)[|y| - 1] != 47;
    hide Lower, StripSlashes, SameLetters;
    LowerAlike(x, y);
  }

  // --- Runs ---

  datatype Event =
    | Issued(nonce: Nonce, address: Felt, chainId: Felt, sweptAt: int, at: int)
    /** A wallet approves one operation; body is its hash. */
    | Signed(account: Felt, op: Operation, body: Digest, nonce: Nonce, chainId: Felt)
    | Requested(credentials: Option<Credentials>, op: Operation, at: int, result: AuthResult)

  function Next(items: Items, e: Event): Items {
    match e
    case Issued(n, a, c, swept, t) => Issue(items, n, a, c, swept, t)
    case Signed(_, _, _, _, _) => items
    case Requested(c, op, t, _) => Authenticate(items, c, op, t).0
  }

  function After(run: seq<Event>): Items {
    if run == [] then map[] else Next(After(run[..|run| - 1]), run[|run| - 1])
  }

  predicate IssuedIn(run: seq<Event>, n: Nonce) {
    exists k :: 0 <= k < |run| && run[k].Issued? && run[k].nonce == n
  }

  predicate SignedIn(run: seq<Event>, account: Felt, m: Message) {
    exists k :: 0 <= k < |run| && run[k].Signed? && run[k].account == account
      && m == AuthorizationMessage(run[k].op, run[k].body, run[k].nonce, run[k].chainId, account)
  }

  /** One more event is possible: nonces are fresh, and signatures were really made. */
  predicate Possible(past: seq<Event>, e: Event) {
    match e
    case Issued(n, _, _, _, _) => !IssuedIn(past, n)
    case Signed(_, op, body, _, _) => JsonBody(op.body) && HashBody(op.body) == Some(body)
    case Requested(c, op, t, result) =>
      JsonBody(op.body) && result == Authenticate(After(past), c, op, t).1
      && (c.Some? && c.value.signature.SignatureOf? ==>
            SignedIn(past, c.value.signature.account, c.value.signature.message))
  }

  predicate Run(run: seq<Event>) {
    forall i :: 0 <= i < |run| ==> Possible(run[..i], run[i])
  }

  predicate AcceptedAt(run: seq<Event>, i: int) {
    0 <= i < |run| && run[i].Requested? && run[i].result.Accepted?
  }

  lemma {:induction false} AcceptedFacts(items: Items, c: Option<Credentials>, op: Operation, now: int)
    requires Authenticate(items, c, op, now).1.Accepted?
    ensures c.Some? && c.value.nonce in items && HashBody(op.body).Some?
    ensures var ch := items[c.value.nonce];
            now <= ch.expiresAt && Authenticate(items, c, op, now).1.address == ch.address
            && c.value.signature ==
               SignatureOf(ch.address,
                           AuthorizationMessage(op, HashBody(op.body).value, ch.nonce, ch.chainId, ch.address))
  {
  }

  lemma UpperIs(t: Text)
    ensures SameLetters(Upper(t), t) && forall i :: 0 <= i < |t| ==> !(97 <= Upper(t)[i] <= 122)
  {
    forall i | 0 <= i < |t|
      ensures SameLetter(Upper(t)[i], t[i])
    {
    }
  }

  lemma {:induction false} AuthenticateOnlySpends(items: Items, c: Option<Credentials>, op: Operation, now: int)
    ensures var after := Authenticate(items, c, op, now).0;
            after == items || (c.Some? && after == items - {c.value.nonce})
    ensures Authenticate(items, c, op, now).1.Accepted? ==>
            c.Some? && Authenticate(items, c, op, now).0 == items - {c.value.nonce}
  {
  }

  /** Every outstanding challenge was issued, as it stands, in the run. */
  lemma {:induction false} OutstandingWasIssued(run: seq<Event>, n: Nonce)
    requires n in After(run)
    ensures exists k :: 0 <= k < |run| && run[k].Issued? && run[k].nonce == n
              && After(run)[n] == Challenge(n, run[k].address, run[k].chainId, run[k].at + CHALLENGE_TTL_MS)
  {
    var past, e := run[..|run| - 1], run[|run| - 1];
    if e.Issued? && e.nonce == n {
      assert run[|run| - 1].Issued?;
    } else {
      if e.Requested? {
        AuthenticateOnlySpends(After(past), e.credentials, e.op, e.at);
      }
      OutstandingWasIssued(past, n);
      var k :| 0 <= k < |past| && past[k].Issued? && past[k].nonce == n
               && After(past)[n] == Challenge(n, past[k].address, past[k].chainId, past[k].at + CHALLENGE_TTL_MS);
      assert run[k] == past[k];
    }
  }

  /** A nonce that was issued but is not outstanding stays so. */
  lemma StaysSpent(past: seq<Event>, e: Event, n: Nonce)
    requires Possible(past, e) && IssuedIn(past, n) && n !in After(past)
    ensures n !in Next(After(past), e)
  {
    hide Authenticate, IssuedIn, After;
    if e.Requested? {
      AuthenticateOnlySpends(After(past), e.credentials, e.op, e.at);
    }
  }

  /** Acceptance spends a nonce that was issued. */
  lemma AcceptanceSpends(run: seq<Event>, i: nat)
    requires Run(run) && AcceptedAt(run, i)
    ensures run[i].credentials.Some?
    ensures var n := run[i].credentials.value.nonce;
            IssuedIn(run[..i], n) && n !in Next(After(run[..i]), run[i])
  {
    hide Authenticate, After;
    var past, r := run[..i], run[i];
    assert Possible(past, r);
    AcceptedFacts(After(past), r.credentials, r.op, r.at);
    AuthenticateOnlySpends(After(past), r.credentials, r.op, r.at);
    OutstandingWasIssued(past, r.credentials.value.nonce);
  }

  lemma IssuedStays(run: seq<Event>, i: nat, j: nat, n: Nonce)
    requires i <= j <= |run| && IssuedIn(run[..i], n)
    ensures IssuedIn(run[..j], n)
  {
    var k :| 0 <= k < i && run[..i][k].Issued? && run[..i][k].nonce == n;
    assert run[..j][k].Issued? && run[..j][k].nonce == n;
  }

  /** A nonce that was accepted once never becomes outstanding again. */
  lemma {:induction false} SpentForGood(run: seq<Event>, i: nat, len: nat)
    requires Run(run) && AcceptedAt(run, i) && i < len <= |run|
    ensures run[i].credentials.Some? && run[i].credentials.value.nonce !in After(run[..len])
  {
    hide Next, Possible;
    var past := run[..len - 1];
    assert run[..len][..len - 1] == past && run[..len][len - 1] == run[len - 1];
    AcceptanceSpends(run, i);
    if i < len - 1 {
      SpentForGood(run, i, len - 1);
      var n := run[i].credentials.value.nonce;
      IssuedStays(run, i, len - 1, n);
      StaysSpent(past, run[len - 1], n);
    }
  }

  /** Where the accepted request's challenge and signature came from. */
  predicate Justifies(run: seq<Event>, i: nat, k: nat, s: nat)
    requires AcceptedAt(run, i) && k < i && s < i
  {
    var r := run[i];
    run[k].Issued? && run[s].Signed? && r.credentials.Some?
    && run[k].nonce == run[s].nonce == r.credentials.value.nonce
    && run[k].address == run[s].account == r.result.address
    && run[k].chainId == run[s].chainId
    && r.at <= run[k].at + CHALLENGE_TTL_MS
    && SameOperation(run[s].op, r.op)
  }

  // --- Main results ---

  /**
   Every accepted request was signed, by the address it is accepted for, for exactly
   this action, method, path, body and chain, against a challenge issued to that
   address no longer than its lifetime ago.
   */
  lemma {:induction false} SignedForExactlyThis(run: seq<Event>, i: nat) returns (k: nat, s: nat)
    requires Run(run) && AcceptedAt(run, i)
    ensures k < i && s < i && Justifies(run, i, k, s)
  {
    hide Authenticate, SameOperation, AuthorizationMessage, JsonBody, HashBody;
    var past, r := run[..i], run[i];
    assert Possible(past, r);
    AcceptedFacts(After(past), r.credentials, r.op, r.at);
    var n := r.credentials.value.nonce;
    OutstandingWasIssued(past, n);
    k :| 0 <= k < |past| && past[k].Issued? && past[k].nonce == n
         && After(past)[n] == Challenge(n, past[k].address, past[k].chainId, past[k].at + CHALLENGE_TTL_MS);
    assert run[k] == past[k];
    var m := r.credentials.value.signature.message;
    var account := run[k].address;
    assert SignedIn(past, account, m);
    s :| 0 <= s < |past| && past[s].Signed? && past[s].account == account
         && m == AuthorizationMessage(past[s].op, past[s].body, past[s].nonce, past[s].chainId, account);
    assert run[s] == past[s] && Possible(run[..s], run[s]);
    BindingExact(run[s].op, run[s].body, run[s].nonce, run[s].chainId, account,
                 r.op, HashBody(r.op.body).value, n, run[k].chainId, account);
  }

  /**
   What the message of an accepted request says, field by field: version two, so nothing
   signed before the binding counts, and the account, chain and nonce of the headers.
   */
  lemma {:induction false} AcceptedSays(run: seq<Event>, i: nat)
    requires Run(run) && AcceptedAt(run, i)
    ensures run[i].credentials.Some? && run[i].credentials.value.signature.SignatureOf?
    ensures var c, op := run[i].credentials.value, run[i].op;
            var s := c.signature;
            s.message.version == 2 && s.message.action == op.action && s.message.nonce == c.nonce
            && c.address == Some(s.account) && s.message.account == s.account
            && c.chainId == Some(s.message.chainId) && SameLetters(s.message.verb, op.verb)
            && forall k :: 0 <= k < |s.message.verb| ==> !(97 <= s.message.verb[k] <= 122)
  {
    hide HashBody, Canonical, SameLetters;
    var past, r := run[..i], run[i];
    assert Possible(past, r);
    AcceptedFacts(After(past), r.credentials, r.op, r.at);
    OutstandingWasIssued(past, r.credentials.value.nonce);
    UpperIs(r.op.verb);
  }

  /** No nonce, and so no signed message, is ever accepted twice. */
  lemma {:induction false} AcceptedOnce(run: seq<Event>, i: nat, j: nat)
    requires Run(run) && AcceptedAt(run, i) && AcceptedAt(run, j) && i < j
    ensures run[i].credentials.Some? && run[j].credentials.Some?
    ensures run[i].credentials.value.nonce != run[j].credentials.value.nonce
    ensures run[i].credentials.value.signature != run[j].credentials.value.signature
  {
    hide Authenticate;
    SpentForGood(run, i, j);
    assert Possible(run[..i], run[i]) && Possible(run[..j], run[j]);
    AcceptedFacts(After(run[..i]), run[i].credentials, run[i].op, run[i].at);
    AcceptedFacts(After(run[..j]), run[j].credentials, run[j].op, run[j].at);
    OutstandingWasIssued(run[..i], run[i].credentials.value.nonce);
    OutstandingWasIssued(run[..j], run[j].credentials.value.nonce);
  }

  /** Between the challenge issued at k and the end, nobody presented its nonce and no sweep came after its time. */
  predicate Untouched(run: seq<Event>, k: nat, len: nat)
    requires k < len <= |run| && run[k].Issued?
  {
    forall j :: k < j < len ==>
      (run[j].Requested? && run[j].credentials.Some? ==> run[j].credentials.value.nonce != run[k].nonce)
      && (run[j].Issued? ==> run[j].sweptAt <= run[k].at + CHALLENGE_TTL_MS)
  }

  /** A challenge stays outstanding until its nonce is presented or it has expired. */
  lemma {:induction false} OutstandingUntilSpent(run: seq<Event>, k: nat, len: nat)
    requires Run(run) && k < len <= |run| && run[k].Issued? && Untouched(run, k, len)
    ensures var n := run[k].nonce;
            n in After(run[..len])
            && After(run[..len])[n] == Challenge(n, run[k].address, run[k].chainId, run[k].at + CHALLENGE_TTL_MS)
  {
    hide Authenticate;
    var past, e := run[..len - 1], run[len - 1];
    assert run[..len][..len - 1] == past && run[..len][len - 1] == e;
    assert Possible(past, e);
    if k < len - 1 {
      OutstandingUntilSpent(run, k, len - 1);
      if e.Issued? {
        assert past[k] == run[k];
        assert e.nonce != run[k].nonce;
      } else if e.Requested? {
        AuthenticateOnlySpends(After(past), e.credentials, e.op, e.at);
      }
    }
  }

  /** The credentials a wallet makes from its challenge and its signature. */
  function CredentialsFor(issued: Event, signed: Event): Credentials
    requires issued.Issued? && signed.Signed?
  {
    var m := AuthorizationMessage(signed.op, signed.body, signed.nonce, signed.chainId, signed.account);
    Credentials(Some(issued.address), issued.nonce, Some(issued.chainId), SignatureOf(signed.account, m))
  }

  /**
   The other way round: whoever signed this operation against an unexpired challenge of
   theirs, and presents it for the first time, is accepted, however the method, the path
   and the body are spelled.
   */
  lemma {:induction false} HonestAccepted(run: seq<Event>, i: nat, k: nat, s: nat)
    requires Run(run) && k < i < |run| && s < i
    requires run[k].Issued? && run[s].Signed? && run[i].Requested?
    requires run[k].nonce == run[s].nonce && run[k].address == run[s].account && run[k].chainId == run[s].chainId
    requires Untouched(run, k, i) && run[i].at <= run[k].at + CHALLENGE_TTL_MS
    requires run[i].credentials == Some(CredentialsFor(run[k], run[s]))
    requires SameOperation(run[s].op, run[i].op) && HashBody(run[i].op.body).Some?
    ensures run[i].result == Accepted(run[k].address)
  {
    hide SameOperation, AuthorizationMessage, JsonBody, HashBody;
    var r, g := run[i], run[s];
    assert Possible(run[..i], r) && Possible(run[..s], g);
    OutstandingUntilSpent(run, k, i);
    BindingExact(g.op, g.body, g.nonce, g.chainId, g.account,
                 r.op, HashBody(r.op.body).value, run[k].nonce, run[k].chainId, run[k].address);
  }
}
