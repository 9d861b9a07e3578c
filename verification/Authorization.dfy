/**
 What a wallet signature authorizes: authBinding.ts, auth.ts and the authenticate
 step of app.ts.

 Hashes are ideal: a digest is its own preimage, and the message an account signs is
 the typed data itself. Signatures are ideal: presenting one for a message means the
 account signed that message before.
 */
module Authorization {
  import opened Wrappers
  import opened JsonText
  import opened CanonicalJson

  type Nonce = nat
  type Felt = int

  const CHALLENGE_TTL_MS: int := 5 * 60 * 1000

  datatype Action =
    | SessionCreate | DraftCreate | DraftReadOrganizer | DraftReorder | DraftMarkCreated
    | DraftReconcile | DraftsList | AssociationsList | InvitationsList | AdminRead

  // --- authBinding.ts ---

  datatype Digest = Digest(preimage: Text)

  /** ASCII case mapping, all that methods and fixed path segments need. */
  function Upper(t: Text): (r: Text)
    ensures |r| == |t|
  {
    seq(|t|, i requires 0 <= i < |t| => if 97 <= t[i] <= 122 then t[i] - 32 else t[i])
  }

  function Lower(t: Text): (r: Text)
    ensures |r| == |t|
  {
    seq(|t|, i requires 0 <= i < |t| => if 65 <= t[i] <= 90 then t[i] + 32 else t[i])
  }

  function StripSlashes(t: Text): Text {
    if t != [] && t[|t| - 1] == 47 then StripSlashes(t[..|t| - 1]) else t
  }

  function NormalPath(path: Text): Text {
    var p := Lower(StripSlashes(path));
    if p == [] then [47] else p
  }

  function HashResource(path: Text): Digest {
    Digest(NormalPath(path))
  }

  /** A read carries no body and binds the empty object. */
  function BoundBody(body: Json): Json {
    if Nullish(body) then Obj([]) else body
  }

  function HashBody(body: Json): Option<Digest> {
    var text :- Canonical(BoundBody(body));
    Some(Digest(text))
  }

  /** A request as it is signed by the client and as it is observed by the server. */
  datatype Operation = Operation(action: Action, verb: Text, path: Text, body: Json)

  /** The SNIP-12 payload, domain included. */
  datatype Message = Message(
    version: nat, chainId: Felt, account: Felt,
    action: Action, verb: Text, resource: Digest, body: Digest, nonce: Nonce)

  function AuthorizationMessage(op: Operation, body: Digest, nonce: Nonce, chainId: Felt, account: Felt): Message {
    Message(2, chainId, account, op.action, Upper(op.verb), HashResource(op.path), body, nonce)
  }

  /** The same letters, in either case. */
  predicate SameLetters(x: Text, y: Text) {
    |x| == |y| && forall i :: 0 <= i < |x| ==> SameLetter(x[i], y[i])
  }

  predicate SameLetter(u: nat, w: nat) {
    u == w || (65 <= u <= 90 && w == u + 32) || (65 <= w <= 90 && u == w + 32)
  }

  /** The same path, up to the case of letters and slashes at the end. */
  predicate SamePath(a: Text, b: Text) {
    exists i, j :: 0 <= i <= |a| && 0 <= j <= |b| && OnlySlashes(a[i..]) && OnlySlashes(b[j..])
                   && SameLetters(a[..i], b[..j])
  }

  predicate OnlySlashes(t: Text) {
    forall i :: 0 <= i < |t| ==> t[i] == 47
  }

  predicate SaysNothing(body: Json) {
    Nullish(body) || (body.Obj? && forall i :: 0 <= i < |body.members| ==> body.members[i].value.Undefined?)
  }

  /** The same value; no body at all is as good as an object with nothing in it. */
  predicate SameBody(a: Json, b: Json) {
    Same(a, b) || (SaysNothing(a) && SaysNothing(b))
  }

  /** One operation, whatever the spelling of its method, path and body. */
  predicate SameOperation(a: Operation, b: Operation) {
    a.action == b.action && SameLetters(a.verb, b.verb) && SamePath(a.path, b.path) && SameBody(a.body, b.body)
  }

  /** What a parsed request body is: distinct keys, no array holes. */
  predicate JsonBody(body: Json) {
    WellFormed(body) && HoleFree(body)
  }

  // --- auth.ts ---

  datatype Challenge = Challenge(nonce: Nonce, address: Felt, chainId: Felt, expiresAt: int)

  datatype ConsumeResult = Consumed(challenge: Challenge) | Unknown | Expired | WrongAddress | WrongChain

  type Items = map<Nonce, Challenge>

  function Swept(items: Items, now: int): Items {
    map n | n in items && now <= items[n].expiresAt :: items[n]
  }

  /** The sweep and the new challenge read the clock one after the other. */
  function Issue(items: Items, nonce: Nonce, address: Felt, chainId: Felt, sweptAt: int, now: int): Items {
    Swept(items, sweptAt)[nonce := Challenge(nonce, address, chainId, now + CHALLENGE_TTL_MS)]
  }

  /**
   Spends a nonce. Address and chain are what BigInt reads in the headers, None when
   it reads nothing. Whatever the outcome, the nonce is gone.
   */
  function Consume(items: Items, nonce: Nonce, address: Option<Felt>, chainId: Option<Felt>, now: int)
    : (r: (Items, ConsumeResult))
    ensures r.0 == items - {nonce}
    ensures r.1.Consumed? <==>
            nonce in items && now <= items[nonce].expiresAt
            && address == Some(items[nonce].address) && chainId == Some(items[nonce].chainId)
  {
    if nonce !in items then (items, Unknown)
    else
      var c := items[nonce];
      var rest := items - {nonce};
      if now > c.expiresAt then (rest, Expired)
      else if address.None? || chainId.None? then (rest, WrongAddress)
      else if address.value != c.address then (rest, WrongAddress)
      else if chainId.value != c.chainId then (rest, WrongChain)
      else (rest, Consumed(c))
  }

  datatype Signature = SignatureOf(account: Felt, message: Message) | Garbage

  datatype Credentials = Credentials(address: Option<Felt>, nonce: Nonce, chainId: Option<Felt>, signature: Signature)

  datatype AuthFailure =
    | MissingAuth | UnreadableBody | UnknownNonce | ExpiredNonce | WrongAccount | WrongNetwork | BadSignature

  datatype AuthResult = Accepted(address: Felt) | Refused(reason: AuthFailure)

  function VerifyCredentials(items: Items, c: Credentials, op: Operation, body: Digest, now: int): (Items, AuthResult) {
    var (rest, consumed) := Consume(items, c.nonce, c.address, c.chainId, now);
    match consumed
    case Unknown => (rest, Refused(UnknownNonce))
    case Expired => (rest, Refused(ExpiredNonce))
    case WrongAddress => (rest, Refused(WrongAccount))
    case WrongChain => (rest, Refused(WrongNetwork))
    case Consumed(ch) =>
      var message := AuthorizationMessage(op, body, ch.nonce, ch.chainId, ch.address);
      if c.signature == SignatureOf(ch.address, message) then (rest, Accepted(ch.address))
      else (rest, Refused(BadSignature))
  }

  /** The authenticate step of a route: every bound value comes from the request itself. */
  function Authenticate(items: Items, c: Option<Credentials>, op: Operation, now: int): (Items, AuthResult) {
    if c.None? then (items, Refused(MissingAuth))
    else
      match HashBody(op.body)
      case None => (items, Refused(UnreadableBody))
      case Some(body) => VerifyCredentials(items, c.value, op, body, now)
  }

  class ChallengeStore {
    var items: map<Nonce, Challenge>

    constructor ()
      ensures items == map[]
    {
      items := map[];
    }

    method IssueFor(nonce: Nonce, address: Felt, chainId: Felt, sweptAt: int, now: int)
      returns (challenge: Challenge)
      modifies this
      ensures challenge == Challenge(nonce, address, chainId, now + CHALLENGE_TTL_MS)
      ensures items == Issue(old(items), nonce, address, chainId, sweptAt, now)
    {
      Sweep(sweptAt);
      challenge := Challenge(nonce, address, chainId, now + CHALLENGE_TTL_MS);
      items := items[nonce := challenge];
    }

    method Spend(nonce: Nonce, address: Option<Felt>, chainId: Option<Felt>, now: int) returns (r: ConsumeResult)
      modifies this
      ensures (items, r) == Consume(old(items), nonce, address, chainId, now)
    {
      if nonce !in items {
        return Unknown;
      }
      var c := items[nonce];
      items := items - {nonce};
      if now > c.expiresAt {
        return Expired;
      }
      if address.None? || chainId.None? {
        return WrongAddress;
      }
      if address.value != c.address {
        return WrongAddress;
      }
      if chainId.value != c.chainId {
        return WrongChain;
      }
      return Consumed(c);
    }

    method Sweep(now: int)
      modifies this
      ensures items == Swept(old(items), now)
    {
      var left := items.Keys;
      while left != {}
        invariant left <= old(items).Keys
        invariant items == map n | n in old(items) && (n in left || now <= old(items)[n].expiresAt) :: old(items)[n]
        decreases left
      {
        var n :| n in left;
        if now > items[n].expiresAt {
          items := items - {n};
        }
        left := left - {n};
      }
    }
  }

  method Verify(challenges: ChallengeStore, c: Credentials, op: Operation, body: Digest, now: int)
    returns (r: AuthResult)
    modifies challenges
    ensures (challenges.items, r) == VerifyCredentials(old(challenges.items), c, op, body, now)
  {
    var consumed := challenges.Spend(c.nonce, c.address, c.chainId, now);
    match consumed {
      case Unknown => return Refused(UnknownNonce);
      case Expired => return Refused(ExpiredNonce);
      case WrongAddress => return Refused(WrongAccount);
      case WrongChain => return Refused(WrongNetwork);
      case Consumed(ch) =>
        var message := AuthorizationMessage(op, body, ch.nonce, ch.chainId, ch.address);
        if c.signature != SignatureOf(ch.address, message) {
          return Refused(BadSignature);
        }
        return Accepted(ch.address);
    }
  }
}
