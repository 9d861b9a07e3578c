/**
 Read-only sessions: session.ts.

 The store is the insertion-ordered map of the source as a sequence of records with
 distinct token hashes. Hashes are ideal, so a token stands for its hash; minted tokens
 are fresh.
 */
module Sessions {
  import opened Wrappers

  type Token = nat
  type Felt = int

  const SESSION_IDLE_MS: int := 30 * 60 * 1000
  const SESSION_ABSOLUTE_MS: int := 8 * 60 * 60 * 1000
  const MAX_SESSIONS_PER_ADDRESS: nat := 5
  const MAX_SESSIONS: nat := 10_000

  datatype Session = Session(
    tokenHash: Token, address: Felt, chainId: Felt, createdAt: int, lastUsedAt: int, expiresAt: int)

  datatype Failure = Unknown | Idle | Expired | WrongChain

  datatype Validation = Valid(session: Session) | Invalid(reason: Failure)

  type Items = seq<Session>

  // --- The map, in insertion order ---

  function Filter(p: Session -> bool, items: Items): (r: Items)
    ensures forall x :: x in r <==> x in items && p(x)
    ensures |r| <= |items| && (|r| == |items| ==> r == items)
  {
    if items == [] then []
    else
      var rest, last := Filter(p, items[..|items| - 1]), items[|items| - 1];
      assert items == items[..|items| - 1] + [last];
      if p(last) then rest + [last] else rest
  }

  predicate Distinct(items: Items) {
    forall i, j :: 0 <= i < j < |items| ==> items[i].tokenHash != items[j].tokenHash
  }

  function Find(items: Items, token: Token): (r: Option<Session>)
    ensures r.Some? ==> r.value in items && r.value.tokenHash == token
    ensures r.None? ==> forall x <- items :: x.tokenHash != token
  {
    if items == [] then None
    else if items[0].tokenHash == token then Some(items[0])
    else Find(items[1..], token)
  }

  function Delete(items: Items, token: Token): Items {
    Filter((x: Session) => x.tokenHash != token, items)
  }

  /** Sets a record in place, or appends it when its hash is new. */
  function Put(items: Items, r: Session): (s: Items)
    ensures |s| == |items| + if Find(items, r.tokenHash).Some? then 0 else 1
  {
    if items == [] then [r]
    else if items[0].tokenHash == r.tokenHash then [r] + items[1..]
    else [items[0]] + Put(items[1..], r)
  }

  // --- session.ts ---

  predicate Live(r: Session, t: int) {
    t <= r.expiresAt && t - r.lastUsedAt <= SESSION_IDLE_MS
  }

  function Swept(items: Items, t: int): Items {
    Filter((r: Session) => Live(r, t), items)
  }

  function Mine(items: Items, address: Felt): Items {
    Filter((r: Session) => r.address == address, items)
  }

  function InsertByAge(r: Session, rs: Items): (s: Items)
    ensures multiset(s) == multiset(rs) + multiset{r} && |s| == |rs| + 1
  {
    if rs == [] || r.createdAt <= rs[0].createdAt then [r] + rs
    else
      assert rs == [rs[0]] + rs[1..];
      [rs[0]] + InsertByAge(r, rs[1..])
  }

  /** The stable sort by creation, oldest first. */
  function ByAge(rs: Items): (s: Items)
    ensures multiset(s) == multiset(rs) && |s| == |rs|
  {
    if rs == [] then []
    else
      assert rs == [rs[0]] + rs[1..];
      InsertByAge(rs[0], ByAge(rs[1..]))
  }

  function Excess(items: Items, address: Felt): nat {
    var n := |Mine(items, address)|;
    if n < MAX_SESSIONS_PER_ADDRESS then 0 else n - (MAX_SESSIONS_PER_ADDRESS - 1)
  }

  /** The records a wallet loses to make room for one more: its oldest. */
  function Dropped(items: Items, address: Felt): Items {
    ByAge(Mine(items, address))[..Excess(items, address)]
  }

  function DeleteAll(items: Items, rs: Items): Items {
    if rs == [] then items else Delete(DeleteAll(items, rs[..|rs| - 1]), rs[|rs| - 1].tokenHash)
  }

  function Trimmed(items: Items, address: Felt): Items {
    DeleteAll(items, Dropped(items, address))
  }

  function Minted(token: Token, address: Felt, chainId: Felt, t: int): Session {
    Session(token, address, chainId, t, t, t + SESSION_ABSOLUTE_MS)
  }

  /** The clock is read to sweep and again to mint. None is the refusal at the process's own cap. */
  function Create(items: Items, token: Token, address: Felt, chainId: Felt, sweptAt: int, t: int)
    : (Items, Option<Session>)
  {
    var rest := Trimmed(Swept(items, sweptAt), address);
    if |rest| >= MAX_SESSIONS then (rest, None)
    else (Put(rest, Minted(token, address, chainId, t)), Some(Minted(token, address, chainId, t)))
  }

  /** `expected` is the chain the route works on, None when BigInt cannot read it. */
  function Validate(items: Items, token: Token, expected: Option<Felt>, t: int): (Items, Validation) {
    match Find(items, token)
    case None => (items, Invalid(Unknown))
    case Some(r) =>
      if t > r.expiresAt then (Delete(items, r.tokenHash), Invalid(Expired))
      else if t - r.lastUsedAt > SESSION_IDLE_MS then (Delete(items, r.tokenHash), Invalid(Idle))
      else if expected.None? || expected.value != r.chainId then (items, Invalid(WrongChain))
      else
        var used := r.(lastUsedAt := t);
        (Put(items, used), Valid(used))
  }

  function RevokeAll(items: Items, address: Option<Felt>): Items {
    if address.None? then items else Filter((r: Session) => r.address != address.value, items)
  }

  class SessionStore {
    var items: seq<Session>

    constructor ()
      ensures items == []
    {
      items := [];
    }

    method Mint(token: Token, address: Felt, chainId: Felt, sweptAt: int, t: int) returns (created: Option<Session>)
      modifies this
      ensures (items, created) == Create(old(items), token, address, chainId, sweptAt, t)
    {
      Sweep(sweptAt);
      TrimFor(address);
      if |items| >= MAX_SESSIONS {
        return None;
      }
      var r := Minted(token, address, chainId, t);
      items := Put(items, r);
      return Some(r);
    }

    method Check(token: Token, expected: Option<Felt>, t: int) returns (v: Validation)
      modifies this
      ensures (items, v) == Validate(old(items), token, expected, t)
    {
      var found := Find(items, token);
      if found.None? {
        return Invalid(Unknown);
      }
      var r := found.value;
      if t > r.expiresAt {
        items := Delete(items, r.tokenHash);
        return Invalid(Expired);
      }
      if t - r.lastUsedAt > SESSION_IDLE_MS {
        items := Delete(items, r.tokenHash);
        return Invalid(Idle);
      }
      if expected.None? || expected.value != r.chainId {
        return Invalid(WrongChain);
      }
      r := r.(lastUsedAt := t);
      items := Put(items, r);
      return Valid(r);
    }

    method Revoke(token: Token) returns (ended: bool)
      modifies this
      ensures items == Delete(old(items), token)
      ensures ended <==> exists r :: r in old(items) && r.tokenHash == token
    {
      ended := Find(items, token).Some?;
      items := Delete(items, token);
    }

    method RevokeAllFor(address: Option<Felt>) returns (count: nat)
      modifies this
      ensures items == RevokeAll(old(items), address)
      ensures count == |old(items)| - |items|
    {
      if address.None? {
        return 0;
      }
      var kept, all: seq<Session> := [], items;
      count := 0;
      for i := 0 to |all|
        invariant kept == Filter((r: Session) => r.address != address.value, all[..i])
        invariant count + |kept| == i
      {
        assert all[..i + 1][..i] == all[..i];
        if all[i].address == address.value {
          count := count + 1;
        } else {
          kept := kept + [all[i]];
        }
      }
      assert all[..|all|] == all;
      items := kept;
    }

    method Sweep(t: int)
      modifies this
      ensures items == Swept(old(items), t)
    {
      var kept, all: seq<Session> := [], items;
      for i := 0 to |all|
        invariant kept == Swept(all[..i], t)
      {
        assert all[..i + 1][..i] == all[..i];
        if !(t > all[i].expiresAt || t - all[i].lastUsedAt > SESSION_IDLE_MS) {
          kept := kept + [all[i]];
        }
      }
      assert all[..|all|] == all;
      items := kept;
    }

    method TrimFor(address: Felt)
      modifies this
      ensures items == Trimmed(old(items), address)
    {
      var mine := ByAge(Mine(items, address));
      var excess := |mine| - (MAX_SESSIONS_PER_ADDRESS - 1);
      var i := 0;
      while i < excess
        invariant 0 <= i && (excess >= 0 ==> i <= excess) && (excess < 0 ==> i == 0)
        invariant items == DeleteAll(old(items), mine[..i])
      {
        assert mine[..i + 1][..i] == mine[..i];
        items := Delete(items, mine[i].tokenHash);
        i := i + 1;
      }
      assert i == Excess(old(items), address);
    }
  }
}
