/**
 The savings circle contract: savings/src/lib.rs.

 Every entry point is a function from the contract's storage and the token ledger to
 the new storage and ledger, or to the error it panics with. A panic reverts the whole
 call, so an error carries no state. SavingsContract is the imperative form, each
 method proved to compute its function. Integer widths are the source's, and its
 build keeps overflow checks on: an overflow panics.
 */
module Savings {
  import opened Wrappers

  const U32_MAX: int := 0xFFFF_FFFF
  const U64_MAX: int := 0xFFFF_FFFF_FFFF_FFFF
  const I128_MAX: int := 0x7FFF_FFFF_FFFF_FFFF_FFFF_FFFF_FFFF_FFFF

  type U32 = n: int | 0 <= n <= U32_MAX
  type U64 = n: int | 0 <= n <= U64_MAX
  type I128 = n: int | -I128_MAX - 1 <= n <= I128_MAX

  /** A 32-byte member commitment. */
  type Commitment = nat
  type Token = nat

  /** An account address: the contract itself, or any other. */
  datatype Address = Self | Other(id: nat)

  datatype Error =
    | CircleNotFound | InvalidConfig | CircleFull | AlreadyMember | NotMember | AlreadyPaid | WrongRound
    | NotCollector | AlreadyCollected | NoMembers | RoundNotFunded | TrustProofRequired | InvalidTrustProof
    /** The host's own failures: an arithmetic overflow, a missing authorization, a refused transfer. */
    | Overflow | NotAuthorized | TransferFailed

  datatype Status = Open | Active | Completed

  datatype Circle = Circle(
    id: U32, amount: I128, token: Token, trustRequired: bool, frequency: U64, size: U32,
    currentRound: U32, status: Status, members: U32, roundStart: U64)

  datatype Contribution = Contribution(member: Commitment, round: U32, onTime: bool, ledger: U32)

  /** The key of a contribution record, and the nullifier of a collected pot. */
  datatype Key = Key(circle: int, round: int, member: Commitment)
  datatype Nullifier = Nullifier(circle: int, member: Commitment)

  datatype Account = Account(token: Token, owner: Address)
  type Ledger = map<Account, nat>

  datatype State = State(
    count: U32,
    circles: map<int, Circle>,
    members: map<int, seq<Commitment>>,
    contributions: map<Key, Contribution>,
    collected: set<Nullifier>,
    ledger: Ledger)

  /** The host's clock and ledger number during a call. */
  datatype Env = Env(now: U64, sequence: U32)

  datatype Result<+T> = Ok(value: T) | Err(error: Error) {
    predicate IsFailure() {
      Err?
    }
    function PropagateFailure<U>(): Result<U>
      requires Err?
    {
      Err(error)
    }
    function Extract(): T
      requires Ok?
    {
      value
    }
  }

  function Require(condition: bool, error: Error): Result<()> {
    if condition then Ok(()) else Err(error)
  }

  // --- Token ledger ---

  /** An account nobody ever paid into holds nothing. */
  function Balance(ledger: Ledger, token: Token, owner: Address): (b: nat)
    ensures Account(token, owner) !in ledger ==> b == 0
  {
    if Account(token, owner) in ledger then ledger[Account(token, owner)] else 0
  }

  function Transfer(ledger: Ledger, token: Token, from: Address, to: Address, amount: nat): Result<Ledger> {
    if Balance(ledger, token, from) < amount then Err(TransferFailed)
    else
      var debited := ledger[Account(token, from) := Balance(ledger, token, from) - amount];
      Ok(debited[Account(token, to) := Balance(debited, token, to) + amount])
  }

  // --- Entry points ---

  function LoadCircle(s: State, id: U32): Result<Circle> {
    if id in s.circles then Ok(s.circles[id]) else Err(CircleNotFound)
  }

  function LoadMembers(s: State, id: U32): Result<seq<Commitment>> {
    if id in s.members then Ok(s.members[id]) else Err(CircleNotFound)
  }

  function CreateCircle(s: State, env: Env, token: Token, amount: I128, frequency: U64, size: U32, trust: bool)
    : Result<(State, U32)>
  {
    if amount <= 0 || size < 2 || frequency == 0 then Err(InvalidConfig)
    else if s.count == U32_MAX then Err(Overflow)
    else
      var circle := Circle(s.count, amount, token, trust, frequency, size, 1, Open, 0, env.now);
      Ok((s.(circles := s.circles[s.count := circle], members := s.members[s.count := []], count := s.count + 1),
          s.count))
  }

  /** `proof` is the verifier's answer to the trust proof supplied, None when none was. */
  function JoinCircle(s: State, id: U32, member: Commitment, proof: Option<bool>): Result<(State, U32)> {
    var circle :- LoadCircle(s, id);
    var members :- LoadMembers(s, id);
    var _ :- Require(member !in members, AlreadyMember);
    var _ :- Require(|members| < circle.size, CircleFull);
    var _ :- Require(circle.trustRequired ==> proof.Some?, TrustProofRequired);
    var _ :- Require(circle.trustRequired ==> proof.value, InvalidTrustProof);
    var joined := members + [member];
    var updated := circle.(members := |joined|, status := if |joined| == circle.size then Active else circle.status);
    Ok((s.(members := s.members[id := joined], circles := s.circles[id := updated]), |members|))
  }

  /** `authorized` says whether the host finds the payer's authorization. */
  function PayContribution(s: State, env: Env, id: U32, round: U32, member: Commitment, from: Address, authorized: bool)
    : Result<(State, bool)>
  {
    var circle :- LoadCircle(s, id);
    var members :- LoadMembers(s, id);
    var key := Key(id, round, member);
    var _ :- Require(member in members, NotMember);
    var _ :- Require(round == circle.currentRound, WrongRound);
    var _ :- Require(key !in s.contributions, AlreadyPaid);
    var _ :- Require(authorized && from != Self, NotAuthorized);
    var _ :- Require(circle.amount >= 0, TransferFailed);
    var ledger :- Transfer(s.ledger, circle.token, from, Self, circle.amount);
    var _ :- Require(circle.roundStart + circle.frequency <= U64_MAX, Overflow);
    var onTime := env.now <= circle.roundStart + circle.frequency;
    Ok((s.(ledger := ledger,
           contributions := s.contributions[key := Contribution(member, round, onTime, env.sequence)]),
        onTime))
  }

  /** Who may collect in a round. */
  function Collector(members: seq<Commitment>, round: int): Commitment
    requires |members| > 0
  {
    members[(round - 1) % |members|]
  }

  function AdvanceRound(s: State, env: Env, id: U32): Result<(State, Commitment)> {
    var circle :- LoadCircle(s, id);
    var members :- LoadMembers(s, id);
    var _ :- Require(|members| > 0, NoMembers);
    var _ :- Require(circle.currentRound < U32_MAX, Overflow);
    var next := circle.currentRound + 1;
    var updated := circle.(currentRound := next, roundStart := env.now,
                           status := if next > circle.size then Completed else circle.status);
    Ok((s.(circles := s.circles[id := updated]), Collector(members, next)))
  }

  predicate Funded(s: State, id: int, round: int, members: seq<Commitment>) {
    forall i :: 0 <= i < |members| ==> Key(id, round, members[i]) in s.contributions
  }

  function CollectPot(s: State, id: U32, member: Commitment, to: Address): Result<(State, nat)> {
    var circle :- LoadCircle(s, id);
    var members :- LoadMembers(s, id);
    var _ :- Require(|members| > 0, NoMembers);
    var _ :- Require(member in members, NotMember);
    var _ :- Require(circle.currentRound >= 1, Overflow);
    var _ :- Require(Collector(members, circle.currentRound) == member, NotCollector);
    var _ :- Require(Funded(s, id, circle.currentRound, members), RoundNotFunded);
    var _ :- Require(Nullifier(id, member) !in s.collected, AlreadyCollected);
    var pot := circle.amount * circle.size;
    var _ :- Require(pot <= I128_MAX, Overflow);
    var _ :- Require(pot >= 0, TransferFailed);
    var ledger :- Transfer(s.ledger, circle.token, Self, to, pot);
    Ok((s.(collected := s.collected + {Nullifier(id, member)}, ledger := ledger), pot))
  }

  function SeedContribution(s: State, env: Env, id: U32, round: U32, member: Commitment, onTime: bool)
    : Result<(State, ())>
  {
    var _ :- LoadCircle(s, id);
    var record := Contribution(member, round, onTime, env.sequence);
    Ok((s.(contributions := s.contributions[Key(id, round, member) := record]), ()))
  }

  // --- Reputation ---

  datatype Tally = Tally(onTime: nat, late: nat, through: nat)

  /** The counters of the scan after rounds 1 to r. */
  function Scan(s: State, id: int, member: Commitment, r: nat): Tally {
    if r == 0 then Tally(0, 0, 0)
    else
      var t, key := Scan(s, id, member, r - 1), Key(id, r, member);
      if key !in s.contributions then t
      else if s.contributions[key].onTime then Tally(t.onTime + 1, t.late, r)
      else Tally(t.onTime, t.late + 1, r)
  }

  function Cap(circle: Circle): U32 {
    if circle.size > circle.currentRound then circle.size else circle.currentRound
  }

  datatype Reputation = Reputation(completedCycles: int, onTimeCount: int, defaultCount: int)

  function GetReputation(s: State, id: U32, member: Commitment): Result<Reputation> {
    var circle :- LoadCircle(s, id);
    var _ :- Require(Cap(circle) < U32_MAX, Overflow);
    var t := Scan(s, id, member, Cap(circle));
    Ok(Reputation(t.onTime + t.late, t.onTime, t.late + (t.through - (t.onTime + t.late))))
  }

  // --- The contract ---

  class SavingsContract {
    var count: U32
    var circles: map<int, Circle>
    var members: map<int, seq<Commitment>>
    var contributions: map<Key, Contribution>
    var collected: set<Nullifier>
    var ledger: Ledger

    function Storage(): State
      reads this
    {
      State(count, circles, members, contributions, collected, ledger)
    }

    constructor (ledger: Ledger)
      ensures Storage() == State(0, map[], map[], map[], {}, ledger)
    {
      count, circles, members, contributions, collected := 0, map[], map[], map[], {};
      this.ledger := ledger;
    }

    /** A call went as specified: the new storage and reply, or the error and nothing else. */
    static predicate Did<T(==)>(spec: Result<(State, T)>, before: State, after: State, r: Result<T>) {
      match spec
      case Ok((s, v)) => after == s && r == Ok(v)
      case Err(e) => after == before && r == Err(e)
    }

    static method SlotOf(members: seq<Commitment>, m: Commitment) returns (slot: Option<nat>)
      ensures slot.None? <==> m !in members
      ensures slot.Some? ==> slot.value < |members| && members[slot.value] == m && m !in members[..slot.value]
    {
      var i := 0;
      while i < |members|
        invariant 0 <= i <= |members| && m !in members[..i]
      {
        if members[i] == m {
          return Some(i);
        }
        i := i + 1;
      }
      return None;
    }

    method Create(env: Env, token: Token, amount: I128, frequency: U64, size: U32, trust: bool) returns (r: Result<U32>)
      modifies this
      ensures Did(CreateCircle(old(Storage()), env, token, amount, frequency, size, trust),
                  old(Storage()), Storage(), r)
    {
      if amount <= 0 || size < 2 || frequency == 0 {
        return Err(InvalidConfig);
      }
      var id := count;
      if id == U32_MAX {
        return Err(Overflow);
      }
      circles := circles[id := Circle(id, amount, token, trust, frequency, size, 1, Open, 0, env.now)];
      members := members[id := []];
      count := id + 1;
      return Ok(id);
    }

    method Join(id: U32, member: Commitment, proof: Option<bool>) returns (r: Result<U32>)
      modifies this
      ensures Did(JoinCircle(old(Storage()), id, member, proof), old(Storage()), Storage(), r)
    {
      if id !in circles || id !in members {
        return Err(CircleNotFound);
      }
      var circle, joined := circles[id], members[id];
      var slot := SlotOf(joined, member);
      if slot.Some? {
        return Err(AlreadyMember);
      }
      if |joined| >= circle.size {
        return Err(CircleFull);
      }
      if circle.trustRequired {
        if proof.None? {
          return Err(TrustProofRequired);
        }
        if !proof.value {
          return Err(InvalidTrustProof);
        }
      }
      var place := |joined|;
      joined := joined + [member];
      circle := circle.(members := |joined|);
      if circle.members == circle.size {
        circle := circle.(status := Active);
      }
      members := members[id := joined];
      circles := circles[id := circle];
      return Ok(place);
    }

    method Pay(env: Env, id: U32, round: U32, member: Commitment, from: Address, authorized: bool)
      returns (r: Result<bool>)
      modifies this
      ensures Did(PayContribution(old(Storage()), env, id, round, member, from, authorized),
                  old(Storage()), Storage(), r)
    {
      if id !in circles || id !in members {
        return Err(CircleNotFound);
      }
      var circle := circles[id];
      var slot := SlotOf(members[id], member);
      if slot.None? {
        return Err(NotMember);
      }
      if round != circle.currentRound {
        return Err(WrongRound);
      }
      var key := Key(id, round, member);
      if key in contributions {
        return Err(AlreadyPaid);
      }
      if !authorized || from == Self {
        return Err(NotAuthorized);
      }
      if circle.amount < 0 {
        return Err(TransferFailed);
      }
      var moved := Transfer(ledger, circle.token, from, Self, circle.amount);
      if moved.Err? {
        return Err(moved.error);
      }
      var deadline := circle.roundStart + circle.frequency;
      if deadline > U64_MAX {
        return Err(Overflow);
      }
      var onTime := env.now <= deadline;
      ledger := moved.value;
      contributions := contributions[key := Contribution(member, round, onTime, env.sequence)];
      return Ok(onTime);
    }

    method Advance(env: Env, id: U32) returns (r: Result<Commitment>)
      modifies this
      ensures Did(AdvanceRound(old(Storage()), env, id), old(Storage()), Storage(), r)
    {
      if id !in circles || id !in members {
        return Err(CircleNotFound);
      }
      var circle := circles[id];
      if |members[id]| == 0 {
        return Err(NoMembers);
      }
      if circle.currentRound == U32_MAX {
        return Err(Overflow);
      }
      var next := circle.currentRound + 1;
      circle := circle.(currentRound := next, roundStart := env.now);
      if next > circle.size {
        circle := circle.(status := Completed);
      }
      circles := circles[id := circle];
      return Ok(Collector(members[id], next));
    }

    method Collect(id: U32, member: Commitment, to: Address) returns (r: Result<nat>)
      modifies this
      ensures Did(CollectPot(old(Storage()), id, member, to), old(Storage()), Storage(), r)
    {
      if id !in circles || id !in members {
        return Err(CircleNotFound);
      }
      var circle, joined := circles[id], members[id];
      if |joined| == 0 {
        return Err(NoMembers);
      }
      var slot := SlotOf(joined, member);
      if slot.None? {
        return Err(NotMember);
      }
      if circle.currentRound < 1 {
        return Err(Overflow);
      }
      if Collector(joined, circle.currentRound) != member {
        return Err(NotCollector);
      }
      var i := 0;
      while i < |joined|
        invariant 0 <= i <= |joined|
        invariant Funded(Storage(), id, circle.currentRound, joined[..i])
      {
        if Key(id, circle.currentRound, joined[i]) !in contributions {
          return Err(RoundNotFunded);
        }
        i := i + 1;
      }
      assert joined[..i] == joined;
      var nullifier := Nullifier(id, member);
      if nullifier in collected {
        return Err(AlreadyCollected);
      }
      var pot := circle.amount * circle.size;
      if pot > I128_MAX {
        return Err(Overflow);
      }
      if pot < 0 {
        return Err(TransferFailed);
      }
      var moved := Transfer(ledger, circle.token, Self, to, pot);
      if moved.Err? {
        return Err(moved.error);
      }
      collected := collected + {nullifier};
      ledger := moved.value;
      return Ok(pot);
    }

    method Seed(env: Env, id: U32, round: U32, member: Commitment, onTime: bool) returns (r: Result<()>)
      modifies this
      ensures Did(SeedContribution(old(Storage()), env, id, round, member, onTime), old(Storage()), Storage(), r)
    {
      if id !in circles {
        return Err(CircleNotFound);
      }
      contributions := contributions[Key(id, round, member) := Contribution(member, round, onTime, env.sequence)];
      return Ok(());
    }

    /** The scan over rounds, with the counters it keeps. */
    method ReputationOf(id: U32, member: Commitment) returns (r: Result<Reputation>)
      ensures r == GetReputation(Storage(), id, member)
      ensures r.Ok? ==> 0 <= r.value.onTimeCount <= r.value.completedCycles && 0 <= r.value.defaultCount
    {
      if id !in circles {
        return Err(CircleNotFound);
      }
      var cap: int := Cap(circles[id]);
      var onTime: nat, late: nat, through: nat := 0, 0, 0;
      var i: int := 1;
      while i <= cap
        invariant 1 <= i <= cap + 1
        invariant Tally(onTime, late, through) == Scan(Storage(), id, member, i - 1)
        invariant onTime + late <= through < i
      {
        var key := Key(id, i, member);
        if key in contributions {
          if contributions[key].onTime {
            onTime := onTime + 1;
          } else {
            late := late + 1;
          }
          through := i;
        }
        i := i + 1;
      }
      // The loop counter itself overflows on a scan to the last round a u32 can name.
      if cap == U32_MAX {
        return Err(Overflow);
      }
      var paid := onTime + late;
      var missed: nat := through - paid;
      return Ok(Reputation(paid, onTime, late + missed));
    }
  }
}
