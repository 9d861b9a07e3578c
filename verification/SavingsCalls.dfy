/**
 What each call of the savings contract does, in terms of balances, records and turns:
 exactly when it is accepted, who pays whom, and what stays as it was.
 */
module SavingsCalls {
  import opened Wrappers
  import opened Digits
  import opened Savings
  import opened SavingsRuns

  // --- Money ---

  /** What one account on one token gains by `amount` going from one owner to another. */
  function Gain(token: Token, from: Address, to: Address, amount: int, t: Token, who: Address): int {
    (if t == token && who == to then amount else 0) - if t == token && who == from then amount else 0
  }

  /** Tokens move from one account to another, and no other account sees it. */
  ghost predicate Moved(before: Ledger, after: Ledger, token: Token, from: Address, to: Address, amount: int) {
    forall t: Token, who: Address ::
      Balance(after, t, who) == Balance(before, t, who) + Gain(token, from, to, amount, t, who)
  }

  lemma TransferMoves(ledger: Ledger, token: Token, from: Address, to: Address, amount: nat)
    ensures Transfer(ledger, token, from, to, amount).Ok? <==> Balance(ledger, token, from) >= amount
    ensures Transfer(ledger, token, from, to, amount).Ok? ==>
              Moved(ledger, Transfer(ledger, token, from, to, amount).value, token, from, to, amount)
  {
  }

  // --- Payments ---

  predicate KnownMember(s: State, id: int, m: Commitment) {
    id in s.circles && id in s.members && m in s.members[id]
  }

  /**
   A payment is accepted exactly from a member, for the current round, once, with the
   payer's authorization and enough of the circle's token; the deadline must fit.
   */
  lemma PayExactly(s: State, env: Env, id: U32, round: U32, m: Commitment, from: Address, authorized: bool)
    requires StorageOk(s)
    ensures PayContribution(s, env, id, round, m, from, authorized).Ok? <==>
              KnownMember(s, id, m) && round == s.circles[id].currentRound && Key(id, round, m) !in s.contributions
              && authorized && from != Self && Balance(s.ledger, s.circles[id].token, from) >= s.circles[id].amount
              && s.circles[id].roundStart + s.circles[id].frequency <= U64_MAX
  {
    if id in s.circles {
      assert CircleOk(s, id);
    }
  }

  /**
   An accepted payment takes the amount from the payer to the contract and nothing from
   or to anybody else. It leaves one new record, on time exactly when the clock is at
   most one period past the start of the round.
   */
  lemma PayMoves(s: State, env: Env, id: U32, round: U32, m: Commitment, from: Address, authorized: bool)
    requires PayContribution(s, env, id, round, m, from, authorized).Ok?
    ensures id in s.circles
    ensures var (t, onTime) := PayContribution(s, env, id, round, m, from, authorized).value;
            var c := s.circles[id];
            Moved(s.ledger, t.ledger, c.token, from, Self, c.amount)
            && (onTime <==> env.now - c.roundStart <= c.frequency)
            && t.contributions == s.contributions[Key(id, round, m) := Contribution(m, round, onTime, env.sequence)]
            && t.circles == s.circles && t.members == s.members && t.collected == s.collected && t.count == s.count
  {
    TransferMoves(s.ledger, s.circles[id].token, from, Self, s.circles[id].amount);
  }

  /** A refused payment gives the first reason that holds. */
  lemma PayRefusals(s: State, env: Env, id: U32, round: U32, m: Commitment, from: Address, authorized: bool)
    requires StorageOk(s) && PayContribution(s, env, id, round, m, from, authorized).Err?
    ensures var e := PayContribution(s, env, id, round, m, from, authorized).error;
            (e == CircleNotFound <==> id !in s.circles)
            && (e == NotMember <==> id in s.circles && !KnownMember(s, id, m))
            && (e == WrongRound <==> KnownMember(s, id, m) && round != s.circles[id].currentRound)
            && (e == AlreadyPaid <==> KnownMember(s, id, m) && round == s.circles[id].currentRound
                                      && Key(id, round, m) in s.contributions)
            && (e == NotAuthorized ==> !authorized || from == Self)
            && (e == TransferFailed ==> authorized && from != Self)
            && e in {CircleNotFound, NotMember, WrongRound, AlreadyPaid, NotAuthorized, TransferFailed, Overflow}
  {
    if id in s.circles {
      assert CircleOk(s, id);
    }
  }

  // --- Pots ---

  /** The member whose turn a round is: slots take turns in order, over and over. */
  ghost predicate HasTurn(ms: seq<Commitment>, round: int, m: Commitment) {
    exists i: nat, lap: nat :: i < |ms| && ms[i] == m && round == 1 + i + Times(lap, |ms|)
  }

  /**
   A pot is paid exactly to the member whose turn the current round is, once, when every
   member has paid that round and the contract holds enough of the token.
   */
  lemma CollectExactly(s: State, id: U32, m: Commitment, to: Address)
    requires StorageOk(s)
    ensures CollectPot(s, id, m, to).Ok? <==>
              KnownMember(s, id, m) && HasTurn(s.members[id], s.circles[id].currentRound, m)
              && (forall x <- s.members[id] :: Key(id, s.circles[id].currentRound, x) in s.contributions)
              && Nullifier(id, m) !in s.collected
              && Times(s.circles[id].amount, s.circles[id].size) <= I128_MAX
              && Balance(s.ledger, s.circles[id].token, Self) >= Times(s.circles[id].amount, s.circles[id].size)
  {
    if id in s.circles {
      assert CircleOk(s, id);
      var c, ms := s.circles[id], s.members[id];
      TimesNonNegative(c.amount, c.size);
      if m in ms {
        TurnExactly(ms, c.currentRound, m);
      }
    }
  }

  lemma TurnExactly(ms: seq<Commitment>, round: int, m: Commitment)
    requires Distinct(ms) && m in ms && round >= 1
    ensures HasTurn(ms, round, m) <==> Collector(ms, round) == m
  {
    var n := |ms|;
    if Collector(ms, round) == m {
      var i, lap := (round - 1) % n, (round - 1) / n;
      assert round == 1 + i + Times(lap, n);
    }
    if i: nat, lap: nat :| i < n && ms[i] == m && round == 1 + i + Times(lap, n) {
      LapsDrop(i, lap, n);
    }
  }

  lemma LapsDrop(i: nat, lap: nat, n: nat)
    requires i < n
    ensures (i + Times(lap, n)) % n == i
  {
    var k: nat := i + lap * n;
    Euclid(k, n);
    LastDigit(k / n, k % n, lap, i, n);
  }

  /**
   A pot that is paid goes from the contract to the account the collector named: amount
   times size, and no other account sees it. Nothing else changes but the nullifier.
   */
  lemma CollectMoves(s: State, id: U32, m: Commitment, to: Address)
    requires CollectPot(s, id, m, to).Ok?
    ensures id in s.circles
    ensures var (t, pot) := CollectPot(s, id, m, to).value;
            var c := s.circles[id];
            pot == Times(c.amount, c.size) && Moved(s.ledger, t.ledger, c.token, Self, to, pot)
            && t.collected == s.collected + {Nullifier(id, m)}
            && t.circles == s.circles && t.members == s.members && t.contributions == s.contributions
            && t.count == s.count
  {
    TransferMoves(s.ledger, s.circles[id].token, Self, to, CollectPot(s, id, m, to).value.1);
  }

  predicate RoundPaid(s: State, id: int) {
    id in s.circles && id in s.members
    && forall i :: 0 <= i < |s.members[id]| ==> Key(id, s.circles[id].currentRound, s.members[id][i]) in s.contributions
  }

  /** A refused collect gives the first reason that holds: not your turn before not paid, not paid before collected. */
  lemma CollectRefusals(s: State, id: U32, m: Commitment, to: Address)
    requires StorageOk(s) && CollectPot(s, id, m, to).Err?
    ensures var e := CollectPot(s, id, m, to).error;
            (e == CircleNotFound <==> id !in s.circles)
            && (e == NoMembers <==> id in s.circles && id in s.members && s.members[id] == [])
            && (e == NotMember <==> id in s.circles && id in s.members && s.members[id] != [] && m !in s.members[id])
            && (e == NotCollector <==> KnownMember(s, id, m)
                                       && !HasTurn(s.members[id], s.circles[id].currentRound, m))
            && (e == RoundNotFunded <==> KnownMember(s, id, m) && HasTurn(s.members[id], s.circles[id].currentRound, m)
                                         && !RoundPaid(s, id))
            && (e == AlreadyCollected <==> KnownMember(s, id, m) && RoundPaid(s, id) && Nullifier(id, m) in s.collected
                                           && HasTurn(s.members[id], s.circles[id].currentRound, m))
            && e in {CircleNotFound, NoMembers, NotMember, NotCollector, RoundNotFunded, AlreadyCollected, Overflow,
                     TransferFailed}
  {
    hide HasTurn, Collector;
    if id in s.circles {
      assert CircleOk(s, id);
      var c, ms := s.circles[id], s.members[id];
      TimesNonNegative(c.amount, c.size);
      if m in ms {
        TurnExactly(ms, c.currentRound, m);
      }
    }
  }

  /** Nothing but an accepted payment or pot moves a token. */
  lemma OthersMoveNothing(s: State, c: Call)
    requires !c.Outside? && !(c.Pay? && Pays(s, c, c.id)) && !(c.Collect? && Takes(s, c, c.id))
    ensures Step(s, c).ledger == s.ledger
  {
  }

  // --- Circles ---

  /** A circle is made exactly from a positive amount and period and a size of at least two, with those terms. */
  lemma CreateExactly(s: State, env: Env, token: Token, amount: I128, frequency: U64, size: U32, trust: bool)
    requires StorageOk(s)
    ensures var r := CreateCircle(s, env, token, amount, frequency, size, trust);
            (r.Ok? <==> amount > 0 && frequency > 0 && size > 1 && s.count < U32_MAX)
            && (r.Ok? ==>
                  var (t, id) := r.value;
                  id !in s.circles && id in t.circles && id in t.members && t.members[id] == []
                  && t.circles[id].amount == amount && t.circles[id].token == token
                  && t.circles[id].frequency == frequency && t.circles[id].size == size
                  && t.circles[id].trustRequired == trust && t.circles[id].roundStart == env.now
                  && t.circles[id].currentRound == 1 && t.circles[id].status == Open
                  && OtherCirclesSame(s, t, id))
  {
  }

  /** Every circle but one is as it was, and so are records, pots and tokens. */
  predicate OtherCirclesSame(s: State, t: State, id: int) {
    (forall i :: i in s.circles && i != id ==> i in t.circles && t.circles[i] == s.circles[i])
    && (forall i :: i in s.members && i != id ==> i in t.members && t.members[i] == s.members[i])
    && t.contributions == s.contributions && t.collected == s.collected && t.ledger == s.ledger
  }

  /**
   A member joins exactly when they are new, a place is free and, in a trust circle, a
   proof was given and verified. They get the last place; the others keep theirs.
   */
  lemma JoinExactly(s: State, id: U32, m: Commitment, proof: Option<bool>)
    requires StorageOk(s)
    ensures var r := JoinCircle(s, id, m, proof);
            (r.Ok? <==> id in s.circles && id in s.members && m !in s.members[id]
                        && |s.members[id]| < s.circles[id].size
                        && (s.circles[id].trustRequired ==> proof == Some(true)))
            && (r.Ok? ==>
                  var (t, slot) := r.value;
                  t.count == s.count && OtherCirclesSame(s, t, id) && t.members[id] == s.members[id] + [m]
                  && t.members[id][slot] == m
                  && t.circles[id] == s.circles[id].(members := slot + 1, status := t.circles[id].status)
                  && t.circles[id].status == if Full(t, id) then Active else s.circles[id].status)
  {
    if id in s.circles {
      assert CircleOk(s, id);
    }
  }

  /**
   A refusal to join gives the first reason that holds: a duplicate even when the circle
   is full, and the proof only when the join would otherwise go through.
   */
  lemma JoinRefusals(s: State, id: U32, m: Commitment, proof: Option<bool>)
    requires StorageOk(s) && JoinCircle(s, id, m, proof).Err?
    ensures var e := JoinCircle(s, id, m, proof).error;
            (e == CircleNotFound <==> id !in s.circles)
            && (e == AlreadyMember <==> KnownMember(s, id, m))
            && (e == CircleFull <==> id in s.circles && Full(s, id) && !KnownMember(s, id, m))
            && (e == TrustProofRequired ==> proof.None?) && (e == InvalidTrustProof ==> proof == Some(false))
            && e in {CircleNotFound, AlreadyMember, CircleFull, TrustProofRequired, InvalidTrustProof}
  {
    if id in s.circles {
      assert CircleOk(s, id);
    }
  }

  /**
   Any circle with a member can be advanced at any time: by one round, which starts now,
   and whose collector is the member it names. Until the next advance nobody else is
   the collector. Past the last place the circle is completed.
   */
  lemma AdvanceExactly(s: State, env: Env, id: U32)
    requires StorageOk(s)
    ensures var r := AdvanceRound(s, env, id);
            (r.Ok? <==> id in s.circles && id in s.members && s.members[id] != []
                        && s.circles[id].currentRound < U32_MAX)
            && (r.Ok? ==>
                  var (t, collector) := r.value;
                  var round := s.circles[id].currentRound + 1;
                  t.count == s.count && OtherCirclesSame(s, t, id) && t.members[id] == s.members[id]
                  && t.circles[id] == s.circles[id].(currentRound := round, roundStart := env.now,
                                                     status := t.circles[id].status)
                  && t.circles[id].status == (if round > s.circles[id].size then Completed else s.circles[id].status)
                  && forall m <- t.members[id] :: HasTurn(t.members[id], round, m) <==> m == collector)
  {
    hide HasTurn;
    if id in s.circles && id in s.members && s.members[id] != [] {
      assert CircleOk(s, id);
      var ms, round := s.members[id], s.circles[id].currentRound + 1;
      forall m | m in ms
        ensures HasTurn(ms, round, m) <==> Collector(ms, round) == m
      {
        TurnExactly(ms, round, m);
      }
    }
  }

  // --- Status ---

  /** Until the round passes the last place a circle is Active exactly when it is full. */
  ghost predicate StatusOk(s: State, id: int) {
    id in s.circles && id in s.members &&
    var c := s.circles[id];
    if c.currentRound <= c.size then c.status == (if Full(s, id) then Active else Open)
    else c.status == Completed || (c.status == Active && Full(s, id))
  }

  /** In every run the status says that much. A late joiner who fills a completed circle makes it Active again. */
  lemma {:induction false} StatusMeans(ledger: Ledger, run: seq<Call>, id: int)
    ensures var s := After(Deployed(ledger), run);
            StorageOk(s) && (0 <= id < s.count ==> StatusOk(s, id))
  {
    hide Step, StorageOk, StatusOk;
    if run == [] {
      StartsOk(ledger, 0);
    } else {
      var past, c := run[..|run| - 1], run[|run| - 1];
      StatusMeans(ledger, past, id);
      StorageKept(After(Deployed(ledger), past), c);
      if 0 <= id < After(Deployed(ledger), run).count {
        StatusKept(After(Deployed(ledger), past), c, id);
      }
    }
  }

  lemma StatusKept(s: State, c: Call, id: int)
    requires StorageOk(s) && 0 <= id < Step(s, c).count
    requires id < s.count ==> StatusOk(s, id)
    ensures StatusOk(Step(s, c), id)
  {
    if id < s.count {
      assert CircleOk(s, id);
    }
  }

  // --- Records and reputation ---

  /** Reputation is there to read for every known circle, short of the last number a round can have. */
  lemma ReputationAnswers(s: State, id: U32, m: Commitment)
    ensures GetReputation(s, id, m).Ok? <==>
              id in s.circles && s.circles[id].size < U32_MAX && s.circles[id].currentRound < U32_MAX
    ensures GetReputation(s, id, m).Err? ==>
              GetReputation(s, id, m).error == if id in s.circles then Overflow else CircleNotFound
  {
  }

  /** The record was left by an accepted payment, on time exactly when that was within the period. */
  ghost predicate LeftBy(s: State, run: seq<Call>, k: Key, i: int) {
    0 <= i < |run| && run[i].Pay? && Pays(After(s, run[..i]), run[i], k.circle)
    && run[i].round == k.round && run[i].member == k.member
    && k.circle in After(s, run[..i]).circles && k in After(s, run).contributions
    && var c := After(s, run[..i]).circles[k.circle];
    k.round == c.currentRound
    && (After(s, run).contributions[k].onTime <==> run[i].env.now - c.roundStart <= c.frequency)
  }

  /** In a seed-free run every record is an accepted payment's, and its flag says when that came. */
  lemma {:induction false} RecordsArePayments(ledger: Ledger, run: seq<Call>, k: Key)
    requires forall i :: 0 <= i < |run| ==> !run[i].Seed?
    requires k in After(Deployed(ledger), run).contributions
    ensures exists i :: LeftBy(Deployed(ledger), run, k, i)
  {
    hide Step, Pays;
    var d := Deployed(ledger);
    var past, c := run[..|run| - 1], run[|run| - 1];
    var s := After(d, past);
    KeysChange(s, c);
    if k in s.contributions {
      RecordsArePayments(ledger, past, k);
      var i :| LeftBy(d, past, k, i);
      assert past[..i] == run[..i];
      RecordKept(s, c, k);
      assert LeftBy(d, run, k, i);
    } else {
      RecordLeft(s, c);
      assert LeftBy(d, run, k, |run| - 1);
    }
  }

  lemma RecordKept(s: State, c: Call, k: Key)
    requires !c.Seed? && k in s.contributions
    ensures k in Step(s, c).contributions && Step(s, c).contributions[k] == s.contributions[k]
  {
  }

  lemma RecordLeft(s: State, c: Call)
    requires c.Pay? && Pays(s, c, c.id)
    ensures c.id in s.circles && c.round == s.circles[c.id].currentRound
    ensures var k := Key(c.id, c.round, c.member);
            k in Step(s, c).contributions
            && (Step(s, c).contributions[k].onTime
                <==> c.env.now - s.circles[c.id].roundStart <= s.circles[c.id].frequency)
  {
  }
}
