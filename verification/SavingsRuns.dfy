/**
 What every run of the savings contract keeps: where the money is, whose turn it is,
 and that reputation only grows.
 */
module SavingsRuns {
  import opened Wrappers
  import opened Savings

  // --- Calls and runs ---

  datatype Call =
    | Create(env: Env, token: Token, amount: I128, frequency: U64, size: U32, trust: bool)
    | Join(id: U32, member: Commitment, proof: Option<bool>)
    | Pay(env: Env, id: U32, round: U32, member: Commitment, from: Address, authorized: bool)
    | Advance(env: Env, id: U32)
    | Collect(id: U32, member: Commitment, to: Address)
    | Seed(env: Env, id: U32, round: U32, member: Commitment, onTime: bool)
    /** Anything that happens on the token contracts outside this contract's calls. */
    | Outside(ledger: Ledger)

  function StateOf<T>(r: Result<(State, T)>, s: State): State {
    if r.Ok? then r.value.0 else s
  }

  /** The state after a call. A failed call changes nothing. */
  function Step(s: State, c: Call): State {
    match c
    case Create(env, token, amount, frequency, size, trust) =>
      StateOf(CreateCircle(s, env, token, amount, frequency, size, trust), s)
    case Join(id, m, proof) => StateOf(JoinCircle(s, id, m, proof), s)
    case Pay(env, id, r, m, from, ok) => StateOf(PayContribution(s, env, id, r, m, from, ok), s)
    case Advance(env, id) => StateOf(AdvanceRound(s, env, id), s)
    case Collect(id, m, to) => StateOf(CollectPot(s, id, m, to), s)
    case Seed(env, id, r, m, t) => StateOf(SeedContribution(s, env, id, r, m, t), s)
    case Outside(ledger) => s.(ledger := ledger)
  }

  ghost predicate Full(s: State, id: int) {
    id in s.circles && id in s.members && |s.members[id]| == s.circles[id].size
  }

  /** Nobody but the contract spends its tokens. */
  ghost predicate OutsideOnlyAdds(s: State, c: Call) {
    c.Outside? ==> forall t: Token :: Balance(c.ledger, t, Self) >= Balance(s.ledger, t, Self)
  }

  ghost predicate Pays(s: State, c: Call, id: int) {
    c.Pay? && c.id == id && PayContribution(s, c.env, id, c.round, c.member, c.from, c.authorized).Ok?
  }

  ghost predicate Takes(s: State, c: Call, id: int) {
    c.Collect? && c.id == id && CollectPot(s, id, c.member, c.to).Ok?
  }

  /** A seeded record that was not there. */
  ghost predicate Seeds(s: State, c: Call, id: int) {
    c.Seed? && c.id == id && id in s.circles && Key(id, c.round, c.member) !in s.contributions
  }

  /** Nobody else spends the contract's tokens, and records are paid for, not seeded. */
  ghost predicate PaidFor(s: State, c: Call) {
    OutsideOnlyAdds(s, c) && !c.Seed?
  }

  /** And pots are paid on full circles only. A refused collect is anybody's. */
  ghost predicate Regular(s: State, c: Call) {
    PaidFor(s, c) && (c.Collect? && Takes(s, c, c.id) ==> Full(s, c.id))
  }

  function After(s: State, run: seq<Call>): State {
    if run == [] then s else Step(After(s, run[..|run| - 1]), run[|run| - 1])
  }

  ghost predicate PaidForRun(s: State, run: seq<Call>) {
    forall i :: 0 <= i < |run| ==> PaidFor(After(s, run[..i]), run[i])
  }

  ghost predicate RegularRun(s: State, run: seq<Call>) {
    forall i :: 0 <= i < |run| ==> Regular(After(s, run[..i]), run[i])
  }

  function Deployed(ledger: Ledger): State {
    State(0, map[], map[], map[], {}, ledger)
  }

  // --- Well-formed storage ---

  ghost predicate Distinct(ms: seq<Commitment>) {
    forall i, j :: 0 <= i < j < |ms| ==> ms[i] != ms[j]
  }

  ghost predicate CircleOk(s: State, id: int) {
    id in s.circles && id in s.members &&
    var c, ms := s.circles[id], s.members[id];
    c.id == id && c.amount > 0 && c.size >= 2 && c.frequency > 0 && c.currentRound >= 1
    && c.members == |ms| <= c.size && Distinct(ms)
  }

  ghost predicate StorageOk(s: State) {
    s.circles.Keys == s.members.Keys
    && (forall id :: id in s.circles <==> 0 <= id < s.count)
    && forall id :: 0 <= id < s.count ==> CircleOk(s, id)
  }

  /** Records come from payments: by members, in rounds that have come. */
  ghost predicate Paid(s: State, k: Key) {
    k.circle in s.circles && k.circle in s.members
    && k.member in s.members[k.circle] && 1 <= k.round <= s.circles[k.circle].currentRound
  }

  ghost predicate RecordsOk(s: State) {
    forall k :: k in s.contributions ==> Paid(s, k)
  }

  ghost predicate FundedRound(s: State, n: Nullifier, r: int) {
    n.circle in s.circles && n.circle in s.members && s.members[n.circle] != []
    && 1 <= r <= s.circles[n.circle].currentRound
    && Collector(s.members[n.circle], r) == n.member
    && Funded(s, n.circle, r, s.members[n.circle])
  }

  /** A pot was collected on a full circle, in a fully paid round of its collector. */
  ghost predicate Earned(s: State, n: Nullifier) {
    Full(s, n.circle) && exists r :: FundedRound(s, n, r)
  }

  ghost predicate PotsOk(s: State) {
    forall n :: n in s.collected ==> Earned(s, n)
  }

  ghost predicate Inv(s: State) {
    StorageOk(s) && RecordsOk(s) && PotsOk(s)
  }

  // --- Every call keeps the invariant ---

  lemma StorageKept(s: State, c: Call)
    requires StorageOk(s)
    ensures StorageOk(Step(s, c))
    ensures s.count <= Step(s, c).count
  {
    KeysKept(s, c);
    hide Step, CircleOk;
    var t := Step(s, c);
    forall id | 0 <= id < t.count
      ensures CircleOk(t, id)
    {
      if id < s.count {
        CircleKept(s, c, id);
      } else {
        NewCircleOk(s, c);
      }
    }
  }

  lemma KeysKept(s: State, c: Call)
    requires s.circles.Keys == s.members.Keys && forall id :: id in s.circles <==> 0 <= id < s.count
    ensures var t := Step(s, c);
            t.circles.Keys == t.members.Keys && (forall id :: id in t.circles <==> 0 <= id < t.count)
            && s.count <= t.count <= s.count + 1
  {
  }

  lemma CircleKept(s: State, c: Call, id: int)
    requires CircleOk(s, id) && id != s.count
    ensures CircleOk(Step(s, c), id)
  {
  }

  lemma NewCircleOk(s: State, c: Call)
    ensures Step(s, c).count == s.count + 1 ==> CircleOk(Step(s, c), s.count)
  {
  }

  /** What a call does to a circle that exists: its terms stay, its members only join. */
  lemma CircleGrows(s: State, c: Call, id: int)
    requires StorageOk(s) && 0 <= id < s.count
    ensures var t := Step(s, c);
            id in t.circles && id in t.members
            && t.circles[id].amount == s.circles[id].amount && t.circles[id].token == s.circles[id].token
            && t.circles[id].size == s.circles[id].size && t.circles[id].frequency == s.circles[id].frequency
            && t.circles[id].currentRound >= s.circles[id].currentRound
            && s.members[id] <= t.members[id] && (Full(s, id) ==> t.members[id] == s.members[id])
    ensures s.collected <= Step(s, c).collected
    ensures s.contributions.Keys <= Step(s, c).contributions.Keys
  {
    assert CircleOk(s, id);
    BooksGrow(s, c);
  }

  lemma BooksGrow(s: State, c: Call)
    ensures s.collected <= Step(s, c).collected
    ensures s.contributions.Keys <= Step(s, c).contributions.Keys
  {
  }

  lemma RecordsKept(s: State, c: Call)
    requires StorageOk(s) && RecordsOk(s) && !c.Seed?
    ensures RecordsOk(Step(s, c))
  {
    var t := Step(s, c);
    forall k | k in t.contributions
      ensures Paid(t, k)
    {
      if k in s.contributions {
        assert Paid(s, k);
        CircleGrows(s, c, k.circle);
      } else {
        assert CircleOk(s, k.circle);
      }
    }
  }

  lemma PotsKept(s: State, c: Call)
    requires StorageOk(s) && PotsOk(s) && Regular(s, c)
    ensures PotsOk(Step(s, c))
  {
    var t := Step(s, c);
    forall n | n in t.collected
      ensures Earned(t, n)
    {
      if n in s.collected {
        assert Earned(s, n);
        var r :| FundedRound(s, n, r);
        CircleGrows(s, c, n.circle);
        assert FundedRound(t, n, r);
      } else {
        assert c.Collect? && n == Nullifier(c.id, c.member);
        assert FundedRound(t, n, s.circles[c.id].currentRound);
      }
    }
  }

  lemma InvKept(s: State, c: Call)
    requires Inv(s) && Regular(s, c)
    ensures Inv(Step(s, c))
  {
    StorageKept(s, c);
    RecordsKept(s, c);
    PotsKept(s, c);
  }

  // --- Counting records ---

  function Records(s: State, id: int): set<Key> {
    set k | k in s.contributions && k.circle == id
  }

  function Pots(s: State, id: int): set<Nullifier> {
    set n | n in s.collected && n.circle == id
  }

  /** What the circle's part of the contract's balance should be. */
  function Share(s: State, id: int): int
    requires id in s.circles
  {
    Times(s.circles[id].amount, |Records(s, id)| - Times(s.circles[id].size, |Pots(s, id)|))
  }

  function Times(a: int, n: int): int {
    a * n
  }

  lemma TimesPlus(a: int, x: int, y: int)
    ensures Times(a, x + y) == Times(a, x) + Times(a, y)
  {
  }

  function RoundKeys(id: int, round: int, ms: seq<Commitment>): (r: set<Key>)
    ensures forall k :: k in r <==> k.circle == id && k.round == round && k.member in ms
  {
    set m | m in ms :: Key(id, round, m)
  }

  lemma {:induction false} RoundKeysCount(id: int, round: int, ms: seq<Commitment>)
    requires Distinct(ms)
    ensures |RoundKeys(id, round, ms)| == |ms|
  {
    if ms == [] {
      assert RoundKeys(id, round, ms) == {};
    } else {
      var front, last := ms[..|ms| - 1], ms[|ms| - 1];
      RoundKeysCount(id, round, front);
      assert RoundKeys(id, round, ms) == RoundKeys(id, round, front) + {Key(id, round, last)};
    }
  }

  ghost predicate Covered(s: State, n: Nullifier, ks: set<Key>) {
    Full(s, n.circle) && exists r :: FundedRound(s, n, r) && RoundKeys(n.circle, r, s.members[n.circle]) <= ks
  }

  /** Taking one fully paid round away leaves those of every other collector. */
  lemma OthersCovered(s: State, n: Nullifier, r: int, m: Nullifier, ks: set<Key>)
    requires FundedRound(s, n, r) && Covered(s, m, ks) && m != n && m.circle == n.circle
    ensures Covered(s, m, ks - RoundKeys(n.circle, r, s.members[n.circle]))
  {
    var ms := s.members[n.circle];
    var q :| FundedRound(s, m, q) && RoundKeys(n.circle, q, ms) <= ks;
    assert q != r;
    assert RoundKeys(n.circle, q, ms) <= ks - RoundKeys(n.circle, r, ms);
  }

  /** The fully paid rounds behind the pots are disjoint parts of the records. */
  lemma {:induction false} PotsCovered(s: State, id: int, ns: set<Nullifier>, ks: set<Key>)
    requires StorageOk(s) && 0 <= id < s.count && id in s.circles
    requires forall n <- ns :: n.circle == id && Covered(s, n, ks)
    ensures |ks| >= Times(s.circles[id].size, |ns|)
    decreases |ns|
  {
    hide Times, FundedRound, RoundKeys;
    var size := s.circles[id].size;
    if ns == {} {
      assert Times(size, 0) == 0 by { TimesPlus(size, 0, 0); }
    } else {
      var n :| n in ns;
      assert CircleOk(s, id);
      var ms := s.members[id];
      var r :| FundedRound(s, n, r) && RoundKeys(id, r, ms) <= ks;
      var ns', ks' := ns - {n}, ks - RoundKeys(id, r, ms);
      forall m <- ns'
        ensures Covered(s, m, ks')
      {
        OthersCovered(s, n, r, m, ks);
      }
      PotsCovered(s, id, ns', ks');
      RoundKeysCount(id, r, ms);
      assert |ks'| == |ks| - size;
      TimesPlus(size, |ns'|, 1);
      assert Times(size, 1) == size by { TimesOne(size); }
    }
  }

  lemma TimesOne(a: int)
    ensures Times(a, 1) == a && Times(a, -1) == -a
  {
  }

  lemma TimesNonNegative(a: int, n: int)
    requires a >= 0 && n >= 0
    ensures Times(a, n) >= 0
  {
  }

  /** A circle never owes more than it took in. */
  lemma ShareNonNegative(s: State, id: int)
    requires Inv(s) && 0 <= id < s.count
    ensures id in s.circles && Share(s, id) >= 0
  {
    hide Times, FundedRound;
    assert CircleOk(s, id);
    var ns, ks := Pots(s, id), Records(s, id);
    forall n <- ns
      ensures Covered(s, n, ks)
    {
      assert Earned(s, n);
      var r :| FundedRound(s, n, r);
      FundedKeys(s, n, r);
    }
    PotsCovered(s, id, ns, ks);
    TimesNonNegative(s.circles[id].amount, |ks| - Times(s.circles[id].size, |ns|));
  }

  lemma FundedKeys(s: State, n: Nullifier, r: int)
    requires FundedRound(s, n, r)
    ensures RoundKeys(n.circle, r, s.members[n.circle]) <= Records(s, n.circle)
  {
    forall k | k in RoundKeys(n.circle, r, s.members[n.circle])
      ensures k in Records(s, n.circle)
    {
      var i :| 0 <= i < |s.members[n.circle]| && s.members[n.circle][i] == k.member;
      assert Key(n.circle, r, s.members[n.circle][i]) in s.contributions;
    }
  }

  // --- Conservation ---

  /** The shares of the first n circles that run on a token. */
  function Owed(s: State, token: Token, n: nat): int
    requires forall id :: 0 <= id < n ==> id in s.circles
  {
    if n == 0 then 0
    else Owed(s, token, n - 1) + if s.circles[n - 1].token == token then Share(s, n - 1) else 0
  }

  lemma {:induction false} OwedNonNegative(s: State, token: Token, n: nat)
    requires Inv(s) && n <= s.count
    ensures Owed(s, token, n) >= 0
  {
    if n > 0 {
      ShareNonNegative(s, n - 1);
      OwedNonNegative(s, token, n - 1);
    }
  }

  /** Circles whose share is untouched contribute the same. */
  lemma {:induction false} OwedSame(s: State, t: State, token: Token, n: nat, id: int)
    requires forall i :: 0 <= i < n ==> i in s.circles && i in t.circles
    requires forall i :: 0 <= i < n ==> t.circles[i].token == s.circles[i].token
    requires forall i :: 0 <= i < n && i != id ==> Share(t, i) == Share(s, i)
    ensures Owed(t, token, n) - Owed(s, token, n) ==
            if 0 <= id < n && s.circles[id].token == token then Share(t, id) - Share(s, id) else 0
  {
    if n > 0 {
      OwedSame(s, t, token, n - 1, id);
    }
  }

  /** Without seeding the only new record is an accepted payment's, and no record changes. */
  lemma KeysChange(s: State, c: Call)
    requires !c.Seed?
    ensures var t := Step(s, c);
            if c.Pay? && Pays(s, c, c.id)
            then t.contributions.Keys == s.contributions.Keys + {Key(c.id, c.round, c.member)}
                 && Key(c.id, c.round, c.member) !in s.contributions
            else t.contributions == s.contributions
  {
  }

  ghost function NewKeys(s: State, c: Call): set<Key> {
    if (c.Pay? && Pays(s, c, c.id)) || (c.Seed? && Seeds(s, c, c.id)) then {Key(c.id, c.round, c.member)} else {}
  }

  /** Seeding included, a call adds at most the record it names. */
  lemma RecordKeys(s: State, c: Call)
    ensures Step(s, c).contributions.Keys == s.contributions.Keys + NewKeys(s, c)
    ensures NewKeys(s, c) !! s.contributions.Keys
  {
  }

  /** A payment or a new seeded record of the circle. */
  ghost predicate Adds(s: State, c: Call, id: int) {
    Pays(s, c, id) || Seeds(s, c, id)
  }

  /** What a call does to the records and pots of a circle. */
  lemma BooksChange(s: State, c: Call, id: int)
    ensures |Records(Step(s, c), id)| == |Records(s, id)| + if Adds(s, c, id) then 1 else 0
    ensures |Pots(Step(s, c), id)| == |Pots(s, id)| + if Takes(s, c, id) then 1 else 0
  {
    RecordsChange(s, c, id);
    PotsChange(s, c, id);
  }

  lemma RecordsChange(s: State, c: Call, id: int)
    ensures |Records(Step(s, c), id)| == |Records(s, id)| + if Adds(s, c, id) then 1 else 0
  {
    RecordKeys(s, c);
    PaysOneCircle(s, c, id);
    hide Step, Pays, Seeds;
    NewRecords(s, Step(s, c), id, NewKeys(s, c));
  }

  lemma NewRecords(s: State, t: State, id: int, ks: set<Key>)
    requires t.contributions.Keys == s.contributions.Keys + ks && ks !! s.contributions.Keys && |ks| <= 1
    ensures |Records(t, id)| == |Records(s, id)| + if exists k :: k in ks && k.circle == id then 1 else 0
  {
    if k :| k in ks && k.circle == id {
      LoneKey(ks, k);
      assert Records(t, id) == Records(s, id) + {k};
    } else {
      assert Records(t, id) == Records(s, id);
    }
  }

  lemma LoneKey(ks: set<Key>, k: Key)
    requires k in ks && |ks| <= 1
    ensures ks == {k}
  {
    assert |ks - {k}| == 0;
  }

  lemma PotKeys(s: State, c: Call)
    ensures var t := Step(s, c);
            if c.Collect? && Takes(s, c, c.id)
            then t.collected == s.collected + {Nullifier(c.id, c.member)} && Nullifier(c.id, c.member) !in s.collected
            else t.collected == s.collected
  {
  }

  lemma PotsChange(s: State, c: Call, id: int)
    ensures |Pots(Step(s, c), id)| == |Pots(s, id)| + if Takes(s, c, id) then 1 else 0
  {
    PotKeys(s, c);
    PaysOneCircle(s, c, id);
    hide Step, Pays, Takes;
    var t := Step(s, c);
    if Takes(s, c, id) {
      assert Pots(t, id) == Pots(s, id) + {Nullifier(id, c.member)};
    } else {
      assert Pots(t, id) == Pots(s, id);
    }
  }

  lemma PaysOneCircle(s: State, c: Call, id: int)
    ensures Pays(s, c, id) ==> c.Pay? && c.id == id
    ensures Takes(s, c, id) ==> c.Collect? && c.id == id
    ensures Seeds(s, c, id) ==> c.Seed? && c.id == id
  {
  }

  /** How a call changes the shares: at most one circle's, by its new record or its pot. */
  lemma {:induction false} ShareChange(s: State, c: Call, id: int)
    requires StorageOk(s) && 0 <= id < s.count
    ensures id in s.circles && id in Step(s, c).circles
    ensures Share(Step(s, c), id) - Share(s, id) ==
            (if Adds(s, c, id) then s.circles[id].amount else 0)
            - if Takes(s, c, id) then Times(s.circles[id].amount, s.circles[id].size) else 0
  {
    hide Times, Records, Pots, Adds, Takes, Step;
    CircleGrows(s, c, id);
    BooksChange(s, c, id);
    var t := Step(s, c);
    var a, z := s.circles[id].amount, s.circles[id].size;
    var paid := if Adds(s, c, id) then 1 else 0;
    var taken := if Takes(s, c, id) then 1 else 0;
    TimesPlus(z, |Pots(s, id)|, taken);
    TimesPlus(a, |Records(s, id)| - Times(z, |Pots(s, id)|), paid - Times(z, taken));
    TimesPlus(a, paid, -Times(z, taken));
    TimesZero(a);
    TimesZero(z);
    TimesOne(a);
    TimesOne(z);
    TimesMinus(a, z);
  }

  lemma TimesZero(a: int)
    ensures Times(a, 0) == 0
  {
  }

  lemma TimesMinus(a: int, n: int)
    ensures Times(a, -n) == -Times(a, n)
  {
  }

  /** Every record and every pot is some circle's. */
  ghost predicate BooksOk(s: State) {
    StorageOk(s)
    && (forall k :: k in s.contributions ==> k.circle in s.circles)
    && forall n :: n in s.collected ==> n.circle in s.circles
  }

  lemma BooksKept(s: State, c: Call)
    requires BooksOk(s)
    ensures BooksOk(Step(s, c))
  {
    StorageKept(s, c);
    RecordKeys(s, c);
    PotKeys(s, c);
    CirclesKept(s, c);
    hide Step, StorageOk;
  }

  lemma CirclesKept(s: State, c: Call)
    ensures s.circles.Keys <= Step(s, c).circles.Keys
    ensures c.Pay? && Pays(s, c, c.id) ==> c.id in s.circles
    ensures c.Collect? && Takes(s, c, c.id) ==> c.id in s.circles
  {
  }

  lemma NewCircleOwesNothing(s: State, c: Call)
    requires BooksOk(s) && Step(s, c).count > s.count
    ensures c.Create? && Step(s, c).count == s.count + 1 && s.count in Step(s, c).circles
    ensures Share(Step(s, c), s.count) == 0
  {
    var t := Step(s, c);
    assert Records(t, s.count) == {} && Pots(t, s.count) == {};
  }

  /** The tokens the contract holds beyond what its circles are owed. */
  function Surplus(s: State, token: Token): int
    requires StorageOk(s)
  {
    Balance(s.ledger, token, Self) - Owed(s, token, s.count)
  }

  /** The circle a call moves money or a record for, if any. */
  function Touched(c: Call): int {
    if c.Pay? || c.Collect? || c.Seed? then c.id else -1
  }

  ghost predicate Concerns(s: State, c: Call, token: Token) {
    0 <= Touched(c) < s.count && Touched(c) in s.circles && s.circles[Touched(c)].token == token
  }

  /**
   Tokens a call brings the contract without owing them to a circle: what changes outside
   its calls, a pot collected to the contract itself, and, owed but not brought, what a
   seeded record stands for.
   */
  ghost function Given(s: State, c: Call, token: Token): int {
    if c.Outside? then Balance(c.ledger, token, Self) - Balance(s.ledger, token, Self)
    else if !Concerns(s, c, token) then 0
    else if Takes(s, c, Touched(c)) && c.Collect? && c.to == Self then
      Times(s.circles[Touched(c)].amount, s.circles[Touched(c)].size)
    else if Seeds(s, c, Touched(c)) then 0 - s.circles[Touched(c)].amount as int
    else 0
  }

  ghost function GivenIn(s: State, run: seq<Call>, token: Token): int {
    if run == [] then 0
    else
      var past := run[..|run| - 1];
      GivenIn(s, past, token) + Given(After(s, past), run[|run| - 1], token)
  }

  /** The contract's balance follows the payments in, the pots out, and what is given. */
  lemma BalanceChange(s: State, c: Call, token: Token)
    requires StorageOk(s)
    ensures var id := Touched(c);
            Balance(Step(s, c).ledger, token, Self) - Balance(s.ledger, token, Self) ==
            Given(s, c, token)
            + if Concerns(s, c, token)
              then (if Adds(s, c, id) then s.circles[id].amount else 0)
                   - if Takes(s, c, id) then Times(s.circles[id].amount, s.circles[id].size) else 0
              else 0
  {
    var id := Touched(c);
    if 0 <= id < s.count {
      assert CircleOk(s, id);
    }
  }

  lemma OwedChange(s: State, c: Call, token: Token)
    requires BooksOk(s)
    ensures StorageOk(Step(s, c))
    ensures var id := Touched(c);
            Owed(Step(s, c), token, Step(s, c).count) - Owed(s, token, s.count) ==
            if Concerns(s, c, token)
            then (if Adds(s, c, id) then s.circles[id].amount else 0)
                 - if Takes(s, c, id) then Times(s.circles[id].amount, s.circles[id].size) else 0
            else 0
  {
    hide Step, Times, Share, Adds, Takes;
    var t, id := Step(s, c), Touched(c);
    StorageKept(s, c);
    forall i | 0 <= i < s.count
      ensures i in s.circles && i in t.circles && t.circles[i].token == s.circles[i].token
    {
      CircleGrows(s, c, i);
    }
    forall i | 0 <= i < s.count && i != id
      ensures Share(t, i) == Share(s, i)
    {
      ShareChange(s, c, i);
      NotTouched(s, c, i);
    }
    if 0 <= id < s.count {
      ShareChange(s, c, id);
    }
    OwedSame(s, t, token, s.count, id);
    if t.count > s.count {
      NewCircleOwesNothing(s, c);
    }
  }

  lemma NotTouched(s: State, c: Call, i: int)
    requires 0 <= i != Touched(c)
    ensures !Adds(s, c, i) && !Takes(s, c, i)
  {
  }

  /** Any call at all changes the surplus by exactly what it gives. */
  lemma SurplusStep(s: State, c: Call, token: Token)
    requires BooksOk(s)
    ensures BooksOk(Step(s, c))
    ensures Surplus(Step(s, c), token) == Surplus(s, token) + Given(s, c, token)
  {
    BooksKept(s, c);
    BalanceChange(s, c, token);
    OwedChange(s, c, token);
    hide Step, Times, Owed, Adds, Takes, Given, StorageOk, Concerns;
  }

  // --- Main results: money ---

  /**
   Conservation, over every run there is: circles interleaved on one token, rounds
   advanced at any time, circles full or not, records seeded or not. What the contract
   holds is what it started with, the shares of all circles on the token, and what was
   given.
   */
  lemma {:induction false} Conservation(ledger: Ledger, run: seq<Call>, token: Token)
    ensures var s := After(Deployed(ledger), run);
            BooksOk(s) && Surplus(s, token) == Balance(ledger, token, Self) + GivenIn(Deployed(ledger), run, token)
  {
    hide Step, Given, BooksOk, StorageOk, Surplus;
    var d := Deployed(ledger);
    if run == [] {
      StartsOk(ledger, token);
    } else {
      var past, c := run[..|run| - 1], run[|run| - 1];
      Conservation(ledger, past, token);
      SurplusStep(After(d, past), c, token);
    }
  }

  lemma StartsOk(ledger: Ledger, token: Token)
    ensures BooksOk(Deployed(ledger)) && Inv(Deployed(ledger))
    ensures Surplus(Deployed(ledger), token) == Balance(ledger, token, Self)
  {
  }

  /** No circle owes more than it took in. */
  ghost predicate Solvent(s: State) {
    forall id :: 0 <= id < s.count ==> id in s.circles && Share(s, id) >= 0
  }

  /** A collect that is paid finds records for one pot more than was collected. */
  ghost predicate Covers(s: State, c: Call) {
    c.Collect? && Takes(s, c, c.id) && c.id in s.circles ==>
      |Records(s, c.id)| >= Times(s.circles[c.id].size, |Pots(s, c.id)| + 1)
  }

  lemma SolventStep(s: State, c: Call)
    requires BooksOk(s) && Solvent(s)
    ensures Solvent(Step(s, c)) <==> Covers(s, c)
  {
    StorageKept(s, c);
    CirclesKept(s, c);
    var t := Step(s, c);
    hide Step, Share, Records, Pots, Times, Adds, Takes, CollectPot;
    forall id | 0 <= id < s.count && !(c.Collect? && c.id == id && Takes(s, c, id))
      ensures id in t.circles && Share(t, id) >= 0
    {
      assert CircleOk(s, id);
      PaysOneCircle(s, c, id);
      ShareChange(s, c, id);
    }
    if t.count > s.count {
      NewCircleOwesNothing(s, c);
    }
    if c.Collect? && Takes(s, c, c.id) {
      TakesIs(s, c);
      PotSolventExactly(s, c.id, c.member, c.to);
      assert t == Step(s, Collect(c.id, c.member, c.to));
    }
  }

  lemma TakesIs(s: State, c: Call)
    requires StorageOk(s) && c.Collect? && Takes(s, c, c.id)
    ensures CollectPot(s, c.id, c.member, c.to).Ok? && 0 <= c.id < s.count
    ensures c == Collect(c.id, c.member, c.to)
  {
  }

  /**
   No circle's share is negative at any point of a run exactly when every pot that was
   paid found records for one pot more than its circle had paid before.
   */
  lemma {:induction false} SolventExactly(ledger: Ledger, run: seq<Call>)
    ensures (forall i :: 0 <= i <= |run| ==> Solvent(After(Deployed(ledger), run[..i])))
       <==> forall i :: 0 <= i < |run| ==> Covers(After(Deployed(ledger), run[..i]), run[i])
  {
    hide After, Step, Solvent, Covers, BooksOk;
    var d := Deployed(ledger);
    if forall i :: 0 <= i < |run| ==> Covers(After(d, run[..i]), run[i]) {
      SolventThroughout(ledger, run, |run|);
    } else {
      var i :| 0 <= i < |run| && !Covers(After(d, run[..i]), run[i]);
      if Solvent(After(d, run[..i])) {
        AfterNext(d, run, i);
        Conservation(ledger, run[..i], 0);
        SolventStep(After(d, run[..i]), run[i]);
        assert !Solvent(After(d, run[..i + 1]));
      }
    }
  }

  lemma AfterNext(s: State, run: seq<Call>, i: nat)
    requires i < |run|
    ensures After(s, run[..i + 1]) == Step(After(s, run[..i]), run[i])
  {
    assert run[..i + 1][..i] == run[..i];
  }

  lemma {:induction false} SolventThroughout(ledger: Ledger, run: seq<Call>, n: nat)
    requires n <= |run| && forall i :: 0 <= i < |run| ==> Covers(After(Deployed(ledger), run[..i]), run[i])
    ensures forall i :: 0 <= i <= n ==> Solvent(After(Deployed(ledger), run[..i]))
  {
    hide Step, Solvent, Covers, BooksOk;
    var d := Deployed(ledger);
    if n == 0 {
      NoneOwes(ledger);
      assert run[..0] == [];
    } else {
      SolventThroughout(ledger, run, n - 1);
      AfterNext(d, run, n - 1);
      Conservation(ledger, run[..n - 1], 0);
      SolventStep(After(d, run[..n - 1]), run[n - 1]);
    }
  }

  lemma NoneOwes(ledger: Ledger)
    ensures Solvent(Deployed(ledger))
  {
  }

  /** Tokens that reach the contract without a contribution record. */
  ghost predicate Gift(c: Call) {
    c.Outside? || (c.Collect? && c.to == Self)
  }

  lemma GivenWhenPaidFor(s: State, c: Call, token: Token)
    requires StorageOk(s) && PaidFor(s, c)
    ensures Given(s, c, token) >= 0 && (!Gift(c) ==> Given(s, c, token) == 0)
  {
    var id := Touched(c);
    if 0 <= id < s.count {
      assert CircleOk(s, id);
      TimesNonNegative(s.circles[id].amount, s.circles[id].size);
    }
  }

  /**
   No fullness is needed for the sum: while nobody else spends the contract's tokens and
   nothing is seeded, it holds the shares of all circles and what it started with, and
   exactly that as long as nobody gives it tokens.
   */
  lemma {:induction false} NothingMissing(ledger: Ledger, run: seq<Call>, token: Token)
    requires PaidForRun(Deployed(ledger), run)
    ensures var s := After(Deployed(ledger), run);
            StorageOk(s) && Surplus(s, token) >= Balance(ledger, token, Self)
            && ((forall i :: 0 <= i < |run| ==> !Gift(run[i])) ==> Surplus(s, token) == Balance(ledger, token, Self))
  {
    hide Step, PaidFor, StorageOk, Gift, Given, Surplus;
    var d := Deployed(ledger);
    if run == [] {
      StartsOk(ledger, token);
    } else {
      var past, c := run[..|run| - 1], run[|run| - 1];
      forall i | 0 <= i < |past|
        ensures PaidFor(After(d, past[..i]), past[i])
      {
        assert past[..i] == run[..i];
      }
      NothingMissing(ledger, past, token);
      Conservation(ledger, past, token);
      GivenWhenPaidFor(After(d, past), c, token);
      SurplusStep(After(d, past), c, token);
    }
  }

  lemma {:induction false} InvAfter(ledger: Ledger, run: seq<Call>)
    requires RegularRun(Deployed(ledger), run)
    ensures Inv(After(Deployed(ledger), run)) && PaidForRun(Deployed(ledger), run)
  {
    hide Step, Takes, Full, OutsideOnlyAdds, StorageOk, RecordsOk, PotsOk;
    var d := Deployed(ledger);
    if run == [] {
      StartsOk(ledger, 0);
    } else {
      var past, c := run[..|run| - 1], run[|run| - 1];
      forall i | 0 <= i < |past|
        ensures Regular(After(d, past[..i]), past[i])
      {
        assert past[..i] == run[..i];
      }
      InvAfter(ledger, past);
      InvKept(After(d, past), c);
    }
  }

  /**
   Solvency: when records are paid for and pots are paid on full circles only, no
   circle's share is ever negative, and the contract always holds at least the shares of
   all circles on the token plus what it held at the start, so its balance never falls
   below that. It holds exactly that as long as nobody gives it tokens.
   */
  lemma Solvency(ledger: Ledger, run: seq<Call>, token: Token)
    requires RegularRun(Deployed(ledger), run)
    ensures var s := After(Deployed(ledger), run);
            Inv(s) && (forall id :: 0 <= id < s.count ==> Share(s, id) >= 0)
            && Surplus(s, token) >= Balance(ledger, token, Self)
            && Balance(s.ledger, token, Self) >= Balance(ledger, token, Self)
            && ((forall i :: 0 <= i < |run| ==> !Gift(run[i])) ==> Surplus(s, token) == Balance(ledger, token, Self))
  {
    hide After, Share, Regular, PaidFor, StorageOk, RecordsOk, PotsOk, Gift;
    InvAfter(ledger, run);
    NothingMissing(ledger, run, token);
    var s := After(Deployed(ledger), run);
    OwedNonNegative(s, token, s.count);
    forall id | 0 <= id < s.count
      ensures id in s.circles && Share(s, id) >= 0
    {
      ShareNonNegative(s, id);
    }
  }

  // --- The funding check and full circles ---

  /** The records of one round by the present members. */
  function RoundRecords(s: State, id: int, round: int, ms: seq<Commitment>): set<Key> {
    set k | k in s.contributions && k.circle == id && k.round == round && k.member in ms
  }

  /**
   The funding check counts members but the pot is counted in places: what is paid out
   is what the round paid in exactly when the circle is full.
   */
  lemma PotIsTheRoundExactlyWhenFull(s: State, id: U32, m: Commitment, to: Address)
    requires StorageOk(s) && CollectPot(s, id, m, to).Ok?
    ensures id in s.circles && id in s.members
    ensures var c := s.circles[id];
            var paidIn := Times(c.amount, |RoundRecords(s, id, c.currentRound, s.members[id])|);
            var pot := CollectPot(s, id, m, to).value.1;
            pot >= paidIn && (pot == paidIn <==> Full(s, id))
  {
    assert CircleOk(s, id);
    var c, ms := s.circles[id], s.members[id];
    assert RoundRecords(s, id, c.currentRound, ms) == RoundKeys(id, c.currentRound, ms) by {
      forall k | k in RoundKeys(id, c.currentRound, ms)
        ensures k in s.contributions
      {
        var i :| 0 <= i < |ms| && ms[i] == k.member;
        assert Key(id, c.currentRound, ms[i]) in s.contributions;
      }
    }
    RoundKeysCount(id, c.currentRound, ms);
    TimesGap(c.amount, c.size, |ms|);
  }

  lemma TimesGap(a: int, x: int, y: int)
    requires a > 0 && x >= y
    ensures Times(a, x) >= Times(a, y) && (Times(a, x) == Times(a, y) <==> x == y)
  {
    TimesPlus(a, y, x - y);
  }

  /**
   A pot leaves its circle's share non-negative exactly when the records so far cover
   one pot more than was collected: otherwise it is paid with other circles' tokens.
   Any pot, any round, full or not.
   */
  lemma PotSolventExactly(s: State, id: U32, m: Commitment, to: Address)
    requires StorageOk(s) && CollectPot(s, id, m, to).Ok?
    ensures var t := Step(s, Collect(id, m, to));
            id in s.circles && id in t.circles
            && (Share(t, id) >= 0 <==> |Records(s, id)| >= Times(s.circles[id].size, |Pots(s, id)| + 1))
  {
    assert CircleOk(s, id);
    var c, t := s.circles[id], Step(s, Collect(id, m, to));
    BooksChange(s, Collect(id, m, to), id);
    hide Times, CollectPot, Step;
    var left := |Records(s, id)| - Times(c.size, |Pots(s, id)| + 1);
    assert Share(t, id) == Times(c.amount, left);
    if left < 0 {
      TimesNegative(c.amount, left);
    } else {
      TimesNonNegative(c.amount, left);
    }
  }

  /** In round 1 that is exactly when the circle is full. */
  lemma FirstPotSolventExactlyWhenFull(s: State, id: U32, m: Commitment, to: Address)
    requires StorageOk(s) && RecordsOk(s) && CollectPot(s, id, m, to).Ok?
    requires id in s.circles && s.circles[id].currentRound == 1 && Pots(s, id) == {}
    ensures var t := Step(s, Collect(id, m, to));
            id in t.circles && (Share(t, id) >= 0 <==> Full(s, id))
  {
    hide Times;
    assert CircleOk(s, id);
    var c, ms := s.circles[id], s.members[id];
    assert Records(s, id) == RoundKeys(id, 1, ms) by {
      forall k | k in Records(s, id)
        ensures k in RoundKeys(id, 1, ms)
      {
        assert Paid(s, k);
      }
      forall k | k in RoundKeys(id, 1, ms)
        ensures k in Records(s, id)
      {
        var i :| 0 <= i < |ms| && ms[i] == k.member;
        assert Key(id, 1, ms[i]) in s.contributions;
      }
    }
    RoundKeysCount(id, 1, ms);
    PotSolventExactly(s, id, m, to);
    TimesOne(c.size);
  }

  lemma TimesNegative(a: int, n: int)
    requires a > 0 && n < 0
    ensures Times(a, n) < 0
  {
  }

  lemma AfterMore(s: State, run: seq<Call>, c: Call)
    ensures After(s, run + [c]) == Step(After(s, run), c)
  {
    assert (run + [c])[..|run|] == run;
  }

  /** A circle of two on a token the contract already holds ten of. One member joins and pays. */
  lemma OneOfTwoPays(env: Env, from: Address)
    requires from == Other(1)
    ensures var d := Deployed(map[Account(0, Self) := 10, Account(0, from) := 10]);
            var joined := Step(Step(d, Create(env, 0, 10, 1, 2, false)), Join(0, 7, None));
            var s := Step(joined, Pay(Env(0, 0), 0, 1, 7, from, true));
            (env.now < U64_MAX ==>
              s.circles == map[0 := Circle(0, 10, 0, false, 1, 2, 1, Open, 1, env.now)]
              && s.members == map[0 := [7]] && s.contributions.Keys == {Key(0, 1, 7)} && s.collected == {}
              && Balance(s.ledger, 0, Self) == 20)
  {
    var none: seq<Commitment> := [];
    assert none + [7] == [7];
  }

  /** A run that overdraws: the one member of two then collects the pot of two. */
  lemma UnfilledCircleOverdraws()
    ensures var env, from := Env(0, 0), Other(1);
            var run := [Create(env, 0, 10, 1, 2, false), Join(0, 7, None), Pay(env, 0, 1, 7, from, true),
                        Collect(0, 7, from)];
            var s := After(Deployed(map[Account(0, Self) := 10, Account(0, from) := 10]), run);
            0 in s.circles && Share(s, 0) == -10
  {
    hide Step;
    var env, from := Env(0, 0), Other(1);
    var d := Deployed(map[Account(0, Self) := 10, Account(0, from) := 10]);
    var c0, c1 := Create(env, 0, 10, 1, 2, false), Join(0, 7, None);
    var c2, c3 := Pay(env, 0, 1, 7, from, true), Collect(0, 7, from);
    AfterMore(d, [], c0);
    AfterMore(d, [c0], c1);
    AfterMore(d, [c0, c1], c2);
    AfterMore(d, [c0, c1, c2], c3);
    assert [] + [c0] == [c0] && [c0] + [c1] == [c0, c1] && [c0, c1] + [c2] == [c0, c1, c2];
    assert [c0, c1, c2] + [c3] == [c0, c1, c2, c3];
    OneOfTwoPays(env, from);
    Overdraws(After(d, [c0, c1, c2]), from);
  }

  lemma Overdraws(s: State, from: Address)
    requires s.circles == map[0 := Circle(0, 10, 0, false, 1, 2, 1, Open, 1, 0)]
    requires s.members == map[0 := [7]] && s.contributions.Keys == {Key(0, 1, 7)} && s.collected == {}
    requires Balance(s.ledger, 0, Self) == 20
    ensures var t := Step(s, Collect(0, 7, from)); 0 in t.circles && Share(t, 0) == -10
  {
    var t := Step(s, Collect(0, 7, from));
    assert Funded(s, 0, 1, [7]);
    assert Records(t, 0) == {Key(0, 1, 7)};
    assert Pots(t, 0) == {Nullifier(0, 7)};
  }

  // --- Main results: rotation ---

  /** In a full circle rounds 1 to size call on every member exactly once, in slot order. */
  lemma TurnOrder(s: State, id: int)
    requires StorageOk(s) && 0 <= id < s.count && Full(s, id)
    ensures var ms := s.members[id];
            (forall r :: 1 <= r <= |ms| ==> Collector(ms, r) == ms[r - 1])
            && forall i, r :: 0 <= i < |ms| && 1 <= r <= |ms| ==> (Collector(ms, r) == ms[i] <==> r == i + 1)
  {
    hide Collector;
    assert CircleOk(s, id);
    var ms := s.members[id];
    forall r | 1 <= r <= |ms|
      ensures Collector(ms, r) == ms[r - 1]
    {
      CollectorAt(ms, r);
    }
  }

  lemma CollectorAt(ms: seq<Commitment>, r: int)
    requires 1 <= r <= |ms|
    ensures Collector(ms, r) == ms[r - 1]
  {
    SmallMod(r - 1, |ms|);
  }

  lemma SmallMod(a: nat, n: nat)
    requires a < n
    ensures a % n == a
  {
  }

  lemma CollectedStays(s: State, c: Call)
    ensures s.collected <= Step(s, c).collected
  {
  }

  lemma CollectedRefuses(s: State, id: U32, m: Commitment, to: Address)
    requires Nullifier(id, m) in s.collected
    ensures CollectPot(s, id, m, to).Err?
  {
  }

  lemma CollectLeavesNullifier(s: State, id: U32, m: Commitment, to: Address)
    requires CollectPot(s, id, m, to).Ok?
    ensures Nullifier(id, m) in CollectPot(s, id, m, to).value.0.collected
  {
  }

  /** A member collects at most once per circle, in any run whatever. */
  lemma {:induction false} OnePotPerMember(s: State, id: U32, m: Commitment, to: Address, run: seq<Call>,
                                           again: Address)
    requires CollectPot(s, id, m, to).Ok?
    ensures Nullifier(id, m) in After(CollectPot(s, id, m, to).value.0, run).collected
    ensures CollectPot(After(CollectPot(s, id, m, to).value.0, run), id, m, again).Err?
  {
    hide CollectPot, Step;
    var t := CollectPot(s, id, m, to).value.0;
    if run == [] {
      CollectLeavesNullifier(s, id, m, to);
    } else {
      OnePotPerMember(s, id, m, to, run[..|run| - 1], again);
      CollectedStays(After(t, run[..|run| - 1]), run[|run| - 1]);
    }
    CollectedRefuses(After(t, run), id, m, again);
  }

  /** The pot of the present round is gone. */
  ghost predicate RoundTaken(s: State, id: int) {
    Full(s, id) && |s.members[id]| > 0
    && Nullifier(id, Collector(s.members[id], s.circles[id].currentRound)) in s.collected
  }

  lemma TakenStays(s: State, c: Call, id: int)
    requires StorageOk(s) && 0 <= id < s.count && RoundTaken(s, id)
    requires !(c.Advance? && c.id == id)
    ensures RoundTaken(Step(s, c), id)
  {
    assert CircleOk(s, id);
  }

  /** A round of a full circle pays at most one pot, whoever asks and whatever happens in between. */
  lemma {:induction false} OnePotPerRound(s: State, id: U32, m: Commitment, to: Address, run: seq<Call>,
                                          other: Commitment, otherTo: Address)
    requires StorageOk(s) && Full(s, id) && CollectPot(s, id, m, to).Ok?
    requires forall i :: 0 <= i < |run| ==> !(run[i].Advance? && run[i].id == id)
    ensures var t := After(CollectPot(s, id, m, to).value.0, run);
            StorageOk(t) && id < t.count && RoundTaken(t, id) && CollectPot(t, id, other, otherTo).Err?
  {
    if run == [] {
      StorageKept(s, Collect(id, m, to));
      assert CircleOk(s, id);
    } else {
      var past, c := run[..|run| - 1], run[|run| - 1];
      OnePotPerRound(s, id, m, to, past, other, otherTo);
      var t := After(CollectPot(s, id, m, to).value.0, past);
      StorageKept(t, c);
      TakenStays(t, c, id);
    }
  }

  // --- A whole cycle ---

  function MemberRecords(s: State, id: int, m: Commitment): set<Key> {
    set k | k in s.contributions && k.circle == id && k.member == m
  }

  function PaidIn(s: State, id: int, m: Commitment): int
    requires id in s.circles
  {
    Times(s.circles[id].amount, |MemberRecords(s, id, m)|)
  }

  function TakenOut(s: State, id: int, m: Commitment): int
    requires id in s.circles
  {
    if Nullifier(id, m) in s.collected then Times(s.circles[id].amount, s.circles[id].size) else 0
  }

  /** Everyone of a full circle has had their pot. */
  ghost predicate AllCollected(s: State, id: int) {
    Full(s, id) && forall m <- s.members[id] :: Nullifier(id, m) in s.collected
  }

  /** And everyone paid rounds 1 to size; the circle may have advanced past them. */
  ghost predicate CycleDone(s: State, id: int) {
    AllCollected(s, id) && forall r :: 1 <= r <= s.circles[id].size ==> Funded(s, id, r, s.members[id])
  }

  /** Payments in rounds beyond the cycle: nothing stops them. */
  function LateRecords(s: State, id: int): set<Key>
    requires id in s.circles
  {
    set k | k in Records(s, id) && k.round > s.circles[id].size
  }

  function LateRecordsOf(s: State, id: int, m: Commitment): set<Key>
    requires id in s.circles
  {
    set k | k in MemberRecords(s, id, m) && k.round > s.circles[id].size
  }

  function RoundsKeys(id: int, rounds: nat, ms: seq<Commitment>): (ks: set<Key>) {
    if rounds == 0 then {} else RoundsKeys(id, rounds - 1, ms) + RoundKeys(id, rounds, ms)
  }

  lemma {:induction false} RoundsKeysMembers(id: int, rounds: nat, ms: seq<Commitment>)
    ensures forall k :: k in RoundsKeys(id, rounds, ms) <==> k.circle == id && 1 <= k.round <= rounds && k.member in ms
  {
    if rounds > 0 {
      RoundsKeysMembers(id, rounds - 1, ms);
    }
  }

  lemma NoRounds(id: int, ms: seq<Commitment>)
    ensures |RoundsKeys(id, 0, ms)| == 0
  {
  }

  lemma OneRoundMore(id: int, rounds: nat, ms: seq<Commitment>)
    requires rounds > 0
    ensures |RoundsKeys(id, rounds, ms)| == |RoundsKeys(id, rounds - 1, ms)| + |RoundKeys(id, rounds, ms)|
  {
    var before, last := RoundsKeys(id, rounds - 1, ms), RoundKeys(id, rounds, ms);
    RoundsKeysMembers(id, rounds - 1, ms);
    assert forall k <- last :: k.round == rounds;
    assert RoundsKeys(id, rounds, ms) == before + last;
    hide RoundsKeys, RoundKeys;
    assert before !! last;
    TogetherCount(before, last);
  }

  lemma TogetherCount(a: set<Key>, b: set<Key>)
    requires a !! b
    ensures |a + b| == |a| + |b|
  {
  }

  lemma {:induction false} RoundsKeysCount(id: int, rounds: nat, ms: seq<Commitment>)
    requires Distinct(ms)
    ensures |RoundsKeys(id, rounds, ms)| == Times(|ms|, rounds)
  {
    hide *;
    if rounds == 0 {
      NoRounds(id, ms);
      TimesZero(|ms|);
    } else {
      RoundsKeysCount(id, rounds - 1, ms);
      RoundKeysCount(id, rounds, ms);
      OneRoundMore(id, rounds, ms);
      TimesPlus(|ms|, rounds - 1, 1);
      TimesOne(|ms|);
    }
  }

  lemma {:induction false} PotsCount(id: int, ms: seq<Commitment>)
    requires Distinct(ms)
    ensures |set m | m in ms :: Nullifier(id, m)| == |ms|
  {
    if ms == [] {
      assert (set m | m in ms :: Nullifier(id, m)) == {};
    } else {
      var front, last := ms[..|ms| - 1], ms[|ms| - 1];
      PotsCount(id, front);
      assert (set m | m in ms :: Nullifier(id, m)) == (set m | m in front :: Nullifier(id, m)) + {Nullifier(id, last)};
    }
  }

  lemma FundedMember(s: State, id: int, r: int, ms: seq<Commitment>, m: Commitment)
    requires Funded(s, id, r, ms) && m in ms
    ensures Key(id, r, m) in s.contributions
  {
  }

  /** The records of a finished cycle: its rounds by all members, and what came late. */
  lemma CycleRecords(s: State, id: int, ms: seq<Commitment>)
    requires Inv(s) && 0 <= id < s.count && CycleDone(s, id) && ms == s.members[id]
    ensures Records(s, id) == RoundsKeys(id, s.circles[id].size, ms) + LateRecords(s, id)
    ensures RoundsKeys(id, s.circles[id].size, ms) !! LateRecords(s, id)
  {
    hide Funded, RoundsKeys;
    assert CircleOk(s, id);
    var z := s.circles[id].size;
    RoundsKeysMembers(id, z, ms);
    forall k | k in Records(s, id)
      ensures 1 <= k.round && k.member in ms
    {
      assert Paid(s, k);
    }
    forall k | k in RoundsKeys(id, z, ms)
      ensures k in Records(s, id)
    {
      FundedMember(s, id, k.round, ms, k.member);
      assert k == Key(id, k.round, k.member);
    }
  }

  lemma MemberCycleRecords(s: State, id: int, m: Commitment)
    requires Inv(s) && 0 <= id < s.count && CycleDone(s, id) && m in s.members[id]
    ensures MemberRecords(s, id, m) == RoundsKeys(id, s.circles[id].size, [m]) + LateRecordsOf(s, id, m)
    ensures RoundsKeys(id, s.circles[id].size, [m]) !! LateRecordsOf(s, id, m)
  {
    hide Funded, RoundsKeys;
    assert CircleOk(s, id);
    var z := s.circles[id].size;
    RoundsKeysMembers(id, z, [m]);
    forall k | k in MemberRecords(s, id, m)
      ensures 1 <= k.round
    {
      assert Paid(s, k);
    }
    forall k | k in RoundsKeys(id, z, [m])
      ensures k in MemberRecords(s, id, m)
    {
      FundedMember(s, id, k.round, s.members[id], m);
      assert k == Key(id, k.round, m);
    }
  }

  lemma CyclePots(s: State, id: int)
    requires Inv(s) && 0 <= id < s.count && CycleDone(s, id)
    ensures |Pots(s, id)| == |s.members[id]|
  {
    assert CircleOk(s, id);
    var ms := s.members[id];
    forall n | n in Pots(s, id)
      ensures n.member in ms && n == Nullifier(id, n.member)
    {
      assert Earned(s, n);
      var r :| FundedRound(s, n, r);
      EarnedByMember(s, n, r);
    }
    assert Pots(s, id) == set m | m in ms :: Nullifier(id, m);
    PotsCount(id, ms);
  }

  /**
   The books of a finished cycle: what the circle holds, and what each member paid in
   beyond what they took out, is the late payments and nothing else.
   */
  lemma CycleBooks(s: State, id: int)
    requires Inv(s) && 0 <= id < s.count && id in s.circles && CycleDone(s, id)
    ensures Share(s, id) == Times(s.circles[id].amount, |LateRecords(s, id)|)
    ensures forall m <- s.members[id] ::
              PaidIn(s, id, m) == TakenOut(s, id, m) + Times(s.circles[id].amount, |LateRecordsOf(s, id, m)|)
              && TakenOut(s, id, m) > 0
  {
    hide Times, RoundsKeys, FundedRound, Funded;
    assert CircleOk(s, id);
    var c, ms := s.circles[id], s.members[id];
    CycleRecords(s, id, ms);
    TogetherCount(RoundsKeys(id, c.size, ms), LateRecords(s, id));
    RoundsKeysCount(id, c.size, ms);
    CyclePots(s, id);
    forall m | m in ms
      ensures PaidIn(s, id, m) == TakenOut(s, id, m) + Times(c.amount, |LateRecordsOf(s, id, m)|)
              && TakenOut(s, id, m) > 0
    {
      MemberCycleRecords(s, id, m);
      TogetherCount(RoundsKeys(id, c.size, [m]), LateRecordsOf(s, id, m));
      RoundsKeysCount(id, c.size, [m]);
      TimesOfOne(c.size);
      TimesPlus(c.amount, c.size, |LateRecordsOf(s, id, m)|);
      TimesPositive(c.amount, c.size);
    }
  }

  /**
   A finished cycle conserves money: nothing is left, and a member got out what they
   paid in, exactly when nobody, and not that member, paid in a round beyond it.
   */
  lemma CycleIsEven(s: State, id: int)
    requires Inv(s) && 0 <= id < s.count && id in s.circles && CycleDone(s, id)
    ensures Share(s, id) == 0 <==> LateRecords(s, id) == {}
    ensures forall m <- s.members[id] ::
              (PaidIn(s, id, m) == TakenOut(s, id, m) <==> LateRecordsOf(s, id, m) == {}) && TakenOut(s, id, m) > 0
  {
    CycleBooks(s, id);
    hide Times, Share, PaidIn, TakenOut, CycleDone;
    assert CircleOk(s, id);
    var a := s.circles[id].amount;
    ZeroOnlyIfEmpty(a, LateRecords(s, id));
    forall m | m in s.members[id]
      ensures Times(a, |LateRecordsOf(s, id, m)|) == 0 <==> LateRecordsOf(s, id, m) == {}
    {
      ZeroOnlyIfEmpty(a, LateRecordsOf(s, id, m));
    }
  }

  lemma ZeroOnlyIfEmpty(a: int, ks: set<Key>)
    requires a > 0
    ensures Times(a, |ks|) == 0 <==> ks == {}
  {
    if ks == {} {
      TimesZero(a);
    } else {
      TimesPositive(a, |ks|);
    }
  }

  lemma AllCollectedStays(s: State, c: Call, id: int)
    requires StorageOk(s) && 0 <= id < s.count && AllCollected(s, id)
    ensures AllCollected(Step(s, c), id)
  {
    assert CircleOk(s, id);
  }

  /** Late payments are stranded: in any run after a finished cycle no pot of its circle is paid. */
  lemma {:induction false} FinishedPaysNoMore(s: State, id: U32, run: seq<Call>, m: Commitment, to: Address)
    requires StorageOk(s) && id < s.count && AllCollected(s, id)
    ensures var t := After(s, run);
            StorageOk(t) && id < t.count && AllCollected(t, id) && CollectPot(t, id, m, to).Err?
  {
    hide Step, StorageOk;
    if run != [] {
      var past, c := run[..|run| - 1], run[|run| - 1];
      FinishedPaysNoMore(s, id, past, m, to);
      StorageKept(After(s, past), c);
      AllCollectedStays(After(s, past), c, id);
    }
  }

  lemma EarnedByMember(s: State, n: Nullifier, r: int)
    requires FundedRound(s, n, r)
    ensures n.member in s.members[n.circle]
  {
  }

  lemma TimesOfOne(n: int)
    ensures Times(1, n) == n
  {
  }

  lemma TimesPositive(a: int, n: int)
    requires a > 0 && n > 0
    ensures Times(a, n) > 0
  {
  }

  // --- Main results: reputation ---

  predicate OnTimeAt(s: State, id: int, m: Commitment, q: int) {
    Key(id, q, m) in s.contributions && s.contributions[Key(id, q, m)].onTime
  }

  predicate LateAt(s: State, id: int, m: Commitment, q: int) {
    Key(id, q, m) in s.contributions && !s.contributions[Key(id, q, m)].onTime
  }

  function OnTimeRounds(s: State, id: int, m: Commitment, r: nat): set<int> {
    set q: int | 1 <= q <= r && OnTimeAt(s, id, m, q)
  }

  function LateRounds(s: State, id: int, m: Commitment, r: nat): set<int> {
    set q: int | 1 <= q <= r && LateAt(s, id, m, q)
  }

  /** The last round up to r with a record, 0 when there is none. */
  ghost predicate IsLast(s: State, id: int, m: Commitment, r: nat, through: nat) {
    through <= r && (through == 0 || Key(id, through, m) in s.contributions)
    && forall q :: through < q <= r ==> Key(id, q, m) !in s.contributions
  }

  /** One more round adds itself to at most one of the two sets. */
  lemma RoundSetsStep(s: State, id: int, m: Commitment, r: nat)
    requires r > 0
    ensures |OnTimeRounds(s, id, m, r)| == |OnTimeRounds(s, id, m, r - 1)| + if OnTimeAt(s, id, m, r) then 1 else 0
    ensures |LateRounds(s, id, m, r)| == |LateRounds(s, id, m, r - 1)| + if LateAt(s, id, m, r) then 1 else 0
  {
    OnTimeStep(s, id, m, r);
    LateStep(s, id, m, r);
  }

  lemma OnTimeStep(s: State, id: int, m: Commitment, r: nat)
    requires r > 0
    ensures |OnTimeRounds(s, id, m, r)| == |OnTimeRounds(s, id, m, r - 1)| + if OnTimeAt(s, id, m, r) then 1 else 0
  {
    hide OnTimeAt;
    var before := OnTimeRounds(s, id, m, r - 1);
    assert OnTimeRounds(s, id, m, r) == if OnTimeAt(s, id, m, r) then before + {r as int} else before;
  }

  lemma LateStep(s: State, id: int, m: Commitment, r: nat)
    requires r > 0
    ensures |LateRounds(s, id, m, r)| == |LateRounds(s, id, m, r - 1)| + if LateAt(s, id, m, r) then 1 else 0
  {
    hide LateAt;
    var before := LateRounds(s, id, m, r - 1);
    assert LateRounds(s, id, m, r) == if LateAt(s, id, m, r) then before + {r as int} else before;
  }

  /** The scan's counters are what the records say. */
  lemma {:induction false} ScanCounts(s: State, id: int, m: Commitment, r: nat)
    ensures var t := Scan(s, id, m, r);
            t.onTime == |OnTimeRounds(s, id, m, r)| && t.late == |LateRounds(s, id, m, r)|
            && IsLast(s, id, m, r, t.through) && t.onTime + t.late <= t.through
  {
    if r == 0 {
      assert OnTimeRounds(s, id, m, 0) == {} && LateRounds(s, id, m, 0) == {};
    } else {
      ScanCounts(s, id, m, r - 1);
      RoundSetsStep(s, id, m, r);
      hide OnTimeRounds, LateRounds;
    }
  }

  function Interval(n: nat): (r: set<int>)
    ensures |r| == n && forall q :: q in r <==> 1 <= q <= n
  {
    if n == 0 then {} else Interval(n - 1) + {n}
  }

  /**
   Reputation is exact: the counts are the cardinalities of the rounds the records
   name, nothing underflows, and a default is a round up to the member's last record
   that was not paid on time.
   */
  lemma ReputationExact(s: State, id: U32, m: Commitment, through: nat)
    requires GetReputation(s, id, m).Ok? && id in s.circles
    requires IsLast(s, id, m, Cap(s.circles[id]), through)
    ensures var r, cap := GetReputation(s, id, m).value, Cap(s.circles[id]);
            r.onTimeCount == |OnTimeRounds(s, id, m, cap)|
            && r.completedCycles == |OnTimeRounds(s, id, m, cap)| + |LateRounds(s, id, m, cap)| <= through
            && r.onTimeCount + r.defaultCount == through
            && r.defaultCount == |Interval(through) - OnTimeRounds(s, id, m, cap)|
  {
    var cap := Cap(s.circles[id]);
    ScanCounts(s, id, m, cap);
    var t, on := Scan(s, id, m, cap), OnTimeRounds(s, id, m, cap);
    assert t.through > 0 ==> Key(id, t.through, m) in s.contributions;
    assert through > 0 ==> Key(id, through, m) in s.contributions;
    assert on <= Interval(through);
    assert |Interval(through) - on| == through - |on|;
  }

  /** Rounds without a record leave the scan as it is. */
  lemma {:induction false} ScanIdle(s: State, id: int, m: Commitment, a: nat, b: nat)
    requires a <= b && forall q :: a < q <= b ==> Key(id, q, m) !in s.contributions
    ensures Scan(s, id, m, b) == Scan(s, id, m, a)
    decreases b
  {
    if a < b {
      ScanIdle(s, id, m, a, b - 1);
    }
  }

  lemma {:induction false} ScanSame(s: State, t: State, id: int, m: Commitment, r: nat)
    requires forall q :: 1 <= q <= r ==> (Key(id, q, m) in s.contributions <==> Key(id, q, m) in t.contributions)
    requires forall q :: 1 <= q <= r && Key(id, q, m) in s.contributions ==>
               s.contributions[Key(id, q, m)] == t.contributions[Key(id, q, m)]
    ensures Scan(s, id, m, r) == Scan(t, id, m, r)
  {
    if r > 0 {
      ScanSame(s, t, id, m, r - 1);
    }
  }

  /** A member's counters by the records there are, however far the scan goes. */
  function History(s: State, id: int, m: Commitment): Tally
    requires id in s.circles
  {
    Scan(s, id, m, s.circles[id].currentRound)
  }

  lemma HistoryIsScan(s: State, id: int, m: Commitment, r: nat)
    requires RecordsOk(s) && id in s.circles && r >= s.circles[id].currentRound
    ensures Scan(s, id, m, r) == History(s, id, m)
  {
    forall q | s.circles[id].currentRound < q <= r
      ensures Key(id, q, m) !in s.contributions
    {
      assert Key(id, q, m) in s.contributions ==> Paid(s, Key(id, q, m));
    }
    ScanIdle(s, id, m, s.circles[id].currentRound, r);
  }

  ghost predicate NoWorse(a: Tally, b: Tally) {
    a.onTime <= b.onTime && a.onTime + a.late <= b.onTime + b.late && a.through - a.onTime <= b.through - b.onTime
  }

  lemma HistoryGrows(s: State, c: Call, id: int, m: Commitment)
    requires StorageOk(s) && RecordsOk(s) && !c.Seed? && 0 <= id < s.count
    ensures id in s.circles && id in Step(s, c).circles
    ensures NoWorse(History(s, id, m), History(Step(s, c), id, m))
  {
    var t := Step(s, c);
    CircleGrows(s, c, id);
    KeysChange(s, c);
    RecordsKept(s, c);
    var now := t.circles[id].currentRound;
    HistoryIsScan(s, id, m, now);
    if Pays(s, c, id) && c.member == m {
      assert now == s.circles[id].currentRound == c.round;
      ScanSame(s, t, id, m, now - 1);
      ScanCounts(s, id, m, now - 1);
    } else {
      ScanSame(s, t, id, m, now);
    }
  }

  /** In a seed-free run none of a member's three numbers ever decreases. */
  lemma {:induction false} ReputationOnlyGrows(s: State, run: seq<Call>, id: U32, m: Commitment)
    requires StorageOk(s) && RecordsOk(s) && id < s.count
    requires forall i :: 0 <= i < |run| ==> !run[i].Seed?
    ensures var t := After(s, run);
            StorageOk(t) && RecordsOk(t) && id < t.count && id in s.circles && id in t.circles
            && NoWorse(History(s, id, m), History(t, id, m))
            && (GetReputation(s, id, m).Ok? && GetReputation(t, id, m).Ok? ==>
                  var a, b := GetReputation(s, id, m).value, GetReputation(t, id, m).value;
                  a.completedCycles <= b.completedCycles && a.onTimeCount <= b.onTimeCount
                  && a.defaultCount <= b.defaultCount)
  {
    hide Step, Paid, Scan;
    if run != [] {
      var past, c := run[..|run| - 1], run[|run| - 1];
      ReputationOnlyGrows(s, past, id, m);
      StorageKept(After(s, past), c);
      RecordsKept(After(s, past), c);
      HistoryGrows(After(s, past), c, id, m);
    }
    var t := After(s, run);
    assert CircleOk(s, id) && CircleOk(t, id);
    HistoryIsScan(s, id, m, Cap(s.circles[id]));
    HistoryIsScan(t, id, m, Cap(t.circles[id]));
  }
}
