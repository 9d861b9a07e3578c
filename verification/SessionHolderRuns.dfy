/** What every interleaving of calls and callbacks keeps. */
module SessionHolderRuns {
  import opened Wrappers
  import opened SessionHolder

  // --- Every interleaving ---

  datatype Event = Ensures | Clears | Ends | Lands(k: Attempt, answer: Answer) | Finishes(k: Attempt)

  predicate Enabled(s: State, e: Event) {
    (e.Lands? ==> CanLand(s, e.k)) && (e.Finishes? ==> CanFinish(s, e.k))
  }

  function Next(s: State, e: Event): State
    requires Enabled(s, e)
  {
    match e
    case Ensures => Ensure(s).0
    case Clears => Clear(s)
    case Ends => End(s)
    case Lands(k, answer) => Land(s, k, answer)
    case Finishes(k) => Finish(s, k)
  }

  ghost predicate MovesBy(s: State, t: State, e: Event) {
    Enabled(s, e) && t == Next(s, e)
  }

  ghost predicate Moves(s: State, t: State) {
    exists e :: MovesBy(s, t, e)
  }

  /** A run, as the states it goes through. */
  ghost predicate Run(run: seq<State>) {
    run != [] && run[0] == Start && forall i :: 0 < i < |run| ==> Moves(run[i - 1], run[i])
  }

  // --- What every interleaving keeps ---

  predicate Known(s: State, k: Attempt) {
    k < |s.signIns|
  }

  /** A sign-in is unsettled exactly while it is the pending one. */
  predicate OnePending(s: State) {
    (s.pending.Some? ==> Known(s, s.pending.value))
    && forall k :: 0 <= k < |s.signIns| ==> (s.pending == Some(k) <==> !s.signIns[k].phase.Finished?)
  }

  predicate ErasInOrder(s: State) {
    forall k :: 0 <= k < |s.signIns| ==>
      s.signIns[k].startedIn <= s.era
      && (!s.signIns[k].phase.InFlight? ==> s.signIns[k].startedIn <= s.signIns[k].phase.inEra <= s.era)
  }

  /** A held token was adopted in the current era, from a sign-in started in it. */
  predicate HeldIsCurrent(s: State) {
    s.token.Some? ==> Known(s, s.token.value) && s.token.value in s.adopted
                      && s.signIns[s.token.value].startedIn == s.era
  }

  /** Of the current era, only the held token was adopted; while a sign-in of it is open, none is held. */
  predicate AdoptedIsHeld(s: State) {
    (forall k <- s.adopted :: Known(s, k) && (s.signIns[k].startedIn == s.era ==> s.token == Some(k)))
    && forall k :: 0 <= k < |s.signIns| && s.signIns[k].phase.InFlight? && s.signIns[k].startedIn == s.era ==>
         s.token.None?
  }

  predicate OneAdoptedPerEra(s: State) {
    forall a <- s.adopted, b <- s.adopted ::
      Known(s, a) && Known(s, b) && s.signIns[a].startedIn == s.signIns[b].startedIn ==> a == b
  }

  /** A token is adopted exactly when it lands in the era of its sign-in, and revoked when it does not. */
  predicate LateIsRevoked(s: State) {
    forall k :: 0 <= k < |s.signIns| ==>
      var p := s.signIns[k].phase;
      if p.InFlight? || !p.answer.Token? then k !in s.adopted
      else if p.inEra == s.signIns[k].startedIn then k in s.adopted
      else k in s.revoked && k !in s.adopted
  }

  predicate Inv(s: State) {
    OnePending(s) && ErasInOrder(s) && HeldIsCurrent(s) && AdoptedIsHeld(s) && OneAdoptedPerEra(s) && LateIsRevoked(s)
  }

  lemma {:induction false} InvKept(s: State, e: Event)
    requires Inv(s) && Enabled(s, e)
    ensures Inv(Next(s, e))
  {
    match e
    case Ensures => EnsureKeeps(s);
    case Clears =>
    case Ends =>
    case Lands(k, answer) => LandKeeps(s, k, answer);
    case Finishes(k) =>
  }

  lemma {:induction false} EnsureKeeps(s: State)
    requires Inv(s)
    ensures Inv(Ensure(s).0)
  {
  }

  lemma LandKeeps(s: State, k: Attempt, answer: Answer)
    requires Inv(s) && CanLand(s, k)
    ensures Inv(Land(s, k, answer))
  {
    LandSettles(s, k, answer);
    LandHeld(s, k, answer);
    LandAdopts(s, k, answer);
    hide Land, CanLand;
  }

  lemma LandSettles(s: State, k: Attempt, answer: Answer)
    requires OnePending(s) && ErasInOrder(s) && LateIsRevoked(s) && CanLand(s, k)
    ensures var t := Land(s, k, answer); OnePending(t) && ErasInOrder(t) && LateIsRevoked(t)
  {
  }

  lemma LandHeld(s: State, k: Attempt, answer: Answer)
    requires OnePending(s) && HeldIsCurrent(s) && AdoptedIsHeld(s) && CanLand(s, k)
    ensures var t := Land(s, k, answer); HeldIsCurrent(t) && AdoptedIsHeld(t)
  {
  }

  lemma LandAdopts(s: State, k: Attempt, answer: Answer)
    requires AdoptedIsHeld(s) && OneAdoptedPerEra(s) && CanLand(s, k)
    ensures OneAdoptedPerEra(Land(s, k, answer))
  {
  }

  lemma {:induction false} InvAlways(run: seq<State>, i: nat)
    requires Run(run) && i < |run|
    ensures Inv(run[i])
  {
    hide Inv, MovesBy, Enabled;
    if i == 0 {
      assert Inv(Start) by { InvStart(); }
    } else {
      InvAlways(run, i - 1);
      assert Moves(run[i - 1], run[i]);
      var e :| MovesBy(run[i - 1], run[i], e);
      InvMoves(run[i - 1], run[i], e);
    }
  }

  lemma {:induction false} InvStart()
    ensures Inv(Start)
  {
  }

  lemma {:induction false} InvMoves(s: State, t: State, e: Event)
    requires Inv(s) && MovesBy(s, t, e)
    ensures Inv(t)
  {
    InvKept(s, e);
  }

  // --- Main results ---

  /** In every interleaving at most one sign-in is open, however many callers ask. */
  lemma {:induction false} OneSignInAtATime(run: seq<State>, i: nat, a: Attempt, b: Attempt)
    requires Run(run) && i < |run| && Known(run[i], a) && Known(run[i], b)
    requires run[i].signIns[a].phase.InFlight? && run[i].signIns[b].phase.InFlight?
    ensures a == b
  {
    InvAlways(run, i);
  }

  /** A token that is held belongs to the current era, and no era ever adopts two. */
  lemma {:induction false} HeldBelongsHere(run: seq<State>, i: nat)
    requires Run(run) && i < |run|
    ensures var s := run[i];
            (s.token.Some? ==>
              Known(s, s.token.value) && s.signIns[s.token.value].startedIn == s.era
              && s.signIns[s.token.value].phase != InFlight && s.signIns[s.token.value].phase.answer.Token?)
            && OneAdoptedPerEra(s)
  {
    InvAlways(run, i);
  }

  lemma {:induction false} Persists(s: State, t: State, k: Attempt)
    requires Moves(s, t) && Known(s, k)
    ensures Known(t, k) && t.signIns[k].startedIn == s.signIns[k].startedIn
    ensures !s.signIns[k].phase.InFlight? ==>
              !t.signIns[k].phase.InFlight? && t.signIns[k].phase.inEra == s.signIns[k].phase.inEra
              && t.signIns[k].phase.answer == s.signIns[k].phase.answer
  {
    var e :| MovesBy(s, t, e);
  }

  /** A token that lands in a later era is revoked, and is not held then or ever after. */
  lemma {:induction false} LateTokenNeverHeld(run: seq<State>, i: nat, j: nat, k: Attempt)
    requires Run(run) && i <= j < |run| && Known(run[i], k)
    requires var p := run[i].signIns[k].phase;
             !p.InFlight? && p.answer.Token? && p.inEra != run[i].signIns[k].startedIn
    ensures k in run[j].revoked && run[j].token != Some(k)
    ensures Known(run[j], k) && var p := run[j].signIns[k].phase;
            !p.InFlight? && p.answer.Token? && p.inEra != run[j].signIns[k].startedIn
    decreases j
  {
    hide Inv;
    if i < j {
      LateTokenNeverHeld(run, i, j - 1, k);
      assert Moves(run[j - 1], run[j]);
      Persists(run[j - 1], run[j], k);
    }
    InvAlways(run, j);
    LateOut(run[j], k);
  }

  lemma {:induction false} LateOut(s: State, k: Attempt)
    requires Inv(s) && Known(s, k)
    requires var p := s.signIns[k].phase; !p.InFlight? && p.answer.Token? && p.inEra != s.signIns[k].startedIn
    ensures k in s.revoked && s.token != Some(k)
  {
  }

  /** Asking answers with the held token, else with the open sign-in; only with neither is one started. */
  lemma {:induction false} EnsureAnswers(run: seq<State>, i: nat)
    requires Run(run) && i < |run|
    ensures var s := run[i];
            var (t, reply) := Ensure(s);
            match reply
            case Now(k) => s.token == Some(k) && t == s
            case Wait(k) =>
              s.token.None? && Known(t, k) && !t.signIns[k].phase.Finished?
              && (if k < |s.signIns| then t == s
                  else (forall a :: 0 <= a < |s.signIns| ==> s.signIns[a].phase.Finished?)
                       && t.signIns == s.signIns + [SignIn(s.era, InFlight)] && t.pending == Some(k)
                       && t == s.(signIns := t.signIns, pending := t.pending))
  {
    InvAlways(run, i);
  }

  /** A token that lands in the era it was asked for in is held, until a sign-out or another sign-in's answer. */
  lemma {:induction false} TimelyTokenIsHeld(s: State, k: Attempt, e: Event)
    requires Inv(s) && CanLand(s, k) && s.signIns[k].startedIn == s.era
    ensures var t := Land(s, k, Token);
            t.token == Some(k) && k in t.adopted && t.revoked == s.revoked && t.era == s.era
            && (Enabled(t, e) && !e.Clears? && !e.Ends? ==> Next(t, e).token == Some(k))
  {
    LandKeeps(s, k, Token);
  }

  /** The token held at a sign-out is revoked, and is never held again. */
  lemma {:induction false} SignedOutIsRevoked(run: seq<State>, i: nat, j: nat, k: Attempt)
    requires Run(run) && i < j < |run| && run[i].token == Some(k) && run[i + 1] == End(run[i])
    ensures k in run[j].revoked && run[j].token != Some(k)
    ensures Known(run[j], k) && !run[j].signIns[k].phase.InFlight? && run[j].signIns[k].startedIn < run[j].era
  {
    hide Inv, Land;
    InvAlways(run, i);
    InvAlways(run, j);
    if j == i + 1 {
      HeldHasLanded(run[i], k);
    } else {
      SignedOutIsRevoked(run, i, j - 1, k);
      assert Moves(run[j - 1], run[j]);
      Persists(run[j - 1], run[j], k);
      OnlyForward(run[j - 1], run[j]);
    }
    HeldIsNow(run[j]);
  }

  lemma HeldHasLanded(s: State, k: Attempt)
    requires Inv(s) && s.token == Some(k)
    ensures Known(s, k) && !s.signIns[k].phase.InFlight? && s.signIns[k].startedIn == s.era
  {
  }

  lemma HeldIsNow(s: State)
    requires Inv(s)
    ensures forall k :: s.token == Some(k) ==> Known(s, k) && s.signIns[k].startedIn == s.era
  {
  }

  lemma OnlyForward(s: State, t: State)
    requires Moves(s, t)
    ensures s.era <= t.era && s.revoked <= t.revoked
  {
    var e :| MovesBy(s, t, e);
  }
}
