/**
 The client's session holder: sessionHolder.ts, as the interleaving of its calls with
 the callbacks of the sign-ins it starts.

 A sign-in is named by its number, and the token it yields by the same number. Its
 then-callback and its finally-callback run separately: anything may happen between.
 */
module SessionHolder {
  import opened Wrappers

  type Attempt = nat

  datatype Phase =
    | InFlight
    /** The answer arrived in some era: a token, no token, or a refusal. */
    | Landed(inEra: nat, answer: Answer)
    | Finished(inEra: nat, answer: Answer)

  datatype Answer = Token | NoSession | Declined

  datatype SignIn = SignIn(startedIn: nat, phase: Phase)

  /** The holder's three variables, and what the transport has been asked. */
  datatype State = State(
    token: Option<Attempt>, pending: Option<Attempt>, era: nat,
    signIns: seq<SignIn>, adopted: set<Attempt>, revoked: set<Attempt>)

  const Start := State(None, None, 0, [], {}, {})

  /** What ensure answers: the token held, or the sign-in to wait for. */
  datatype Reply = Now(token: Attempt) | Wait(signIn: Attempt)

  function Ensure(s: State): (State, Reply) {
    if s.token.Some? then (s, Now(s.token.value))
    else if s.pending.Some? then (s, Wait(s.pending.value))
    else
      var k := |s.signIns|;
      (s.(signIns := s.signIns + [SignIn(s.era, InFlight)], pending := Some(k)), Wait(k))
  }

  function Clear(s: State): State {
    s.(era := s.era + 1, token := None)
  }

  function End(s: State): State {
    var cleared := Clear(s);
    if s.token.None? then cleared else cleared.(revoked := s.revoked + {s.token.value})
  }

  predicate CanLand(s: State, k: Attempt) {
    k < |s.signIns| && s.signIns[k].phase.InFlight?
  }

  /** The then-callback, or the passing-on of a refusal. */
  function Land(s: State, k: Attempt, answer: Answer): State
    requires CanLand(s, k)
  {
    var startedIn := s.signIns[k].startedIn;
    var s' := s.(signIns := s.signIns[k := SignIn(startedIn, Landed(s.era, answer))]);
    if answer.Declined? then s'
    else if s.era != startedIn then
      if answer.Token? then s'.(revoked := s.revoked + {k}) else s'
    else if answer.Token? then s'.(token := Some(k), adopted := s.adopted + {k})
    else s'.(token := None)
  }

  predicate CanFinish(s: State, k: Attempt) {
    k < |s.signIns| && s.signIns[k].phase.Landed?
  }

  /** The finally-callback. */
  function Finish(s: State, k: Attempt): State
    requires CanFinish(s, k)
  {
    var p := s.signIns[k].phase;
    s.(signIns := s.signIns[k := s.signIns[k].(phase := Finished(p.inEra, p.answer))], pending := None)
  }

  class Holder {
    var token: Option<Attempt>
    var pending: Option<Attempt>
    var era: nat
    /** The transport's side: the sign-ins it was asked for, and what became of their tokens. */
    var signIns: seq<SignIn>
    var adopted: set<Attempt>
    var revoked: set<Attempt>

    function View(): State
      reads this
    {
      State(token, pending, era, signIns, adopted, revoked)
    }

    constructor ()
      ensures View() == Start
    {
      token, pending, era := None, None, 0;
      signIns, adopted, revoked := [], {}, {};
    }

    method EnsureSession() returns (r: Reply)
      modifies this
      ensures (View(), r) == Ensure(old(View()))
    {
      if token.Some? {
        return Now(token.value);
      }
      if pending.Some? {
        return Wait(pending.value);
      }
      var attempt := |signIns|;
      signIns := signIns + [SignIn(era, InFlight)];
      pending := Some(attempt);
      return Wait(attempt);
    }

    method Forget()
      modifies this
      ensures View() == Clear(old(View()))
    {
      era := era + 1;
      token := None;
    }

    /** Returns the token to revoke on the server, if one was held. */
    method EndSession() returns (ending: Option<Attempt>)
      modifies this
      ensures View() == End(old(View())) && ending == old(token)
    {
      ending := token;
      Forget();
      if ending.Some? {
        revoked := revoked + {ending.value};
      }
    }

    /** The then-callback of sign-in k, which remembers the era it was started in. */
    method OnLanded(k: Attempt, startedIn: nat, answer: Answer) returns (revoke: bool)
      requires CanLand(View(), k) && signIns[k].startedIn == startedIn
      modifies this
      ensures View() == Land(old(View()), k, answer)
      ensures revoke <==> answer.Token? && startedIn != era
    {
      signIns := signIns[k := SignIn(startedIn, Landed(era, answer))];
      revoke := false;
      if answer.Declined? {
        return;
      }
      if era != startedIn {
        if answer.Token? {
          revoked := revoked + {k};
          revoke := true;
        }
        return;
      }
      if answer.Token? {
        token := Some(k);
        adopted := adopted + {k};
      } else {
        token := None;
      }
    }

    method OnSettled(k: Attempt)
      requires CanFinish(View(), k)
      modifies this
      ensures View() == Finish(old(View()), k)
    {
      signIns := signIns[k := signIns[k].(phase := Finished(signIns[k].phase.inEra, signIns[k].phase.answer))];
      pending := None;
    }
  }
}
