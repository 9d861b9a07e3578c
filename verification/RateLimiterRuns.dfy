/** What the rate limiter answers over every run of requests under a clock that never goes back. */
module RateLimiterRuns {
  import opened RateLimiter

  // --- Runs ---

  datatype Request = Request(key: ClientKey, at: int)

  function After(l: Limit, start: int, run: seq<Request>): State {
    if run == [] then Started(l, start)
    else
      var r := run[|run| - 1];
      Limited(l, After(l, start, run[..|run| - 1]), r.key, r.at).0
  }

  function UnsweptAfter(l: Limit, run: seq<Request>): map<ClientKey, Entry> {
    if run == [] then map[]
    else
      var r := run[|run| - 1];
      Unswept(l, UnsweptAfter(l, run[..|run| - 1]), r.key, r.at).0
  }

  function AnswerAt(l: Limit, start: int, run: seq<Request>, i: nat): Answer
    requires i < |run|
  {
    Limited(l, After(l, start, run[..i]), run[i].key, run[i].at).1
  }

  function Clock(start: int, run: seq<Request>): int {
    if run == [] then start else run[|run| - 1].at
  }

  /** The clock never goes back. */
  predicate Monotone(start: int, run: seq<Request>) {
    (forall i :: 0 <= i < |run| ==> start <= run[i].at)
    && forall i, j :: 0 <= i < j < |run| ==> run[i].at <= run[j].at
  }

  // --- Forgetting changes nothing ---

  /** What is remembered is current; what was forgotten has closed. */
  predicate Remembers(s: State, all: map<ClientKey, Entry>, t: int) {
    (forall k :: k in s.hits ==> k in all && all[k] == s.hits[k])
    && forall k :: k in all && k !in s.hits ==> all[k].resetAt <= t
  }

  lemma {:induction false} RemembersAfter(l: Limit, start: int, run: seq<Request>)
    requires Monotone(start, run)
    ensures Remembers(After(l, start, run), UnsweptAfter(l, run), Clock(start, run))
  {
    if run != [] {
      RemembersAfter(l, start, run[..|run| - 1]);
    }
  }

  /** The sweep never changes an answer: the limiter refines the one that never forgets. */
  lemma SweepNeverShows(l: Limit, start: int, run: seq<Request>, i: nat)
    requires Monotone(start, run) && i < |run|
    ensures AnswerAt(l, start, run, i) == Unswept(l, UnsweptAfter(l, run[..i]), run[i].key, run[i].at).1
  {
    RemembersAfter(l, start, run[..i]);
  }

  function Opened(l: Limit, e: Entry): int {
    e.resetAt - l.windowMs
  }

  predicate OpenWithin(l: Limit, e: Entry, t: int) {
    Opened(l, e) <= t < Opened(l, e) + 2 * l.windowMs
  }

  /** It forgets soon: every remembered window began less than two windows ago. */
  lemma {:induction false} ForgetsSoon(l: Limit, start: int, run: seq<Request>)
    requires l.Valid() && Monotone(start, run)
    ensures var s, t := After(l, start, run), Clock(start, run);
            t < s.nextSweepAt <= t + l.windowMs
            && forall k :: k in s.hits ==> OpenWithin(l, s.hits[k], t) && s.hits[k].resetAt > s.nextSweepAt - l.windowMs
  {
    if run != [] {
      ForgetsSoon(l, start, run[..|run| - 1]);
      ClockStep(start, run);
    }
  }

  // --- How much gets through ---

  /** How many requests of a key were allowed at times from a up to, not including, b. */
  function Allowed(l: Limit, start: int, run: seq<Request>, key: ClientKey, a: int, b: int): nat {
    if run == [] then 0
    else
      var n := |run| - 1;
      Allowed(l, start, run[..n], key, a, b)
        + if run[n].key == key && a <= run[n].at < b && AnswerAt(l, start, run, n).allowed then 1 else 0
  }

  lemma {:induction false} AllowedSplit(l: Limit, start: int, run: seq<Request>, key: ClientKey, a: int, b: int, c: int)
    requires a <= b <= c
    ensures Allowed(l, start, run, key, a, c) == Allowed(l, start, run, key, a, b) + Allowed(l, start, run, key, b, c)
  {
    if run != [] {
      AllowedSplit(l, start, run[..|run| - 1], key, a, b, c);
    }
  }

  /** Widening the interval never loses an allowance. */
  lemma AllowedWider(l: Limit, start: int, run: seq<Request>, key: ClientKey, a: int, b: int, c: int, d: int)
    requires a <= b <= c <= d
    ensures Allowed(l, start, run, key, b, c) <= Allowed(l, start, run, key, a, d)
  {
    AllowedSplit(l, start, run, key, a, b, d);
    AllowedSplit(l, start, run, key, b, c, d);
  }

  lemma {:induction false} AllowedNone(l: Limit, start: int, run: seq<Request>, key: ClientKey, a: int, b: int)
    requires forall i :: 0 <= i < |run| ==> run[i].key != key || !(a <= run[i].at < b)
    ensures Allowed(l, start, run, key, a, b) == 0
  {
    if run != [] {
      AllowedNone(l, start, run[..|run| - 1], key, a, b);
    }
  }

  /**
   What the run so far says about one key: the last window's count is its allowances,
   none came after it, and the stretch of one window before it holds at most one
   window's worth.
   */
  ghost predicate Counted(l: Limit, start: int, run: seq<Request>, key: ClientKey, e: Entry) {
    var since := Opened(l, e);
    since <= Clock(start, run) && 1 <= e.count <= l.PerWindow()
    && Allowed(l, start, run, key, since, e.resetAt) == e.count
    && (forall b :: b >= e.resetAt ==> Allowed(l, start, run, key, e.resetAt, b) == 0)
    && forall a :: since - l.windowMs < a <= since ==> Allowed(l, start, run, key, a, since) <= l.PerWindow()
  }

  lemma AllowedLast(l: Limit, start: int, run: seq<Request>, key: ClientKey, a: int, b: int)
    requires run != []
    ensures var n := |run| - 1;
            Allowed(l, start, run, key, a, b) == Allowed(l, start, run[..n], key, a, b)
              + if run[n].key == key && a <= run[n].at < b && AnswerAt(l, start, run, n).allowed then 1 else 0
  {
  }

  lemma {:induction false} CountedAfter(l: Limit, start: int, run: seq<Request>, key: ClientKey)
    requires l.Valid() && Monotone(start, run)
    ensures var all := UnsweptAfter(l, run);
            if key in all then Counted(l, start, run, key, all[key])
            else forall i :: 0 <= i < |run| ==> run[i].key != key
  {
    hide AnswerAt, Counted, After;
    if run != [] {
      var n := |run| - 1;
      var past, r := run[..n], run[n];
      CountedAfter(l, start, past, key);
      SweepNeverShows(l, start, run, n);
      ClockStep(start, run);
      var before := UnsweptAfter(l, past);
      if r.key != key {
        if key in before {
          CountedOther(l, start, run, key, before[key]);
        }
      } else if key !in before {
        CountedFirst(l, start, run, key);
      } else if r.at >= before[key].resetAt {
        CountedNewWindow(l, start, run, key, before[key]);
      } else {
        CountedBegan(l, start, past, key, before[key]);
        CountedSameWindow(l, start, run, key, before[key]);
      }
    }
  }

  lemma ClockStep(start: int, run: seq<Request>)
    requires Monotone(start, run) && run != []
    ensures Clock(start, run[..|run| - 1]) <= run[|run| - 1].at == Clock(start, run)
  {
  }

  lemma CountedBegan(l: Limit, start: int, run: seq<Request>, key: ClientKey, e: Entry)
    requires Counted(l, start, run, key, e)
    ensures Opened(l, e) <= Clock(start, run)
  {
  }

  lemma CountedOther(l: Limit, start: int, run: seq<Request>, key: ClientKey, e: Entry)
    requires run != [] && run[|run| - 1].key != key && Clock(start, run[..|run| - 1]) <= Clock(start, run)
    requires Counted(l, start, run[..|run| - 1], key, e)
    ensures Counted(l, start, run, key, e)
  {
    hide AnswerAt, Allowed;
    forall a, b
      ensures Allowed(l, start, run, key, a, b) == Allowed(l, start, run[..|run| - 1], key, a, b)
    {
      AllowedLast(l, start, run, key, a, b);
    }
  }

  lemma CountedFirst(l: Limit, start: int, run: seq<Request>, key: ClientKey)
    requires l.Valid() && run != [] && run[|run| - 1].key == key && AnswerAt(l, start, run, |run| - 1).allowed
    requires forall i :: 0 <= i < |run| - 1 ==> run[i].key != key
    ensures Counted(l, start, run, key, Entry(1, run[|run| - 1].at + l.windowMs))
  {
    hide AnswerAt, Allowed;
    var past, t := run[..|run| - 1], run[|run| - 1].at;
    forall a, b
      ensures Allowed(l, start, run, key, a, b) == if a <= t < b then 1 else 0
    {
      AllowedNone(l, start, past, key, a, b);
      AllowedLast(l, start, run, key, a, b);
    }
  }

  lemma CountedNewWindow(l: Limit, start: int, run: seq<Request>, key: ClientKey, e: Entry)
    requires l.Valid() && run != [] && run[|run| - 1].key == key && AnswerAt(l, start, run, |run| - 1).allowed
    requires Counted(l, start, run[..|run| - 1], key, e) && run[|run| - 1].at >= e.resetAt
    ensures Counted(l, start, run, key, Entry(1, run[|run| - 1].at + l.windowMs))
  {
    hide AnswerAt, Allowed;
    var past, t := run[..|run| - 1], run[|run| - 1].at;
    forall a, b | a >= e.resetAt
      ensures Allowed(l, start, run, key, a, b) == if a <= t < b then 1 else 0
    {
      AllowedLast(l, start, run, key, a, b);
      AfterWindow(l, start, past, key, e, a, b);
    }
    forall a | t - l.windowMs < a <= t
      ensures Allowed(l, start, run, key, a, t) <= l.PerWindow()
    {
      AllowedLast(l, start, run, key, a, t);
      if a < e.resetAt {
        AllowedSplit(l, start, past, key, a, e.resetAt, t);
        AllowedWider(l, start, past, key, Opened(l, e), a, e.resetAt, e.resetAt);
      }
    }
  }

  lemma AfterWindow(l: Limit, start: int, run: seq<Request>, key: ClientKey, e: Entry, a: int, b: int)
    requires Counted(l, start, run, key, e) && a >= e.resetAt
    ensures Allowed(l, start, run, key, a, b) == 0
  {
    hide Allowed;
    if a <= b {
      AllowedSplit(l, start, run, key, e.resetAt, a, b);
    } else {
      AllowedNone(l, start, run, key, a, b);
    }
  }

  lemma CountedSameWindow(l: Limit, start: int, run: seq<Request>, key: ClientKey, e: Entry)
    requires l.Valid() && run != [] && run[|run| - 1].key == key
    requires Counted(l, start, run[..|run| - 1], key, e)
    requires Opened(l, e) <= Clock(start, run) < e.resetAt
    requires AnswerAt(l, start, run, |run| - 1).allowed <==> e.count < l.max
    ensures Counted(l, start, run, key, e.(count := if e.count < l.max then e.count + 1 else e.count))
  {
    hide AnswerAt, Allowed;
    var past, t := run[..|run| - 1], run[|run| - 1].at;
    forall a, b | t < a || b <= t
      ensures Allowed(l, start, run, key, a, b) == Allowed(l, start, past, key, a, b)
    {
      AllowedLast(l, start, run, key, a, b);
    }
    AllowedLast(l, start, run, key, Opened(l, e), e.resetAt);
  }

  // --- Main results ---

  /** No client gets more than the maximum in the window it is in, at any time of any run. */
  lemma MaxPerWindow(l: Limit, start: int, run: seq<Request>, key: ClientKey)
    requires l.Valid() && Monotone(start, run) && key in After(l, start, run).hits
    ensures var e := After(l, start, run).hits[key];
            Allowed(l, start, run, key, e.resetAt - l.windowMs, e.resetAt) == e.count <= l.PerWindow()
  {
    hide After, UnsweptAfter, Allowed;
    RemembersAfter(l, start, run);
    CountedAfter(l, start, run, key);
  }

  /** Nor more than twice the maximum in any interval as long as a window. */
  lemma {:induction false} TwiceMaxPerInterval(l: Limit, start: int, run: seq<Request>, key: ClientKey, a: int)
    requires l.Valid() && Monotone(start, run)
    ensures Allowed(l, start, run, key, a, a + l.windowMs) <= 2 * l.PerWindow()
  {
    hide AnswerAt, After;
    if run != [] {
      var n := |run| - 1;
      TwiceMaxPerInterval(l, start, run[..n], key, a);
      AllowedLast(l, start, run, key, a, a + l.windowMs);
      CountedAfter(l, start, run, key);
      if run[n].key == key && a <= run[n].at < a + l.windowMs {
        assert run[n].key == key;
        var e := UnsweptAfter(l, run)[key];
        TwoWindows(l, start, run, key, e, a);
      }
    }
  }

  lemma TwoWindows(l: Limit, start: int, run: seq<Request>, key: ClientKey, e: Entry, a: int)
    requires l.Valid() && Counted(l, start, run, key, e) && a <= Clock(start, run) < a + l.windowMs
    ensures Allowed(l, start, run, key, a, a + l.windowMs) <= 2 * l.PerWindow()
  {
    hide Allowed;
    var since := Opened(l, e);
    var b := a + l.windowMs;
    var end := if b < e.resetAt then e.resetAt else b;
    AllowedSplit(l, start, run, key, since, e.resetAt, end);
    if a < since {
      AllowedSplit(l, start, run, key, a, since, b);
      AllowedWider(l, start, run, key, since, since, b, end);
    } else {
      AllowedWider(l, start, run, key, since, a, b, end);
    }
  }

  /**
   Nobody is refused early: whoever was allowed fewer than the maximum within the last
   window's time is let through.
   */
  lemma {:induction false} BelowMaxAllowed(l: Limit, start: int, run: seq<Request>, i: nat)
    requires l.Valid() && Monotone(start, run) && i < |run|
    requires var r := run[i];
             Allowed(l, start, run[..i], r.key, r.at - l.windowMs + 1, r.at + 1) < l.PerWindow()
    ensures AnswerAt(l, start, run, i) == Answer(true, 0)
  {
    hide Allowed;
    var past, r := run[..i], run[i];
    SweepNeverShows(l, start, run, i);
    CountedAfter(l, start, past, r.key);
    var all := UnsweptAfter(l, past);
    if r.key in all && r.at < all[r.key].resetAt {
      var e := all[r.key];
      ClockBefore(start, run, i);
      var end := if e.resetAt < r.at + 1 then r.at + 1 else e.resetAt;
      AllowedLater(l, start, past, r.key, r.at + 1, end);
      AllowedSplit(l, start, past, r.key, Opened(l, e), r.at + 1, e.resetAt);
      AllowedWider(l, start, past, r.key, r.at - l.windowMs + 1, Opened(l, e), r.at + 1, r.at + 1);
    }
  }

  lemma ClockBefore(start: int, run: seq<Request>, i: nat)
    requires Monotone(start, run) && i < |run|
    ensures Clock(start, run[..i]) <= run[i].at
  {
  }

  /** Nothing was allowed yet at times still to come. */
  lemma AllowedLater(l: Limit, start: int, run: seq<Request>, key: ClientKey, a: int, b: int)
    requires Monotone(start, run) && Clock(start, run) < a
    ensures Allowed(l, start, run, key, a, b) == 0
  {
    AllowedNone(l, start, run, key, a, b);
  }

  /**
   A refusal names the wait exactly: at most a window, refused until then whatever comes
   in between, and let through from then on.
   */
  lemma {:induction false} RetryAfterExact(l: Limit, start: int, run: seq<Request>, i: nat, j: nat)
    requires l.Valid() && Monotone(start, run) && i < j < |run| && run[j].key == run[i].key
    requires !AnswerAt(l, start, run, i).allowed
    requires forall k :: i < k < j && run[k].key == run[i].key ==>
               run[k].at < run[i].at + AnswerAt(l, start, run, i).retryAfterMs
    ensures 0 < AnswerAt(l, start, run, i).retryAfterMs <= l.windowMs
    ensures AnswerAt(l, start, run, j).allowed <==> run[j].at >= run[i].at + AnswerAt(l, start, run, i).retryAfterMs
  {
    hide AnswerAt;
    SweepNeverShows(l, start, run, i);
    SweepNeverShows(l, start, run, j);
    CountedAfter(l, start, run[..i], run[i].key);
    ClockBefore(start, run, i);
    EntryStays(l, run, i, j);
  }

  lemma {:induction false} EntryStays(l: Limit, run: seq<Request>, i: nat, j: nat)
    requires i < j < |run| && run[i].key in UnsweptAfter(l, run[..i])
    requires var e := UnsweptAfter(l, run[..i])[run[i].key];
             e.count >= l.max && run[i].at < e.resetAt
             && forall k :: i < k < j && run[k].key == run[i].key ==> run[k].at < e.resetAt
    ensures run[i].key in UnsweptAfter(l, run[..j])
    ensures UnsweptAfter(l, run[..j])[run[i].key] == UnsweptAfter(l, run[..i])[run[i].key]
  {
    assert run[..j][..j - 1] == run[..j - 1];
    if j > i + 1 {
      EntryStays(l, run, i, j - 1);
    }
  }
}
