/**
 The fixed-window rate limiter both middlewares use: a counter per key that expires
 one window after the request that started it.
 */
module RateLimiter {
  import opened Wrappers
  import opened Redis
  import opened Counters

  class Limiter {
    var counts: Keyspace<Key, int>
    const limit: int
    const window: int

    constructor (limit: int, window: int)
      ensures counts == map[] && this.limit == limit && this.window == window
    {
      counts, this.limit, this.window := map[], limit, window;
    }

    method Allow(now: int, key: Key) returns (ok: bool)
      modifies this`counts
      ensures limit <= 0 || window <= 0 ==> ok && counts == old(counts)
      ensures limit > 0 && window > 0 ==>
                counts == Count(old(counts), now, key, window) && key in counts && (ok <==> counts[key].value <= limit)
    {
      if limit <= 0 || window <= 0 { return true; }
      counts := Incr(counts, now, key);
      var current := counts[key].value;
      if current == 1 { counts := Expire(counts, now, key, window); }
      if current > limit { return false; }
      return true;
    }
  }

  // ---------- Runs: requests for any keys at any times that do not go backwards ----------

  datatype Run = Start | Request(before: Run, time: int, key: Key)

  predicate Ordered(run: Run) {
    run.Request? ==> Ordered(run.before) && (run.before.Request? ==> run.before.time <= run.time)
  }

  function Counts(run: Run, window: int): Keyspace<Key, int> {
    match run
    case Start => map[]
    case Request(before, time, key) => Count(Counts(before, window), time, key, window)
  }

  /** Was the last request of the run let through? */
  predicate Admitted(run: Run, limit: int, window: int)
    requires run.Request?
  {
    var counts := Counts(run, window);
    run.key in counts && counts[run.key].value <= limit
  }

  /** Requests for a key let through at a time t with from <= t < to. */
  function AdmittedIn(run: Run, key: Key, limit: int, window: int, from: int, to: int): nat {
    match run
    case Start => 0
    case Request(before, time, k) =>
      AdmittedIn(before, key, limit, window, from, to)
      + if k == key && from <= time < to && Admitted(run, limit, window) then 1 else 0
  }

  /** The same over the window-long interval that begins at a moment. */
  function AdmittedFrom(run: Run, key: Key, limit: int, window: int, from: int): nat {
    AdmittedIn(run, key, limit, window, from, from + window)
  }

  function LastTime(run: Run): Option<int> { if run.Request? then Some(run.time) else None }

  lemma {:induction false} AlwaysPaced(run: Run, key: Key, limit: int, window: int, from: int)
    requires Ordered(run) && limit > 0 && window > 0
    ensures Paced(
              Counts(run, window), key, AdmittedFrom(run, key, limit, window, from), limit, window, from, LastTime(run))
  {
    if run.Request? {
      var before := Counts(run.before, window);
      var n := AdmittedFrom(run.before, key, limit, window, from);
      AlwaysPaced(run.before, key, limit, window, from);
      if run.key == key { CountPaces(before, key, n, limit, window, from, LastTime(run.before), run.time); }
    }
  }

  /** No half-open interval as long as the window ever admits 2 * limit requests for a key. */
  lemma IntervalBound(run: Run, key: Key, limit: int, window: int, from: int)
    requires Ordered(run) && limit > 0 && window > 0
    ensures AdmittedFrom(run, key, limit, window, from) <= 2 * limit - 1
  {
    AlwaysPaced(run, key, limit, window, from);
  }

  /**
   The latest counting window of a key, which runs from the request that started it until the
   counter expires, has let through exactly its first `limit` requests.
   */
  lemma {:induction false} WindowAdmitsLimit(run: Run, key: Key, limit: int, window: int)
    requires Ordered(run) && limit > 0 && window > 0 && key in Counts(run, window)
    ensures var counts := Counts(run, window);
            && counts[key].expiry.Some?
            && AdmittedIn(run, key, limit, window, counts[key].expiry.value - window, counts[key].expiry.value)
               == Least(counts[key].value, limit)
            && forall from, to :: counts[key].expiry.value <= from ==>
                AdmittedIn(run, key, limit, window, from, to) == 0
  {
    if key in Counts(run.before, window) {
      WindowAdmitsLimit(run.before, key, limit, window);
      AlwaysPaced(run.before, key, limit, window, 0);
      var ended, ends := Counts(run.before, window)[key].expiry.value, Counts(run, window)[key].expiry.value;
      assert ends - window >= ended ==> AdmittedIn(run.before, key, limit, window, ends - window, ends) == 0;
      forall from, to | ends <= from ensures AdmittedIn(run, key, limit, window, from, to) == 0 {
        assert AdmittedIn(run.before, key, limit, window, from, to) == 0;
      }
    } else {
      NoCountNoneAdmitted(run.before, key, limit, window);
    }
  }

  lemma {:induction false} NoCountNoneAdmitted(run: Run, key: Key, limit: int, window: int)
    requires window > 0 && key !in Counts(run, window)
    ensures forall from, to :: AdmittedIn(run, key, limit, window, from, to) == 0
  {
    if run.Request? { NoCountNoneAdmitted(run.before, key, limit, window); }
  }

  // ---------- The bound is reached ----------

  function Burst(before: Run, n: nat, time: int, key: Key): Run {
    if n == 0 then before else Request(Burst(before, n - 1, time, key), time, key)
  }

  lemma {:induction false} BurstAdmitted(before: Run, n: nat, time: int, key: Key, limit: int, window: int, from: int)
    requires Ordered(before) && before.Request? && before.time <= time && window > 0
    requires from <= time < from + window
    requires var c := Counts(before, window);
             key in c && c[key].expiry.Some? && time < c[key].expiry.value && c[key].value >= 1
             && c[key].value + n <= limit
    ensures var run, c := Burst(before, n, time, key), Counts(before, window);
            && Ordered(run) && run.Request? && run.time <= time
            && Counts(run, window) == c[key := c[key].(value := c[key].value + n)]
            && AdmittedFrom(run, key, limit, window, from)
               == AdmittedFrom(before, key, limit, window, from) + n
  {
    if n > 0 { BurstAdmitted(before, n - 1, time, key, limit, window, from); }
  }

  /** For every limit and every window of at least two seconds some run reaches the bound. */
  lemma BoundIsTight(key: Key, limit: int, window: int)
    requires limit > 0 && window > 1
    ensures exists run, from :: Ordered(run) && AdmittedFrom(run, key, limit, window, from) == 2 * limit - 1
  {
    var first := Request(Start, 0, key);
    BurstAdmitted(first, limit - 1, window - 1, key, limit, window, 1);
    var full := Burst(first, limit - 1, window - 1, key);
    var second := Request(full, window, key);
    assert AdmittedFrom(first, key, limit, window, 1) == 0 by {
      assert AdmittedIn(Start, key, limit, window, 1, 1 + window) == 0;
    }
    assert AdmittedFrom(second, key, limit, window, 1) == AdmittedFrom(full, key, limit, window, 1) + 1;
    BurstAdmitted(second, limit - 1, window, key, limit, window, 1);
    var run := Burst(second, limit - 1, window, key);
    assert AdmittedFrom(run, key, limit, window, 1) == 2 * limit - 1;
  }
}
