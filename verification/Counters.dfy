/** Counters that expire one window after their first count, and how fast they let anything through. */
module Counters {
  import opened Wrappers
  import opened Redis

  type Key = string

  /** INCR, and EXPIRE on the first count if the lifetime is positive. */
  function Count(ks: Keyspace<Key, int>, now: int, key: Key, ttl: int): Keyspace<Key, int> {
    var counted := Incr(ks, now, key);
    if counted[key].value == 1 && ttl > 0 then Expire(counted, now, key, ttl) else counted
  }

  predicate Reached(last: Option<int>, from: int) { last.Some? && from <= last.value }

  function Least(a: int, b: int): int { if a <= b then a else b }

  /**
   What is known, part way, about n counts let through in [from, from + window), given where the
   latest counting window started: one that started before it has spent its first count outside.
   */
  predicate Paced(
    ks: Keyspace<Key, int>, key: Key, n: nat, limit: int, window: int, from: int, last: Option<int>)
  {
    if key !in ks then n == 0
    else
      && ks[key].expiry.Some? && ks[key].value >= 1
      && var started, c := ks[key].expiry.value - window, Least(ks[key].value, limit);
         && Reached(last, started)
         && (n > 0 ==> Reached(last, from))
         && (if started < from then n <= c - 1
             else if started < from + window then n <= limit - 1 + c
             else n <= 2 * limit - 1)
  }

  /** One more count at a time not before the last. */
  lemma CountPaces(
    ks: Keyspace<Key, int>, key: Key, n: nat, limit: int, window: int, from: int, last: Option<int>, now: int)
    requires limit > 0 && window > 0 && Paced(ks, key, n, limit, window, from, last)
    requires last.Some? ==> last.value <= now
    ensures var counted := Count(ks, now, key, window);
            && key in counted
            && Paced(counted, key, n + if from <= now < from + window && counted[key].value <= limit then 1 else 0,
                     limit, window, from, Some(now))
  {
  }

  /** Nothing but this key's own counter and the time of the last call matter. */
  lemma PacedElsewhere(
    ks: Keyspace<Key, int>, after: Keyspace<Key, int>, key: Key, n: nat, limit: int, window: int, from: int,
    last: Option<int>, now: int)
    requires Paced(ks, key, n, limit, window, from, last) && (last.Some? ==> last.value <= now)
    ensures (key in after <==> key in ks) && (key in ks ==> after[key] == ks[key]) ==>
              Paced(after, key, n, limit, window, from, Some(now))
  {
  }
}
