/**
 Redis keyspaces whose keys may expire, read at a clock of whole seconds. A key is gone from
 the second its expiry names. Each key prefix the source uses is a keyspace of its own.
 */
module Redis {
  import opened Wrappers

  datatype Entry<V> = Entry(value: V, expiry: Option<int>)

  type Keyspace<K(==), V> = map<K, Entry<V>>

  predicate Live<V>(e: Entry<V>, now: int) {
    e.expiry.None? || now < e.expiry.value
  }

  /** GET, SMEMBERS */
  function Get<K, V>(ks: Keyspace<K, V>, now: int, k: K): Option<V> {
    if k in ks && Live(ks[k], now) then Some(ks[k].value) else None
  }

  /** A client asked for a lifetime that is not positive sends none: the key never expires. */
  function Deadline(now: int, ttl: int): Option<int> {
    if ttl > 0 then Some(now + ttl) else None
  }

  /** SET with EX */
  function Put<K, V>(ks: Keyspace<K, V>, now: int, k: K, v: V, ttl: int): Keyspace<K, V> {
    ks[k := Entry(v, Deadline(now, ttl))]
  }

  /** DEL */
  function Del<K, V>(ks: Keyspace<K, V>, k: K): Keyspace<K, V> { ks - {k} }

  /** EXPIRE; a lifetime that is not positive deletes the key at once. */
  function Expire<K, V>(ks: Keyspace<K, V>, now: int, k: K, ttl: int): Keyspace<K, V> {
    if Get(ks, now, k).None? then ks
    else if ttl > 0 then ks[k := ks[k].(expiry := Some(now + ttl))]
    else Del(ks, k)
  }

  /** TTL: -2 without the key, -1 without an expiry. */
  function Ttl<K, V>(ks: Keyspace<K, V>, now: int, k: K): int {
    if Get(ks, now, k).None? then -2
    else if ks[k].expiry.None? then -1
    else ks[k].expiry.value - now
  }

  /** INCR: keeps the expiry of a live counter and starts a dead one without any. */
  function Incr<K>(ks: Keyspace<K, int>, now: int, k: K): Keyspace<K, int> {
    if Get(ks, now, k).None? then ks[k := Entry(1, None)] else ks[k := ks[k].(value := ks[k].value + 1)]
  }

  /** SADD */
  function SAdd<K, V>(ks: Keyspace<K, set<V>>, now: int, k: K, v: V): Keyspace<K, set<V>> {
    if Get(ks, now, k).None? then ks[k := Entry({v}, None)] else ks[k := ks[k].(value := ks[k].value + {v})]
  }

  /** SREM: a set emptied this way is no longer a key. */
  function SRem<K, V>(ks: Keyspace<K, set<V>>, now: int, k: K, v: V): Keyspace<K, set<V>> {
    if Get(ks, now, k).None? then ks
    else if ks[k].value <= {v} then Del(ks, k)
    else ks[k := ks[k].(value := ks[k].value - {v})]
  }

  function SMembers<K, V>(ks: Keyspace<K, set<V>>, now: int, k: K): set<V> {
    var found := Get(ks, now, k);
    if found.None? then {} else found.value
  }
}
