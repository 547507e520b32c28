/**
 The time-to-live cache that several components share.  An entry written at time `s` is
 visible to a lookup at time `t` exactly when `t < s + ttl`; reading does not refresh it, and
 every write first purges what has expired.
 */
module TtlCache {
  import opened Basics

  datatype Stamped<+V> = Stamped(value: V, storedAt: real)

  predicate Live<V>(e: Stamped<V>, ttl: real, now: real) {
    now < e.storedAt + ttl
  }

  function Get<K, V>(cache: map<K, Stamped<V>>, ttl: real, key: K, now: real): Option<V> {
    if key in cache && Live(cache[key], ttl, now) then Some(cache[key].value) else None
  }

  function Put<K, V>(cache: map<K, Stamped<V>>, ttl: real, key: K, value: V, now: real): map<K, Stamped<V>> {
    (map k | k in cache && Live(cache[k], ttl, now) :: cache[k])[key := Stamped(value, now)]
  }

  /** Purging on write is invisible: from `now` on, only the written key answers differently. */
  lemma PutThenGet<K, V>(cache: map<K, Stamped<V>>, ttl: real, key: K, value: V, now: real, k: K, t: real)
    requires now <= t
    ensures Get(Put(cache, ttl, key, value, now), ttl, k, t)
         == if k != key then Get(cache, ttl, k, t)
            else if t < now + ttl then Some(value) else None
  {
  }
}
