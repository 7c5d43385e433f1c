/** `shared/infrastructure/memory_cache_backend.py`: a dictionary of entries
    that carry an expiry time; a stale entry is deleted by the read that
    finds it. Time is an integer clock reading passed in by the caller. */
module MemoryBackend {
  import opened Wrappers

  /** A stored value and the time after which it is stale (None: never). */
  datatype Entry<V> = Entry(value: V, expiry: Option<int>)

  /** The expiry `set` records for a ttl at time `now`. */
  function ExpiryAt(now: int, ttl: Option<int>): (e: Option<int>)
    ensures e.Some? <==> ttl.Some?
  {
    if ttl.Some? then Some(now + ttl.value) else None
  }

  /** An entry is stale strictly after its expiry. */
  predicate Stale<V>(e: Entry<V>, now: int) {
    e.expiry.Some? && now > e.expiry.value
  }

  /** What `get(key)` answers at time `now`. */
  function Lookup<V>(cache: map<string, Entry<V>>, key: string, now: int): (r: Option<V>)
    ensures r.Some? <==> key in cache && !Stale(cache[key], now)
    ensures r.Some? ==> r.value == cache[key].value
  {
    if key !in cache then None
    else if Stale(cache[key], now) then None
    else Some(cache[key].value)
  }

  /** The store after `get(key)` at time `now`: only a stale entry for `key`
      is gone. */
  function Pruned<V>(cache: map<string, Entry<V>>, key: string, now: int): (c: map<string, Entry<V>>)
    ensures c.Keys == if key in cache && Stale(cache[key], now) then cache.Keys - {key} else cache.Keys
    ensures forall k :: k in c ==> c[k] == cache[k]
  {
    if key in cache && Stale(cache[key], now) then cache - {key} else cache
  }

  class MemoryCacheBackend<V> {
    var cache: map<string, Entry<V>>

    constructor ()
      ensures cache == map[]
    {
      cache := map[];
    }

    /** `get(key)`: None for a missing entry; a stale entry is deleted and
        None returned; otherwise the stored value. */
    method Get(key: string, now: int) returns (r: Option<V>)
      modifies this
      ensures r == Lookup(old(cache), key, now)
      ensures cache == Pruned(old(cache), key, now)
    {
      if key !in cache {
        return None;
      }
      var entry := cache[key];
      if entry.expiry.Some? && now > entry.expiry.value {
        cache := cache - {key};
        return None;
      }
      return Some(entry.value);
    }

    /** `set(key, value, ttl)`: (over)writes the entry for `key`. */
    method Set(key: string, value: V, ttl: Option<int>, now: int)
      modifies this
      ensures cache == old(cache)[key := Entry(value, ExpiryAt(now, ttl))]
    {
      var expiry := if ttl.Some? then Some(now + ttl.value) else None;
      cache := cache[key := Entry(value, expiry)];
    }
  }

  /** A value set at time `t` is read back exactly until `t + ttl`, and
      forever when there is no ttl. */
  lemma SetThenGet<V>(cache: map<string, Entry<V>>, key: string, value: V, ttl: Option<int>, t: int, now: int)
    ensures Lookup(cache[key := Entry(value, ExpiryAt(t, ttl))], key, now) ==
            if ttl.None? || now <= t + ttl.value then Some(value) else None
  {
  }

  /** A missing key reads as None and the store is untouched. */
  lemma GetAbsent<V>(cache: map<string, Entry<V>>, key: string, now: int)
    requires key !in cache
    ensures Lookup(cache, key, now) == None && Pruned(cache, key, now) == cache
  {
  }

  /** A read that finds a live entry changes nothing; a read that finds a
      stale one deletes exactly that entry. */
  lemma GetPrunesOnlyStale<V>(cache: map<string, Entry<V>>, key: string, now: int)
    ensures Lookup(cache, key, now).Some? ==> Pruned(cache, key, now) == cache
    ensures key in cache && Lookup(cache, key, now).None? ==> Pruned(cache, key, now) == cache - {key}
  {
  }

  /** A second read at the same time answers as the first did. */
  lemma GetRepeatable<V>(cache: map<string, Entry<V>>, key: string, now: int)
    ensures Lookup(Pruned(cache, key, now), key, now) == Lookup(cache, key, now)
    ensures Pruned(Pruned(cache, key, now), key, now) == Pruned(cache, key, now)
  {
  }

  /** `set` and `get` on `key` leave what every other key reads unchanged. */
  lemma OtherKeysUnaffected<V>(cache: map<string, Entry<V>>, key: string, other: string, e: Entry<V>, now: int, t: int)
    requires other != key
    ensures Lookup(cache[key := e], other, t) == Lookup(cache, other, t)
    ensures Lookup(Pruned(cache, key, now), other, t) == Lookup(cache, other, t)
  {
  }

  /** A second `set` replaces both the value and the expiry of the first. */
  lemma SetOverwrites<V>(cache: map<string, Entry<V>>, key: string, v1: V, v2: V,
                         ttl1: Option<int>, ttl2: Option<int>, t1: int, t2: int, now: int)
    ensures Lookup(cache[key := Entry(v1, ExpiryAt(t1, ttl1))][key := Entry(v2, ExpiryAt(t2, ttl2))], key, now) ==
            Lookup(map[key := Entry(v2, ExpiryAt(t2, ttl2))], key, now)
  {
  }
}
