/** The in-memory TTL cache of the front end's `PerformanceOptimizer`: a map
    from keys to `{data, timestamp, ttl}` with times in milliseconds. The clock
    `Date.now()` is the parameter `now`. */
module ResponseCache {
  import opened Wrappers

  /** `cacheTimeout`: five minutes. */
  const DefaultTtl: int := 5 * 60 * 1000

  datatype Entry<D> = Entry(data: D, timestamp: int, ttl: int)

  /** Keys are the request strings the callers build. */
  type Cache<D> = map<string, Entry<D>>

  /** An entry is stale once strictly more than `ttl` has passed since it was stored. */
  predicate Expired<D>(e: Entry<D>, now: int) {
    now - e.timestamp > e.ttl
  }

  /** `setCache(key, data, ttl)`: overwrite the key; a missing `ttl` means the default. */
  function SetCache<D>(cache: Cache<D>, key: string, data: D, ttl: Option<int>, now: int)
    : (r: Cache<D>)
    ensures key in r && r[key].data == data && r[key].timestamp == now
    ensures r[key].ttl == (if ttl.Some? then ttl.value else DefaultTtl)
    ensures r.Keys == cache.Keys + {key}
    ensures forall k :: k in cache && k != key ==> r[k] == cache[k]
  {
    cache[key := Entry(data, now, ttl.GetOr(DefaultTtl))]
  }

  /** `getCache(key)`: the stored data unless the key is missing or stale; a
      stale entry is deleted on the way. Returns the cache after the call. */
  function GetCache<D>(cache: Cache<D>, key: string, now: int): (r: (Cache<D>, Option<D>))
    ensures r.1.Some? <==> key in cache && !Expired(cache[key], now)
    ensures r.1.Some? ==> r.1.value == cache[key].data && r.0 == cache
    ensures key !in cache ==> r.0 == cache
    ensures key in cache && Expired(cache[key], now) ==> r.0 == cache - {key}
  {
    if key !in cache then (cache, None)
    else if Expired(cache[key], now) then (cache - {key}, None)
    else (cache, Some(cache[key].data))
  }

  /** `cleanupCache()`: drop every stale entry. */
  function CleanupCache<D>(cache: Cache<D>, now: int): (r: Cache<D>)
    ensures forall k :: k in r <==> k in cache && !Expired(cache[k], now)
    ensures forall k :: k in r ==> r[k] == cache[k]
  {
    map k | k in cache && !Expired(cache[k], now) :: cache[k]
  }

  /** Reading a key just written returns the data while the entry is fresh,
      exactly up to and including `ttl` milliseconds later, and nothing after. */
  lemma SetThenGet<D>(cache: Cache<D>, key: string, data: D, ttl: Option<int>, t0: int, t1: int)
    ensures var c := SetCache(cache, key, data, ttl, t0);
            var limit := if ttl.Some? then ttl.value else DefaultTtl;
            GetCache(c, key, t1).1 == (if t1 - t0 <= limit then Some(data) else None)
  {
  }

  /** Writing one key leaves what the other keys read unchanged. */
  lemma SetLeavesOtherKeys<D>(cache: Cache<D>, key: string, other: string, data: D, ttl: Option<int>, t0: int, t1: int)
    requires other != key
    ensures GetCache(SetCache(cache, key, data, ttl, t0), other, t1).1 == GetCache(cache, other, t1).1
  {
  }

  /** Cleaning up cannot be observed through `getCache` at the same instant:
      every key reads the same before and after, and a second cleanup changes nothing. */
  lemma CleanupIsUnobservable<D>(cache: Cache<D>, key: string, now: int)
    ensures GetCache(CleanupCache(cache, now), key, now).1 == GetCache(cache, key, now).1
    ensures CleanupCache(CleanupCache(cache, now), now) == CleanupCache(cache, now)
  {
  }

  /** The default lifetime is five minutes: fresh at 300 000 ms, stale at 300 001 ms. */
  lemma DefaultTtlBoundary<D>(cache: Cache<D>, key: string, data: D, t0: int)
    ensures GetCache(SetCache(cache, key, data, None, t0), key, t0 + 300000).1 == Some(data)
    ensures GetCache(SetCache(cache, key, data, None, t0), key, t0 + 300001).1 == None
  {
  }
}
