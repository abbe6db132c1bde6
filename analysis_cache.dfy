/**
 * The server-side analysis cache of `LogAnalyzer` (analyzer.py): a map from
 * cache key to the stored analysis and the moment it was stored. An entry
 * older than six hours is stale; reading a stale entry deletes it.
 *
 * Moments are whole microseconds, the resolution of the ISO timestamps the
 * cache stores and parses back, so the store/parse round trip is exact here.
 */
module AnalysisCache {
  import opened Json

  /** A moment, in microseconds on the server's clock. */
  type Time = int

  /** `cache_expiry_hours = 6`, as a duration in microseconds. */
  const ExpiryHours: int := 6
  const Expiry: int := ExpiryHours * 3600 * 1000000

  /** An analysis is the JSON object the model answered with. */
  type Analysis = Dict

  /** One cache slot: the analysis and the moment it was stored. */
  datatype Entry = Entry(analysis: Analysis, storedAt: Time)

  type Cache = map<string, Entry>

  /** The entry is older than the expiry; exactly six hours old is still fresh. */
  predicate Stale(e: Entry, now: Time)
  {
    now - e.storedAt > Expiry
  }

  /** `cache_analysis(key, analysis)` at moment `now`. */
  function Store(cache: Cache, key: string, analysis: Analysis, now: Time): Cache
  {
    cache[key := Entry(analysis, now)]
  }

  /** Storing puts the entry under `key`, stamped `now`, and leaves every other key as it was. */
  lemma StoreSpec(cache: Cache, key: string, analysis: Analysis, now: Time)
    ensures var c := Store(cache, key, analysis, now);
      && key in c && c[key] == Entry(analysis, now)
      && c.Keys == cache.Keys + {key}
      && forall k :: k in cache && k != key ==> c[k] == cache[k]
  {
  }

  /** What `get_cached_analysis` returns, and the cache it leaves behind. */
  datatype LookupResult = LookupResult(hit: Option<Analysis>, cache: Cache)

  /** `get_cached_analysis(key)` at moment `now`. */
  function Lookup(cache: Cache, key: string, now: Time): LookupResult
  {
    if key !in cache then LookupResult(None, cache)
    else if Stale(cache[key], now) then LookupResult(None, cache - {key})
    else LookupResult(Some(cache[key].analysis), cache)
  }

  /**
   * A read hits exactly when the key is present and fresh, and then returns
   * the stored analysis; it removes the key when that is stale and changes
   * nothing else.
   */
  lemma LookupSpec(cache: Cache, key: string, now: Time)
    ensures var r := Lookup(cache, key, now);
      && (r.hit.Some? <==> key in cache && !Stale(cache[key], now))
      && (r.hit.Some? ==> r.hit.value == cache[key].analysis)
      && r.cache.Keys == (if key in cache && Stale(cache[key], now) then cache.Keys - {key} else cache.Keys)
      && forall k :: k in r.cache ==> r.cache[k] == cache[k]
  {
  }

  /** An analysis stored at `storedAt` is served back for six hours, inclusive. */
  lemma StoredIsServed(cache: Cache, key: string, analysis: Analysis, storedAt: Time, now: Time)
    requires storedAt <= now <= storedAt + Expiry
    ensures Lookup(Store(cache, key, analysis, storedAt), key, now) ==
              LookupResult(Some(analysis), Store(cache, key, analysis, storedAt))
  {
  }

  /** Once six hours have passed the stored analysis is no longer served, and reading removes it. */
  lemma StaleIsPurged(cache: Cache, key: string, analysis: Analysis, storedAt: Time, now: Time)
    requires now > storedAt + Expiry
    ensures var r := Lookup(Store(cache, key, analysis, storedAt), key, now);
      r.hit == None && key !in r.cache && r.cache == cache - {key}
  {
    var c := Store(cache, key, analysis, storedAt);
    assert c - {key} == cache - {key};
  }

  /** Storing under one key leaves what every other key reads unchanged. */
  lemma StoreIsolated(cache: Cache, key: string, analysis: Analysis, storedAt: Time, other: string, now: Time)
    requires other != key
    ensures Lookup(Store(cache, key, analysis, storedAt), other, now).hit == Lookup(cache, other, now).hit
  {
  }

  /** Reading twice at the same moment gives the same answer and the same cache as reading once. */
  lemma LookupIdempotent(cache: Cache, key: string, now: Time)
    ensures var r := Lookup(cache, key, now);
      Lookup(r.cache, key, now) == r
  {
  }

  /** Entries stored at `now` survive any read at `now`, whichever key is read. */
  lemma FreshSurvivesLookup(cache: Cache, key: string, other: string, now: Time)
    requires other in cache && cache[other].storedAt == now
    ensures other in Lookup(cache, key, now).cache
    ensures Lookup(cache, key, now).cache[other] == cache[other]
  {
  }
}
