/**
 * The feed cache of static/feeder.js (lines 4-28 and 278-283) over
 * `localStorage`. The store is a map from keys to stored values; a value
 * written by `setCache` is a timestamped entry, and `JSON.stringify` /
 * `JSON.parse` are taken to round-trip it. Keys may also hold values written
 * by anything else on the page. `Date.now()` is the parameter `now`, in
 * milliseconds.
 */
module Cache {
  import opened Wrappers
  import opened Base64

  /** A stored value: what `setCache` writes, or text put there by something else. */
  datatype Stored<D> = Entry(timestamp: int, data: D) | Other(text: string)

  const Prefix: string := "rss_cache_"

  predicate StartsWith(s: string, prefix: string)
  {
    |prefix| <= |s| && s[..|prefix|] == prefix
  }

  /** `getCacheKey(url)`: `Err` where `btoa` throws, for a URL with a character outside Latin-1. */
  function CacheKey(url: string): (r: Result<string>)
    ensures r.Ok? <==> IsLatin1(url)
    ensures r.Ok? ==> StartsWith(r.value, Prefix)
  {
    match Btoa(url)
    case None => Err
    case Some(b) => Ok(Prefix + b)
  }

  /** Distinct URLs have distinct cache keys. */
  lemma CacheKeyInjective(u: string, v: string)
    requires CacheKey(u).Ok? && CacheKey(u) == CacheKey(v)
    ensures u == v
  {
    var ku := CacheKey(u).value;
    assert ku[|Prefix|..] == Btoa(u).value;
    assert CacheKey(v).value[|Prefix|..] == Btoa(v).value;
    BtoaInjective(u, v);
  }

  /**
   * Line 23: an entry has expired when strictly more than `ttl` minutes have
   * passed, so with a time to live that is not negative an entry is live at
   * the very time it was written.
   */
  predicate Expired(timestamp: int, ttl: int, now: int)
    ensures Expired(timestamp, ttl, now) <==> now > timestamp + ttl * 60000
    ensures 0 <= ttl && now <= timestamp ==> !Expired(timestamp, ttl, now)
  {
    now - timestamp > ttl * 60 * 1000
  }

  /** The value `getCache(url, ttl)` returns at time `now`: `Ok(None)` for null. */
  function Lookup<D>(items: map<string, Stored<D>>, url: string, ttl: int, now: int): (r: Result<Option<D>>)
    ensures r.Err? <==> CacheKey(url).Err?
    ensures r.Ok? && r.value.Some? ==>
      var key := CacheKey(url).value;
      key in items && items[key].Entry? && items[key].data == r.value.value && !Expired(items[key].timestamp, ttl, now)
  {
    match CacheKey(url)
    case Err => Err
    case Ok(key) =>
      if key !in items then Ok(None)
      else match items[key]
        case Other(_) => Ok(None)
        case Entry(ts, d) => if Expired(ts, ttl, now) then Ok(None) else Ok(Some(d))
  }

  /** The store after `getCache(url, ttl)` at time `now`: an expired entry is removed. */
  function AfterLookup<D>(items: map<string, Stored<D>>, url: string, ttl: int, now: int): (r: map<string, Stored<D>>)
    ensures r.Keys <= items.Keys
    ensures forall k :: k in r ==> r[k] == items[k]
  {
    match CacheKey(url)
    case Err => items
    case Ok(key) =>
      if key in items && items[key].Entry? && Expired(items[key].timestamp, ttl, now) then items - {key} else items
  }

  /** The store after `setCache(url, data)` at time `now`. */
  function AfterSet<D>(items: map<string, Stored<D>>, url: string, data: D, now: int): (r: map<string, Stored<D>>)
    ensures CacheKey(url).Ok? ==> r.Keys == items.Keys + {CacheKey(url).value}
    ensures CacheKey(url).Ok? ==> CacheKey(url).value in r && r[CacheKey(url).value] == Entry(now, data)
    ensures forall k :: k in items && (CacheKey(url).Err? || k != CacheKey(url).value) ==> k in r && r[k] == items[k]
    ensures CacheKey(url).Err? ==> r == items
  {
    match CacheKey(url)
    case Err => items
    case Ok(key) => items[key := Entry(now, data)]
  }

  /** The store after `invalidateCache()`: every key with the cache prefix is gone and nothing else changes. */
  function AfterInvalidate<D>(items: map<string, Stored<D>>): (r: map<string, Stored<D>>)
    ensures forall k :: k in r <==> k in items && !StartsWith(k, Prefix)
    ensures forall k :: k in r ==> r[k] == items[k]
  {
    map k | k in items && !StartsWith(k, Prefix) :: items[k]
  }

  /** `localStorage`: the map of keys to stored values. */
  class LocalStorage<D> {
    var items: map<string, Stored<D>>

    constructor ()
      ensures items == map[]
    {
      items := map[];
    }

    /** Lines 8-15. `Err` where `getCacheKey` throws; the store is then untouched. */
    method SetCache(url: string, data: D, now: int) returns (r: Result<()>)
      modifies this
      ensures r.Err? <==> CacheKey(url).Err?
      ensures items == AfterSet(old(items), url, data, now)
    {
      var cacheKey := CacheKey(url);
      if cacheKey.Err? {
        return Err;
      }
      items := items[cacheKey.value := Entry(now, data)];
      return Ok(());
    }

    /** Lines 17-28: a missing entry gives null; an expired one is removed and gives null. */
    method GetCache(url: string, ttl: int, now: int) returns (r: Result<Option<D>>)
      modifies this
      ensures r == Lookup(old(items), url, ttl, now)
      ensures items == AfterLookup(old(items), url, ttl, now)
    {
      var cacheKey := CacheKey(url);
      if cacheKey.Err? {
        return Err;
      }
      var key := cacheKey.value;
      if key !in items {
        return Ok(None);
      }
      var cachedData := items[key];
      if cachedData.Other? {
        return Ok(None);
      }
      if now - cachedData.timestamp > ttl * 60 * 1000 {
        items := items - {key};
        return Ok(None);
      }
      return Ok(Some(cachedData.data));
    }

    /** Lines 278-283: every key is visited and those with the cache prefix are removed. */
    method InvalidateCache()
      modifies this
      ensures items == AfterInvalidate(old(items))
    {
      var keys := items.Keys;
      while keys != {}
        invariant keys <= old(items).Keys
        invariant items == map k | k in old(items) && (k in keys || !StartsWith(k, Prefix)) :: old(items)[k]
        decreases keys
      {
        var key :| key in keys;
        if StartsWith(key, Prefix) {
          items := items - {key};
        }
        keys := keys - {key};
      }
    }
  }

  // ---------------------------------------------------------------------------
  // Properties

  /** A URL with no entry gives null and leaves the store as it was. */
  lemma MissLeavesStore<D>(items: map<string, Stored<D>>, url: string, ttl: int, now: int)
    requires CacheKey(url).Ok? && CacheKey(url).value !in items
    ensures Lookup(items, url, ttl, now) == Ok(None)
    ensures AfterLookup(items, url, ttl, now) == items
  {
  }

  /**
   * An entry written at `timestamp` is dropped exactly when strictly more
   * than `ttl` minutes have passed; until then its data is returned and the
   * store is kept.
   */
  lemma ExpiryRule<D>(items: map<string, Stored<D>>, url: string, ttl: int, now: int)
    requires CacheKey(url).Ok? && CacheKey(url).value in items && items[CacheKey(url).value].Entry?
    ensures var key := CacheKey(url).value;
      var e := items[key];
      if now - e.timestamp > ttl * 60 * 1000 then
        Lookup(items, url, ttl, now) == Ok(None) && AfterLookup(items, url, ttl, now) == items - {key}
      else
        Lookup(items, url, ttl, now) == Ok(Some(e.data)) && AfterLookup(items, url, ttl, now) == items
  {
  }

  /** `setCache` then `getCache` within the time to live gives back the data. */
  lemma SetThenGet<D>(items: map<string, Stored<D>>, url: string, data: D, setAt: int, ttl: int, now: int)
    requires IsLatin1(url)
    requires now - setAt <= ttl * 60 * 1000
    ensures Lookup(AfterSet(items, url, data, setAt), url, ttl, now) == Ok(Some(data))
    ensures AfterLookup(AfterSet(items, url, data, setAt), url, ttl, now) == AfterSet(items, url, data, setAt)
  {
  }

  /** Caching one URL leaves what every other URL looks up unchanged. */
  lemma SetKeepsOthers<D>(items: map<string, Stored<D>>, url: string, data: D, setAt: int, other: string, ttl: int, now: int)
    requires url != other
    ensures Lookup(AfterSet(items, url, data, setAt), other, ttl, now) == Lookup(items, other, ttl, now)
  {
    if CacheKey(url).Ok? && CacheKey(other).Ok? && CacheKey(url) == CacheKey(other) {
      CacheKeyInjective(url, other);
    }
  }

  /** After `invalidateCache` no URL finds an entry, and keys without the prefix are kept. */
  lemma InvalidateEmptiesCache<D>(items: map<string, Stored<D>>, url: string, ttl: int, now: int)
    requires IsLatin1(url)
    ensures Lookup(AfterInvalidate(items), url, ttl, now) == Ok(None)
    ensures forall k :: k in items && !StartsWith(k, Prefix) ==> k in AfterInvalidate(items)
  {
  }
}
