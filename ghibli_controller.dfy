/**
 * The Ghibli gateway: two read endpoints served cache-aside from the cache
 * "ghibliFilms" (the film list under the constant key "allFilms", one film under
 * its raw id, both in the one keyspace), and two administrative endpoints that
 * report on and clear that cache.  The upstream HTTP client is an oracle from
 * URL to reply; the clock is a parameter.
 */
module Ghibli {
  import opened Wrappers
  import Utf8
  import opened RedisConfig
  import opened CacheStore

  const BaseUrl: string := "https://ghibli-api.vercel.app/api/films"
  const CacheName: string := "ghibliFilms"
  const AllFilmsKey: string := "allFilms"
  const ListErrorMessage: string := "Error fetching films from Ghibli API"
  const FilmErrorMessage: string := "Error fetching film from Ghibli API"
  const StatusOk: int := 200
  const InternalServerError: int := 500

  /** What the upstream call gives: a body (null when the response has none), or an exception. */
  datatype UpstreamReply = Body(body: Option<string>) | Failure

  /** Why a read endpoint answered with a server error. */
  datatype ErrorReason =
    | UpstreamFailed(message: string)  // the endpoint's own ResponseStatusException
    | NullRefused                      // the cache refused to store a null body
    | CacheMissing                     // the cache manager has no cache "ghibliFilms"

  datatype FilmResponse = Success(body: Option<string>) | ServerError(reason: ErrorReason)

  /** The HTTP status of a read endpoint's answer: 200 with a body, 500 for every error. */
  function Status(r: FilmResponse): (code: int)
    ensures code == StatusOk <==> r.Success?
    ensures code == InternalServerError <==> r.ServerError?
  {
    if r.Success? then StatusOk else InternalServerError
  }

  /** The cache key of the film list: the constant "allFilms", whatever the request. */
  function AllFilmsCacheKey(): (k: string)
    ensures k == "allFilms"
  {
    AllFilmsKey
  }

  /**
   * The cache key of one film: its id, unchanged, in the same keyspace as the
   * list, so the film "allFilms" and no other shares the list's key.
   */
  function FilmCacheKey(id: string): (k: string)
    ensures k == id
    ensures k == AllFilmsCacheKey() <==> id == "allFilms"
  {
    id
  }

  /** Distinct films are cached under distinct keys. */
  lemma FilmCacheKeysDistinct(a: string, b: string)
    ensures FilmCacheKey(a) == FilmCacheKey(b) <==> a == b
  {
  }

  /** The URL of one film: the list URL, a slash, the id. */
  function FilmUrl(id: string): (url: string)
    ensures |url| == |BaseUrl| + 1 + |id|
    ensures url[..|BaseUrl|] == BaseUrl && url[|BaseUrl|] == '/' && url[|BaseUrl| + 1..] == id
  {
    BaseUrl + "/" + id
  }

  /** Distinct ids ask for distinct URLs, and none of them is the list URL. */
  lemma FilmUrlsDistinct(a: string, b: string)
    ensures FilmUrl(a) == FilmUrl(b) <==> a == b
    ensures FilmUrl(a) != BaseUrl
  {
    if FilmUrl(a) == FilmUrl(b) {
      assert a == FilmUrl(a)[|BaseUrl| + 1..];
    }
  }

  /** The cache after a read, the answer, and the URL of the upstream call, if one was made. */
  datatype Fetched = Fetched(cache: Store, response: FilmResponse, calledUrl: Option<string>)

  /**
   * A read endpoint under @Cacheable: on a hit the cached body is the answer and
   * the upstream is not called; on a miss the upstream is called at `url`, an
   * exception becomes a server error with `errorMessage` and stores nothing,
   * and a body is stored under `key` and returned, except that a null body
   * that the cache refuses is a server error that stores nothing.
   */
  function CachedFetch(s: Store, key: string, url: string, upstream: string -> UpstreamReply,
                       errorMessage: string, now: int): (r: Fetched)
    requires Valid(s)
    ensures Valid(r.cache) && r.cache.name == s.name && r.cache.RedisCache? == s.RedisCache?
    ensures Get(s, key, now).Hit? ==> r == Fetched(s, Success(Get(s, key, now).body), None)
    ensures Get(s, key, now).Miss? ==> r.calledUrl == Some(url)
    ensures Get(s, key, now).Miss? && upstream(url).Failure? ==>
              r == Fetched(s, ServerError(UpstreamFailed(errorMessage)), Some(url))
    ensures Get(s, key, now).Miss? && upstream(url).Body? ==>
              if Put(s, key, upstream(url).body, now).Ok?
              then r.response == Success(upstream(url).body) && Get(r.cache, key, now) == Hit(upstream(url).body)
              else r == Fetched(s, ServerError(NullRefused), Some(url))
    ensures Get(s, key, now).Miss? && upstream(url).Body? && Put(s, key, upstream(url).body, now).Ok? ==>
              r.cache == Put(s, key, upstream(url).body, now).value
    ensures forall other, later :: other != key ==> Get(r.cache, other, later) == Get(s, other, later)
  {
    match Get(s, key, now)
    case Hit(body) => Fetched(s, Success(body), None)
    case Miss =>
      match upstream(url)
      case Failure => Fetched(s, ServerError(UpstreamFailed(errorMessage)), Some(url))
      case Body(body) =>
        match Put(s, key, body, now)
        case Err(_) => Fetched(s, ServerError(NullRefused), Some(url))
        case Ok(stored) =>
          PutThenGet(s, key, body, now, now);
          PutKeepsOtherKeysAll(s, key, body, now);
          Fetched(stored, Success(body), Some(url))
  }

  lemma PutKeepsOtherKeysAll(s: Store, key: string, body: Option<string>, now: int)
    requires Valid(s) && Put(s, key, body, now).Ok?
    ensures forall other, later :: other != key ==> Get(Put(s, key, body, now).value, other, later) == Get(s, other, later)
  {
    forall other, later | other != key
      ensures Get(Put(s, key, body, now).value, other, later) == Get(s, other, later)
    {
      PutKeepsOtherKeys(s, key, other, body, now, later);
    }
  }

  /** The gateway controller; `cache` is what the cache manager gives for "ghibliFilms". */
  class GhibliController {
    var cache: Option<Store>

    ghost predicate Valid()
      reads this
    {
      cache.Some? ==> CacheStore.Valid(cache.value) && cache.value.name == CacheName
    }

    /**
     * The controller over a cache manager whose Redis caches use string
     * serialisers; `persisted` is what the Redis server holds at startup.
     */
    constructor (cacheManager: CacheManager, persisted: map<Bytes, RedisEntry>)
      requires cacheManager.RedisCacheManager? ==>
                 cacheManager.defaults.keySerializer == StringRedisSerializer
                 && cacheManager.defaults.valueSerializer == StringRedisSerializer
                 && ReadableEntries(persisted, cacheManager.defaults)
      ensures Valid()
      ensures cache == NewCache(cacheManager, CacheName, persisted)
    {
      cache := NewCache(cacheManager, CacheName, persisted);
    }

    /** GET /ghibli/films: the film list, cached under "allFilms", fetched from the list URL. */
    method GetAllFilms(upstream: string -> UpstreamReply, now: int)
      returns (response: FilmResponse, calledUrl: Option<string>)
      requires Valid()
      modifies this
      ensures Valid()
      ensures old(cache).None? ==> cache == old(cache) && response == ServerError(CacheMissing) && calledUrl == None
      ensures old(cache).Some? ==>
                cache.Some? &&
                Fetched(cache.value, response, calledUrl)
                == CachedFetch(old(cache).value, AllFilmsCacheKey(), BaseUrl, upstream, ListErrorMessage, now)
      ensures calledUrl.Some? && upstream(BaseUrl).Failure? ==>
                response == ServerError(UpstreamFailed(ListErrorMessage)) && Status(response) == InternalServerError
    {
      if cache.None? {
        response, calledUrl := ServerError(CacheMissing), None;
      } else {
        var r := CachedFetch(cache.value, AllFilmsCacheKey(), BaseUrl, upstream, ListErrorMessage, now);
        cache := Some(r.cache);
        response, calledUrl := r.response, r.calledUrl;
      }
    }

    /** GET /ghibli/films/{id}: one film, cached under its id, fetched from the list URL plus "/" plus the id. */
    method GetFilmById(id: string, upstream: string -> UpstreamReply, now: int)
      returns (response: FilmResponse, calledUrl: Option<string>)
      requires Valid()
      modifies this
      ensures Valid()
      ensures old(cache).None? ==> cache == old(cache) && response == ServerError(CacheMissing) && calledUrl == None
      ensures old(cache).Some? ==>
                cache.Some? &&
                Fetched(cache.value, response, calledUrl)
                == CachedFetch(old(cache).value, FilmCacheKey(id), FilmUrl(id), upstream, FilmErrorMessage, now)
      ensures calledUrl.Some? && upstream(FilmUrl(id)).Failure? ==>
                response == ServerError(UpstreamFailed(FilmErrorMessage)) && Status(response) == InternalServerError
    {
      if cache.None? {
        response, calledUrl := ServerError(CacheMissing), None;
      } else {
        var r := CachedFetch(cache.value, FilmCacheKey(id), FilmUrl(id), upstream, FilmErrorMessage, now);
        cache := Some(r.cache);
        response, calledUrl := r.response, r.calledUrl;
      }
    }

    /**
     * GET /ghibli/cache/stats: always 200; the cache name and the kind of store
     * behind it, or only an error entry when there is no such cache.  The cache
     * is not touched.
     */
    method GetCacheStats() returns (status: int, stats: map<string, string>)
      requires Valid()
      ensures status == StatusOk
      ensures cache.Some? ==>
                stats.Keys == {"cacheName", "nativeCache"}
                && stats["cacheName"] == CacheName
                && stats["nativeCache"] == NativeCacheName(cache.value)
      ensures cache.None? ==> stats == map["error" := "Cache not found"]
    {
      stats := map[];
      if cache.Some? {
        stats := stats["cacheName" := CacheName];
        stats := stats["nativeCache" := NativeCacheName(cache.value)];
      } else {
        stats := stats["error" := "Cache not found"];
      }
      status := StatusOk;
    }

    /**
     * DELETE /ghibli/cache/clear: always 200; empties the cache and reports
     * success, or reports an error when there is no such cache.
     */
    method ClearCache() returns (status: int, response: map<string, string>)
      requires Valid()
      modifies this
      ensures Valid()
      ensures status == StatusOk
      ensures old(cache).Some? ==>
                cache == Some(Clear(old(cache).value))
                && response == map["status" := "success", "message" := "Cache cleared successfully"]
      ensures old(cache).None? ==>
                cache == old(cache)
                && response == map["status" := "error", "message" := "Cache not found"]
    {
      response := map[];
      if cache.Some? {
        cache := Some(Clear(cache.value));
        response := response["status" := "success"];
        response := response["message" := "Cache cleared successfully"];
      } else {
        response := response["status" := "error"];
        response := response["message" := "Cache not found"];
      }
      status := StatusOk;
    }
  }

  // ---------------------------------------------------------------------------
  // Properties of the gateway
  // ---------------------------------------------------------------------------

  /**
   * The list and a film whose id is "allFilms" share one cache entry: once the
   * list has been fetched and stored, asking for that film answers with the
   * list's body and does not call the upstream.
   */
  lemma AllFilmsIdCollision(s: Store, upstream: string -> UpstreamReply, now: int)
    requires CacheStore.Valid(s) && Get(s, AllFilmsKey, now).Miss?
    requires upstream(BaseUrl).Body? && upstream(BaseUrl).body.Some?
    ensures var list := CachedFetch(s, AllFilmsCacheKey(), BaseUrl, upstream, ListErrorMessage, now);
            var film := CachedFetch(list.cache, FilmCacheKey("allFilms"), FilmUrl("allFilms"), upstream, FilmErrorMessage, now);
            && list.response == Success(upstream(BaseUrl).body)
            && film.response == Success(upstream(BaseUrl).body)
            && film.calledUrl == None
  {
  }

  /**
   * After a miss and a successful fetch, a read of the same key while the
   * stored entry lives (before its TTL has elapsed in Redis, at any later time
   * in memory) is served from the cache, unchanged, without an upstream call.
   */
  lemma SecondReadIsCached(s: Store, key: string, url: string, upstream: string -> UpstreamReply,
                           errorMessage: string, now: int, later: int)
    requires CacheStore.Valid(s) && Get(s, key, now).Miss?
    requires CachedFetch(s, key, url, upstream, errorMessage, now).response.Success?
    requires now <= later
    requires s.RedisCache? && s.config.entryTtlSeconds > 0 ==> later < now + s.config.entryTtlSeconds
    ensures var first := CachedFetch(s, key, url, upstream, errorMessage, now);
            var second := CachedFetch(first.cache, key, url, upstream, errorMessage, later);
            second == Fetched(first.cache, first.response, None)
  {
    PutThenGet(s, key, upstream(url).body, now, later);
  }

  /**
   * With the primary store, a null body from the upstream, for a key the server
   * does not hold, is a 500 and leaves the key absent.
   */
  lemma PrimaryRefusesNullBody(key: string, url: string, upstream: string -> UpstreamReply,
                               errorMessage: string, now: int, persisted: map<Bytes, RedisEntry>)
    requires ReadableEntries(persisted, PrimaryCacheConfig()) && RedisKey(CacheName, key) !in persisted
    requires upstream(url) == Body(None)
    ensures var s := NewCache(CacheManagerBean(false), CacheName, persisted).value;
            var r := CachedFetch(s, key, url, upstream, errorMessage, now);
            && r.response == ServerError(NullRefused)
            && Status(r.response) == InternalServerError
            && Get(r.cache, key, now) == Miss
  {
    ConfiguredManagerHasFilmsCache(false, persisted);
  }

  /**
   * After a restart within the hour, the list the server still holds is the
   * answer, and the upstream is not called.
   */
  lemma RestartServesPersistedList(body: string, expiresAt: int, upstream: string -> UpstreamReply,
                                   now: int, persisted: map<Bytes, RedisEntry>)
    requires ReadableEntries(persisted, PrimaryCacheConfig())
    requires RedisKey(CacheName, AllFilmsKey) in persisted
    requires persisted[RedisKey(CacheName, AllFilmsKey)] == RedisEntry(Serialized(Utf8.Encode(body)), Some(expiresAt))
    requires now < expiresAt
    ensures var s := NewCache(CacheManagerBean(false), CacheName, persisted).value;
            CachedFetch(s, AllFilmsCacheKey(), BaseUrl, upstream, ListErrorMessage, now)
            == Fetched(s, Success(Some(body)), None)
  {
    ConfiguredManagerHasFilmsCache(false, persisted);
    Utf8.DecodeEncode(body);
  }

  /** With the fallback store, a null body is returned and cached like any other. */
  lemma FallbackCachesNullBody(key: string, url: string, upstream: string -> UpstreamReply,
                               errorMessage: string, now: int, later: int,
                               persisted: map<Bytes, RedisEntry>)
    requires upstream(url) == Body(None)
    ensures var s := NewCache(CacheManagerBean(true), CacheName, persisted).value;
            var r := CachedFetch(s, key, url, upstream, errorMessage, now);
            && r.response == Success(None)
            && Get(r.cache, key, later) == Hit(None)
  {
    ConfiguredManagerHasFilmsCache(true, map[]);
  }

  /**
   * A clear empties the primary store but keeps its policy: it is still Redis
   * with the primary configuration, still refuses a null body, and an entry
   * written afterwards is still gone after one hour.
   */
  lemma ClearKeepsPrimaryPolicy(persisted: map<Bytes, RedisEntry>, key: string, body: string, now: int)
    requires ReadableEntries(persisted, PrimaryCacheConfig())
    ensures var c := Clear(NewCache(CacheManagerBean(false), CacheName, persisted).value);
            && c.RedisCache? && c.config == PrimaryCacheConfig()
            && Put(c, key, None, now) == Err(NullValuesNotAllowed)
            && Put(c, key, Some(body), now).Ok?
            && Get(Put(c, key, Some(body), now).value, key, now + OneHourSeconds) == Miss
  {
    ConfiguredManagerHasFilmsCache(false, persisted);
    var c := Clear(NewCache(CacheManagerBean(false), CacheName, persisted).value);
    PutThenExpire(c, key, Some(body), now, now + OneHourSeconds);
  }

  /** After a clear every read misses, and a second clear changes nothing. */
  lemma ClearEmptiesCache(s: Store, key: string, now: int)
    requires CacheStore.Valid(s)
    ensures Get(Clear(s), key, now) == Miss
    ensures Clear(Clear(s)) == Clear(s)
  {
    ClearTwice(s);
  }
}
