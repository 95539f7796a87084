/**
 * The cache "ghibliFilms" as either of the two stores a cache manager can give:
 * a Redis cache, which holds string-serialised bytes under the serialised key
 * "ghibliFilms::<key>" with an expiry time, or an in-memory map that keeps
 * entries (nulls included) until it is cleared.  The clock is a parameter.
 */
module CacheStore {
  import opened Wrappers
  import Utf8
  import opened RedisConfig

  type Bytes = seq<Utf8.Byte>

  /** What a Redis key holds: a serialised string, or the marker of a cached null. */
  datatype RedisValue = Serialized(bytes: Bytes) | NullMarker

  /** A Redis entry and the epoch second from which it is gone, if it expires at all. */
  datatype RedisEntry = RedisEntry(value: RedisValue, expiresAt: Option<int>)

  /** What the in-memory map holds: a string, or the framework's stand-in for null. */
  datatype LocalValue = Text(s: string) | NullValue

  datatype Store =
    | RedisCache(name: string, config: RedisCacheConfiguration, entries: map<Bytes, RedisEntry>)
    | ConcurrentMapCache(name: string, store: map<string, LocalValue>)

  /** A cache read: nothing there, or a hit whose body may be a cached null. */
  datatype Lookup = Miss | Hit(body: Option<string>)

  /** Why writing to the cache failed. */
  datatype CacheError = NullValuesNotAllowed

  /**
   * The Redis key of a cache key: the cache name, "::", the key, as UTF-8; the
   * server holds it as bytes that read back as that string.
   */
  function RedisKey(name: string, key: string): (k: Bytes)
    ensures Utf8.Decode(k) == Some(name + "::" + key)
    ensures |k| >= |name| + 2 + |key|
  {
    Utf8.DecodeEncode(name + "::" + key);
    Utf8.Encode(name + "::" + key)
  }

  /** Distinct cache keys of one cache are distinct Redis keys. */
  lemma RedisKeyInjective(name: string, a: string, b: string)
    requires RedisKey(name, a) == RedisKey(name, b)
    ensures a == b
  {
    Utf8.EncodeInjective(name + "::" + a, name + "::" + b);
    var p := name + "::";
    assert a == (p + a)[|p|..] && b == (p + b)[|p|..];
  }

  /** A stored value that the cache can read back under `config`. */
  ghost predicate Readable(v: RedisValue, config: RedisCacheConfiguration) {
    match v
    case Serialized(bytes) => Utf8.Decode(bytes).Some?
    case NullMarker => config.cacheNullValues
  }

  /** Every entry of `entries` can be read back under `config`. */
  ghost predicate ReadableEntries(entries: map<Bytes, RedisEntry>, config: RedisCacheConfiguration) {
    forall k :: k in entries ==> Readable(entries[k].value, config)
  }

  /**
   * The stores this model covers: a Redis cache serialises with the string
   * serialiser, every serialised value it holds is well-formed UTF-8, and when
   * nulls are refused it holds no null marker.
   */
  ghost predicate Valid(s: Store) {
    match s
    case RedisCache(_, config, entries) =>
      && config.keySerializer == StringRedisSerializer
      && config.valueSerializer == StringRedisSerializer
      && ReadableEntries(entries, config)
    case ConcurrentMapCache(_, _) => true
  }

  /** An entry is visible until its expiry second. */
  predicate Live(e: RedisEntry, now: int) {
    e.expiresAt.None? || now < e.expiresAt.value
  }

  /** Cache.get(key) at clock reading `now`. */
  function Get(s: Store, key: string, now: int): (r: Lookup)
    requires Valid(s)
    ensures s.RedisCache? ==>
              (r.Hit? <==> RedisKey(s.name, key) in s.entries && Live(s.entries[RedisKey(s.name, key)], now))
    ensures s.RedisCache? && r.Hit? ==>
              (r.body.None? <==> s.entries[RedisKey(s.name, key)].value == NullMarker)
    ensures s.RedisCache? && r.Hit? && r.body.Some? ==>
              Utf8.Decode(s.entries[RedisKey(s.name, key)].value.bytes) == Some(r.body.value)
    ensures s.ConcurrentMapCache? ==> (r.Hit? <==> key in s.store)
    ensures s.ConcurrentMapCache? && r.Hit? ==> (r.body.None? <==> s.store[key] == NullValue)
    ensures s.ConcurrentMapCache? && r.Hit? && r.body.Some? ==> s.store[key] == Text(r.body.value)
  {
    match s
    case RedisCache(name, _, entries) =>
      var k := RedisKey(name, key);
      if k in entries && Live(entries[k], now) then
        (match entries[k].value
         case Serialized(bytes) => Hit(Some(Utf8.Decode(bytes).value))
         case NullMarker => Hit(None))
      else Miss
    case ConcurrentMapCache(_, store) =>
      if key in store then
        (match store[key]
         case Text(body) => Hit(Some(body))
         case NullValue => Hit(None))
      else Miss
  }

  /**
   * Cache.put(key, body) at `now`: a Redis cache stores the serialised body with
   * an expiry `now + ttl` (none when the TTL is 0) and refuses a null body when
   * nulls are disabled; the in-memory map stores anything, for good.
   */
  function Put(s: Store, key: string, body: Option<string>, now: int): (r: Result<Store, CacheError>)
    requires Valid(s)
    ensures r.Err? <==> s.RedisCache? && body.None? && !s.config.cacheNullValues
    ensures r.Ok? ==> Valid(r.value) && r.value.name == s.name
    ensures r.Ok? ==> r.value.RedisCache? == s.RedisCache?
    ensures r.Ok? && s.RedisCache? ==> r.value.config == s.config
  {
    match s
    case RedisCache(name, config, entries) =>
      if body.None? && !config.cacheNullValues then Err(NullValuesNotAllowed)
      else
        var value :=
          if body.Some? then Utf8.DecodeEncode(body.value); Serialized(Utf8.Encode(body.value))
          else NullMarker;
        var expiresAt := if config.entryTtlSeconds > 0 then Some(now + config.entryTtlSeconds) else None;
        Ok(RedisCache(name, config, entries[RedisKey(name, key) := RedisEntry(value, expiresAt)]))
    case ConcurrentMapCache(name, store) =>
      Ok(ConcurrentMapCache(name, store[key := if body.Some? then Text(body.value) else NullValue]))
  }

  /** Cache.clear(): every entry of this cache is gone. */
  function Clear(s: Store): (r: Store)
    requires Valid(s)
    ensures Valid(r) && r.name == s.name && r.RedisCache? == s.RedisCache?
    ensures s.RedisCache? ==> r.config == s.config
    ensures forall key, now :: Get(r, key, now) == Miss
  {
    match s
    case RedisCache(name, config, _) => RedisCache(name, config, map[])
    case ConcurrentMapCache(name, _) => ConcurrentMapCache(name, map[])
  }

  /** The simple class name of the store behind the cache. */
  function NativeCacheName(s: Store): (n: string)
    ensures n == "DefaultRedisCacheWriter" <==> s.RedisCache?
    ensures n == "ConcurrentHashMap" <==> s.ConcurrentMapCache?
  {
    match s
    case RedisCache(_, _, _) => "DefaultRedisCacheWriter"
    case ConcurrentMapCache(_, _) => "ConcurrentHashMap"
  }

  /**
   * The cache a manager hands out for `name` at startup, or none at all.  A
   * Redis cache reads the server, which may still hold `persisted`, the entries
   * an earlier run wrote; an in-memory cache starts empty.
   */
  function NewCache(m: CacheManager, name: string, persisted: map<Bytes, RedisEntry>): (r: Option<Store>)
    ensures r.Some? <==> m.RedisCacheManager? || name in m.cacheNames
    ensures r.Some? ==> r.value.name == name && r.value.RedisCache? == m.RedisCacheManager?
    ensures r.Some? && m.RedisCacheManager? ==> r.value.config == m.defaults && r.value.entries == persisted
    ensures r.Some? && (m.ConcurrentMapCacheManager? || persisted == map[]) ==>
              forall key, now :: Valid(r.value) ==> Get(r.value, key, now) == Miss
  {
    match m
    case RedisCacheManager(defaults) => Some(RedisCache(name, defaults, persisted))
    case ConcurrentMapCacheManager(names) =>
      if name in names then Some(ConcurrentMapCache(name, map[])) else None
  }

  // ---------------------------------------------------------------------------
  // Properties of the stores
  // ---------------------------------------------------------------------------

  /**
   * A body that was stored reads back unchanged: from the in-memory map at any
   * later time, from Redis until its entry expires.
   */
  lemma PutThenGet(s: Store, key: string, body: Option<string>, now: int, later: int)
    requires Valid(s) && Put(s, key, body, now).Ok?
    requires s.RedisCache? && s.config.entryTtlSeconds > 0 ==> later < now + s.config.entryTtlSeconds
    ensures Get(Put(s, key, body, now).value, key, later) == Hit(body)
  {
    if s.RedisCache? && body.Some? {
      Utf8.DecodeEncode(body.value);
    }
  }

  /** A Redis entry written with a TTL is gone once the TTL has elapsed. */
  lemma PutThenExpire(s: Store, key: string, body: Option<string>, now: int, later: int)
    requires Valid(s) && Put(s, key, body, now).Ok?
    requires s.RedisCache? && s.config.entryTtlSeconds > 0 && later >= now + s.config.entryTtlSeconds
    ensures Get(Put(s, key, body, now).value, key, later) == Miss
  {
  }

  /** Writing one key leaves every other key of the cache as it was. */
  lemma PutKeepsOtherKeys(s: Store, key: string, other: string, body: Option<string>, now: int, later: int)
    requires Valid(s) && Put(s, key, body, now).Ok?
    requires other != key
    ensures Get(Put(s, key, body, now).value, other, later) == Get(s, other, later)
  {
    if s.RedisCache? && RedisKey(s.name, other) == RedisKey(s.name, key) {
      RedisKeyInjective(s.name, other, key);
    }
  }

  /** Clearing is idempotent. */
  lemma ClearTwice(s: Store)
    requires Valid(s)
    ensures Clear(Clear(s)) == Clear(s)
  {
  }

  /**
   * Whichever manager the bean yields, it has the cache "ghibliFilms", and that
   * cache is a store this model covers when the server holds readable entries.
   */
  lemma ConfiguredManagerHasFilmsCache(primaryBuildThrows: bool, persisted: map<Bytes, RedisEntry>)
    requires ReadableEntries(persisted, PrimaryCacheConfig())
    ensures var c := NewCache(CacheManagerBean(primaryBuildThrows), FallbackCacheName, persisted);
            c.Some? && Valid(c.value)
  {
  }

  /**
   * With the primary manager, a stored body is read back for one hour and is
   * gone from the hour on, whatever the server held before; a null body is
   * refused.
   */
  lemma PrimaryEntriesLiveOneHour(key: string, body: string, now: int, persisted: map<Bytes, RedisEntry>)
    requires ReadableEntries(persisted, PrimaryCacheConfig())
    ensures var s := NewCache(CacheManagerBean(false), FallbackCacheName, persisted).value;
            && Valid(s)
            && Put(s, key, Some(body), now).Ok?
            && Get(Put(s, key, Some(body), now).value, key, now + OneHourSeconds - 1) == Hit(Some(body))
            && Get(Put(s, key, Some(body), now).value, key, now + OneHourSeconds) == Miss
            && Put(s, key, None, now) == Err(NullValuesNotAllowed)
  {
    var s := NewCache(CacheManagerBean(false), FallbackCacheName, persisted).value;
    PutThenGet(s, key, Some(body), now, now + OneHourSeconds - 1);
    PutThenExpire(s, key, Some(body), now, now + OneHourSeconds);
  }

  /**
   * With the fallback manager, nothing expires and nulls are kept: a stored
   * body, null or not, reads back at any later time.
   */
  lemma FallbackKeepsEntries(key: string, body: Option<string>, now: int, later: int,
                             persisted: map<Bytes, RedisEntry>)
    ensures var s := NewCache(CacheManagerBean(true), FallbackCacheName, persisted).value;
            && Valid(s)
            && Put(s, key, body, now).Ok?
            && Get(Put(s, key, body, now).value, key, later) == Hit(body)
  {
  }
}
