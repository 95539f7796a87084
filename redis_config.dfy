/**
 * The cacheManager bean.  It builds a Redis-backed cache manager whose default
 * cache configuration gives every entry a one-hour time-to-live, refuses null
 * values and serialises keys and values as strings; if anything in that
 * construction throws, it returns an in-memory manager holding the single
 * cache "ghibliFilms" instead.  Whether construction throws is a parameter.
 */
module RedisConfig {

  const FallbackCacheName: string := "ghibliFilms"
  const OneHourSeconds: nat := 3600

  datatype Serializer = StringRedisSerializer | JdkSerializationRedisSerializer

  /**
   * The settings of a Redis cache: the entry time-to-live in seconds (0 means
   * entries never expire), whether null values are stored, and the key and
   * value serialisers.  Keys are always prefixed with "<cache name>::".
   */
  datatype RedisCacheConfiguration = RedisCacheConfiguration(
    entryTtlSeconds: nat,
    cacheNullValues: bool,
    keySerializer: Serializer,
    valueSerializer: Serializer)

  /** The framework's default configuration: no expiry, nulls stored, string keys, JDK-serialised values. */
  function DefaultCacheConfig(): RedisCacheConfiguration {
    RedisCacheConfiguration(0, true, StringRedisSerializer, JdkSerializationRedisSerializer)
  }

  function EntryTtl(c: RedisCacheConfiguration, seconds: nat): RedisCacheConfiguration {
    c.(entryTtlSeconds := seconds)
  }

  function DisableCachingNullValues(c: RedisCacheConfiguration): RedisCacheConfiguration {
    c.(cacheNullValues := false)
  }

  function SerializeKeysWith(c: RedisCacheConfiguration, s: Serializer): RedisCacheConfiguration {
    c.(keySerializer := s)
  }

  function SerializeValuesWith(c: RedisCacheConfiguration, s: Serializer): RedisCacheConfiguration {
    c.(valueSerializer := s)
  }

  /**
   * A cache manager: a Redis one creates any cache it is asked for with its
   * default configuration; an in-memory one with a fixed list of names has
   * exactly those caches, each storing nulls and never expiring entries.
   */
  datatype CacheManager =
    | RedisCacheManager(defaults: RedisCacheConfiguration)
    | ConcurrentMapCacheManager(cacheNames: set<string>)

  /**
   * The configuration the primary manager is built with: whatever the defaults
   * were, the builder chain leaves a one-hour TTL, null values refused, and
   * string serialisers for both keys and values.
   */
  function PrimaryCacheConfig(): (c: RedisCacheConfiguration)
    ensures c.entryTtlSeconds == OneHourSeconds
    ensures !c.cacheNullValues
    ensures c.keySerializer == StringRedisSerializer && c.valueSerializer == StringRedisSerializer
  {
    var withTtl := EntryTtl(DefaultCacheConfig(), OneHourSeconds);
    var withoutNulls := DisableCachingNullValues(withTtl);
    var withStringKeys := SerializeKeysWith(withoutNulls, StringRedisSerializer);
    SerializeValuesWith(withStringKeys, StringRedisSerializer)
  }

  /**
   * The bean: the Redis manager with the primary configuration, or, when its
   * construction throws, the in-memory manager with the one cache
   * "ghibliFilms".  It always yields a manager.
   */
  function CacheManagerBean(primaryBuildThrows: bool): (m: CacheManager)
    ensures m.RedisCacheManager? <==> !primaryBuildThrows
    ensures m.RedisCacheManager? ==> m.defaults == PrimaryCacheConfig()
    ensures m.ConcurrentMapCacheManager? ==> m.cacheNames == {FallbackCacheName}
  {
    if primaryBuildThrows then ConcurrentMapCacheManager({FallbackCacheName})
    else RedisCacheManager(PrimaryCacheConfig())
  }
}
