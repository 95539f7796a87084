# Ghibli gateway of the movies catalog, in Dafny

This project models the part of the movies catalog service that sits in front of
the Studio Ghibli API:

- **the rate limiter** (`rate_limiter.dfy`). A servlet filter counts the
  requests under "/ghibli" per client, in fixed 60-second windows. It rejects
  the sixth and later requests of a window with 429.
- **the cache-aside gateway** (`ghibli_controller.dfy`). The film list and
  single films are served from the cache "ghibliFilms". The upstream is called
  only on a miss. Two admin endpoints report on the cache and clear it.
- **the cache manager selection** (`redis_config.dfy`, `cache_store.dfy`,
  `utf8.dfy`). The service prefers a Redis cache: one-hour entry lifetime, no
  null values, string serialisers. If building it throws, it uses an in-memory
  cache holding only "ghibliFilms".
- **the search endpoints' query handling** (`search_controller.dfy`). They check
  the query with Java's `trim()`. Then they empty, in place, the authors' movie
  lists on the page they return.

`wrappers.dfy` holds the `Option` and `Result` types.

Each request is one atomic step. The clock is a parameter `now`, in epoch
seconds. The upstream HTTP client is an oracle from URL to reply: a body, a null
body, or an exception. The repository search is an input: the page it returns.

The rate limiter keeps its mutable shape. `RateLimiterFilter` holds a
`map<string, ClientRequestInfo>`. Each record is an object whose `timestamp` and
`requestCount` fields change in place. `Valid()` says that no two clients share
a record. The methods are proved against the value-level functions `Check` and
`Filter`, and the lemmas are stated over those functions.

The cache is a value of type `Store`. A Redis store holds UTF-8 bytes under the
key "ghibliFilms::" + key, each with an expiry second. An in-memory store is a
map of strings. `GhibliController` holds that value and reassigns it.
`CachedFetch` models what the `@Cacheable` annotation does around the method
body. The search entities `Author` and `Movie` are classes, and the two
`forEach` loops are `while` loops over the returned page.

Behaviour that comes from the framework, not from this repository, is modelled
as follows:

- a Redis cache manager creates any cache it is asked for;
- an in-memory manager built with a list of names has only those caches, stores
  nulls, and never expires entries;
- a Redis cache that refuses nulls throws on `put(key, null)`, so the request
  fails with 500 and nothing is stored;
- Redis keys carry the prefix "<cache name>::";
- `@Cacheable` fails with 500 when the cache manager has no cache of that name;
- `PageRequest.of` throws when the page is negative or the size is below one;
- the stats report names the store class: "DefaultRedisCacheWriter" for Redis,
  "ConcurrentHashMap" for the in-memory map.

Two results worth knowing:

- The film list and a film whose id is "allFilms" share one cache entry. Once
  the list is cached, `GET /ghibli/films/allFilms` answers with the list and does
  not call the upstream (`Ghibli.AllFilmsIdCollision`).
- The fixed window admits a burst across its boundary: ten requests in 62
  seconds, nine of them within two consecutive seconds (`RateLimiter.BoundaryBurst`).

Three details follow the code and the framework, not what one might expect:

- Storing a null with the primary store is not a no-op: it is an error response,
  and the key stays absent.
- The request counter is not unbounded: it is a Java `int`, which wraps after
  2^31 - 1 counted requests in one window. `RateLimiter.IncrementAndGet` models
  the wrap, and the burst lemmas assume fewer requests than that.
- The query length is Java's `length()`, in UTF-16 code units: a single
  character above U+FFFF, such as an emoji, is a query long enough to search
  for (`Search.AcceptsQuery`).

## Model

| member | source | states |
|---|---|---|
| RateLimiter.IncrementAndGet | src/main/java/com/example/movies/filter/RateLimiterFilter.java:76 | the counter increment is a 32-bit signed increment: the result is the old count plus one, wrapped into the `int` range |
| RateLimiter.Counted | src/main/java/com/example/movies/filter/RateLimiterFilter.java:69-76 | a first request, or one more than 60 seconds after its window started, leaves the record at (now, 1); otherwise the window start is kept and the count goes up by one |
| RateLimiter.Check | src/main/java/com/example/movies/filter/RateLimiterFilter.java:68-81 | a check changes only the caller's record, which becomes `Counted` of its previous record (or of none); the client set grows by exactly the caller and nothing is removed; the request is over the limit iff its post-increment count exceeds 5 |
| RateLimiter.ClientIdentifier | src/main/java/com/example/movies/filter/RateLimiterFilter.java:64-66 | the client is its remote address and nothing else |
| RateLimiter.IsGuarded | src/main/java/com/example/movies/filter/RateLimiterFilter.java:51 | a URI is rate-limited iff its first seven characters are "/ghibli" |
| RateLimiter.GuardExamples | src/main/java/com/example/movies/filter/RateLimiterFilter.java:51 | the prefix test is case-sensitive and ignores path boundaries: "/ghiblifoo" is guarded, "/Ghibli/films" and "/api/ghibli" are not |
| RateLimiter.OneAddressOneBudget | src/main/java/com/example/movies/filter/RateLimiterFilter.java:52-54 | two guarded requests from one address, to different URIs, in one window both count against the same record |
| RateLimiter.Filter | src/main/java/com/example/movies/filter/RateLimiterFilter.java:46-66 | a URI not starting with "/ghibli" passes and the table is untouched; a guarded one is checked under its remote address; it is rejected iff over the limit, and then the answer is 429 with the fixed message and the chain is not called |
| RateLimiter.SameWindowReplay | src/main/java/com/example/movies/filter/RateLimiterFilter.java:72-80 | within one window the k-th further request is counted as count + k + 1 and rejected iff that exceeds 5; rejected requests are counted too and the window start does not move |
| RateLimiter.NewWindowBurst | src/main/java/com/example/movies/filter/RateLimiterFilter.java:69-86 | for a client with no record or a stale one, among requests within 60 seconds of its first, the first five are admitted and every later one is rejected; the window starts at that first request |
| RateLimiter.WindowBoundary | src/main/java/com/example/movies/filter/RateLimiterFilter.java:72-75 | at exactly 60 seconds there is no reset; at 61 seconds the record restarts at (now, 1) and the request is admitted |
| RateLimiter.SixthRequestRejected | src/main/java/com/example/movies/filter/RateLimiterFilter.java:42 | five requests from 10.0.0.1 within two seconds are admitted and the sixth is rejected |
| RateLimiter.BoundaryBurst | src/main/java/com/example/movies/filter/RateLimiterFilter.java:72-80 | one request at t, four at t + 60 and five at t + 61 are all admitted |
| RateLimiter.ClientRequestInfo.constructor | src/main/java/com/example/movies/filter/RateLimiterFilter.java:83-86 | a new record is stamped with its creation time and count 0 |
| RateLimiter.RateLimiterFilter.constructor | src/main/java/com/example/movies/filter/RateLimiterFilter.java:43 | the filter starts with no records |
| RateLimiter.RateLimiterFilter.IsRateLimitExceeded | src/main/java/com/example/movies/filter/RateLimiterFilter.java:68-81 | updating the record objects in place yields exactly the table and verdict of `Check`, and each client keeps a record of its own |
| RateLimiter.RateLimiterFilter.DoFilter | src/main/java/com/example/movies/filter/RateLimiterFilter.java:46-62 | the filter step yields exactly the table and outcome of `Filter`; an unguarded request leaves the map as it was |
| Utf8.EncodeChar | src/main/java/com/example/movies/config/RedisConfig.java:88 | a character is written as one to four bytes, as the one byte of its value exactly when it is ASCII |
| Utf8.Encode | src/main/java/com/example/movies/config/RedisConfig.java:87-88 | the string serialiser writes between one and four bytes per character, exactly one per character iff the string is ASCII |
| Utf8.Decode | src/main/java/com/example/movies/config/RedisConfig.java:88 | reading bytes back yields at most one character per byte, or nothing for malformed bytes |
| Utf8.DecodeEncodeChar | src/main/java/com/example/movies/config/RedisConfig.java:88 | decoding the UTF-8 bytes of one character gives it back and consumes exactly those bytes |
| Utf8.DecodeEncode | src/main/java/com/example/movies/config/RedisConfig.java:88 | a string written through the string serialiser reads back unchanged |
| Utf8.EncodeInjective | src/main/java/com/example/movies/config/RedisConfig.java:87 | distinct strings serialise to distinct bytes |
| Utf8.EncodingExamples | src/main/java/com/example/movies/config/RedisConfig.java:87-88 | "A" is one byte, "é" two and "€" three, as UTF-8 has them |
| RedisConfig.PrimaryCacheConfig | src/main/java/com/example/movies/config/RedisConfig.java:84-88 | the builder chain yields a one-hour entry TTL, null values refused, and string serialisers for keys and values |
| RedisConfig.CacheManagerBean | src/main/java/com/example/movies/config/RedisConfig.java:82-97 | the bean is the Redis manager with the primary configuration iff building it does not throw; otherwise it is the in-memory manager with exactly the cache "ghibliFilms"; it always yields a manager |
| CacheStore.RedisKey | src/main/java/com/example/movies/config/RedisConfig.java:87 | the key the server holds is the UTF-8 of the cache name, "::" and the key, and reads back as that string |
| CacheStore.RedisKeyInjective | src/main/java/com/example/movies/config/RedisConfig.java:87 | distinct cache keys of one cache are distinct Redis keys |
| CacheStore.Get | src/main/java/com/example/movies/controller/GhibliController.java:63 | a Redis read hits iff the prefixed key is present and its entry has not expired, and it answers null iff a null marker is stored, otherwise the string the bytes decode to; an in-memory read hits iff the key is present, and answers null iff the null stand-in is stored, otherwise the stored string |
| CacheStore.Put | src/main/java/com/example/movies/config/RedisConfig.java:86 | a put fails iff the store is Redis, nulls are disabled and the body is null; a successful put keeps the store readable and of the same kind |
| CacheStore.Clear | src/main/java/com/example/movies/controller/GhibliController.java:118 | after a clear every key misses at every time, and the store keeps its name, its kind and, for Redis, its configuration (TTL and null refusal) |
| CacheStore.NativeCacheName | src/main/java/com/example/movies/controller/GhibliController.java:102 | the stats name the store "DefaultRedisCacheWriter" iff it is Redis and "ConcurrentHashMap" iff it is the in-memory map |
| CacheStore.NewCache | src/main/java/com/example/movies/config/RedisConfig.java:90-95 | a Redis manager has any cache asked for, with its default configuration, and that cache reads whatever the server already holds; an in-memory manager has only the caches it was built with, and they start empty |
| CacheStore.PutThenGet | src/main/java/com/example/movies/config/RedisConfig.java:85-88 | a stored body, null or not, reads back unchanged: until its expiry in Redis, at any later time in memory |
| CacheStore.PutThenExpire | src/main/java/com/example/movies/config/RedisConfig.java:85 | a Redis entry written with a TTL misses once the TTL has elapsed |
| CacheStore.PutKeepsOtherKeys | src/main/java/com/example/movies/config/RedisConfig.java:87 | writing one key leaves every other key's reads as they were |
| CacheStore.ClearTwice | src/main/java/com/example/movies/controller/GhibliController.java:118 | clearing twice is the same as clearing once |
| CacheStore.ConfiguredManagerHasFilmsCache | src/main/java/com/example/movies/config/RedisConfig.java:90-95 | whichever manager the bean yields, it has the cache "ghibliFilms", the name the controller asks for, and that cache is readable when the server's entries are |
| CacheStore.PrimaryEntriesLiveOneHour | src/main/java/com/example/movies/config/RedisConfig.java:85-86 | with the primary manager, whatever the server held before, a stored body reads back for one hour and misses from the hour on; a null body is refused |
| CacheStore.FallbackKeepsEntries | src/main/java/com/example/movies/config/RedisConfig.java:95 | with the fallback manager there is no TTL and no null suppression: any stored body, null included, reads back at any later time |
| Ghibli.AllFilmsCacheKey | src/main/java/com/example/movies/controller/GhibliController.java:63 | the list is cached under the constant "allFilms", whatever the request |
| Ghibli.FilmCacheKey | src/main/java/com/example/movies/controller/GhibliController.java:79 | a film's key is its id, unchanged, so it equals the list's key iff the id is "allFilms" |
| Ghibli.FilmCacheKeysDistinct | src/main/java/com/example/movies/controller/GhibliController.java:79 | distinct film ids are cached under distinct keys |
| Ghibli.Status | src/main/java/com/example/movies/controller/GhibliController.java:67-73 | a read endpoint answers 200 iff it has a body and 500 iff it failed, whatever the failure |
| Ghibli.FilmUrl | src/main/java/com/example/movies/controller/GhibliController.java:82 | the film URL is the list URL, a slash, then the id unchanged |
| Ghibli.FilmUrlsDistinct | src/main/java/com/example/movies/controller/GhibliController.java:66-82 | distinct ids give distinct URLs, and no film URL is the list URL |
| Ghibli.CachedFetch | src/main/java/com/example/movies/controller/GhibliController.java:63-90 | on a hit the cached body is returned and the upstream is not called; on a miss the upstream is called at the URL; an exception becomes a 500 with the endpoint's message and stores nothing; a body is returned and the new cache is exactly the old one with that body put under the key at the current time; a refused null stores nothing; other keys are untouched |
| Ghibli.GhibliController.constructor | src/main/java/com/example/movies/controller/GhibliController.java:54-55 | the controller uses the cache the manager gives for "ghibliFilms", if any, over the entries the Redis server holds at startup |
| Ghibli.GhibliController.GetAllFilms | src/main/java/com/example/movies/controller/GhibliController.java:63-74 | the list endpoint is `CachedFetch` under the key "allFilms" at the list URL with its own error message; an upstream exception is a 500 with "Error fetching films from Ghibli API"; a manager without the cache gives a 500 |
| Ghibli.GhibliController.GetFilmById | src/main/java/com/example/movies/controller/GhibliController.java:79-91 | the by-id endpoint is `CachedFetch` under the raw id at the film URL with its own error message; an upstream exception is a 500 with "Error fetching film from Ghibli API" |
| Ghibli.GhibliController.GetCacheStats | src/main/java/com/example/movies/controller/GhibliController.java:96-108 | always 200; the report has cacheName "ghibliFilms" and the store kind, or only error "Cache not found"; the cache is not changed |
| Ghibli.GhibliController.ClearCache | src/main/java/com/example/movies/controller/GhibliController.java:113-127 | always 200; an existing cache is emptied with status "success" and "Cache cleared successfully"; a missing one gives status "error" and "Cache not found" |
| Ghibli.AllFilmsIdCollision | src/main/java/com/example/movies/controller/GhibliController.java:63-83 | after the list is fetched and stored, asking for the film "allFilms" answers with the list's body without calling the upstream |
| Ghibli.SecondReadIsCached | src/main/java/com/example/movies/controller/GhibliController.java:63-66 | after a miss and a successful fetch, a read of the same key before the entry's TTL has elapsed (in Redis) or at any later time (in memory) is served from the cache, unchanged, without an upstream call |
| Ghibli.PrimaryRefusesNullBody | src/main/java/com/example/movies/config/RedisConfig.java:86 | with the primary store a null upstream body, for a key the server does not hold, is a 500 and the key stays absent |
| Ghibli.RestartServesPersistedList | src/main/java/com/example/movies/config/RedisConfig.java:90-92 | after a restart within the hour, the list the Redis server still holds is the answer and the upstream is not called |
| Ghibli.FallbackCachesNullBody | src/main/java/com/example/movies/config/RedisConfig.java:95 | with the fallback store a null upstream body is returned and cached |
| Ghibli.ClearKeepsPrimaryPolicy | src/main/java/com/example/movies/controller/GhibliController.java:117-120 | clearing the primary store keeps it Redis with the primary configuration: a null body is still refused and a new entry is still gone after one hour |
| Ghibli.ClearEmptiesCache | src/main/java/com/example/movies/controller/GhibliController.java:117-120 | after a clear any read misses, and clearing again changes nothing |
| Search.LeadingBlanks | src/main/java/com/example/movies/controller/SearchController.java:56 | counts the characters at or below U+0020 at the front, up to the first one above it |
| Search.TrailingBlanks | src/main/java/com/example/movies/controller/SearchController.java:56 | counts the characters at or below U+0020 at the back, up to the last one above it |
| Search.Trim | src/main/java/com/example/movies/controller/SearchController.java:56 | Java's trim: a contiguous slice of the input; everything cut off is at or below U+0020; the slice starts and ends with a character above it |
| Search.Utf16Length | src/main/java/com/example/movies/controller/SearchController.java:56 | the length Java reports is between the number of characters and twice it, and equals it iff no character is above U+FFFF |
| Search.Utf16LengthAppend | src/main/java/com/example/movies/controller/SearchController.java:56 | appending a character adds one code unit, or two for a character above U+FFFF |
| Search.Utf16LengthCountsPairs | src/main/java/com/example/movies/controller/SearchController.java:56 | the length Java reports is the number of characters plus the number of characters above U+FFFF |
| Search.TrimmedLengthAtLeastTwo | src/main/java/com/example/movies/controller/SearchController.java:56 | what trim keeps is at least two code units long iff trim keeps two characters at different positions or one character above U+FFFF |
| Search.AcceptsQuery | src/main/java/com/example/movies/controller/SearchController.java:74 | a query passes iff it is present and trim keeps two characters at different positions or one character above U+FFFF |
| Search.QueryExamples | src/main/java/com/example/movies/controller/SearchController.java:56 | null, " a " and "é" are rejected; "ab" and an emoji with blanks round it pass |
| Search.ValidateSearch | src/main/java/com/example/movies/controller/SearchController.java:53-59 | a null or too-short query is rejected with 400 and the fixed message before anything else; otherwise the untrimmed query is both text arguments, page defaults to 0 and size to 10, and a negative page or a size below one fails |
| Search.ClearMovieBackReferences | src/main/java/com/example/movies/controller/SearchController.java:60-64 | every author of a movie on the page ends with its list emptied, or still null; movies without an author change nothing |
| Search.ClearAuthorMovieLists | src/main/java/com/example/movies/controller/SearchController.java:78-82 | every author on the page ends with its list emptied, or still null |
| Search.SearchMovies | src/main/java/com/example/movies/controller/SearchController.java:52-66 | a rejected request asks the repository nothing and changes nothing; otherwise it asks with the validated arguments, answers the page unchanged, and has emptied the page's authors' lists |
| Search.SearchAuthors | src/main/java/com/example/movies/controller/SearchController.java:70-84 | the same validation and message as the movie search; otherwise the page is answered unchanged, with each author's list emptied |

## Left out

- Concurrency: `ConcurrentHashMap.computeIfAbsent`, the `synchronized` block and the `AtomicInteger` are modelled as one sequential step per request.
- The clock: `Instant.now()` is read twice for a client's first request, once when the record is created and once in the rate-limit test. Both readings are the one parameter `now`.
- RateLimiter.Counted: the record's `long` timestamp and the subtraction are unbounded integers. A 64-bit overflow needs clock readings far outside epoch seconds.
- Servlet I/O: writing the 429 body can throw `IOException`. The call into the rest of the filter chain is only the `PassedToChain` outcome.
- The HTTP call is an oracle from URL to reply. Timeouts, HTTP status handling and JSON are not modelled.
- `@PreAuthorize` role checks are not modelled. Neither is `@Cacheable`'s key-expression evaluation beyond the two keys used.
- Redis TTL is modelled at one-second granularity. An entry is visible while fewer than 3600 seconds have passed since it was written. Redis's millisecond expiry boundary is not modelled.
- Ghibli.GhibliController.constructor: requires a Redis manager to use string serialisers. The JDK serialiser of the framework's default configuration is not modelled, and this application never keeps it.
- Utf8.Decode: malformed byte sequences decode to None, not to Java's replacement characters. The store never holds malformed bytes.
- Strings are sequences of Unicode scalar values, so Java strings with unpaired surrogates (which the encoder would turn into '?') are not modelled.
- `clientResources` and `redisConnectionFactory` (host, credentials, connect timeout) are network setup and are not modelled. What makes the Redis manager's construction throw is a boolean parameter. The manager does not react to a Redis outage at run time.
- Errors of Redis operations after construction are not modelled.
- CacheStore.NewCache: the Redis server's contents are taken once, at startup, as `persisted`. After that the store changes only through this controller's calls, so writes and clears by other instances sharing the server are not modelled.
- The repository's derived queries (case-insensitive containment, paging) are an input: the page they return.
- Java's `Page` is modelled as the sequence of its elements.
- `@RequestParam` conversion is not modelled: a missing `query` parameter and a non-numeric page or size are rejected by the framework before the method runs. The `Option` query models the method's own null check.
- The CRUD controllers, authentication, the seeder and the JPA entities' other fields are not modelled.
