/**
 * The fixed-window rate limiter that guards the "/ghibli" endpoints.
 *
 * The filter keeps one record per client (its remote address): the epoch second
 * at which the current window started and a request counter.  A guarded request
 * resets a window that is more than 60 seconds old, then counts itself, and is
 * rejected with status 429 when the count is above 5.  Every request is one
 * atomic step here, and the clock reading is a parameter `now`.
 */
module RateLimiter {
  import opened Wrappers

  const MaxRequestsPerMinute: int := 5
  const WindowSeconds: int := 60
  const GuardedPrefix: string := "/ghibli"
  const TooManyRequests: int := 429
  const RejectionBody: string := "Too Many Requests - Rate limit exceeded. Try again later."

  const IntMin: int := -0x8000_0000
  const IntMax: int := 0x7fff_ffff

  /** A Java `int`, the value held by the record's AtomicInteger. */
  type Int32 = x: int | IntMin <= x <= IntMax

  /** AtomicInteger.incrementAndGet: add one with two's-complement wrap-around. */
  function IncrementAndGet(c: Int32): (r: Int32)
    ensures r == (c - IntMin + 1) % 0x1_0000_0000 + IntMin
  {
    if c == IntMax then IntMin else c + 1
  }

  // ---------------------------------------------------------------------------
  // Specification: one client's record as a value, and one check as a function
  // ---------------------------------------------------------------------------

  /** The value of one ClientRequestInfo record. */
  datatype Window = Window(timestamp: int, requestCount: Int32)

  /** A window is stale when strictly more than 60 seconds have passed since it started. */
  predicate IsStale(w: Window, now: int) {
    now - w.timestamp > WindowSeconds
  }

  /** A request is over the limit when the count, after counting it, is above 5. */
  predicate Exceeded(w: Window) {
    w.requestCount > MaxRequestsPerMinute
  }

  /**
   * The client's record after one guarded request: a missing record is created
   * stamped `now` with count 0, a stale one is restarted at `now` with count 0,
   * and then the request is counted.
   */
  function Counted(w: Option<Window>, now: int): (r: Window)
    ensures w.None? ==> r == Window(now, 1)
    ensures w.Some? && IsStale(w.value, now) ==> r == Window(now, 1)
    ensures w.Some? && !IsStale(w.value, now) ==>
              r.timestamp == w.value.timestamp && r.requestCount == IncrementAndGet(w.value.requestCount)
  {
    var current := w.GetOr(Window(now, 0));
    var started := if IsStale(current, now) then Window(now, 0) else current;
    started.(requestCount := IncrementAndGet(started.requestCount))
  }

  /** The record the table holds for `clientId`, if any. */
  function Record(table: map<string, Window>, clientId: string): Option<Window> {
    if clientId in table then Some(table[clientId]) else None
  }

  /** The table of records after a check, and whether the request was over the limit. */
  datatype Decision = Decision(table: map<string, Window>, exceeded: bool)

  /**
   * One check for `clientId`: only that client's record changes, no record is
   * ever removed, and the request is rejected exactly when its record's count,
   * after counting it, is above the limit.
   */
  function Check(table: map<string, Window>, clientId: string, now: int): (d: Decision)
    ensures d.table.Keys == table.Keys + {clientId}
    ensures forall other :: other in table && other != clientId ==> d.table[other] == table[other]
    ensures d.table[clientId] == Counted(Record(table, clientId), now)
    ensures d.exceeded <==> d.table[clientId].requestCount > MaxRequestsPerMinute
  {
    var w := Counted(Record(table, clientId), now);
    Decision(table[clientId := w], Exceeded(w))
  }

  // ---------------------------------------------------------------------------
  // Several checks of one client in a row
  // ---------------------------------------------------------------------------

  /** The table after a run of checks, and for each check whether it was rejected. */
  datatype Replayed = Replayed(table: map<string, Window>, rejected: seq<bool>)

  /** Checks of `clientId` at the clock readings `times`, in order. */
  function ReplayClient(table: map<string, Window>, clientId: string, times: seq<int>): (r: Replayed)
    ensures |r.rejected| == |times|
    decreases |times|
  {
    if times == [] then Replayed(table, [])
    else
      var d := Check(table, clientId, times[0]);
      var rest := ReplayClient(d.table, clientId, times[1..]);
      Replayed(rest.table, [d.exceeded] + rest.rejected)
  }

  /** A run splits into a run over a prefix followed by a run over the rest. */
  lemma {:induction false} ReplayAppend(table: map<string, Window>, clientId: string, a: seq<int>, b: seq<int>)
    ensures ReplayClient(table, clientId, a + b).rejected ==
            ReplayClient(table, clientId, a).rejected
            + ReplayClient(ReplayClient(table, clientId, a).table, clientId, b).rejected
    ensures ReplayClient(table, clientId, a + b).table ==
            ReplayClient(ReplayClient(table, clientId, a).table, clientId, b).table
    decreases |a|
  {
    if a != [] {
      var d := Check(table, clientId, a[0]);
      assert (a + b)[1..] == a[1..] + b;
      ReplayAppend(d.table, clientId, a[1..], b);
    } else {
      assert a + b == b;
    }
  }

  /**
   * Within one window (no clock reading more than 60 seconds after its start),
   * the k-th further request is counted as `count + k + 1` and is rejected
   * exactly when that is above the limit; the window's start does not move.
   */
  lemma {:induction false} SameWindowReplay(table: map<string, Window>, clientId: string, times: seq<int>)
    requires clientId in table
    requires 0 <= table[clientId].requestCount
    requires table[clientId].requestCount + |times| <= IntMax
    requires forall i :: 0 <= i < |times| ==> !IsStale(table[clientId], times[i])
    ensures var r := ReplayClient(table, clientId, times);
            && clientId in r.table
            && r.table[clientId] == Window(table[clientId].timestamp, table[clientId].requestCount + |times|)
            && forall i :: 0 <= i < |times| ==>
                 r.rejected[i] == (table[clientId].requestCount + i + 1 > MaxRequestsPerMinute)
    decreases |times|
  {
    if times != [] {
      var w := table[clientId];
      var d := Check(table, clientId, times[0]);
      assert d.table[clientId] == Window(w.timestamp, w.requestCount + 1);
      assert forall i :: 0 <= i < |times[1..]| ==> times[1..][i] == times[i + 1];
      SameWindowReplay(d.table, clientId, times[1..]);
      var rest := ReplayClient(d.table, clientId, times[1..]);
      var r := ReplayClient(table, clientId, times);
      assert r.rejected == [d.exceeded] + rest.rejected;
      forall i | 0 <= i < |times|
        ensures r.rejected[i] == (w.requestCount + i + 1 > MaxRequestsPerMinute)
      {
        if i > 0 {
          assert r.rejected[i] == rest.rejected[i - 1];
        }
      }
    }
  }

  /**
   * A client with no record, or with a stale one, starts a new window at its
   * first request: of the requests that follow within 60 seconds of that first
   * one, the first five are admitted and every later one is rejected.
   */
  lemma {:induction false} NewWindowBurst(table: map<string, Window>, clientId: string, times: seq<int>)
    requires |times| > 0
    requires clientId !in table || IsStale(table[clientId], times[0])
    requires |times| <= IntMax
    requires forall i :: 0 <= i < |times| ==> times[i] - times[0] <= WindowSeconds
    ensures var r := ReplayClient(table, clientId, times);
            && clientId in r.table
            && r.table[clientId] == Window(times[0], |times|)
            && forall i :: 0 <= i < |times| ==> r.rejected[i] == (i >= MaxRequestsPerMinute)
  {
    var d := Check(table, clientId, times[0]);
    assert d.table[clientId] == Window(times[0], 1);
    assert forall i :: 0 <= i < |times[1..]| ==> times[1..][i] == times[i + 1];
    SameWindowReplay(d.table, clientId, times[1..]);
    var rest := ReplayClient(d.table, clientId, times[1..]);
    var r := ReplayClient(table, clientId, times);
    assert r.rejected == [d.exceeded] + rest.rejected;
    forall i | 0 <= i < |times|
      ensures r.rejected[i] == (i >= MaxRequestsPerMinute)
    {
      if i > 0 {
        assert r.rejected[i] == rest.rejected[i - 1];
      }
    }
  }

  /** The stale test is strict: a window exactly 60 seconds old is still counted on. */
  lemma WindowBoundary(table: map<string, Window>, clientId: string, w: Window)
    requires clientId in table && table[clientId] == w
    ensures Check(table, clientId, w.timestamp + WindowSeconds).table[clientId]
            == Window(w.timestamp, IncrementAndGet(w.requestCount))
    ensures Check(table, clientId, w.timestamp + WindowSeconds + 1).table[clientId] == Window(w.timestamp + WindowSeconds + 1, 1)
    ensures !Check(table, clientId, w.timestamp + WindowSeconds + 1).exceeded
  {
  }

  /**
   * The five-then-one scenario: five requests from 10.0.0.1 within two seconds
   * are admitted, and a sixth right after them is rejected.
   */
  lemma SixthRequestRejected(table: map<string, Window>, t: int)
    requires "10.0.0.1" !in table
    ensures ReplayClient(table, "10.0.0.1", [t, t, t + 1, t + 1, t + 2, t + 2]).rejected
            == [false, false, false, false, false, true]
  {
    var times := [t, t, t + 1, t + 1, t + 2, t + 2];
    NewWindowBurst(table, "10.0.0.1", times);
  }

  /**
   * The fixed window admits bursts across a boundary: one request at t, four at
   * t + 60 (still the same window) and five at t + 61 (a new window) are all
   * admitted, nine of them within two consecutive seconds.
   */
  lemma BoundaryBurst(table: map<string, Window>, clientId: string, t: int)
    requires clientId !in table
    ensures ReplayClient(table, clientId, [t] + seq(4, _ => t + 60) + seq(5, _ => t + 61)).rejected
            == seq(10, _ => false)
  {
    var first := [t] + seq(4, _ => t + 60);
    var second := seq(5, _ => t + 61);
    NewWindowBurst(table, clientId, first);
    var mid := ReplayClient(table, clientId, first);
    NewWindowBurst(mid.table, clientId, second);
    ReplayAppend(table, clientId, first, second);
  }

  // ---------------------------------------------------------------------------
  // The servlet filter as a function of the request
  // ---------------------------------------------------------------------------

  datatype HttpRequest = HttpRequest(requestUri: string, remoteAddr: string)

  /** Either the request goes on down the filter chain, or the filter answers it. */
  datatype FilterOutcome = PassedToChain | Rejected(status: int, body: string)

  /** The client is identified by the request's remote address, nothing else. */
  function ClientIdentifier(request: HttpRequest): (id: string)
    ensures id == request.remoteAddr
  {
    request.remoteAddr
  }

  /** The limiter applies to every URI that starts with "/ghibli", as a plain string prefix. */
  predicate IsGuarded(uri: string): (b: bool)
    ensures b <==> |uri| >= 7 && uri[..7] == "/ghibli"
  {
    GuardedPrefix <= uri
  }

  /**
   * The prefix test is case-sensitive and stops at no path boundary: it guards
   * "/ghiblifoo" as well as "/ghibli/films", and neither "/Ghibli" nor
   * "/api/ghibli".
   */
  lemma GuardExamples()
    ensures IsGuarded("/ghibli") && IsGuarded("/ghibli/films/1") && IsGuarded("/ghiblifoo")
    ensures !IsGuarded("/Ghibli/films") && !IsGuarded("/api/ghibli") && !IsGuarded("/ghibl")
  {
    assert "/ghibli/films/1"[..7] == "/ghibli";
    assert "/ghiblifoo"[..7] == "/ghibli";
    assert "/Ghibli/films"[1] != "/ghibli"[1];
    assert "/api/ghibli"[1] != "/ghibli"[1];
  }

  /**
   * Requests from one remote address share one record whatever their URIs: two
   * guarded requests in the same window each count against it.
   */
  lemma OneAddressOneBudget(table: map<string, Window>, a: HttpRequest, b: HttpRequest, now: int)
    requires a.remoteAddr == b.remoteAddr && a.requestUri != b.requestUri
    requires IsGuarded(a.requestUri) && IsGuarded(b.requestUri)
    requires a.remoteAddr in table && !IsStale(table[a.remoteAddr], now)
    requires 0 <= table[a.remoteAddr].requestCount && table[a.remoteAddr].requestCount + 2 <= IntMax
    ensures var w := Filter(Filter(table, a, now).table, b, now).table[b.remoteAddr];
            w == Window(table[a.remoteAddr].timestamp, table[a.remoteAddr].requestCount + 2)
  {
  }

  datatype Filtered = Filtered(table: map<string, Window>, outcome: FilterOutcome)

  /**
   * The filter: an unguarded request passes without touching the table; a
   * guarded one is checked under its remote address, and when over the limit it
   * is answered with 429 and the fixed message instead of being passed on.
   */
  function Filter(table: map<string, Window>, request: HttpRequest, now: int): (r: Filtered)
    ensures !IsGuarded(request.requestUri) ==> r == Filtered(table, PassedToChain)
    ensures IsGuarded(request.requestUri) ==>
              r.table == Check(table, request.remoteAddr, now).table
    ensures r.outcome.Rejected? <==>
              IsGuarded(request.requestUri) && r.table[request.remoteAddr].requestCount > MaxRequestsPerMinute
    ensures r.outcome.Rejected? ==> r.outcome == Rejected(TooManyRequests, RejectionBody)
  {
    if IsGuarded(request.requestUri) then
      var d := Check(table, ClientIdentifier(request), now);
      Filtered(d.table, if d.exceeded then Rejected(TooManyRequests, RejectionBody) else PassedToChain)
    else
      Filtered(table, PassedToChain)
  }

  // ---------------------------------------------------------------------------
  // The filter object: a mutable table of mutable records
  // ---------------------------------------------------------------------------

  /** One client's record, updated in place under the record's own lock. */
  class ClientRequestInfo {
    var timestamp: int
    var requestCount: Int32

    /** A new record is stamped with its creation time and a zero count. */
    constructor (now: int)
      ensures timestamp == now && requestCount == 0
    {
      timestamp := now;
      requestCount := 0;
    }
  }

  class RateLimiterFilter {
    var clientRequestMap: map<string, ClientRequestInfo>

    /** Every client has a record object of its own. */
    ghost predicate Valid()
      reads this
    {
      forall a, b :: a in clientRequestMap && b in clientRequestMap && a != b ==>
        clientRequestMap[a] != clientRequestMap[b]
    }

    /** The table of records as values. */
    ghost function Windows(): map<string, Window>
      reads this, clientRequestMap.Values
    {
      map k | k in clientRequestMap :: Window(clientRequestMap[k].timestamp, clientRequestMap[k].requestCount)
    }

    constructor ()
      ensures Valid() && Windows() == map[]
    {
      clientRequestMap := map[];
    }

    /** The rate-limit test of one guarded request, on the objects. */
    method IsRateLimitExceeded(clientIdentifier: string, now: int) returns (exceeded: bool)
      requires Valid()
      modifies this, clientRequestMap.Values
      ensures Valid()
      ensures Decision(Windows(), exceeded) == Check(old(Windows()), clientIdentifier, now)
    {
      ghost var before := Windows();
      var requestInfo: ClientRequestInfo;
      if clientIdentifier in clientRequestMap {
        requestInfo := clientRequestMap[clientIdentifier];
      } else {
        requestInfo := new ClientRequestInfo(now);
        clientRequestMap := clientRequestMap[clientIdentifier := requestInfo];
      }
      if now - requestInfo.timestamp > WindowSeconds {
        requestInfo.timestamp := now;
        requestInfo.requestCount := 0;
      }
      requestInfo.requestCount := IncrementAndGet(requestInfo.requestCount);
      exceeded := requestInfo.requestCount > MaxRequestsPerMinute;

      ghost var after := Windows();
      ghost var expected := Check(before, clientIdentifier, now);
      assert after.Keys == expected.table.Keys;
      assert after[clientIdentifier] == expected.table[clientIdentifier];
      forall k | k in after && k != clientIdentifier
        ensures after[k] == expected.table[k]
      {
        var info := clientRequestMap[k];
        assert info == old(clientRequestMap)[k] && info != requestInfo;
        assert info.timestamp == old(info.timestamp) && info.requestCount == old(info.requestCount);
      }
    }

    /** The filter step for one request. */
    method DoFilter(request: HttpRequest, now: int) returns (outcome: FilterOutcome)
      requires Valid()
      modifies this, clientRequestMap.Values
      ensures Valid()
      ensures Filtered(Windows(), outcome) == Filter(old(Windows()), request, now)
      ensures !IsGuarded(request.requestUri) ==> clientRequestMap == old(clientRequestMap)
    {
      outcome := PassedToChain;
      if IsGuarded(request.requestUri) {
        var clientIdentifier := ClientIdentifier(request);
        var exceeded := IsRateLimitExceeded(clientIdentifier, now);
        if exceeded {
          outcome := Rejected(TooManyRequests, RejectionBody);
        }
      }
    }
  }
}
