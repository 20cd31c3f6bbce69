/**
 * The request middleware with state: the per-address sliding-window rate
 * limiter and its cleanup, the subscription-status cache with its expiry,
 * the subscription check, and the choice of the client address. Times are
 * in milliseconds.
 */
module Middleware {
  import opened Wrappers
  import opened GoStrings

  const MINUTE_MS := 60 * 1000
  const SUB_CACHE_TTL := 5 * MINUTE_MS
  const RATE_LIMIT_CACHE_TTL := 2 * MINUTE_MS

  /* ------------------------------ rate limiting ------------------------------ */

  /** The timestamps still inside the window at `now` (`now.Sub(ts) <= window`), in order. */
  function Recent(ts: seq<int>, now: int, window: int): seq<int> {
    if ts == [] then []
    else if now - ts[|ts| - 1] <= window then Recent(ts[..|ts| - 1], now, window) + [ts[|ts| - 1]]
    else Recent(ts[..|ts| - 1], now, window)
  }

  /** `Recent` keeps exactly the timestamps inside the window, each as often as it occurs. */
  lemma {:induction false} RecentMeaning(ts: seq<int>, now: int, window: int)
    ensures |Recent(ts, now, window)| <= |ts|
    ensures forall t :: t in Recent(ts, now, window) <==> t in ts && now - t <= window
    ensures forall t :: multiset(Recent(ts, now, window))[t] == if now - t <= window then multiset(ts)[t] else 0
  {
    if ts != [] {
      var init := ts[..|ts| - 1];
      RecentMeaning(init, now, window);
      assert ts == init + [ts[|ts| - 1]];
    }
  }

  /** Filtering twice at the same instant changes nothing. */
  lemma {:induction false} RecentIdempotent(ts: seq<int>, now: int, window: int)
    ensures Recent(Recent(ts, now, window), now, window) == Recent(ts, now, window)
  {
    if ts != [] {
      var init := ts[..|ts| - 1];
      RecentIdempotent(init, now, window);
      var r := Recent(init, now, window);
      if now - ts[|ts| - 1] <= window {
        assert (r + [ts[|ts| - 1]])[..|r|] == r;
      }
    }
  }

  /** The filtering loop of the middleware and of its cleanup. */
  method FilterRecent(ts: seq<int>, now: int, window: int) returns (filtered: seq<int>)
    ensures filtered == Recent(ts, now, window)
  {
    filtered := [];
    var i := 0;
    while i < |ts|
      invariant 0 <= i <= |ts|
      invariant filtered == Recent(ts[..i], now, window)
    {
      assert ts[..i + 1][..i] == ts[..i];
      if now - ts[i] <= window {
        filtered := filtered + [ts[i]];
      }
      i := i + 1;
    }
    assert ts[..i] == ts;
  }

  /** Every address has at most `maxRequests` timestamps stored. */
  predicate WithinLimit(entries: map<string, seq<int>>, maxRequests: int) {
    forall ip :: ip in entries ==> |entries[ip]| <= maxRequests
  }

  /** `rateLimitStore`: the request timestamps per client address. */
  class RateLimiter {
    var entries: map<string, seq<int>>

    constructor ()
      ensures entries == map[]
    {
      entries := map[];
    }

    /** The timestamps stored for `ip`; `LoadOrStore` supplies an empty entry for a new address. */
    function Stored(ip: string): seq<int>
      reads this
    {
      if ip in entries then entries[ip] else []
    }

    /**
     * One request through `RateLimitMiddleware(maxRequests, window)`. It is
     * let through iff fewer than `maxRequests` timestamps lie in the window;
     * a rejected request is not recorded.
     */
    method Allow(ip: string, now: int, maxRequests: int, window: int) returns (allowed: bool)
      modifies this
      ensures allowed <==> |Recent(old(Stored(ip)), now, window)| < maxRequests
      ensures entries == old(entries)[ip := Recent(old(Stored(ip)), now, window) + (if allowed then [now] else [])]
    {
      var filtered := FilterRecent(Stored(ip), now, window);
      if |filtered| >= maxRequests {
        entries := entries[ip := filtered];
        assert filtered + [] == filtered;
        return false;
      }
      entries := entries[ip := filtered + [now]];
      return true;
    }

    /** One tick of `cleanupRateLimits`: every entry is filtered by `ttl`, and entries left empty are removed. */
    method Cleanup(now: int, ttl: int)
      modifies this
      ensures entries == map ip | ip in old(entries) && Recent(old(entries)[ip], now, ttl) != [] :: Recent(old(entries)[ip], now, ttl)
    {
      var todo := entries.Keys;
      ghost var start := entries;
      while todo != {}
        invariant todo <= start.Keys
        invariant entries.Keys <= start.Keys
        invariant forall ip :: ip in todo ==> ip in entries && entries[ip] == start[ip]
        invariant forall ip :: ip in start && ip !in todo ==>
                    (ip in entries <==> Recent(start[ip], now, ttl) != [])
                    && (ip in entries ==> entries[ip] == Recent(start[ip], now, ttl))
        decreases todo
      {
        var ip :| ip in todo;
        var filtered := FilterRecent(entries[ip], now, ttl);
        if filtered == [] {
          entries := entries - {ip};
        } else {
          entries := entries[ip := filtered];
        }
        todo := todo - {ip};
      }
    }
  }

  /** The store after one request, as a value. */
  function AfterRequest(entries: map<string, seq<int>>, ip: string, now: int, maxRequests: int, window: int): map<string, seq<int>> {
    var f := Recent(StoredOf(entries, ip), now, window);
    entries[ip := if |f| < maxRequests then f + [now] else f]
  }

  /** No request ever pushes an address over its limit: the stored count stays at most `maxRequests`. */
  lemma AfterRequestWithinLimit(entries: map<string, seq<int>>, ip: string, now: int, maxRequests: int, window: int)
    requires maxRequests >= 0 && WithinLimit(entries, maxRequests)
    ensures WithinLimit(AfterRequest(entries, ip, now, maxRequests, window), maxRequests)
  {
    RecentMeaning(StoredOf(entries, ip), now, window);
  }

  /** `n` copies of `t`. */
  function Repeat(t: int, n: nat): (r: seq<int>)
    ensures |r| == n && forall i :: 0 <= i < n ==> r[i] == t
  {
    if n == 0 then [] else Repeat(t, n - 1) + [t]
  }

  /** `n` requests from `ip`, all at the instant `now`. */
  function Burst(entries: map<string, seq<int>>, ip: string, now: int, maxRequests: int, window: int, n: nat): map<string, seq<int>> {
    if n == 0 then entries else AfterRequest(Burst(entries, ip, now, maxRequests, window, n - 1), ip, now, maxRequests, window)
  }

  lemma {:induction false} RecentRepeat(now: int, window: int, n: nat)
    requires window >= 0
    ensures Recent(Repeat(now, n), now, window) == Repeat(now, n)
  {
    if n > 0 {
      RecentRepeat(now, window, n - 1);
      assert Repeat(now, n)[..n - 1] == Repeat(now, n - 1);
    }
  }

  /** The timestamps the store holds for `ip`, empty for an address it has not seen. */
  function StoredOf(entries: map<string, seq<int>>, ip: string): seq<int> {
    if ip in entries then entries[ip] else []
  }

  /**
   * Within one instant, an address with no traffic in the window is let
   * through `maxRequests` times, each request recorded, and every request
   * after that is turned away and leaves its timestamps as they were.
   */
  lemma {:induction false} BurstThenReject(entries: map<string, seq<int>>, ip: string, now: int, maxRequests: nat, window: int, n: nat)
    requires window >= 0
    requires Recent(StoredOf(entries, ip), now, window) == []
    ensures 0 < n <= maxRequests ==> StoredOf(Burst(entries, ip, now, maxRequests, window, n), ip) == Repeat(now, n)
    ensures 0 < n && maxRequests <= n ==> StoredOf(Burst(entries, ip, now, maxRequests, window, n), ip) == Repeat(now, maxRequests)
  {
    if n == 1 {
      assert Recent(StoredOf(entries, ip), now, window) == Repeat(now, 0);
    } else if n > 1 {
      var prev := Burst(entries, ip, now, maxRequests, window, n - 1);
      BurstThenReject(entries, ip, now, maxRequests, window, n - 1);
      var m := if n - 1 <= maxRequests then n - 1 else maxRequests;
      assert StoredOf(prev, ip) == Repeat(now, m);
      RecentRepeat(now, window, m);
      var f := Recent(StoredOf(prev, ip), now, window);
      assert f == Repeat(now, m);
      assert StoredOf(AfterRequest(prev, ip, now, maxRequests, window), ip) == if |f| < maxRequests then f + [now] else f;
    }
  }

  /* ---------------------------- subscription cache ---------------------------- */

  datatype SubEntry = SubEntry(status: string, expiresAt: int)

  /** The cache's answer at `now`: present and not past its expiry (`now.After(expiresAt)` is strict). */
  function CachedStatus(entries: map<string, SubEntry>, subId: string, now: int): Option<string> {
    if subId in entries && !(now > entries[subId].expiresAt) then Some(entries[subId].status) else None
  }

  /** `subCache`: subscription status per subscription id. */
  class SubCache {
    var entries: map<string, SubEntry>

    constructor ()
      ensures entries == map[]
    {
      entries := map[];
    }

    /** `getSubStatus`: an expired entry reads as absent and is deleted. */
    method Get(subId: string, now: int) returns (status: Option<string>)
      modifies this
      ensures status == CachedStatus(old(entries), subId, now)
      ensures entries == if subId in old(entries) && now > old(entries)[subId].expiresAt
                         then old(entries) - {subId} else old(entries)
    {
      if subId !in entries {
        return None;
      }
      var entry := entries[subId];
      if now > entry.expiresAt {
        entries := entries - {subId};
        return None;
      }
      return Some(entry.status);
    }

    /** `setSubStatus`: the entry expires `SubCacheTTL` after it is set. */
    method Set(subId: string, status: string, now: int)
      modifies this
      ensures entries == old(entries)[subId := SubEntry(status, now + SUB_CACHE_TTL)]
    {
      entries := entries[subId := SubEntry(status, now + SUB_CACHE_TTL)];
    }

    /** One tick of `cleanupSubCache`. */
    method Cleanup(now: int)
      modifies this
      ensures entries == map k | k in old(entries) && !(now > old(entries)[k].expiresAt) :: old(entries)[k]
    {
      var todo := entries.Keys;
      ghost var start := entries;
      while todo != {}
        invariant todo <= start.Keys
        invariant entries.Keys <= start.Keys
        invariant forall k :: k in entries ==> entries[k] == start[k]
        invariant forall k :: k in todo ==> k in entries
        invariant forall k :: k in start && k !in todo ==> (k in entries <==> !(now > start[k].expiresAt))
        decreases todo
      {
        var k :| k in todo;
        if now > entries[k].expiresAt {
          entries := entries - {k};
        }
        todo := todo - {k};
      }
    }
  }

  /** A status just set is read back until its TTL runs out, and not after. */
  lemma SetThenGet(entries: map<string, SubEntry>, subId: string, status: string, setAt: int, now: int)
    ensures var e := entries[subId := SubEntry(status, setAt + SUB_CACHE_TTL)];
            CachedStatus(e, subId, now) == if now <= setAt + SUB_CACHE_TTL then Some(status) else None
  {
  }

  /* ---------------------------- subscription check ---------------------------- */

  datatype SubDecision = Pass | Deny | Internal

  /**
   * `SubscriptionMiddleware`'s decision. `cached` is the cache's answer;
   * on a miss `updateOk` is whether refreshing the status from the payment
   * provider succeeded and `refreshed` the refetched user's status.
   */
  function SubscriptionDecision(required: bool, subId: Option<string>, cached: Option<string>,
                                updateOk: bool, refreshed: Option<string>): SubDecision
  {
    if !required then Pass
    else if subId.None? || subId.value == "" then Deny
    else match cached
      case Some(status) => if status == "active" then Pass else Deny
      case None =>
        if !updateOk then Internal
        else if refreshed.None? then Deny
        else if refreshed.value == "active" then Pass
        else Deny
  }

  /**
   * A required subscription passes only with a non-empty id whose status,
   * cached or refreshed, is exactly "active" ("trialing" does not pass).
   */
  lemma SubscriptionPassesOnlyActive(required: bool, subId: Option<string>, cached: Option<string>,
                                     updateOk: bool, refreshed: Option<string>)
    ensures var d := SubscriptionDecision(required, subId, cached, updateOk, refreshed);
            && (!required ==> d == Pass)
            && (required ==> (d == Pass <==>
                  && subId.Some? && subId.value != ""
                  && (if cached.Some? then cached == Some("active") else updateOk && refreshed == Some("active"))))
            && (required && subId.Some? && subId.value != "" && cached == Some("trialing") ==> d == Deny)
  {
  }

  /** The middleware, reading the cache and storing a refreshed status. */
  method SubscriptionCheck(cache: SubCache, required: bool, subId: Option<string>,
                           updateOk: bool, refreshed: Option<string>, now: int) returns (d: SubDecision)
    modifies cache
    ensures d == SubscriptionDecision(required, subId, CachedStatus(old(cache.entries), subId.GetOr(""), now), updateOk, refreshed)
    ensures !required || subId.None? || subId.value == "" ==> cache.entries == old(cache.entries)
    ensures required && subId.Some? && subId.value != "" && CachedStatus(old(cache.entries), subId.value, now).None?
            && updateOk && refreshed.Some? ==>
              subId.value in cache.entries && cache.entries[subId.value] == SubEntry(refreshed.value, now + SUB_CACHE_TTL)
  {
    if !required {
      return Pass;
    }
    if subId.None? || subId.value == "" {
      return Deny;
    }
    var id := subId.value;
    var status := cache.Get(id, now);
    if status.None? {
      if !updateOk {
        return Internal;
      }
      if refreshed.None? {
        return Deny;
      }
      status := refreshed;
      cache.Set(id, refreshed.value, now);
    }
    if status.value != "active" {
      return Deny;
    }
    return Pass;
  }

  /* ------------------------------- client address ------------------------------- */

  /**
   * `getClientIP`: behind a proxy, a trimmed `X-Real-IP` that parses as
   * an address; otherwise the host part of `RemoteAddr`, or all of it when
   * it does not split. The address parser and splitter are parameters.
   */
  function GetClientIP(behindProxy: bool, realIp: string, parseIP: string -> bool,
                       remoteAddr: string, splitHostPort: string -> Option<string>): (ip: string)
    ensures behindProxy && TrimSpace(realIp) != "" && parseIP(TrimSpace(realIp)) ==> ip == TrimSpace(realIp)
    ensures !(behindProxy && TrimSpace(realIp) != "" && parseIP(TrimSpace(realIp))) ==>
              ip == (if splitHostPort(remoteAddr).Some? then splitHostPort(remoteAddr).value else remoteAddr)
  {
    var header := TrimSpace(realIp);
    if behindProxy && header != "" && parseIP(header) then header
    else match splitHostPort(remoteAddr)
      case Some(host) => host
      case None => remoteAddr
  }

  /** Without a proxy the header is never consulted, so a client cannot pick its own rate-limit key. */
  lemma HeaderIgnoredWithoutProxy(realIp1: string, realIp2: string, parseIP: string -> bool,
                                  remoteAddr: string, splitHostPort: string -> Option<string>)
    ensures GetClientIP(false, realIp1, parseIP, remoteAddr, splitHostPort)
         == GetClientIP(false, realIp2, parseIP, remoteAddr, splitHostPort)
  {
  }
}
