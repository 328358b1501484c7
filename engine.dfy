/** The stateful guards of the analyzer: the sliding-window rate limiter
    (`checkRateLimit`, background.js:144-158), the time-to-live sweep of the
    result cache (`cleanCache`, background.js:71-78) and the
    rate-check-then-cache-then-compute shape of `analyzePost`
    (background.js:160-197). The clock is the parameter `now`, in
    milliseconds; the analysis itself is the parameter `perform`. */
module Engine {
  import opened Wrappers
  import opened Ranking
  import opened CacheKeys

  /** The constants of background.js:10, 14 and 15. */
  const CACHE_DURATION: int := 24 * 60 * 60 * 1000
  const RATE_LIMIT_WINDOW: int := 60000
  const MAX_REQUESTS: nat := 10

  /** What `performAnalysis` returns, reduced to the fields the guards and
      the caller read. */
  datatype AnalysisResult = AnalysisResult(originalityScore: int, analysis: string, matches: seq<Match>)

  /** A cache value. `analyzePost` stores the bare result, which has no
      `timestamp` field: `timestamp` is then `None`. */
  datatype CacheEntry = CacheEntry(result: AnalysisResult, timestamp: Option<int>)

  /** What `analyzePost` resolves to: a result, or one of its two error
      objects, which both carry `originalityScore: 0` (background.js:183-195). */
  datatype Reply = Analysed(result: AnalysisResult) | RateLimited | TechnicalError

  /** `requestTimes.filter(time => time > windowStart)`. */
  function Recent(times: seq<int>, now: int): (r: seq<int>)
    ensures |r| <= |times|
    ensures forall t :: t in r <==> t in times && t > now - RATE_LIMIT_WINDOW
    ensures forall t :: multiset(r)[t] == (if t > now - RATE_LIMIT_WINDOW then multiset(times)[t] else 0)
  {
    if times == [] then []
    else
      assert times == [times[0]] + times[1..];
      (if times[0] > now - RATE_LIMIT_WINDOW then [times[0]] else []) + Recent(times[1..], now)
  }

  /** The decision of `checkRateLimit` and the request list it leaves. */
  datatype Admission = Admission(admitted: bool, requests: seq<int>)

  function RateLimit(times: seq<int>, now: int): (a: Admission)
    ensures a.admitted <==> |Recent(times, now)| < MAX_REQUESTS
    ensures a.admitted ==> a.requests == Recent(times, now) + [now]
    ensures !a.admitted ==> a.requests == Recent(times, now)
    ensures |times| <= MAX_REQUESTS ==> |a.requests| <= MAX_REQUESTS
  {
    var valid := Recent(times, now);
    if |valid| >= MAX_REQUESTS then Admission(false, valid) else Admission(true, valid + [now])
  }

  /** `now - value.timestamp > CACHE_DURATION`; with no timestamp the
      difference is NaN and the test is false. */
  predicate Expired(e: CacheEntry, now: int) {
    e.timestamp.Some? && now - e.timestamp.value > CACHE_DURATION
  }

  /** The cache after `cleanCache`: the entries that have not expired. */
  function Sweep(cache: map<string, CacheEntry>, now: int): (r: map<string, CacheEntry>)
    ensures forall k :: k in r <==> k in cache && !Expired(cache[k], now)
    ensures forall k :: k in r ==> r[k] == cache[k]
  {
    map k | k in cache && !Expired(cache[k], now) :: cache[k]
  }

  class Analyzer {
    /** `this.rateLimiter.get('requests')`: the admitted request times. */
    var requests: seq<int>
    /** `this.cache`: results by cache key. */
    var cache: map<string, CacheEntry>

    /** The limiter never holds more than `MAX_REQUESTS` times. */
    predicate Valid()
      reads this
    {
      |requests| <= MAX_REQUESTS
    }

    constructor()
      ensures requests == [] && cache == map[]
      ensures Valid()
    {
      requests := [];
      cache := map[];
    }

    /** `checkRateLimit`: keeps the times of the last minute and admits the
        call when fewer than ten remain, recording `now`. A refusal still
        drops the old times. The thrown error is the flag `admitted`. */
    method CheckRateLimit(now: int) returns (admitted: bool)
      requires Valid()
      modifies this
      ensures Valid()
      ensures admitted == RateLimit(old(requests), now).admitted
      ensures requests == RateLimit(old(requests), now).requests
      ensures cache == old(cache)
    {
      var validRequests := Recent(requests, now);
      requests := validRequests;
      if |validRequests| >= MAX_REQUESTS {
        return false;
      }
      requests := validRequests + [now];
      return true;
    }

    /** `cleanCache`: deletes every entry older than a day while iterating
        over the keys. */
    method CleanCache(now: int)
      modifies this
      ensures cache == Sweep(old(cache), now)
      ensures requests == old(requests)
    {
      ghost var original := cache;
      var keys := cache.Keys;
      while keys != {}
        invariant keys <= original.Keys
        invariant forall k :: k in cache <==> k in original && (k in keys || !Expired(original[k], now))
        invariant forall k :: k in cache ==> cache[k] == original[k]
        invariant requests == old(requests)
        decreases keys
      {
        var k :| k in keys;
        if Expired(cache[k], now) {
          cache := cache - {k};
        }
        keys := keys - {k};
      }
      assert cache == Sweep(original, now);
    }

    /** `analyzePost`: the rate check comes first, so a cache hit also uses
        a slot; then a cached result is returned as it is; otherwise the
        analysis runs and its result is cached without a timestamp.
        `perform` returns `None` where `performAnalysis` throws. */
    method AnalyzePost(text: string, now: int, perform: string -> Option<AnalysisResult>) returns (reply: Reply)
      requires Valid()
      modifies this
      ensures Valid()
      ensures requests == RateLimit(old(requests), now).requests
      ensures !RateLimit(old(requests), now).admitted ==> reply == RateLimited && cache == old(cache)
      ensures RateLimit(old(requests), now).admitted && CacheKey(text) in old(cache) ==>
                reply == Analysed(old(cache)[CacheKey(text)].result) && cache == old(cache)
      ensures RateLimit(old(requests), now).admitted && CacheKey(text) !in old(cache) && perform(text).None? ==>
                reply == TechnicalError && cache == old(cache)
      ensures RateLimit(old(requests), now).admitted && CacheKey(text) !in old(cache) && perform(text).Some? ==>
                reply == Analysed(perform(text).value)
                && cache == old(cache)[CacheKey(text) := CacheEntry(perform(text).value, None)]
    {
      var admitted := CheckRateLimit(now);
      if !admitted {
        return RateLimited;
      }
      var key := GenerateCacheKey(text);
      if key in cache {
        return Analysed(cache[key].result);
      }
      var result := perform(text);
      if result.None? {
        return TechnicalError;
      }
      cache := cache[key := CacheEntry(result.value, None)];
      return Analysed(result.value);
    }

    /** `analyzePost` with the timestamp `cleanCache` reads stored next to
        the result. */
    method AnalyzePostStamped(text: string, now: int, perform: string -> Option<AnalysisResult>) returns (reply: Reply)
      requires Valid()
      modifies this
      ensures Valid()
      ensures requests == RateLimit(old(requests), now).requests
      ensures !RateLimit(old(requests), now).admitted ==> reply == RateLimited && cache == old(cache)
      ensures RateLimit(old(requests), now).admitted && CacheKey(text) in old(cache) ==>
                reply == Analysed(old(cache)[CacheKey(text)].result) && cache == old(cache)
      ensures RateLimit(old(requests), now).admitted && CacheKey(text) !in old(cache) && perform(text).None? ==>
                reply == TechnicalError && cache == old(cache)
      ensures RateLimit(old(requests), now).admitted && CacheKey(text) !in old(cache) && perform(text).Some? ==>
                reply == Analysed(perform(text).value)
                && cache == old(cache)[CacheKey(text) := CacheEntry(perform(text).value, Some(now))]
    {
      var admitted := CheckRateLimit(now);
      if !admitted {
        return RateLimited;
      }
      var key := GenerateCacheKey(text);
      if key in cache {
        return Analysed(cache[key].result);
      }
      var result := perform(text);
      if result.None? {
        return TechnicalError;
      }
      cache := cache[key := CacheEntry(result.value, Some(now))];
      return Analysed(result.value);
    }
  }

  /** The decisions of successive `checkRateLimit` calls at the given times. */
  function Run(times: seq<int>, calls: seq<int>): (decisions: seq<bool>)
    ensures |decisions| == |calls|
    decreases |calls|
  {
    if calls == [] then []
    else
      var a := RateLimit(times, calls[0]);
      [a.admitted] + Run(a.requests, calls[1..])
  }

  /** A time is still inside the window of every later call. */
  ghost predicate WithinWindow(times: seq<int>, calls: seq<int>) {
    forall i, j :: 0 <= i < |times| && 0 <= j < |calls| ==> calls[j] - RATE_LIMIT_WINDOW < times[i]
  }

  lemma {:induction false} RecentKeepsAll(times: seq<int>, now: int)
    requires forall i :: 0 <= i < |times| ==> now - RATE_LIMIT_WINDOW < times[i]
    ensures Recent(times, now) == times
  {
    if times != [] {
      RecentKeepsAll(times[1..], now);
    }
  }

  /** A burst of calls that all fall within one minute of each other is
      admitted while fewer than ten requests are on record and refused from
      then on: the limiter lets exactly `10 - |times|` of them through. */
  lemma {:induction false} BurstAdmitsUpToLimit(times: seq<int>, calls: seq<int>)
    requires |times| <= MAX_REQUESTS
    requires WithinWindow(times, calls)
    requires forall i, j :: 0 <= i <= j < |calls| ==> calls[j] - RATE_LIMIT_WINDOW < calls[i]
    ensures forall k :: 0 <= k < |calls| ==> (Run(times, calls)[k] <==> |times| + k < MAX_REQUESTS)
    decreases |calls|
  {
    if calls != [] {
      var now := calls[0];
      RecentKeepsAll(times, now);
      var a := RateLimit(times, now);
      var rest := calls[1..];
      assert WithinWindow(a.requests, rest) by {
        forall i, j | 0 <= i < |a.requests| && 0 <= j < |rest|
          ensures rest[j] - RATE_LIMIT_WINDOW < a.requests[i]
        {
          assert rest[j] == calls[j + 1];
          if i == |times| {
            assert a.requests[i] == calls[0];
          }
        }
      }
      assert forall i, j :: 0 <= i <= j < |rest| ==> rest[j] - RATE_LIMIT_WINDOW < rest[i] by {
        forall i, j | 0 <= i <= j < |rest| ensures rest[j] - RATE_LIMIT_WINDOW < rest[i] {
          assert rest[i] == calls[i + 1] && rest[j] == calls[j + 1];
        }
      }
      BurstAdmitsUpToLimit(a.requests, rest);
      forall k | 0 < k < |calls| ensures (Run(times, calls)[k] <==> |times| + k < MAX_REQUESTS) {
        assert Run(times, calls)[k] == Run(a.requests, rest)[k - 1];
      }
    }
  }

  /** Ten calls within a minute from a fresh limiter are admitted and an
      eleventh is refused. */
  lemma TenPerMinute(calls: seq<int>)
    requires |calls| == 11
    requires forall i, j :: 0 <= i <= j < |calls| ==> calls[j] - RATE_LIMIT_WINDOW < calls[i]
    ensures forall k :: 0 <= k < 10 ==> Run([], calls)[k]
    ensures !Run([], calls)[10]
  {
    BurstAdmitsUpToLimit([], calls);
  }

  /** After a minute without admitted requests the limiter admits again and
      remembers only the new call. */
  lemma QuietMinuteResets(times: seq<int>, now: int)
    requires forall i :: 0 <= i < |times| ==> times[i] <= now - RATE_LIMIT_WINDOW
    ensures RateLimit(times, now) == Admission(true, [now])
  {
    RecentEmpty(times, now);
  }

  lemma {:induction false} RecentEmpty(times: seq<int>, now: int)
    requires forall i :: 0 <= i < |times| ==> times[i] <= now - RATE_LIMIT_WINDOW
    ensures Recent(times, now) == []
  {
    if times != [] {
      RecentEmpty(times[1..], now);
    }
  }

  /** A stale time is dropped, so the filtered list is shorter. */
  lemma {:induction false} RecentDropsStale(times: seq<int>, now: int, i: nat)
    requires i < |times| && times[i] <= now - RATE_LIMIT_WINDOW
    ensures |Recent(times, now)| < |times|
  {
    if i > 0 {
      RecentDropsStale(times[1..], now, i - 1);
    } else {
      assert |Recent(times[1..], now)| <= |times| - 1;
    }
  }

  /** A full limiter admits again as soon as one recorded request is more
      than a minute old. */
  lemma SlotFreedWhenOneLeaves(times: seq<int>, now: int, i: nat)
    requires |times| <= MAX_REQUESTS
    requires i < |times| && times[i] <= now - RATE_LIMIT_WINDOW
    ensures RateLimit(times, now).admitted
  {
    RecentDropsStale(times, now, i);
  }

  /** The entries `analyzePost` stores carry no timestamp, so `cleanCache`
      never removes them, however late it runs. */
  lemma UnstampedNeverExpire(cache: map<string, CacheEntry>, key: string, result: AnalysisResult, now: int)
    ensures key in Sweep(cache[key := CacheEntry(result, None)], now)
  {
  }

  /** With the timestamp stored, an entry survives the sweep for exactly one
      day. */
  lemma StampedExpireAfterADay(cache: map<string, CacheEntry>, key: string, result: AnalysisResult, stored: int, now: int)
    ensures key in Sweep(cache[key := CacheEntry(result, Some(stored))], now) <==> now - stored <= CACHE_DURATION
  {
  }
}
