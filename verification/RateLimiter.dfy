/**
 * The per-caller fixed-window limiter of a custom API: each caller has a bucket that opens a
 * window of one minute, and buckets idle for more than five minutes are swept on each request.
 */
module RateLimiter {
  import opened Wrappers

  const SECOND: int := 1_000_000_000
  const MINUTE: int := 60 * SECOND

  datatype Bucket = Bucket(windowStart: int, count: int)

  /** `remaining` and `retryAfter` are what the response headers carry. */
  datatype Decision = Unlimited | Allowed(remaining: int) | Denied(retryAfter: int)

  function Max(a: int, b: int): int { if a > b then a else b }

  predicate WindowOver(b: Option<Bucket>, now: int) {
    b.None? || now - b.value.windowStart >= MINUTE
  }

  /** One request of one caller with a positive limit: the answer and the caller's bucket afterwards. */
  function Serve(limit: int, b: Option<Bucket>, now: int): (Decision, Bucket) {
    if WindowOver(b, now) then (Allowed(Max(limit - 1, 0)), Bucket(now, 1))
    else if b.value.count >= limit then
      (Denied(Max((MINUTE - (now - b.value.windowStart)) / SECOND, 1)), b.value)
    else (Allowed(Max(limit - (b.value.count + 1), 0)), b.value.(count := b.value.count + 1))
  }

  predicate Stale(b: Bucket, now: int) {
    now - b.windowStart > 5 * MINUTE
  }

  function Swept(buckets: map<string, Bucket>, now: int): map<string, Bucket> {
    map k | k in buckets && !Stale(buckets[k], now) :: buckets[k]
  }

  function Find(buckets: map<string, Bucket>, caller: string): Option<Bucket> {
    if caller in buckets then Some(buckets[caller]) else None
  }

  /** One request; `sweep` tells the limiter as it is from one that never evicts. */
  function Enforced(limit: int, sweep: bool, buckets: map<string, Bucket>, caller: string, now: int)
    : (Decision, map<string, Bucket>)
  {
    if limit <= 0 then (Unlimited, buckets)
    else
      var kept := if sweep then Swept(buckets, now) else buckets;
      var (decision, bucket) := Serve(limit, Find(kept, caller), now);
      (decision, kept[caller := bucket])
  }

  class CustomApi {
    var rateLimit: int
    var rateBuckets: map<string, Bucket>

    constructor (rateLimit: int)
      ensures this.rateLimit == rateLimit && rateBuckets == map[]
    {
      this.rateLimit := rateLimit;
      rateBuckets := map[];
    }

    method Sweep(now: int)
      modifies this`rateBuckets
      ensures rateBuckets == Swept(old(rateBuckets), now)
      ensures forall k :: k in rateBuckets <==>
                k in old(rateBuckets) && now <= old(rateBuckets)[k].windowStart + 300_000_000_000
    {
      var todo := rateBuckets.Keys;
      while todo != {}
        invariant todo <= rateBuckets.Keys <= old(rateBuckets).Keys
        invariant forall k :: k in rateBuckets ==> rateBuckets[k] == old(rateBuckets)[k]
        invariant forall k :: k in old(rateBuckets) && k !in todo ==>
                    (k in rateBuckets <==> !Stale(old(rateBuckets)[k], now))
        decreases todo
      {
        var key :| key in todo;
        if Stale(rateBuckets[key], now) {
          rateBuckets := rateBuckets - {key};
        }
        todo := todo - {key};
      }
    }

    method EnforceRateLimit(caller: string, now: int) returns (decision: Decision)
      modifies this`rateBuckets
      ensures (decision, rateBuckets) == old(Enforced(rateLimit, true, rateBuckets, caller, now))
      ensures decision == Unlimited <==> rateLimit <= 0
    {
      var limit := rateLimit;
      if limit <= 0 {
        return Unlimited;
      }
      Sweep(now);
      if caller !in rateBuckets || now - rateBuckets[caller].windowStart >= MINUTE {
        rateBuckets := rateBuckets[caller := Bucket(now, 1)];
        var remaining := limit - 1;
        if remaining < 0 {
          remaining := 0;
        }
        return Allowed(remaining);
      }
      var bucket := rateBuckets[caller];
      if bucket.count >= limit {
        var retryAfter := (MINUTE - (now - bucket.windowStart)) / SECOND;
        if retryAfter < 1 {
          retryAfter := 1;
        }
        assert rateBuckets[caller := bucket] == rateBuckets;
        return Denied(retryAfter);
      }
      bucket := bucket.(count := bucket.count + 1);
      rateBuckets := rateBuckets[caller := bucket];
      var remaining := limit - bucket.count;
      if remaining < 0 {
        remaining := 0;
      }
      return Allowed(remaining);
    }
  }
}
