/**
 * Request traces against one API with a fixed positive limit and a clock that never goes back:
 * callers do not affect each other, eviction cannot be observed, and how many requests any span
 * of time can admit.
 */
module RateLimiterRuns {
  import opened Wrappers
  import opened RateLimiter

  datatype Request = Request(caller: string, now: int)

  ghost predicate Monotone(times: seq<int>) {
    forall i, j :: 0 <= i <= j < |times| ==> times[i] <= times[j]
  }

  lemma MonotoneSnoc(times: seq<int>, now: int)
    requires Monotone(times) && (times != [] ==> times[|times| - 1] <= now)
    ensures Monotone(times + [now])
  {
  }

  function Times(trace: seq<Request>): seq<int> {
    seq(|trace|, i requires 0 <= i < |trace| => trace[i].now)
  }

  /** The buckets after a trace. */
  function BucketsAfter(limit: int, sweep: bool, trace: seq<Request>): map<string, Bucket> {
    if trace == [] then map[]
    else
      var last := trace[|trace| - 1];
      Enforced(limit, sweep, BucketsAfter(limit, sweep, trace[..|trace| - 1]), last.caller, last.now).1
  }

  /** The answer the request at index `i` of a trace gets. */
  function Answer(limit: int, sweep: bool, trace: seq<Request>, i: nat): Decision
    requires i < |trace|
  {
    Enforced(limit, sweep, BucketsAfter(limit, sweep, trace[..i]), trace[i].caller, trace[i].now).0
  }

  /** The times at which one caller called. */
  function TimesOf(trace: seq<Request>, caller: string): seq<int> {
    if trace == [] then [] else
      var last := trace[|trace| - 1];
      TimesOf(trace[..|trace| - 1], caller) + if last.caller == caller then [last.now] else []
  }

  /** A trace of one caller. */
  function Calls(caller: string, times: seq<int>): seq<Request> {
    seq(|times|, i requires 0 <= i < |times| => Request(caller, times[i]))
  }

  lemma {:induction false} TimesOfCalls(caller: string, times: seq<int>)
    ensures TimesOf(Calls(caller, times), caller) == times && Times(Calls(caller, times)) == times
  {
    if times == [] {
    } else {
      var init := times[..|times| - 1];
      TimesOfCalls(caller, init);
      assert Calls(caller, times)[..|init|] == Calls(caller, init);
    }
  }

  /** A limiter that serves a single caller: its bucket, and its answer to one more request. */
  function SoloBucket(limit: int, times: seq<int>): Option<Bucket> {
    if times == [] then None
    else Some(Serve(limit, SoloBucket(limit, times[..|times| - 1]), times[|times| - 1]).1)
  }

  function SoloAnswer(limit: int, times: seq<int>, now: int): Decision {
    Serve(limit, SoloBucket(limit, times), now).0
  }

  /** The shared limiter's bucket for a caller is the caller's own, unless that one went stale. */
  ghost predicate Tracks(limit: int, sweep: bool, trace: seq<Request>, caller: string) {
    var mine, own := Find(BucketsAfter(limit, sweep, trace), caller), SoloBucket(limit, TimesOf(trace, caller));
    || mine == own
    || (mine.None? && trace != [] && own.Some? && Stale(own.value, trace[|trace| - 1].now))
  }

  lemma {:induction false} Tracking(limit: int, sweep: bool, trace: seq<Request>, caller: string)
    requires limit > 0 && Monotone(Times(trace))
    ensures Tracks(limit, sweep, trace, caller)
  {
    if trace == [] {
    } else {
      var init, last := trace[..|trace| - 1], trace[|trace| - 1];
      assert Times(init) == Times(trace)[..|trace| - 1];
      Tracking(limit, sweep, init, caller);
      assert init != [] ==> Times(trace)[|init| - 1] <= Times(trace)[|trace| - 1];
      var t := TimesOf(init, caller);
      if last.caller == caller {
        assert TimesOf(trace, caller) == t + [last.now];
        assert (t + [last.now])[..|t|] == t;
      } else {
        assert TimesOf(trace, caller) == t;
      }
    }
  }

  /** Every request is answered as if its caller were the only one, and as if nothing were evicted. */
  lemma CallersIndependent(limit: int, sweep: bool, trace: seq<Request>, i: nat)
    requires limit > 0 && Monotone(Times(trace)) && i < |trace|
    ensures Answer(limit, sweep, trace, i)
         == SoloAnswer(limit, TimesOf(trace[..i], trace[i].caller), trace[i].now)
  {
    var init := trace[..i];
    assert Times(init) == Times(trace)[..i];
    Tracking(limit, sweep, init, trace[i].caller);
    assert i > 0 ==> Times(trace)[i - 1] <= Times(trace)[i];
  }

  lemma CallsAnswered(limit: int, caller: string, times: seq<int>, i: nat)
    requires limit > 0 && Monotone(times) && i < |times|
    ensures Answer(limit, true, Calls(caller, times), i) == SoloAnswer(limit, times[..i], times[i])
  {
    TimesOfCalls(caller, times);
    CallersIndependent(limit, true, Calls(caller, times), i);
    assert Calls(caller, times)[..i] == Calls(caller, times[..i]);
    TimesOfCalls(caller, times[..i]);
  }

  /** The sweep cannot be observed: a limiter that never evicts gives the same answers. */
  lemma EvictionTransparent(limit: int, trace: seq<Request>, i: nat)
    requires Monotone(Times(trace)) && i < |trace|
    ensures Answer(limit, true, trace, i) == Answer(limit, false, trace, i)
  {
    if limit > 0 {
      CallersIndependent(limit, true, trace, i);
      CallersIndependent(limit, false, trace, i);
    }
  }

  lemma {:induction false} SoloBucketShape(limit: int, times: seq<int>)
    requires limit > 0 && Monotone(times)
    ensures times == [] <==> SoloBucket(limit, times).None?
    ensures times != [] ==>
              var b := SoloBucket(limit, times).value;
              1 <= b.count <= limit && b.windowStart <= times[|times| - 1]
  {
    if times == [] {
    } else {
      var init := times[..|times| - 1];
      SoloBucketShape(limit, init);
      assert init != [] ==> times[|init| - 1] <= times[|times| - 1];
    }
  }

  lemma {:induction false} TimesOfMonotone(trace: seq<Request>, caller: string)
    requires Monotone(Times(trace))
    ensures Monotone(TimesOf(trace, caller))
    ensures TimesOf(trace, caller) != [] ==>
              trace != [] && TimesOf(trace, caller)[|TimesOf(trace, caller)| - 1] <= trace[|trace| - 1].now
  {
    if trace == [] {
    } else {
      var init := trace[..|trace| - 1];
      assert Times(init) == Times(trace)[..|trace| - 1];
      TimesOfMonotone(init, caller);
      assert init != [] ==> Times(trace)[|init| - 1] <= Times(trace)[|trace| - 1];
      MonotoneSnoc(TimesOf(init, caller), trace[|trace| - 1].now);
    }
  }

  /** Every denial tells the caller to wait between one and sixty seconds. */
  lemma RetryInRange(limit: int, trace: seq<Request>, i: nat)
    requires Monotone(Times(trace)) && i < |trace| && Answer(limit, true, trace, i).Denied?
    ensures limit > 0 && 1 <= Answer(limit, true, trace, i).retryAfter <= 60
  {
    CallersIndependent(limit, true, trace, i);
    var init, c := trace[..i], trace[i].caller;
    assert Times(init) == Times(trace)[..i];
    TimesOfMonotone(init, c);
    SoloBucketShape(limit, TimesOf(init, c));
    assert i > 0 ==> Times(trace)[i - 1] <= Times(trace)[i];
  }

  lemma RetryOnBucket(limit: int, b: Bucket, now: int)
    requires Serve(limit, Some(b), now).0.Denied?
    ensures var rest := MINUTE - (now - b.windowStart);
            var again := now + Serve(limit, Some(b), now).0.retryAfter * SECOND;
      !Serve(limit, Some(b), again).0.Denied? <==> rest % SECOND == 0 || rest < SECOND
  {
  }

  /** The request at index `j` is the next one of the caller that sent the one at `i`. */
  ghost predicate Next(trace: seq<Request>, i: nat, j: nat) {
    && i < j < |trace| && trace[j].caller == trace[i].caller
    && forall h :: i < h < j ==> trace[h].caller != trace[i].caller
  }

  lemma {:induction false} TimesUpTo(trace: seq<Request>, caller: string, i: nat, j: nat)
    requires i < j <= |trace| && trace[i].caller == caller
    requires forall h :: i < h < j ==> trace[h].caller != caller
    ensures TimesOf(trace[..j], caller) == TimesOf(trace[..i], caller) + [trace[i].now]
    decreases j
  {
    assert trace[..j][..j - 1] == trace[..j - 1];
    if j == i + 1 {
    } else {
      TimesUpTo(trace, caller, i, j - 1);
    }
  }

  /** The time left in the window of the caller of the request at index `i`, when it arrives. */
  function RestOfWindow(limit: int, trace: seq<Request>, i: nat): int
    requires i < |trace| && trace[i].caller in BucketsAfter(limit, true, trace[..i])
  {
    MINUTE - (trace[i].now - BucketsAfter(limit, true, trace[..i])[trace[i].caller].windowStart)
  }

  /** A denied caller has a bucket, the one it would have if it were alone. */
  lemma DeniedBucket(limit: int, trace: seq<Request>, i: nat)
    requires Monotone(Times(trace)) && i < |trace| && Answer(limit, true, trace, i).Denied?
    ensures limit > 0
    ensures Find(BucketsAfter(limit, true, trace[..i]), trace[i].caller)
         == SoloBucket(limit, TimesOf(trace[..i], trace[i].caller)) != None
  {
    assert Times(trace[..i]) == Times(trace)[..i];
    Tracking(limit, true, trace[..i], trace[i].caller);
  }

  /**
   * A caller who is denied and next calls after exactly the delay it was told is answered without
   * a denial if and only if the rest of the window was whole seconds or less than one, whatever
   * other callers do: the number of seconds is rounded down.
   */
  lemma RetryHonoured(limit: int, trace: seq<Request>, i: nat, j: nat)
    requires Monotone(Times(trace)) && Next(trace, i, j)
    requires Answer(limit, true, trace, i).Denied?
    requires trace[j].now == trace[i].now + Answer(limit, true, trace, i).retryAfter * SECOND
    ensures trace[i].caller in BucketsAfter(limit, true, trace[..i])
    ensures !Answer(limit, true, trace, j).Denied?
       <==> var rest := RestOfWindow(limit, trace, i); rest % SECOND == 0 || rest < SECOND
  {
    var caller, now := trace[i].caller, trace[i].now;
    DeniedBucket(limit, trace, i);
    CallersIndependent(limit, true, trace, i);
    CallersIndependent(limit, true, trace, j);
    var times := TimesOf(trace[..i], caller);
    TimesUpTo(trace, caller, i, j);
    assert (times + [now])[..|times|] == times;
    RetryOnBucket(limit, SoloBucket(limit, times).value, now);
  }

  /** A caller told to wait 59 seconds who is denied again after 59 seconds. */
  lemma RetryTooEarly(caller: string)
    ensures var trace := Calls(caller, [0, SECOND / 2, SECOND / 2 + 59 * SECOND]);
      && Monotone(Times(trace)) && Next(trace, 1, 2)
      && Answer(1, true, trace, 1) == Denied(59)
      && Answer(1, true, trace, 2).Denied?
  {
    var times := [0, SECOND / 2, SECOND / 2 + 59 * SECOND];
    TimesOfCalls(caller, times);
    assert times[..1] == [0] && times[..2] == [0, SECOND / 2];
    CallsAnswered(1, caller, times, 1);
    CallsAnswered(1, caller, times, 2);
    assert [0][..0] == [] && [0, SECOND / 2][..1] == [0];
    assert SoloBucket(1, [0]) == Some(Bucket(0, 1));
    assert SoloBucket(1, [0, SECOND / 2]) == Some(Bucket(0, 1));
  }

  /** `n` requests at one instant. */
  function Burst(now: int, n: nat): seq<int> {
    seq(n, _ => now)
  }

  lemma AtOnce(limit: int, times: seq<int>, now: int, ws: int, c: int)
    requires 1 <= c <= limit && now - ws < MINUTE && SoloBucket(limit, times) == Some(Bucket(ws, c))
    ensures SoloAnswer(limit, times, now).Allowed? <==> c < limit
    ensures SoloBucket(limit, times + [now]) == Some(Bucket(ws, if c < limit then c + 1 else limit))
  {
    assert (times + [now])[..|times|] == times;
  }

  lemma {:induction false} BurstAtOnce(limit: int, times: seq<int>, now: int, n: nat, ws: int, c: int)
    requires 1 <= c <= limit && now - ws < MINUTE && SoloBucket(limit, times) == Some(Bucket(ws, c))
    ensures SoloBucket(limit, times + Burst(now, n)) == Some(Bucket(ws, if c + n <= limit then c + n else limit))
  {
    if n == 0 {
      assert times + Burst(now, 0) == times;
    } else {
      BurstAtOnce(limit, times, now, n - 1, ws, c);
      assert times + Burst(now, n) == times + Burst(now, n - 1) + [now];
      AtOnce(limit, times + Burst(now, n - 1), now, ws, if c + n - 1 <= limit then c + n - 1 else limit);
    }
  }

  /** The remaining count is how many more requests the same instant admits. */
  lemma RemainingIsExact(limit: int, times: seq<int>, now: int, n: nat)
    requires limit > 0 && Monotone(times) && (times != [] ==> times[|times| - 1] <= now)
    requires SoloAnswer(limit, times, now).Allowed?
    ensures SoloAnswer(limit, times + [now] + Burst(now, n), now).Allowed?
       <==> n < SoloAnswer(limit, times, now).remaining
    ensures var b, b' := SoloBucket(limit, times + [now]), SoloBucket(limit, times + [now] + Burst(now, n));
      && b.Some? && b'.Some? && b'.value.windowStart == b.value.windowStart
      && b'.value.count == if b.value.count + n <= limit then b.value.count + n else limit
  {
    assert (times + [now])[..|times|] == times;
    SoloBucketShape(limit, times);
    var b := Serve(limit, SoloBucket(limit, times), now).1;
    BurstAtOnce(limit, times + [now], now, n, b.windowStart, b.count);
    AtOnce(limit, times + [now] + Burst(now, n), now, b.windowStart,
           if b.count + n <= limit then b.count + n else limit);
  }

  /** How many requests of a single caller between `a` and `b` are admitted. */
  function Admitted(limit: int, times: seq<int>, a: int, b: int): nat {
    if times == [] then 0 else
      var init, now := times[..|times| - 1], times[|times| - 1];
      Admitted(limit, init, a, b)
      + if a <= now < b && !SoloAnswer(limit, init, now).Denied? then 1 else 0
  }

  /** The windows that can have opened between `a` and `ws`. */
  function WindowsSince(a: int, ws: int): int {
    (ws - a) / MINUTE
  }

  /**
   * What `n` admissions since `a` say about the bucket: before the span nothing counts, the window
   * open at its start has spent one request before it, and each window opened since pays one limit.
   */
  ghost predicate PaidFor(limit: int, a: int, n: int, bucket: Bucket, last: int) {
    if last < a then n == 0
    else if bucket.windowStart < a then n < bucket.count
    else n <= limit - 1 + WindowsSince(a, bucket.windowStart) * limit + bucket.count
  }

  lemma TimesLimit(limit: int, j: int, j': int)
    requires limit > 0 && j <= j'
    ensures j * limit <= j' * limit && (j + 1) * limit == j * limit + limit
    ensures j >= 0 ==> j * limit >= 0
  {
    var d := j' - j;
    assert d * limit >= 0;
    assert j' * limit == j * limit + d * limit;
  }

  lemma PaidForNext(limit: int, a: int, n: int, bucket: Bucket, last: int, now: int)
    requires limit > 0 && last <= now && 1 <= bucket.count <= limit && bucket.windowStart <= last
    requires PaidFor(limit, a, n, bucket, last)
    ensures var (d, bucket') := Serve(limit, Some(bucket), now);
      PaidFor(limit, a, n + if a <= now && !d.Denied? then 1 else 0, bucket', now)
  {
    if a <= now && WindowOver(Some(bucket), now) {
      TimesLimit(limit, 0, WindowsSince(a, now));
      if a <= bucket.windowStart {
        var j := WindowsSince(a, bucket.windowStart);
        assert j + 1 <= WindowsSince(a, now);
        TimesLimit(limit, j + 1, WindowsSince(a, now));
        TimesLimit(limit, j, j + 1);
      }
    }
  }

  lemma {:induction false} AdmittedSoFar(limit: int, times: seq<int>, a: int, b: int)
    requires limit > 0 && Monotone(times)
    requires times != [] && times[|times| - 1] < b
    ensures PaidFor(limit, a, Admitted(limit, times, a, b), SoloBucket(limit, times).value, times[|times| - 1])
  {
    var init, now := times[..|times| - 1], times[|times| - 1];
    if init == [] {
      if a <= now {
        TimesLimit(limit, 0, WindowsSince(a, now));
      }
    } else {
      assert times[|init| - 1] <= now;
      AdmittedSoFar(limit, init, a, b);
      SoloBucketShape(limit, init);
      PaidForNext(limit, a, Admitted(limit, init, a, b), SoloBucket(limit, init).value, init[|init| - 1], now);
    }
  }

  /** The most requests of one caller that a half-open span of `k` minutes can admit. */
  function MostAdmitted(limit: int, k: nat): int {
    if k == 0 then 0 else (k + 1) * limit - 1
  }

  lemma PaidForWithin(limit: int, a: int, k: nat, n: int, bucket: Bucket, last: int)
    requires limit > 0 && PaidFor(limit, a, n, bucket, last)
    requires bucket.windowStart <= last < a + k * MINUTE && bucket.count <= limit
    ensures n <= MostAdmitted(limit, k)
  {
    TimesLimit(limit, 0, k);
    TimesLimit(limit, k, k + 1);
    if a <= bucket.windowStart {
      var j := WindowsSince(a, bucket.windowStart);
      assert j < k;
      TimesLimit(limit, j + 1, k);
      TimesLimit(limit, j, k);
    }
  }

  lemma {:induction false} SlidingBoundSolo(limit: int, times: seq<int>, a: int, k: nat)
    requires limit > 0 && Monotone(times)
    ensures Admitted(limit, times, a, a + k * MINUTE) <= MostAdmitted(limit, k)
  {
    var b := a + k * MINUTE;
    if times == [] {
      TimesLimit(limit, 1, k + 1);
    } else if times[|times| - 1] < b {
      AdmittedSoFar(limit, times, a, b);
      SoloBucketShape(limit, times);
      PaidForWithin(limit, a, k, Admitted(limit, times, a, b), SoloBucket(limit, times).value, times[|times| - 1]);
    } else {
      SlidingBoundSolo(limit, times[..|times| - 1], a, k);
    }
  }

  /** How many requests of `caller` between `a` and `b` the shared limiter admits. */
  function AdmittedOf(limit: int, trace: seq<Request>, caller: string, a: int, b: int): nat {
    if trace == [] then 0 else
      var last := trace[|trace| - 1];
      AdmittedOf(limit, trace[..|trace| - 1], caller, a, b)
      + if last.caller == caller && a <= last.now < b && !Answer(limit, true, trace, |trace| - 1).Denied?
        then 1 else 0
  }

  lemma AdmittedSnoc(limit: int, times: seq<int>, now: int, a: int, b: int)
    ensures Admitted(limit, times + [now], a, b)
         == Admitted(limit, times, a, b) + if a <= now < b && !SoloAnswer(limit, times, now).Denied? then 1 else 0
    ensures SoloBucket(limit, times + [now]) == Some(Serve(limit, SoloBucket(limit, times), now).1)
  {
    assert (times + [now])[..|times|] == times;
  }

  lemma {:induction false} AdmittedAsIfAlone(limit: int, trace: seq<Request>, caller: string, a: int, b: int)
    requires limit > 0 && Monotone(Times(trace))
    ensures AdmittedOf(limit, trace, caller, a, b) == Admitted(limit, TimesOf(trace, caller), a, b)
  {
    if trace == [] {
    } else {
      var init, last := trace[..|trace| - 1], trace[|trace| - 1];
      assert Times(init) == Times(trace)[..|trace| - 1];
      AdmittedAsIfAlone(limit, init, caller, a, b);
      if last.caller == caller {
        CallersIndependent(limit, true, trace, |trace| - 1);
        AdmittedSnoc(limit, TimesOf(init, caller), last.now, a, b);
      } else {
        assert TimesOf(trace, caller) == TimesOf(init, caller);
      }
    }
  }

  /** No span of `k` minutes admits more requests of a caller, whatever the others do. */
  lemma SlidingBound(limit: int, trace: seq<Request>, caller: string, a: int, k: nat)
    requires limit > 0 && Monotone(Times(trace))
    ensures AdmittedOf(limit, trace, caller, a, a + k * MINUTE) <= MostAdmitted(limit, k)
  {
    AdmittedAsIfAlone(limit, trace, caller, a, a + k * MINUTE);
    TimesOfMonotone(trace, caller);
    SlidingBoundSolo(limit, TimesOf(trace, caller), a, k);
  }

  /** One early request, the rest of the first window's limit at its end, then `k` full windows. */
  function WorstCase(limit: nat, k: nat): seq<int>
    requires limit > 0
  {
    if k == 0 then [0] + Burst(MINUTE - 1, limit - 1)
    else WorstCase(limit, k - 1) + Burst(k * MINUTE, limit)
  }

  /** One more request in an open window that is not full. */
  lemma OneMoreAdmitted(limit: int, times: seq<int>, now: int, a: int, b: int, ws: int, c: int)
    requires a <= now < b && now - ws < MINUTE && c < limit
    requires SoloBucket(limit, times) == Some(Bucket(ws, c))
    ensures SoloBucket(limit, times + [now]) == Some(Bucket(ws, c + 1))
    ensures Admitted(limit, times + [now], a, b) == Admitted(limit, times, a, b) + 1
  {
    AdmittedSnoc(limit, times, now, a, b);
  }

  lemma NewWindowAdmitted(limit: int, times: seq<int>, now: int, a: int, b: int)
    requires a <= now < b && WindowOver(SoloBucket(limit, times), now)
    ensures SoloBucket(limit, times + [now]) == Some(Bucket(now, 1))
    ensures Admitted(limit, times + [now], a, b) == Admitted(limit, times, a, b) + 1
  {
    AdmittedSnoc(limit, times, now, a, b);
  }

  lemma BurstSplits(times: seq<int>, now: int, n: nat)
    requires n > 0
    ensures times + Burst(now, n) == times + Burst(now, n - 1) + [now]
  {
  }

  lemma BurstStarts(times: seq<int>, now: int, n: nat)
    requires n > 0
    ensures times + Burst(now, n) == times + [now] + Burst(now, n - 1)
  {
  }

  lemma {:induction false} BurstAdmitted(limit: nat, times: seq<int>, now: int, n: nat, a: int, b: int, ws: int, c: nat)
    requires limit > 0 && a <= now < b
    requires SoloBucket(limit, times) == Some(Bucket(ws, c)) && now - ws < MINUTE && c + n <= limit
    ensures SoloBucket(limit, times + Burst(now, n)) == Some(Bucket(ws, c + n))
    ensures Admitted(limit, times + Burst(now, n), a, b) == Admitted(limit, times, a, b) + n
  {
    if n == 0 {
      assert times + Burst(now, 0) == times;
    } else {
      var t := times + Burst(now, n - 1);
      BurstAdmitted(limit, times, now, n - 1, a, b, ws, c);
      OneMoreAdmitted(limit, t, now, a, b, ws, c + n - 1);
      BurstSplits(times, now, n);
    }
  }

  lemma FirstCall(limit: int, now: int)
    ensures SoloBucket(limit, [now]) == Some(Bucket(now, 1))
  {
    assert [now][..0] == [];
  }

  lemma BurstFills(limit: nat, now: int)
    requires limit > 0
    ensures SoloBucket(limit, Burst(now, limit)) == Some(Bucket(now, limit))
  {
    FirstCall(limit, now);
    BurstAtOnce(limit, [now], now, limit - 1, now, 1);
    assert [now] + Burst(now, limit - 1) == Burst(now, limit);
  }

  lemma {:induction false} BurstMonotone(times: seq<int>, now: int, n: nat)
    requires Monotone(times) && (times != [] ==> times[|times| - 1] <= now)
    ensures Monotone(times + Burst(now, n))
  {
    if n == 0 {
      assert times + Burst(now, 0) == times;
    } else {
      BurstMonotone(times, now, n - 1);
      assert times + Burst(now, n) == times + Burst(now, n - 1) + [now];
      MonotoneSnoc(times + Burst(now, n - 1), now);
    }
  }

  /** A full burst at `now`, after the window of a full bucket is over, opens a window and fills it. */
  lemma FullWindowAdmitted(limit: nat, times: seq<int>, now: int, a: int, b: int)
    requires limit > 0 && a <= now < b
    requires SoloBucket(limit, times).Some? && now - SoloBucket(limit, times).value.windowStart >= MINUTE
    ensures SoloBucket(limit, times + Burst(now, limit)) == Some(Bucket(now, limit))
    ensures Admitted(limit, times + Burst(now, limit), a, b) == Admitted(limit, times, a, b) + limit
  {
    NewWindowAdmitted(limit, times, now, a, b);
    BurstAdmitted(limit, times + [now], now, limit - 1, a, b, now, 1);
    BurstStarts(times, now, limit);
  }

  lemma FirstWindowAdmits(limit: nat, b: int)
    requires limit > 0 && MINUTE - 1 < b
    ensures SoloBucket(limit, WorstCase(limit, 0)) == Some(Bucket(0, limit))
    ensures Admitted(limit, WorstCase(limit, 0), MINUTE - 1, b) == limit - 1
  {
    AdmittedSnoc(limit, [], 0, MINUTE - 1, b);
    assert [] + [0] == [0];
    BurstAdmitted(limit, [0], MINUTE - 1, limit - 1, MINUTE - 1, b, 0, 1);
  }

  lemma NextWindowAdmits(limit: nat, times: seq<int>, k: nat, b: int)
    requires limit > 0 && k > 0 && k * MINUTE < b
    requires SoloBucket(limit, times) == Some(Bucket((k - 1) * MINUTE, limit))
    requires Admitted(limit, times, MINUTE - 1, b) == k * limit - 1
    ensures SoloBucket(limit, times + Burst(k * MINUTE, limit)) == Some(Bucket(k * MINUTE, limit))
    ensures Admitted(limit, times + Burst(k * MINUTE, limit), MINUTE - 1, b) == (k + 1) * limit - 1
  {
    FullWindowAdmitted(limit, times, k * MINUTE, MINUTE - 1, b);
    TimesLimit(limit, k, k + 1);
  }

  lemma {:induction false} WorstCaseAdmits(limit: nat, k: nat, b: int)
    requires limit > 0 && MINUTE - 1 < b && k * MINUTE < b
    ensures SoloBucket(limit, WorstCase(limit, k)) == Some(Bucket(k * MINUTE, limit))
    ensures Admitted(limit, WorstCase(limit, k), MINUTE - 1, b) == (k + 1) * limit - 1
  {
    if k == 0 {
      FirstWindowAdmits(limit, b);
    } else {
      WorstCaseAdmits(limit, k - 1, b);
      NextWindowAdmits(limit, WorstCase(limit, k - 1), k, b);
    }
  }

  lemma {:induction false} WorstCaseMonotone(limit: nat, k: nat)
    requires limit > 0
    ensures var t := WorstCase(limit, k);
      t != [] && Monotone(t) && t[|t| - 1] <= if k == 0 then MINUTE - 1 else k * MINUTE
  {
    if k == 0 {
      BurstMonotone([0], MINUTE - 1, limit - 1);
    } else {
      WorstCaseMonotone(limit, k - 1);
      BurstMonotone(WorstCase(limit, k - 1), k * MINUTE, limit);
    }
  }

  lemma {:induction false} NoneInEmptySpan(limit: int, times: seq<int>, a: int)
    ensures Admitted(limit, times, a, a) == 0
  {
    if times == [] {
    } else {
      NoneInEmptySpan(limit, times[..|times| - 1], a);
    }
  }

  lemma WorstCaseReachesBound(limit: nat, k: nat)
    requires limit > 0
    ensures Admitted(limit, WorstCase(limit, k), MINUTE - 1, MINUTE - 1 + k * MINUTE) == MostAdmitted(limit, k)
  {
    if k == 0 {
      NoneInEmptySpan(limit, WorstCase(limit, k), MINUTE - 1);
    } else {
      WorstCaseAdmits(limit, k, MINUTE - 1 + k * MINUTE);
    }
  }

  lemma CallsAdmitted(limit: nat, caller: string, times: seq<int>, a: int, b: int)
    requires limit > 0 && Monotone(times)
    ensures Monotone(Times(Calls(caller, times)))
    ensures AdmittedOf(limit, Calls(caller, times), caller, a, b) == Admitted(limit, times, a, b)
  {
    TimesOfCalls(caller, times);
    AdmittedAsIfAlone(limit, Calls(caller, times), caller, a, b);
  }

  /** The bound is reached, for every caller, every limit and every number of minutes. */
  lemma SlidingBoundReached(limit: nat, caller: string, k: nat)
    requires limit > 0
    ensures var trace, a := Calls(caller, WorstCase(limit, k)), MINUTE - 1;
      && Monotone(Times(trace))
      && AdmittedOf(limit, trace, caller, a, a + k * MINUTE) == MostAdmitted(limit, k)
  {
    WorstCaseMonotone(limit, k);
    WorstCaseReachesBound(limit, k);
    CallsAdmitted(limit, caller, WorstCase(limit, k), MINUTE - 1, MINUTE - 1 + k * MINUTE);
  }

  lemma DeniedAlone(limit: nat, times: seq<int>, now: int, wait: nat)
    requires SoloBucket(limit, times) == Some(Bucket(now, limit))
    ensures SoloAnswer(limit, times, now + wait)
         == if wait >= 60_000_000_000 then Allowed(Max(limit - 1, 0))
            else Denied(if wait <= 59_000_000_000 then (60_000_000_000 - wait) / 1_000_000_000 else 1)
  {
  }

  /** A caller that used up its limit at once is denied for exactly one minute, and told what is left of it. */
  lemma DeniedForAMinute(limit: nat, caller: string, now: int, wait: nat)
    requires limit > 0
    ensures var trace := Calls(caller, Burst(now, limit) + [now + wait]);
      && Monotone(Times(trace))
      && var answer := Answer(limit, true, trace, limit);
         if wait < 60_000_000_000
         then answer == Denied(if wait <= 59_000_000_000 then (60_000_000_000 - wait) / 1_000_000_000 else 1)
         else answer == Allowed(limit - 1)
  {
    var times := Burst(now, limit) + [now + wait];
    BurstMonotone([], now, limit);
    assert [] + Burst(now, limit) == Burst(now, limit);
    MonotoneSnoc(Burst(now, limit), now + wait);
    TimesOfCalls(caller, times);
    CallsAnswered(limit, caller, times, limit);
    assert times[..limit] == Burst(now, limit);
    BurstFills(limit, now);
    DeniedAlone(limit, Burst(now, limit), now, wait);
  }
}
