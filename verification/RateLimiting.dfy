/** The in-memory token-bucket limiter with its sweep (services/limiter.py). */
module RateLimiting {
  import opened Prelude

  datatype Settings = Settings(maxTokens: nat, windowSecs: nat, refillRate: real)

  /** Both settings are clamped to at least one, and a whole window refills a whole bucket. */
  predicate ValidSettings(p: Settings) {
    && p.maxTokens >= 1 && p.windowSecs >= 1
    && p.refillRate > 0.0 && p.refillRate * p.windowSecs as real == p.maxTokens as real
  }

  datatype Bucket = Bucket(tokens: real, lastSeen: real)

  type Buckets = map<string, Bucket>

  datatype Verdict = Verdict(allowed: bool, remaining: int, limit: int, resetAt: int, retryAfter: Option<int>)

  function MakeSettings(maxRequests: int, windowSecs: int): (p: Settings)
    ensures ValidSettings(p)
    ensures p.maxTokens == AtLeastOne(maxRequests) && p.windowSecs == AtLeastOne(windowSecs)
    ensures p.refillRate == p.maxTokens as real / p.windowSecs as real
  {
    var max, window := AtLeastOne(maxRequests), AtLeastOne(windowSecs);
    Settings(max, window, max as real / window as real)
  }

  /** What a bucket earns in `elapsed` seconds. */
  function Gain(p: Settings, elapsed: real): (r: real)
    requires ValidSettings(p)
    ensures elapsed >= 0.0 ==> r >= 0.0
  {
    elapsed * p.refillRate
  }

  lemma GainSplits(p: Settings, a: real, b: real)
    requires ValidSettings(p)
    ensures Gain(p, a + b) == Gain(p, a) + Gain(p, b)
  {
  }

  // ---- The operations on values ----

  predicate Idle(p: Settings, b: Bucket, now: real) {
    now - b.lastSeen >= (p.windowSecs * 2) as real
  }

  function Sweep(p: Settings, m: Buckets, now: real): Buckets {
    map k | k in m && !Idle(p, m[k], now) :: m[k]
  }

  /** The bucket as `check` finds it at `now`: full when unknown, else refilled for the time since it was last seen. */
  function Refilled(p: Settings, m: Buckets, key: string, now: real): Bucket
    requires ValidSettings(p)
  {
    if key !in m then Bucket(p.maxTokens as real, now)
    else
      var b := m[key];
      var elapsed := now - b.lastSeen;
      Bucket(if elapsed > 0.0 then Min(p.maxTokens as real, b.tokens + Gain(p, elapsed)) else b.tokens, now)
  }

  function Spend(p: Settings, b: Bucket, wall: int): (Bucket, Verdict)
    requires ValidSettings(p)
  {
    var resetAt := wall + p.windowSecs;
    if b.tokens >= 1.0 then
      var left := b.(tokens := b.tokens - 1.0);
      (left, Verdict(true, left.tokens.Floor, p.maxTokens, resetAt, None))
    else
      var needed := Ceil((1.0 - b.tokens) / p.refillRate);
      (b, Verdict(false, 0, p.maxTokens, resetAt, Some(if needed < 1 then 1 else needed)))
  }

  /** A check that never sweeps: the reference. */
  function CheckUnswept(p: Settings, m: Buckets, key: string, now: real, wall: int): (Buckets, Verdict)
    requires ValidSettings(p)
  {
    var (b, v) := Spend(p, Refilled(p, m, key, now), wall);
    (m[key := b], v)
  }

  /** The check as implemented: sweep everything idle, then the same. */
  function Check(p: Settings, m: Buckets, key: string, now: real, wall: int): (Buckets, Verdict)
    requires ValidSettings(p)
  {
    CheckUnswept(p, Sweep(p, m, now), key, now, wall)
  }

  /** The object itself. */
  class TokenBucketLimiter {
    const p: Settings
    var buckets: Buckets

    constructor (maxRequests: int, windowSecs: int)
      ensures p == MakeSettings(maxRequests, windowSecs) && ValidSettings(p) && buckets == map[]
    {
      p := MakeSettings(maxRequests, windowSecs);
      buckets := map[];
    }

    method SweepExpired(now: real)
      modifies this
      ensures buckets == Sweep(p, old(buckets), now)
    {
      var expired := set k | k in buckets && Idle(p, buckets[k], now);
      ghost var all := expired;
      while expired != {}
        invariant expired <= all
        invariant buckets == old(buckets) - (all - expired)
        decreases expired
      {
        var key :| key in expired;
        buckets := buckets - {key};
        expired := expired - {key};
      }
    }

    method CheckKey(key: string, now: real, wall: int) returns (v: Verdict)
      requires ValidSettings(p)
      modifies this
      ensures (buckets, v) == Check(p, old(buckets), key, now, wall)
    {
      SweepExpired(now);
      var bucket;
      if key !in buckets {
        bucket := Bucket(p.maxTokens as real, now);
      } else {
        bucket := buckets[key];
        var elapsed := now - bucket.lastSeen;
        if elapsed > 0.0 {
          bucket := bucket.(tokens := Min(p.maxTokens as real, bucket.tokens + Gain(p, elapsed)));
        }
        bucket := bucket.(lastSeen := now);
      }
      assert bucket == Refilled(p, buckets, key, now);
      bucket, v := Consume(bucket, wall);
      buckets := buckets[key := bucket];
    }

    method Consume(found: Bucket, wall: int) returns (bucket: Bucket, v: Verdict)
      requires ValidSettings(p)
      ensures (bucket, v) == Spend(p, found, wall)
    {
      bucket := found;
      var resetAt := wall + p.windowSecs;
      if bucket.tokens >= 1.0 {
        bucket := bucket.(tokens := bucket.tokens - 1.0);
        return bucket, Verdict(true, bucket.tokens.Floor, p.maxTokens, resetAt, None);
      }
      var secondsNeeded := (1.0 - bucket.tokens) / p.refillRate;
      var needed := Ceil(secondsNeeded);
      return bucket, Verdict(false, 0, p.maxTokens, resetAt, Some(if needed < 1 then 1 else needed));
    }
  }

  // ---- Runs ----

  datatype Call = Call(key: string, now: real, wall: int)

  ghost predicate Ordered(calls: seq<Call>) {
    forall i, j :: 0 <= i < j < |calls| ==> calls[i].now <= calls[j].now
  }

  /** The table after a run of checks, and the answer to the last of them. */
  function After(p: Settings, calls: seq<Call>): Buckets
    requires ValidSettings(p)
    decreases |calls|
  {
    if calls == [] then map[] else LastCheck(p, calls).0
  }

  function LastCheck(p: Settings, calls: seq<Call>): (Buckets, Verdict)
    requires ValidSettings(p) && calls != []
    decreases |calls|, 0
  {
    var c := calls[|calls| - 1];
    Check(p, After(p, calls[..|calls| - 1]), c.key, c.now, c.wall)
  }

  /** The same for a limiter that never sweeps. */
  function AfterUnswept(p: Settings, calls: seq<Call>): Buckets
    requires ValidSettings(p)
    decreases |calls|
  {
    if calls == [] then map[] else LastCheckUnswept(p, calls).0
  }

  function LastCheckUnswept(p: Settings, calls: seq<Call>): (Buckets, Verdict)
    requires ValidSettings(p) && calls != []
    decreases |calls|, 0
  {
    var c := calls[|calls| - 1];
    CheckUnswept(p, AfterUnswept(p, calls[..|calls| - 1]), c.key, c.now, c.wall)
  }

  ghost predicate BucketsOk(p: Settings, m: Buckets, now: real) {
    forall k :: k in m ==> 0.0 <= m[k].tokens <= p.maxTokens as real && m[k].lastSeen <= now
  }

  // ---- Sweeping changes nothing ----

  /** The swept table agrees with the unswept one, except that it may have lost buckets idle for two windows. */
  ghost predicate Mirrors(p: Settings, m: Buckets, u: Buckets, now: real) {
    && (forall k :: k in m ==> k in u && m[k] == u[k])
    && (forall k :: k in u && k !in m ==> Idle(p, u[k], now))
  }

  lemma RefillOverWindow(p: Settings, elapsed: real)
    requires ValidSettings(p) && elapsed >= p.windowSecs as real
    ensures Gain(p, elapsed) >= p.maxTokens as real
  {
    var w := p.windowSecs as real;
    GainSplits(p, w, elapsed - w);
    assert Gain(p, w) == p.maxTokens as real;
  }

  /** A bucket idle for two windows is full again, exactly like a bucket that was never there. */
  lemma IdleIsFull(p: Settings, u: Buckets, key: string, now: real)
    requires ValidSettings(p) && key in u && u[key].tokens >= 0.0 && Idle(p, u[key], now)
    ensures Refilled(p, u, key, now) == Bucket(p.maxTokens as real, now)
  {
    RefillOverWindow(p, now - u[key].lastSeen);
  }

  lemma SweepInvisible(p: Settings, m: Buckets, u: Buckets, key: string, before: real, now: real, wall: int)
    requires ValidSettings(p) && Mirrors(p, m, u, before) && BucketsOk(p, u, before) && before <= now
    ensures var (m', v), (u', w) := Check(p, m, key, now, wall), CheckUnswept(p, u, key, now, wall);
            v == w && Mirrors(p, m', u', now)
  {
    var swept := Sweep(p, m, now);
    assert Mirrors(p, swept, u, now);
    if key !in swept && key in u {
      IdleIsFull(p, u, key, now);
    }
    assert Refilled(p, swept, key, now) == Refilled(p, u, key, now);
  }

  lemma CheckKeepsOk(p: Settings, m: Buckets, key: string, before: real, now: real, wall: int)
    requires ValidSettings(p) && BucketsOk(p, m, before) && before <= now
    ensures BucketsOk(p, CheckUnswept(p, m, key, now, wall).0, now)
  {
    var b := Refilled(p, m, key, now);
    assert 0.0 <= b.tokens <= p.maxTokens as real by {
      if key in m {
        assert Gain(p, now - m[key].lastSeen) >= 0.0;
      }
    }
  }

  ghost function EndTime(calls: seq<Call>): real {
    if calls == [] then 0.0 else calls[|calls| - 1].now
  }

  lemma {:induction false} RunMirrors(p: Settings, calls: seq<Call>, now: real)
    requires ValidSettings(p) && Ordered(calls) && forall i :: 0 <= i < |calls| ==> calls[i].now <= now
    ensures BucketsOk(p, AfterUnswept(p, calls), now)
    ensures Mirrors(p, After(p, calls), AfterUnswept(p, calls), now)
    ensures calls != [] ==> LastCheck(p, calls).1 == LastCheckUnswept(p, calls).1
    decreases |calls|
  {
    if calls != [] {
      var init, c := calls[..|calls| - 1], calls[|calls| - 1];
      RunMirrors(p, init, c.now);
      CheckKeepsOk(p, AfterUnswept(p, init), c.key, c.now, c.now, c.wall);
      SweepInvisible(p, After(p, init), AfterUnswept(p, init), c.key, c.now, c.now, c.wall);
    }
  }

  /** On every sequence of checks over any keys with nondecreasing time, the sweeping limiter answers exactly what a
      limiter that never sweeps would. */
  lemma SweepingRefines(p: Settings, calls: seq<Call>)
    requires ValidSettings(p) && Ordered(calls)
    ensures forall n :: 0 < n <= |calls| ==> LastCheck(p, calls[..n]).1 == LastCheckUnswept(p, calls[..n]).1
  {
    forall n | 0 < n <= |calls|
      ensures LastCheck(p, calls[..n]).1 == LastCheckUnswept(p, calls[..n]).1
    {
      RunMirrors(p, calls[..n], calls[n - 1].now);
    }
  }

  // ---- How many checks can be allowed in an interval ----

  ghost function Counts(c: Call, v: Verdict, key: string, s: real, e: real): nat {
    if c.key == key && s <= c.now <= e && v.allowed then 1 else 0
  }

  /** The number of allowed checks of `key` between `s` and `e`. */
  ghost function AllowedIn(p: Settings, calls: seq<Call>, key: string, s: real, e: real): nat
    requires ValidSettings(p)
    decreases |calls|
  {
    if calls == [] then 0
    else AllowedIn(p, calls[..|calls| - 1], key, s, e)
         + Counts(calls[|calls| - 1], LastCheckUnswept(p, calls).1, key, s, e)
  }

  /** What `key` could spend at `now`. */
  ghost function Available(p: Settings, m: Buckets, key: string, now: real): real
    requires ValidSettings(p)
  {
    Refilled(p, m, key, now).tokens
  }

  lemma AvailableGrows(p: Settings, m: Buckets, key: string, t: real, now: real)
    requires ValidSettings(p) && BucketsOk(p, m, t) && t <= now
    ensures Available(p, m, key, now) <= Available(p, m, key, t) + Gain(p, now - t)
    ensures Available(p, m, key, now) <= p.maxTokens as real
  {
    if key in m {
      GainSplits(p, t - m[key].lastSeen, now - t);
      assert t - m[key].lastSeen + (now - t) == now - m[key].lastSeen;
    }
  }

  lemma AvailableAfter(p: Settings, m: Buckets, c: Call, key: string, t: real)
    requires ValidSettings(p) && BucketsOk(p, m, t) && t <= c.now
    ensures var (m', v) := CheckUnswept(p, m, c.key, c.now, c.wall);
            Available(p, m', key, c.now)
            == Available(p, m, key, c.now) - (if c.key == key && v.allowed then 1.0 else 0.0)
  {
  }

  /** Allowed checks so far plus what could be spent now stay within a full bucket plus what was earned since `s`. */
  ghost predicate WithinBudget(p: Settings, n: nat, available: real, s: real, now: real)
    requires ValidSettings(p)
  {
    n as real + available <= p.maxTokens as real + Gain(p, now - s)
  }

  lemma BudgetGrows(p: Settings, n: nat, available: real, available': real, s: real, t: real, now: real)
    requires ValidSettings(p) && WithinBudget(p, n, available, s, t) && available' <= available + Gain(p, now - t)
    ensures WithinBudget(p, n, available', s, now)
  {
    GainSplits(p, t - s, now - t);
    assert t - s + (now - t) == now - s;
  }

  lemma BudgetMonotone(p: Settings, a: real, b: real)
    requires ValidSettings(p) && a <= b
    ensures Gain(p, a) <= Gain(p, b)
  {
    GainSplits(p, a, b - a);
    assert a + (b - a) == b;
  }

  /** One more check at `c.now`, given the budget before it. */
  lemma BudgetStep(p: Settings, init: seq<Call>, c: Call, key: string, s: real, e: real)
    requires ValidSettings(p) && Ordered(init + [c]) && s <= c.now <= e
    requires init != [] && s <= EndTime(init) ==>
               WithinBudget(p, AllowedIn(p, init, key, s, e), Available(p, AfterUnswept(p, init), key, EndTime(init)),
                            s, EndTime(init))
    requires init == [] || EndTime(init) < s ==> AllowedIn(p, init, key, s, e) == 0
    ensures var calls := init + [c];
            WithinBudget(p, AllowedIn(p, calls, key, s, e), Available(p, AfterUnswept(p, calls), key, c.now), s, c.now)
  {
    var calls := init + [c];
    assert calls[..|calls| - 1] == init && calls[|calls| - 1] == c;
    var m, t := AfterUnswept(p, init), if init == [] then c.now else EndTime(init);
    assert t <= c.now by {
      assert init != [] ==> calls[|init| - 1] == init[|init| - 1];
    }
    assert Ordered(init) by {
      assert forall i :: 0 <= i < |init| ==> init[i] == calls[i];
    }
    RunMirrors(p, init, t);
    AvailableGrows(p, m, key, t, c.now);
    AvailableAfter(p, m, c, key, t);
    var n := AllowedIn(p, init, key, s, e);
    if init != [] && s <= t {
      BudgetGrows(p, n, Available(p, m, key, t), Available(p, m, key, c.now), s, t, c.now);
    }
    assert WithinBudget(p, n, Available(p, m, key, c.now), s, c.now);
  }

  lemma AllowedSnoc(p: Settings, init: seq<Call>, c: Call, key: string, s: real, e: real)
    requires ValidSettings(p)
    ensures AllowedIn(p, init + [c], key, s, e)
         == AllowedIn(p, init, key, s, e) + Counts(c, LastCheckUnswept(p, init + [c]).1, key, s, e)
  {
    assert (init + [c])[..|init|] == init;
  }

  /** What is known of the allowed checks of `key` between `s` and `e` after a run. */
  ghost predicate BudgetKept(p: Settings, calls: seq<Call>, key: string, s: real, e: real)
    requires ValidSettings(p)
  {
    var n := AllowedIn(p, calls, key, s, e);
    && n as real <= p.maxTokens as real + Gain(p, e - s)
    && (calls == [] || EndTime(calls) < s ==> n == 0)
    && (calls != [] && s <= EndTime(calls) <= e ==>
          WithinBudget(p, n, Available(p, AfterUnswept(p, calls), key, EndTime(calls)), s, EndTime(calls)))
  }

  lemma BudgetKeptInside(p: Settings, init: seq<Call>, c: Call, key: string, s: real, e: real)
    requires ValidSettings(p) && Ordered(init + [c]) && s <= c.now <= e && BudgetKept(p, init, key, s, e)
    requires init != [] ==> EndTime(init) <= c.now
    ensures BudgetKept(p, init + [c], key, s, e)
  {
    var calls := init + [c];
    BudgetStep(p, init, c, key, s, e);
    BudgetMonotone(p, c.now - s, e - s);
    RunMirrors(p, calls, c.now);
    AvailableNonnegative(p, AfterUnswept(p, calls), key, c.now);
  }

  lemma {:induction false} IntervalBound(p: Settings, calls: seq<Call>, key: string, s: real, e: real)
    requires ValidSettings(p) && Ordered(calls) && s <= e
    ensures BudgetKept(p, calls, key, s, e)
    decreases |calls|
  {
    if calls == [] {
      assert Gain(p, e - s) >= 0.0;
    } else {
      var init, c := calls[..|calls| - 1], calls[|calls| - 1];
      assert calls == init + [c];
      assert init != [] ==> EndTime(init) <= c.now;
      IntervalBound(p, init, key, s, e);
      if s <= c.now <= e {
        BudgetKeptInside(p, init, c, key, s, e);
      } else {
        AllowedSnoc(p, init, c, key, s, e);
      }
    }
  }

  lemma AvailableNonnegative(p: Settings, m: Buckets, key: string, now: real)
    requires ValidSettings(p) && BucketsOk(p, m, now)
    ensures Available(p, m, key, now) >= 0.0
  {
  }

  ghost function AllowedBySweeping(p: Settings, calls: seq<Call>, key: string, s: real, e: real): nat
    requires ValidSettings(p)
    decreases |calls|
  {
    if calls == [] then 0
    else AllowedBySweeping(p, calls[..|calls| - 1], key, s, e)
         + Counts(calls[|calls| - 1], LastCheck(p, calls).1, key, s, e)
  }

  lemma {:induction false} SameCounts(p: Settings, calls: seq<Call>, key: string, s: real, e: real)
    requires ValidSettings(p) && Ordered(calls)
    ensures AllowedBySweeping(p, calls, key, s, e) == AllowedIn(p, calls, key, s, e)
    decreases |calls|
  {
    if calls != [] {
      SameCounts(p, calls[..|calls| - 1], key, s, e);
      RunMirrors(p, calls, calls[|calls| - 1].now);
    }
  }

  /** For every run, key and interval, the implemented limiter allows at most a full bucket plus what refills
      meanwhile. */
  lemma AllowedAtMost(p: Settings, calls: seq<Call>, key: string, s: real, e: real)
    requires ValidSettings(p) && Ordered(calls) && s <= e
    ensures AllowedBySweeping(p, calls, key, s, e) as real
         <= p.maxTokens as real + Gain(p, e - s)
  {
    SameCounts(p, calls, key, s, e);
    IntervalBound(p, calls, key, s, e);
  }

  // ---- retry_after ----

  /** Checks of other keys leave a bucket alone. */
  lemma {:induction false} OthersLeaveKeyAlone(p: Settings, calls: seq<Call>, from: nat, until: nat, key: string)
    requires ValidSettings(p) && from <= until <= |calls| && forall i :: from <= i < until ==> calls[i].key != key
    requires key in AfterUnswept(p, calls[..from])
    ensures key in AfterUnswept(p, calls[..until])
    ensures AfterUnswept(p, calls[..until])[key] == AfterUnswept(p, calls[..from])[key]
    decreases until - from
  {
    if from < until {
      OthersLeaveKeyAlone(p, calls, from, until - 1, key);
      assert calls[..until][..until - 1] == calls[..until - 1];
    }
  }

  lemma QuotientBound(x: real, r: real, k: real)
    requires r > 0.0
    ensures k >= x / r <==> k * r >= x
  {
    var q := x / r;
    assert q * r == x;
    if k >= q {
      assert (k - q) * r >= 0.0;
      assert (k - q) * r == k * r - q * r;
    } else {
      assert (q - k) * r > 0.0;
      assert (q - k) * r == q * r - k * r;
    }
  }

  /** How many whole seconds a bucket short of a token needs. */
  lemma RetryArithmetic(p: Settings, tokens: real, k: nat)
    requires ValidSettings(p) && 0.0 <= tokens < 1.0
    ensures tokens + Gain(p, k as real) >= 1.0 <==> k >= Ceil((1.0 - tokens) / p.refillRate)
    ensures Ceil((1.0 - tokens) / p.refillRate) >= 1
  {
    QuotientBound(1.0 - tokens, p.refillRate, k as real);
    QuotientBound(1.0 - tokens, p.refillRate, 0.0);
  }

  /** The same for one bucket: refused at `t`, it is allowed `k` seconds later exactly when `k` reaches the answer. */
  lemma RetryFromBucket(p: Settings, m: Buckets, key: string, t: real, wall: int, later: Buckets, k: nat, wall': int)
    requires ValidSettings(p) && BucketsOk(p, m, t)
    requires var (m', v) := CheckUnswept(p, m, key, t, wall); !v.allowed && key in later && later[key] == m'[key]
    ensures var v := CheckUnswept(p, m, key, t, wall).1;
            && v.retryAfter.Some?
            && (CheckUnswept(p, later, key, t + k as real, wall').1.allowed <==> k >= v.retryAfter.value)
  {
    var b := Refilled(p, m, key, t);
    CheckKeepsOk(p, m, key, t, t, wall);
    assert later[key] == b && 0.0 <= b.tokens < 1.0;
    RetryArithmetic(p, b.tokens, k);
    var b' := Refilled(p, later, key, t + k as real);
    assert t + k as real - t == k as real;
    assert k > 0 ==> b'.tokens == Min(p.maxTokens as real, b.tokens + Gain(p, k as real));
    assert k == 0 ==> b'.tokens == b.tokens;
  }

  /** Check `n` of a run, told without the sweep. */
  lemma AnswersAlike(p: Settings, calls: seq<Call>, n: nat)
    requires ValidSettings(p) && Ordered(calls) && n < |calls|
    ensures var m, c := AfterUnswept(p, calls[..n]), calls[n];
            && BucketsOk(p, m, c.now)
            && LastCheck(p, calls[..n + 1]).1 == CheckUnswept(p, m, c.key, c.now, c.wall).1
            && AfterUnswept(p, calls[..n + 1]) == CheckUnswept(p, m, c.key, c.now, c.wall).0
  {
    RunMirrors(p, calls[..n], calls[n].now);
    RunMirrors(p, calls[..n + 1], calls[n].now);
    assert calls[..n + 1][..n] == calls[..n];
  }

  /** A refused check's `retry_after` is the least whole number of seconds after which that key, left alone while any
      other keys are checked, is allowed again: the next check of the key, `k` seconds after the refused one, is allowed
      exactly when `k` is at least that. */
  lemma RetryAfterIsLeast(p: Settings, calls: seq<Call>, refused: nat, next: nat, k: nat)
    requires ValidSettings(p) && Ordered(calls) && refused < next < |calls|
    requires calls[next].key == calls[refused].key && calls[next].now == calls[refused].now + k as real
    requires forall i :: refused < i < next ==> calls[i].key != calls[refused].key
    requires !LastCheck(p, calls[..refused + 1]).1.allowed
    ensures var v := LastCheck(p, calls[..refused + 1]).1;
            v.retryAfter.Some? && (LastCheck(p, calls[..next + 1]).1.allowed <==> k >= v.retryAfter.value)
  {
    var c, d := calls[refused], calls[next];
    AnswersAlike(p, calls, refused);
    AnswersAlike(p, calls, next);
    OthersLeaveKeyAlone(p, calls, refused + 1, next, c.key);
    RetryFromBucket(p, AfterUnswept(p, calls[..refused]), c.key, c.now, c.wall, AfterUnswept(p, calls[..next]), k,
                    d.wall);
  }

  // ---- remaining ----

  function Copies(c: Call, k: nat): seq<Call> {
    seq(k, _ => c)
  }

  lemma CopiesSnoc(calls: seq<Call>, c: Call, k: nat)
    ensures calls + Copies(c, k + 1) == (calls + Copies(c, k)) + [c]
  {
  }

  /** What `k` more checks at the same instant leave of a bucket with `tokens` in it. */
  ghost function Left(tokens: real, k: nat): real {
    if k <= tokens.Floor then tokens - k as real else tokens - tokens.Floor as real
  }

  /** One check, at the instant the bucket was last seen. */
  lemma CheckNow(p: Settings, calls: seq<Call>, c: Call)
    requires ValidSettings(p) && c.key in AfterUnswept(p, calls) && AfterUnswept(p, calls)[c.key].lastSeen == c.now
    ensures var t := AfterUnswept(p, calls)[c.key].tokens;
            && (LastCheckUnswept(p, calls + [c]).1.allowed <==> t >= 1.0)
            && c.key in AfterUnswept(p, calls + [c])
            && AfterUnswept(p, calls + [c])[c.key] == Bucket(if t >= 1.0 then t - 1.0 else t, c.now)
  {
    assert (calls + [c])[..|calls|] == calls;
  }

  lemma {:induction false} CopiesLeave(p: Settings, calls: seq<Call>, c: Call, k: nat)
    requires ValidSettings(p) && c.key in AfterUnswept(p, calls) && AfterUnswept(p, calls)[c.key].lastSeen == c.now
    requires AfterUnswept(p, calls)[c.key].tokens >= 0.0
    ensures c.key in AfterUnswept(p, calls + Copies(c, k))
    ensures AfterUnswept(p, calls + Copies(c, k))[c.key] == Bucket(Left(AfterUnswept(p, calls)[c.key].tokens, k), c.now)
    decreases k
  {
    if k == 0 {
      assert calls + Copies(c, 0) == calls;
    } else {
      CopiesLeave(p, calls, c, k - 1);
      CopiesSnoc(calls, c, k - 1);
      CheckNow(p, calls + Copies(c, k - 1), c);
    }
  }

  lemma OrderedCopies(calls: seq<Call>, k: nat)
    requires Ordered(calls) && calls != []
    ensures Ordered(calls + Copies(calls[|calls| - 1], k))
  {
  }

  lemma LastBucket(p: Settings, calls: seq<Call>)
    requires ValidSettings(p) && Ordered(calls) && calls != []
    ensures var c, v := calls[|calls| - 1], LastCheck(p, calls).1;
            && c.key in AfterUnswept(p, calls) && AfterUnswept(p, calls)[c.key].lastSeen == c.now
            && AfterUnswept(p, calls)[c.key].tokens >= 0.0 && v.remaining == AfterUnswept(p, calls)[c.key].tokens.Floor
  {
    RunMirrors(p, calls, calls[|calls| - 1].now);
  }

  /** After any check, `remaining` is the number of further checks of the key allowed at the same instant: the `k`-th is
      allowed if and only if `k` is at most that. */
  lemma RemainingIsExact(p: Settings, calls: seq<Call>, k: nat)
    requires ValidSettings(p) && Ordered(calls) && calls != [] && k >= 1
    ensures var v := LastCheck(p, calls).1;
            && (LastCheck(p, calls + Copies(calls[|calls| - 1], k)).1.allowed <==> k <= v.remaining)
            && v.limit == p.maxTokens && v.resetAt == calls[|calls| - 1].wall + p.windowSecs
            && (v.retryAfter.None? <==> v.allowed)
  {
    var c := calls[|calls| - 1];
    var longer := calls + Copies(c, k);
    LastBucket(p, calls);
    CopiesLeave(p, calls, c, k - 1);
    CopiesSnoc(calls, c, k - 1);
    CheckNow(p, calls + Copies(c, k - 1), c);
    OrderedCopies(calls, k);
    RunMirrors(p, longer, c.now);
  }

  // ---- reset_at ----

  lemma {:induction false} SeenAtACheck(p: Settings, calls: seq<Call>, key: string)
    requires ValidSettings(p) && key in AfterUnswept(p, calls)
    ensures exists j :: 0 <= j < |calls| && calls[j].key == key && AfterUnswept(p, calls)[key].lastSeen == calls[j].now
    decreases |calls|
  {
    if calls[|calls| - 1].key != key {
      SeenAtACheck(p, calls[..|calls| - 1], key);
    }
  }

  /** `reset_at` is when a key left alone has a full bucket again: a check of a key that was not checked for a whole
      window, or never, is allowed and leaves one token less than a full bucket. */
  lemma FullAfterAWindow(p: Settings, calls: seq<Call>, n: nat)
    requires ValidSettings(p) && Ordered(calls) && n < |calls|
    requires forall j :: 0 <= j < n && calls[j].key == calls[n].key ==>
               calls[n].now - calls[j].now >= p.windowSecs as real
    ensures LastCheck(p, calls[..n + 1]).1
         == Verdict(true, p.maxTokens - 1, p.maxTokens, calls[n].wall + p.windowSecs, None)
  {
    var c, m := calls[n], AfterUnswept(p, calls[..n]);
    AnswersAlike(p, calls, n);
    if c.key in m {
      SeenAtACheck(p, calls[..n], c.key);
      RefillOverWindow(p, c.now - m[c.key].lastSeen);
    }
    assert Refilled(p, m, c.key, c.now) == Bucket(p.maxTokens as real, c.now);
  }

  // ---- Which keys are held ----

  lemma {:induction false} SeenSinceEveryCheck(p: Settings, calls: seq<Call>, j: nat)
    requires ValidSettings(p) && Ordered(calls) && j < |calls|
    ensures var m, key := AfterUnswept(p, calls), calls[j].key; key in m && m[key].lastSeen >= calls[j].now
    decreases |calls|
  {
    var init := calls[..|calls| - 1];
    if j < |init| && calls[|init|].key != calls[j].key {
      assert forall i :: 0 <= i < |init| ==> init[i] == calls[i];
      SeenSinceEveryCheck(p, init, j);
    }
  }

  /** The sweep bounds the table: after a check it holds exactly the keys checked within the last two windows. */
  lemma HeldExactly(p: Settings, calls: seq<Call>, key: string)
    requires ValidSettings(p) && Ordered(calls) && calls != []
    ensures key in After(p, calls)
            <==> exists j :: 0 <= j < |calls| && calls[j].key == key
                             && calls[|calls| - 1].now - calls[j].now < (2 * p.windowSecs) as real
  {
    var c, m, u := calls[|calls| - 1], After(p, calls), AfterUnswept(p, calls);
    RunMirrors(p, calls, c.now);
    if key in m {
      SeenAtACheck(p, calls, key);
      assert !Idle(p, m[key], c.now);
    }
    if exists j :: 0 <= j < |calls| && calls[j].key == key && c.now - calls[j].now < (2 * p.windowSecs) as real {
      var j :| 0 <= j < |calls| && calls[j].key == key && c.now - calls[j].now < (2 * p.windowSecs) as real;
      SeenSinceEveryCheck(p, calls, j);
      assert !Idle(p, u[key], c.now);
    }
  }
}
