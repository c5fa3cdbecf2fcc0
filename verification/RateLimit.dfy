/** The in-process token bucket: app/security/ratelimit.py, with real arithmetic and the clock as a parameter. */
module RateLimit {
  import opened Base

  /** Tokens held when last read, and when that was. */
  datatype Level = Level(tokens: real, updatedAt: real)

  datatype Limits = Limits(capacity: real, refillPerSecond: real)

  predicate Sound(lim: Limits) {
    lim.refillPerSecond > 0.0
  }

  function Min(a: real, b: real): real {
    if a <= b then a else b
  }

  function Max(a: real, b: real): real {
    if a >= b then a else b
  }

  /** What a bucket earns between two readings. */
  function Earned(lim: Limits, from: real, to: real): real {
    (to - from) * lim.refillPerSecond
  }

  lemma EarningsAdd(lim: Limits, a: real, b: real, c: real)
    ensures Earned(lim, a, b) + Earned(lim, b, c) == Earned(lim, a, c)
  {}

  lemma EarningsGrow(lim: Limits, a: real, b: real, c: real)
    requires Sound(lim)
    ensures b <= c <==> Earned(lim, a, b) <= Earned(lim, a, c)
  {
    EarningsAdd(lim, a, b, c);
    if b < c {
      assert (c - b) * lim.refillPerSecond > 0.0;
    } else if c < b {
      assert (b - c) * lim.refillPerSecond > 0.0;
      EarningsAdd(lim, a, c, b);
    }
  }

  /** Topping up for the time passed; a bucket never seen before starts full. */
  function Refilled(lim: Limits, level: Option<Level>, now: real): Level {
    match level
    case None => Level(lim.capacity, now)
    case Some(l) => Level(Min(lim.capacity, l.tokens + Earned(lim, 0.0, Max(0.0, now - l.updatedAt))), now)
  }

  function Admits(level: Level): bool {
    level.tokens >= 1.0
  }

  function Spent(level: Level): Level {
    if Admits(level) then level.(tokens := level.tokens - 1.0) else level
  }

  function Wait(lim: Limits, level: Level): real
    requires Sound(lim)
  {
    if Admits(level) then 0.0 else (1.0 - level.tokens) / lim.refillPerSecond
  }

  /** The burst, or the rate where none is given, and the rate by the second. */
  function LimitsFor(ratePerMinute: int, burst: Option<int>): Limits {
    Limits(if burst.Some? then burst.value as real else ratePerMinute as real, ratePerMinute as real / 60.0)
  }

  class Bucket {
    var tokens: real
    var updatedAt: real

    constructor (tokens: real, updatedAt: real)
      ensures Read() == Level(tokens, updatedAt)
    {
      this.tokens, this.updatedAt := tokens, updatedAt;
    }

    function Read(): Level
      reads this
    {
      Level(tokens, updatedAt)
    }
  }

  class TokenBucketRateLimiter {
    const limits: Limits
    var buckets: map<string, Bucket>

    /** No bucket serves two keys. */
    ghost predicate Valid()
      reads this
    {
      Sound(limits) && forall k, l :: k in buckets && l in buckets && k != l ==> buckets[k] != buckets[l]
    }

    ghost function View(): map<string, Level>
      reads this, buckets.Values
    {
      map k | k in buckets :: buckets[k].Read()
    }

    constructor (ratePerMinute: int, burst: Option<int>)
      requires ratePerMinute > 0
      ensures Valid() && View() == map[]
      ensures limits == LimitsFor(ratePerMinute, burst)
    {
      var capacity := if burst.Some? then burst.value else ratePerMinute;
      limits := Limits(capacity as real, ratePerMinute as real / 60.0);
      buckets := map[];
    }

    /** Refuses a rate that is not positive. */
    static method Configured(ratePerMinute: int, burst: Option<int>) returns (limiter: Option<TokenBucketRateLimiter>)
      ensures limiter.Some? <==> ratePerMinute > 0
      ensures limiter.Some? ==> fresh(limiter.value) && limiter.value.Valid() && limiter.value.View() == map[]
      ensures limiter.Some? ==> limiter.value.limits == LimitsFor(ratePerMinute, burst)
    {
      if ratePerMinute <= 0 {
        return None;
      }
      var made := new TokenBucketRateLimiter(ratePerMinute, burst);
      limiter := Some(made);
    }

    method Refill(key: string, now: real) returns (bucket: Bucket)
      requires Valid()
      modifies this, buckets.Values
      ensures Valid() && key in buckets && bucket == buckets[key]
      ensures fresh(buckets.Values - old(buckets.Values))
      ensures View() == old(View())[key := Refilled(limits, Get(old(View()), key), now)]
    {
      if key !in buckets {
        bucket := new Bucket(limits.capacity, now);
        buckets := buckets[key := bucket];
        return;
      }
      bucket := buckets[key];
      var elapsed := Max(0.0, now - bucket.updatedAt);
      bucket.tokens := Min(limits.capacity, bucket.tokens + elapsed * limits.refillPerSecond);
      bucket.updatedAt := now;
    }

    method Allow(key: string, now: real) returns (admitted: bool)
      requires Valid()
      modifies this, buckets.Values
      ensures Valid() && fresh(buckets.Values - old(buckets.Values))
      ensures admitted == Admits(Refilled(limits, Get(old(View()), key), now))
      ensures View() == old(View())[key := Spent(Refilled(limits, Get(old(View()), key), now))]
    {
      var bucket := Refill(key, now);
      assert bucket.Read() == View()[key];
      if bucket.tokens < 1.0 {
        return false;
      }
      bucket.tokens := bucket.tokens - 1.0;
      admitted := true;
    }

    method RetryAfter(key: string, now: real) returns (wait: real)
      requires Valid()
      modifies this, buckets.Values
      ensures Valid() && fresh(buckets.Values - old(buckets.Values))
      ensures wait == Wait(limits, Refilled(limits, Get(old(View()), key), now))
      ensures View() == old(View())[key := Refilled(limits, Get(old(View()), key), now)]
    {
      var bucket := Refill(key, now);
      assert bucket.Read() == View()[key];
      if bucket.tokens >= 1.0 {
        return 0.0;
      }
      wait := (1.0 - bucket.tokens) / limits.refillPerSecond;
    }
  }

  function Get<K, V>(m: map<K, V>, k: K): Option<V> {
    if k in m then Some(m[k]) else None
  }

  // ------------------------------------------------------------------------------------------
  // One caller: the closed form.

  predicate NonDecreasing(times: seq<real>) {
    forall i, j :: 0 <= i < j < |times| ==> times[i] <= times[j]
  }

  /** The bucket of a caller after asking at each of `times`. */
  function After(lim: Limits, times: seq<real>): Option<Level> {
    if times == [] then None
    else Some(Spent(Refilled(lim, After(lim, times[..|times| - 1]), times[|times| - 1])))
  }

  /** The refilled level a request at `now` finds. */
  function LevelAt(lim: Limits, times: seq<real>, now: real): real {
    Refilled(lim, After(lim, times), now).tokens
  }

  /** How many of the requests from number `j` on were admitted. */
  function AdmittedSince(lim: Limits, times: seq<real>, j: nat): nat {
    if j >= |times| then 0
    else
      var n := |times| - 1;
      AdmittedSince(lim, times[..n], j) + if LevelAt(lim, times[..n], times[n]) >= 1.0 then 1 else 0
  }

  /** What request `j` leaves of capacity plus refill at `now`; for `j` the current request, the capacity. */
  function WindowLeft(lim: Limits, times: seq<real>, now: real, j: nat): real
    requires j <= |times|
  {
    if j == |times| then lim.capacity
    else lim.capacity + Earned(lim, times[j], now) - AdmittedSince(lim, times, j) as real
  }

  /** One for an admitted request, zero for a refused one. */
  function Cost(lim: Limits, times: seq<real>, now: real): real {
    if LevelAt(lim, times, now) >= 1.0 then 1.0 else 0.0
  }

  lemma WindowGrows(lim: Limits, times: seq<real>, t: real, now: real, j: nat)
    requires j <= |times|
    ensures WindowLeft(lim, times + [t], now, j) ==
      WindowLeft(lim, times, t, j) + Earned(lim, t, now) - Cost(lim, times, t)
  {
    var longer := times + [t];
    assert longer[..|times|] == times;
    assert AdmittedSince(lim, longer, j) as real == AdmittedSince(lim, times, j) as real + Cost(lim, times, t);
    if j < |times| {
      EarningsAdd(lim, times[j], t, now);
    } else {
      assert AdmittedSince(lim, times, j) == 0;
    }
  }

  lemma AfterSnoc(lim: Limits, times: seq<real>, t: real)
    ensures After(lim, times + [t]) == Some(Spent(Refilled(lim, After(lim, times), t)))
  {
    assert (times + [t])[..|times|] == times;
  }

  lemma SpendingThenRefilling(lim: Limits, level: Level, now: real)
    requires level.updatedAt <= now
    ensures Refilled(lim, Some(Spent(level)), now).tokens ==
      Min(lim.capacity, level.tokens - (if Admits(level) then 1.0 else 0.0) + Earned(lim, level.updatedAt, now))
  {
    assert Earned(lim, level.updatedAt, now) == Earned(lim, 0.0, now - level.updatedAt);
  }

  lemma LevelGrows(lim: Limits, times: seq<real>, t: real, now: real)
    requires t <= now
    ensures LevelAt(lim, times + [t], now) ==
      Min(lim.capacity, LevelAt(lim, times, t) - Cost(lim, times, t) + Earned(lim, t, now))
  {
    AfterSnoc(lim, times, t);
    SpendingThenRefilling(lim, Refilled(lim, After(lim, times), t), now);
  }

  /** A window that bounds the level goes on bounding it. */
  lemma WindowsStayAbove(lim: Limits, times: seq<real>, t: real, now: real, j: nat)
    requires t <= now && j <= |times| && LevelAt(lim, times, t) <= WindowLeft(lim, times, t, j)
    ensures LevelAt(lim, times + [t], now) <= WindowLeft(lim, times + [t], now, j)
    ensures LevelAt(lim, times, t) == WindowLeft(lim, times, t, j) && LevelAt(lim, times + [t], now) != lim.capacity ==>
      LevelAt(lim, times + [t], now) == WindowLeft(lim, times + [t], now, j)
  {
    LevelGrows(lim, times, t, now);
    WindowGrows(lim, times, t, now, j);
  }

  lemma LevelsFit(lim: Limits, times: seq<real>, now: real)
    ensures LevelAt(lim, times, now) <= lim.capacity
  {}

  predicate Asked(times: seq<real>, now: real) {
    NonDecreasing(times) && (times != [] ==> times[|times| - 1] <= now)
  }

  /** No window ending now has less left than the level. */
  lemma {:induction false} LevelIsBelowWindows(lim: Limits, times: seq<real>, now: real, j: nat)
    requires Asked(times, now) && j <= |times|
    ensures LevelAt(lim, times, now) <= WindowLeft(lim, times, now, j)
  {
    LevelsFit(lim, times, now);
    if j < |times| {
      var init, t := times[..|times| - 1], times[|times| - 1];
      assert times == init + [t];
      LevelIsBelowWindows(lim, init, t, j);
      WindowsStayAbove(lim, init, t, now, j);
    }
  }

  /** Some window ending now has exactly the level left. */
  lemma {:induction false} LevelMeetsAWindow(lim: Limits, times: seq<real>, now: real) returns (least: nat)
    requires Asked(times, now)
    ensures least <= |times| && LevelAt(lim, times, now) == WindowLeft(lim, times, now, least)
  {
    least := |times|;
    if LevelAt(lim, times, now) != lim.capacity {
      var init, t := times[..|times| - 1], times[|times| - 1];
      assert times == init + [t];
      least := LevelMeetsAWindow(lim, init, t);
      WindowsStayAbove(lim, init, t, now, least);
    }
  }

  /** The level is the least of the windows ending now. */
  lemma LevelIsLeastWindow(lim: Limits, times: seq<real>, now: real) returns (least: nat)
    requires Asked(times, now)
    ensures forall j :: 0 <= j <= |times| ==> LevelAt(lim, times, now) <= WindowLeft(lim, times, now, j)
    ensures least <= |times| && LevelAt(lim, times, now) == WindowLeft(lim, times, now, least)
  {
    forall j | 0 <= j <= |times|
      ensures LevelAt(lim, times, now) <= WindowLeft(lim, times, now, j)
    {
      LevelIsBelowWindows(lim, times, now, j);
    }
    least := LevelMeetsAWindow(lim, times, now);
  }

  /** With one more admission now, the window that request `j` opened still holds capacity plus refill. */
  predicate WindowHolds(lim: Limits, times: seq<real>, now: real, j: nat)
    requires j < |times|
  {
    AdmittedSince(lim, times, j) as real + 1.0 <= lim.capacity + Earned(lim, times[j], now)
  }

  /**
   * A request is admitted exactly when, with it, every window ending now stays within capacity plus
   * rate times length: the limiter never lets too much through and never refuses without need.
   */
  lemma AdmittedExactlyWithinAllWindows(lim: Limits, times: seq<real>, now: real)
    requires Asked(times, now)
    ensures LevelAt(lim, times, now) >= 1.0 <==>
      lim.capacity >= 1.0 && forall j :: 0 <= j < |times| ==> WindowHolds(lim, times, now, j)
  {
    var least := LevelIsLeastWindow(lim, times, now);
    assert LevelAt(lim, times, now) <= WindowLeft(lim, times, now, |times|);
    if LevelAt(lim, times, now) >= 1.0 {
      forall j | 0 <= j < |times|
        ensures WindowHolds(lim, times, now, j)
      {
        assert LevelAt(lim, times, now) <= WindowLeft(lim, times, now, j);
      }
    } else if least < |times| {
      assert !WindowHolds(lim, times, now, least);
    }
  }

  // ------------------------------------------------------------------------------------------
  // Waiting.

  lemma RefillsCompose(lim: Limits, level: Option<Level>, t: real, now: real)
    requires Sound(lim) && t <= now && (level.Some? ==> level.value.updatedAt <= t)
    ensures Refilled(lim, Some(Refilled(lim, level, t)), now) == Refilled(lim, level, now)
  {
    EarningsGrow(lim, 0.0, 0.0, now - t);
    if level.Some? {
      var u := level.value.updatedAt;
      assert Earned(lim, 0.0, t - u) + Earned(lim, 0.0, now - t) == Earned(lim, 0.0, now - u);
    }
  }

  /** Whether a request `d` seconds after this reading is admitted. */
  predicate AdmitsLater(lim: Limits, level: Level, d: real) {
    Admits(Refilled(lim, Some(level), level.updatedAt + d))
  }

  lemma WaitIsEarned(lim: Limits, level: Level)
    requires Sound(lim)
    ensures Wait(lim, level) >= 0.0
    ensures !Admits(level) ==> level.tokens + Earned(lim, 0.0, Wait(lim, level)) == 1.0
  {
    if !Admits(level) {
      EarningsGrow(lim, 0.0, 0.0, Wait(lim, level));
    }
  }

  lemma WaitIsEnough(lim: Limits, level: Level, d: real)
    requires Sound(lim) && level.tokens <= lim.capacity && lim.capacity >= 1.0 && d >= 0.0
    ensures AdmitsLater(lim, level, d) <==> d >= Wait(lim, level)
  {
    WaitIsEarned(lim, level);
    EarningsGrow(lim, 0.0, Wait(lim, level), d);
    EarningsGrow(lim, 0.0, 0.0, d);
  }

  /** When the reported wait tells the truth for every delay: exactly when one request fits at all. */
  lemma WaitIsExactIffCapacity(lim: Limits, level: Level)
    requires Sound(lim) && level.tokens <= lim.capacity
    ensures lim.capacity >= 1.0 <==>
      forall d: real | d >= 0.0 :: AdmitsLater(lim, level, d) <==> d >= Wait(lim, level)
  {
    if lim.capacity >= 1.0 {
      forall d: real | d >= 0.0
        ensures AdmitsLater(lim, level, d) <==> d >= Wait(lim, level)
      {
        WaitIsEnough(lim, level, d);
      }
    } else {
      WaitIsEarned(lim, level);
      assert !AdmitsLater(lim, level, Wait(lim, level));
    }
  }

  /** The whole seconds put into the response header. */
  function RetryHeader(wait: real): int {
    if wait.Floor + 1 >= 1 then wait.Floor + 1 else 1
  }

  /** With a burst of zero the reported wait passes and the request is refused all the same. */
  lemma ABurstOfZeroIsNeverAdmitted(d: real)
    requires d >= 0.0
    ensures var lim := LimitsFor(120, Some(0)); var level := Level(lim.capacity, 0.0);
      Wait(lim, level) == 0.5 && !AdmitsLater(lim, level, d)
  {
    assert LimitsFor(120, Some(0)).refillPerSecond == 2.0;
  }

  /** Waiting as many seconds as the header says always suffices. */
  lemma RetryHeaderSuffices(lim: Limits, level: Level)
    requires Sound(lim) && level.tokens <= lim.capacity && lim.capacity >= 1.0
    ensures RetryHeader(Wait(lim, level)) >= 1
    ensures AdmitsLater(lim, level, RetryHeader(Wait(lim, level)) as real)
  {
    WaitIsEnough(lim, level, RetryHeader(Wait(lim, level)) as real);
  }

  // ------------------------------------------------------------------------------------------
  // Many callers and polls.

  datatype Request = Ask(key: string, now: real) | Poll(key: string, now: real)

  /** All buckets after a history of requests and polls. */
  function Buckets(lim: Limits, history: seq<Request>): map<string, Level> {
    if history == [] then map[]
    else
      var before, r := Buckets(lim, history[..|history| - 1]), history[|history| - 1];
      var level := Refilled(lim, Get(before, r.key), r.now);
      before[r.key := if r.Ask? then Spent(level) else level]
  }

  /** The times at which `key` asked, polls and other keys left out. */
  function AskTimes(history: seq<Request>, key: string): seq<real> {
    if history == [] then []
    else
      var r := history[|history| - 1];
      AskTimes(history[..|history| - 1], key) + if r.Ask? && r.key == key then [r.now] else []
  }

  predicate InOrder(history: seq<Request>, now: real) {
    && (forall i, j :: 0 <= i < j < |history| ==> history[i].now <= history[j].now)
    && forall i :: 0 <= i < |history| ==> history[i].now <= now
  }

  lemma {:induction false} BucketsAreUpToDate(lim: Limits, history: seq<Request>, key: string, now: real)
    requires InOrder(history, now)
    ensures key in Buckets(lim, history) ==> Buckets(lim, history)[key].updatedAt <= now
  {
    if history == [] {
    } else {
      var n := |history| - 1;
      BucketsAreUpToDate(lim, history[..n], key, now);
    }
  }

  lemma {:induction false} AskTimesAreOrdered(lim: Limits, history: seq<Request>, key: string, now: real)
    requires InOrder(history, now)
    ensures NonDecreasing(AskTimes(history, key))
    ensures forall i :: 0 <= i < |AskTimes(history, key)| ==> AskTimes(history, key)[i] <= now
  {
    if history == [] {
    } else {
      var n := |history| - 1;
      AskTimesAreOrdered(lim, history[..n], key, history[n].now);
    }
  }

  /**
   * Polls and other callers, inserted anywhere, change no decision: the level found depends on the
   * caller's own requests only.
   */
  lemma {:induction false} OnlyOwnRequestsCount(lim: Limits, history: seq<Request>, key: string, now: real)
    requires Sound(lim) && InOrder(history, now)
    ensures Refilled(lim, Get(Buckets(lim, history), key), now).tokens == LevelAt(lim, AskTimes(history, key), now)
  {
    if history == [] {
    } else {
      var n := |history| - 1;
      var init, r := history[..n], history[n];
      var full, times := Get(Buckets(lim, init), key), AskTimes(init, key);
      assert times + [] == times;
      if r.key != key {
        OnlyOwnRequestsCount(lim, init, key, now);
      } else {
        BucketsAreUpToDate(lim, init, key, r.now);
        if r.Poll? {
          OnlyOwnRequestsCount(lim, init, key, now);
          RefillsCompose(lim, full, r.now, now);
        } else {
          OnlyOwnRequestsCount(lim, init, key, r.now);
          assert AskTimes(history, key)[..|times|] == times;
          assert Refilled(lim, full, r.now) == Refilled(lim, After(lim, times), r.now);
        }
      }
    }
  }

  /** From request number `n` on, `key` was admitted nowhere in the history. */
  predicate NotAdmittedFrom(lim: Limits, history: seq<Request>, key: string, n: nat) {
    forall i :: n <= i < |history| && history[i] == Ask(key, history[i].now) ==>
      !Admits(Refilled(lim, Get(Buckets(lim, history[..i]), key), history[i].now))
  }

  lemma NotAdmittedBefore(lim: Limits, history: seq<Request>, key: string, n: nat)
    requires history != [] && NotAdmittedFrom(lim, history, key, n)
    ensures NotAdmittedFrom(lim, history[..|history| - 1], key, n)
  {
    var init := history[..|history| - 1];
    assert forall i :: 0 <= i < |init| ==> init[..i] == history[..i] && init[i] == history[i];
  }

  /** While a key is not admitted, its bucket only ever refills. */
  lemma {:induction false} UnadmittedBucketsRefill(lim: Limits, history: seq<Request>, key: string, n: nat, now: real)
    requires Sound(lim) && InOrder(history, now) && n <= |history| && key in Buckets(lim, history[..n])
    requires NotAdmittedFrom(lim, history, key, n)
    ensures key in Buckets(lim, history)
    ensures Refilled(lim, Get(Buckets(lim, history), key), now) ==
      Refilled(lim, Get(Buckets(lim, history[..n]), key), now)
  {
    var m := |history| - 1;
    if n == |history| {
      assert history[..n] == history;
    } else {
      var init, r := history[..m], history[m];
      assert init[..n] == history[..n];
      NotAdmittedBefore(lim, history, key, n);
      UnadmittedBucketsRefill(lim, init, key, n, now);
      if r.key == key {
        BucketsAreUpToDate(lim, init, key, r.now);
        RefillsCompose(lim, Get(Buckets(lim, init), key), r.now, now);
      }
    }
  }

  /**
   * The promise of `retry_after` in a history: unless the key is admitted in between, a request `d`
   * seconds after the poll is admitted exactly when `d` is at least the reported wait.
   */
  lemma ReportedWaitsAreExact(lim: Limits, before: seq<Request>, key: string, t: real, between: seq<Request>, d: real)
    requires Sound(lim) && lim.capacity >= 1.0 && d >= 0.0
    requires InOrder(before + [Poll(key, t)] + between, t + d)
    requires NotAdmittedFrom(lim, before + [Poll(key, t)] + between, key, |before| + 1)
    ensures var polled := Refilled(lim, Get(Buckets(lim, before), key), t);
      var found := Refilled(lim, Get(Buckets(lim, before + [Poll(key, t)] + between), key), t + d);
      Admits(found) <==> d >= Wait(lim, polled)
  {
    var history, n := before + [Poll(key, t)] + between, |before| + 1;
    assert history[..n] == before + [Poll(key, t)] && history[..n][..n - 1] == before;
    UnadmittedBucketsRefill(lim, history, key, n, t + d);
    WaitIsEnough(lim, Buckets(lim, history[..n])[key], d);
  }
}
