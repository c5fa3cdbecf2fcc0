/** What the limiter allows, in the terms it is configured in: requests per minute and a burst. */
module RateLaws {
  import opened Base
  import opened RateLimit

  /** The burst, or what one minute allows where no burst is given. */
  function AtOnce(ratePerMinute: int, burst: Option<int>): int {
    match burst
    case Some(n) => n
    case None => ratePerMinute
  }

  lemma LimitsAre(ratePerMinute: int, burst: Option<int>)
    requires ratePerMinute > 0
    ensures var lim := LimitsFor(ratePerMinute, burst);
      && lim.capacity == AtOnce(ratePerMinute, burst) as real && lim.refillPerSecond == ratePerMinute as real / 60.0
      && Sound(lim)
  {}

  // ------------------------------------------------------------------------------------------
  // All at once.

  function Times(k: nat, t: real): seq<real> {
    seq(k, _ => t)
  }

  lemma {:induction false} LevelAfterMany(lim: Limits, k: nat, t: real)
    requires lim.capacity >= 0.0
    ensures k as real <= lim.capacity ==> LevelAt(lim, Times(k, t), t) == lim.capacity - k as real
    ensures k as real > lim.capacity ==> LevelAt(lim, Times(k, t), t) < 1.0
  {
    if k == 0 {
    } else {
      LevelAfterMany(lim, k - 1, t);
      assert Times(k, t) == Times(k - 1, t) + [t];
      LevelGrows(lim, Times(k - 1, t), t, t);
    }
  }

  /**
   * A key that has not asked before and asks again and again at one instant is admitted exactly as
   * often as the burst says, or the rate per minute where there is none, whatever others do.
   */
  lemma BurstsAreAdmittedExactly(ratePerMinute: int, burst: Option<int>, history: seq<Request>, key: string,
                                 t: real, k: nat)
    requires ratePerMinute > 0 && (burst.Some? ==> burst.value >= 0)
    requires InOrder(history, t) && AskTimes(history, key) == seq(k, _ => t)
    ensures var lim := LimitsFor(ratePerMinute, burst);
      Refilled(lim, Get(Buckets(lim, history), key), t).tokens >= 1.0 <==>
      k < match burst { case Some(n) => n case None => ratePerMinute }
  {
    var lim := LimitsFor(ratePerMinute, burst);
    LimitsAre(ratePerMinute, burst);
    OnlyOwnRequestsCount(lim, history, key, t);
    assert AskTimes(history, key) == Times(k, t);
    LevelAfterMany(lim, k, t);
  }

  // ------------------------------------------------------------------------------------------
  // Over time.

  lemma {:induction false} LevelsStayPositive(lim: Limits, times: seq<real>, now: real)
    requires Sound(lim) && lim.capacity >= 0.0 && Asked(times, now)
    ensures LevelAt(lim, times, now) >= 0.0
  {
    if times == [] {
    } else {
      var n := |times| - 1;
      var init, t := times[..n], times[n];
      assert times == init + [t];
      LevelsStayPositive(lim, init, t);
      LevelGrows(lim, init, t, now);
      EarningsGrow(lim, t, t, now);
    }
  }

  lemma EarnedInMinutes(ratePerMinute: int, burst: Option<int>, from: real, to: real, minutes: real)
    requires ratePerMinute > 0 && to - from <= 60.0 * minutes
    ensures Earned(LimitsFor(ratePerMinute, burst), from, to) <= minutes * ratePerMinute as real
  {
    var lim := LimitsFor(ratePerMinute, burst);
    LimitsAre(ratePerMinute, burst);
    EarningsGrow(lim, from, to, from + 60.0 * minutes);
    SixtySeconds(ratePerMinute as real, minutes);
  }

  lemma SixtySeconds(r: real, minutes: real)
    ensures 60.0 * minutes * (r / 60.0) == minutes * r
  {
    assert r / 60.0 * 60.0 == r;
    assert 60.0 * minutes * (r / 60.0) == minutes * (60.0 * (r / 60.0));
  }

  /** In so many minutes no more are admitted than the burst, and the rate for each minute. */
  lemma MinutesAreBounded(ratePerMinute: int, burst: Option<int>, times: seq<real>, now: real, j: nat, minutes: real)
    requires ratePerMinute > 0 && (burst.Some? ==> burst.value >= 0) && Asked(times, now) && j < |times|
    requires now - times[j] <= 60.0 * minutes
    ensures AdmittedSince(LimitsFor(ratePerMinute, burst), times, j) as real <=
      (match burst { case Some(n) => n case None => ratePerMinute }) as real + minutes * ratePerMinute as real
  {
    var lim := LimitsFor(ratePerMinute, burst);
    LimitsAre(ratePerMinute, burst);
    LevelIsBelowWindows(lim, times, now, j);
    LevelsStayPositive(lim, times, now);
    EarnedInMinutes(ratePerMinute, burst, times[j], now, minutes);
  }

  predicate SpacedBy(times: seq<real>, gap: real) {
    forall i | 0 < i < |times| :: times[i] - times[i - 1] >= gap
  }

  lemma EarnedInAGap(ratePerMinute: int, burst: Option<int>, from: real, to: real)
    requires ratePerMinute > 0 && to - from >= 60.0 / ratePerMinute as real
    ensures Earned(LimitsFor(ratePerMinute, burst), from, to) >= 1.0
  {
    var lim, gap := LimitsFor(ratePerMinute, burst), 60.0 / ratePerMinute as real;
    LimitsAre(ratePerMinute, burst);
    EarningsGrow(lim, from, from + gap, to);
    OneToken(ratePerMinute as real);
  }

  lemma OneToken(r: real)
    requires r > 0.0
    ensures 60.0 / r * (r / 60.0) == 1.0
  {
    assert 60.0 / r * r == 60.0;
    assert 60.0 / r * (r / 60.0) == 60.0 / r * r / 60.0;
  }

  /** Whoever spaces its requests by the minute over the rate is never refused, if one request fits at all. */
  lemma {:induction false} SpacedRequestsAreNeverRefused(ratePerMinute: int, burst: Option<int>, times: seq<real>,
                                                         now: real)
    requires ratePerMinute > 0 && (burst.Some? ==> burst.value >= 1)
    requires SpacedBy(times + [now], 60.0 / ratePerMinute as real)
    ensures LevelAt(LimitsFor(ratePerMinute, burst), times, now) >= 1.0
  {
    var lim := LimitsFor(ratePerMinute, burst);
    LimitsAre(ratePerMinute, burst);
    if times == [] {
    } else {
      var n := |times| - 1;
      var init, t := times[..n], times[n];
      assert times == init + [t] && (times + [now])[n] == t && (times + [now])[n + 1] == now;
      assert SpacedBy(init + [t], 60.0 / ratePerMinute as real) by {
        assert forall i | 0 <= i <= n :: (init + [t])[i] == (times + [now])[i];
      }
      SpacedRequestsAreNeverRefused(ratePerMinute, burst, init, t);
      EarnedInAGap(ratePerMinute, burst, t, now);
      GapsArePositive(ratePerMinute);
      LevelGrows(lim, init, t, now);
    }
  }

  lemma GapsArePositive(ratePerMinute: int)
    requires ratePerMinute > 0
    ensures 60.0 / ratePerMinute as real > 0.0
  {}

  // ------------------------------------------------------------------------------------------
  // Clocks and headers.

  /** Reading a bucket takes nothing from it, even by a clock that has gone backwards. */
  lemma RefillingTakesNothing(lim: Limits, level: Level, now: real)
    requires Sound(lim) && level.tokens <= lim.capacity
    ensures Refilled(lim, Some(level), now).tokens >= level.tokens
    ensures now <= level.updatedAt ==> Refilled(lim, Some(level), now).tokens == level.tokens
    ensures Refilled(lim, Some(level), now).tokens <= lim.capacity && Refilled(lim, Some(level), now).updatedAt == now
  {
    EarningsGrow(lim, 0.0, 0.0, Max(0.0, now - level.updatedAt));
  }

  /** The header is the least whole number of seconds above the wait. */
  lemma HeadersAreTheNextSecond(wait: real)
    requires wait >= 0.0
    ensures RetryHeader(wait) >= 1 && wait < RetryHeader(wait) as real <= wait + 1.0
  {}
}
