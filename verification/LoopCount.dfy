/** The arithmetic of the loop count: extrapolation in the calibration, and drift correction. */
module LoopCount {
  import opened Prelude

  const LOOP_MAX: int := 1_000_000_000
  const PERIOD_MS: real := 100.0
  const ADAPT_MIN_BUSY_MS: real := 10.0
  const ADAPT_DEADBAND: real := 0.05
  const ADAPT_SMOOTHING: real := 0.5

  function ClampCount(est: real): (r: int)
    ensures 1 <= r <= 1_000_000_000
    ensures est < 1.0 ==> r == 1
    ensures 1.0 <= est < 1_000_000_000.0 ==> r as real <= est < r as real + 1.0
    ensures est >= 1_000_000_000.0 ==> r == 1_000_000_000
  {
    Truncate(Clamp(est, 1.0, LOOP_MAX as real))
  }

  /** What a timed count says about the count for another time. */
  function Extrapolate(count: int, elapsedMs: real, targetMs: real): (r: int)
    ensures 1 <= r <= LOOP_MAX
  {
    if elapsedMs <= 0.0 then LOOP_MAX else ClampCount(count as real * targetMs / elapsedMs)
  }

  /** On a device that takes `t` ms per iteration, extrapolation finds the one right count from
      any other. */
  lemma ExtrapolateLinear(count: int, t: real)
    requires count >= 1 && t > 0.0
    ensures Extrapolate(count, t * count as real, PERIOD_MS) == ClampCount(PERIOD_MS / t)
  {
    hide ClampCount;
    RatioLinear(1.0, count as real, t);
    assert t * count as real > 0.0;
  }

  /** What runs faster never gets the smaller count, and the most if it has taken no time. */
  lemma ExtrapolateFalls(count: int, a: real, b: real, targetMs: real)
    requires count >= 1 && targetMs > 0.0 && a <= b
    ensures Extrapolate(count, a, targetMs) >= Extrapolate(count, b, targetMs)
    ensures a <= 0.0 ==> Extrapolate(count, a, targetMs) == 1_000_000_000
  {
    hide ClampCount;
    if a > 0.0 {
      var n := count as real * targetMs;
      QuotientFalls(n, a, b);
      ClampCountRises(n / b, n / a);
    }
  }

  lemma QuotientFalls(n: real, a: real, b: real)
    requires n > 0.0 && 0.0 < a <= b
    ensures n / b <= n / a
  {
    var x, y := n / a, n / b;
    assert x * a == n == y * b && x > 0.0;
    assert x * b >= x * a;
    assert y > x ==> y * b > x * b;
  }

  lemma ClampCountRises(x: real, y: real)
    requires x <= y
    ensures ClampCount(x) <= ClampCount(y)
  {
  }

  /** A linear device's ratio of target to elapsed time does not depend on the launch. */
  lemma RatioLinear(b: real, c: real, t: real)
    requires b > 0.0 && c > 0.0 && t > 0.0
    ensures t * c > 0.0 && c * PERIOD_MS / b / (t * c) == PERIOD_MS / t / b
  {
  }

  /** A count moved half of the way that a ratio of target to elapsed time tells. */
  function Smoothed(base: int, ratio: real): real {
    base as real * (1.0 + ADAPT_SMOOTHING * (ratio - 1.0))
  }

  /** The corrected loop count after an ALU loop that should have taken `targetMs` and took
      `elapsedMs`. */
  function Corrected(base: int, targetMs: real, elapsedMs: real): (r: int)
    requires 1 <= base <= LOOP_MAX
    ensures 1 <= r <= LOOP_MAX
  {
    if targetMs < ADAPT_MIN_BUSY_MS || elapsedMs <= 0.0 then base
    else
      var ratio := targetMs / elapsedMs;
      if AbsReal(ratio - 1.0) < ADAPT_DEADBAND then base
      else ClampCount(Smoothed(base, ratio))
  }

  /** A launch of less than 10 ms teaches nothing, nor does one whose ALU loop seems to have taken no time. */
  lemma NoLesson(base: int, targetMs: real, elapsedMs: real)
    requires 1 <= base <= LOOP_MAX && (targetMs < 10.0 || elapsedMs <= 0.0)
    ensures Corrected(base, targetMs, elapsedMs) == base
  {
  }

  predicate InDeadband(base: int, truth: real)
    requires base >= 1
  {
    AbsReal(truth / base as real - 1.0) < ADAPT_DEADBAND
  }

  /** One correction on a device whose true count for a period is `truth`: whatever the launch's
      loop count, its ALU loop comes to the same ratio. */
  function CorrectedTowards(base: int, truth: real): (r: int)
    requires 1 <= base <= LOOP_MAX
    ensures 1 <= r <= LOOP_MAX
  {
    if InDeadband(base, truth) then base else ClampCount((base as real + truth) / 2.0)
  }

  lemma CorrectedLinear(base: int, loopCount: int, t: real)
    requires 1 <= base <= LOOP_MAX && loopCount >= 1 && t > 0.0
    requires loopCount as real * PERIOD_MS / base as real >= ADAPT_MIN_BUSY_MS
    ensures Corrected(base, loopCount as real * PERIOD_MS / base as real, t * loopCount as real)
            == CorrectedTowards(base, PERIOD_MS / t)
  {
    RatioLinear(base as real, loopCount as real, t);
    CorrectedByRatio(base, loopCount as real * PERIOD_MS / base as real, t * loopCount as real, PERIOD_MS / t);
  }

  lemma CorrectedByRatio(base: int, targetMs: real, elapsedMs: real, truth: real)
    requires 1 <= base <= LOOP_MAX && targetMs >= ADAPT_MIN_BUSY_MS && elapsedMs > 0.0
    requires targetMs / elapsedMs == truth / base as real
    ensures Corrected(base, targetMs, elapsedMs) == CorrectedTowards(base, truth)
  {
  }

  lemma TimesPositive(x: real, y: real, b: real)
    requires b > 0.0
    ensures x < y <==> x * b < y * b
  {
    if x < y {
      assert (y - x) * b > 0.0;
    } else {
      assert (x - y) * b >= 0.0;
    }
  }

  lemma DeadbandBounds(base: int, truth: real)
    requires base >= 1
    ensures InDeadband(base, truth) <==> AbsReal(truth - base as real) < ADAPT_DEADBAND * base as real
  {
    var b := base as real;
    var q := truth / b;
    assert q * b == truth;
    assert (q - 1.0) * b == truth - b;
    TimesPositive(q - 1.0, ADAPT_DEADBAND, b);
    TimesPositive(-ADAPT_DEADBAND, q - 1.0, b);
  }

  lemma ClampTruncates(est: real)
    requires 1.0 <= est <= LOOP_MAX as real
    ensures est - 1.0 < ClampCount(est) as real <= est
  {
  }

  /** Outside the deadband, a correction leaves at most half of the distance plus one. */
  lemma CorrectionHalves(base: int, truth: real)
    requires 1 <= base <= LOOP_MAX && 1.0 <= truth <= LOOP_MAX as real && !InDeadband(base, truth)
    ensures var next := CorrectedTowards(base, truth) as real;
            && (base as real + truth) / 2.0 - 1.0 < next <= (base as real + truth) / 2.0
            && Left(CorrectedTowards(base, truth), truth) <= Left(base, truth) / 2.0
  {
    hide InDeadband, ClampCount;
    ClampTruncates((base as real + truth) / 2.0);
  }

  /** The gap below the true count. */
  predicate Stuck(base: int, truth: real) {
    truth - 2.0 < base as real <= truth / 1.05
  }

  /** A correction gets nowhere outside the deadband exactly for the counts in that gap. */
  lemma StuckExactly(base: int, truth: real)
    requires 1 <= base <= LOOP_MAX && 1.0 <= truth <= LOOP_MAX as real
    ensures !InDeadband(base, truth) && CorrectedTowards(base, truth) == base
            <==> Stuck(base, truth)
  {
    DeadbandBounds(base, truth);
    hide CorrectedTowards, Left;
    if InDeadband(base, truth) {
      DeadbandKeeps(base, truth);
    } else {
      CorrectionHalves(base, truth);
    }
  }

  function CorrectedTimes(base: int, truth: real, n: nat): (r: int)
    requires 1 <= base <= LOOP_MAX
    ensures 1 <= r <= LOOP_MAX
  {
    if n == 0 then base else CorrectedTowards(CorrectedTimes(base, truth, n - 1), truth)
  }

  /** What a correction may still halve of the distance: all but 2. */
  function Left(base: int, truth: real): real {
    AbsReal(base as real - truth) - 2.0
  }

  lemma PowerOfThirty()
    ensures PowerOfTwo(30) == 1_073_741_824.0
  {
    assert PowerOfTwo(10) == 1024.0;
    assert PowerOfTwo(20) == 1_048_576.0;
  }

  /** As long as the deadband is not reached, what is left of the distance, but for 2, halves every
      time. */
  lemma {:induction false} DistanceHalves(base: int, truth: real, n: nat)
    requires 1 <= base <= LOOP_MAX && 1.0 <= truth <= LOOP_MAX as real
    ensures InDeadband(CorrectedTimes(base, truth, n), truth) ||
            Left(CorrectedTimes(base, truth, n), truth) * PowerOfTwo(n) <= LOOP_MAX as real
  {
    hide CorrectedTowards, InDeadband, Left;
    if n == 0 {
      LeftBounded(base, truth);
    } else {
      DistanceHalves(base, truth, n - 1);
      var before := CorrectedTimes(base, truth, n - 1);
      if InDeadband(before, truth) {
        DeadbandKeeps(before, truth);
      } else {
        CorrectionHalves(before, truth);
        HalvedTimes(Left(before, truth), Left(CorrectedTowards(before, truth), truth), PowerOfTwo(n - 1));
      }
    }
  }

  lemma LeftBounded(base: int, truth: real)
    requires 1 <= base <= LOOP_MAX && 1.0 <= truth <= LOOP_MAX as real
    ensures Left(base, truth) <= LOOP_MAX as real
  {
  }

  lemma DeadbandKeeps(base: int, truth: real)
    requires 1 <= base <= LOOP_MAX && InDeadband(base, truth)
    ensures CorrectedTowards(base, truth) == base
  {
  }

  lemma HalvedTimes(was: real, left: real, p: real)
    requires left <= was / 2.0 && p > 0.0
    ensures left * (2.0 * p) <= was * p
  {
  }

  lemma CloseEnough(base: int, next: int, truth: real)
    requires truth >= 42.0 && ADAPT_DEADBAND * base as real <= AbsReal(truth - base as real) < 3.0
    requires (base as real + truth) / 2.0 - 1.0 < next as real <= (base as real + truth) / 2.0
    ensures AbsReal(truth - next as real) < ADAPT_DEADBAND * next as real
  {
  }

  /** Close above or below, one more correction is enough for a true count of at least 42. */
  lemma LastCorrection(base: int, truth: real)
    requires 1 <= base <= LOOP_MAX && 42.0 <= truth <= LOOP_MAX as real
    requires InDeadband(base, truth) || AbsReal(truth - base as real) < 3.0
    ensures InDeadband(CorrectedTowards(base, truth), truth)
  {
    hide CorrectedTowards, InDeadband, Left;
    if InDeadband(base, truth) {
      DeadbandKeeps(base, truth);
    } else {
      CorrectionHalves(base, truth);
      DeadbandBounds(base, truth);
      DeadbandBounds(CorrectedTowards(base, truth), truth);
      CloseEnough(base, CorrectedTowards(base, truth), truth);
    }
  }

  /** A true count of at least 42 is found to within the deadband in 31 corrections, from any
      count, ... */
  lemma DriftIsCorrected(base: int, truth: real, n: nat)
    requires 1 <= base <= LOOP_MAX && 42.0 <= truth <= LOOP_MAX as real && n >= 31
    ensures InDeadband(CorrectedTimes(base, truth, n), truth)
  {
    hide CorrectedTowards, InDeadband, PowerOfTwo;
    var before := CorrectedTimes(base, truth, n - 1);
    DistanceHalves(base, truth, n - 1);
    PowerGrows(30, n - 1);
    PowerOfThirty();
    if !InDeadband(before, truth) {
      var left, p := Left(before, truth), PowerOfTwo(n - 1);
      assert left >= 1.0 ==> left * p >= p;
    }
    LastCorrection(before, truth);
  }

  /** ... and kept. */
  lemma {:induction false} DriftStaysCorrected(base: int, truth: real, n: nat, m: nat)
    requires 1 <= base <= LOOP_MAX && InDeadband(CorrectedTimes(base, truth, n), truth)
    ensures CorrectedTimes(base, truth, n + m) == CorrectedTimes(base, truth, n)
  {
    hide CorrectedTowards, InDeadband;
    if m > 0 {
      DriftStaysCorrected(base, truth, n, m - 1);
      DeadbandKeeps(CorrectedTimes(base, truth, n), truth);
      assert n + m - 1 == n + (m - 1);
    }
  }

  ghost predicate SomeStuck(truth: real) {
    exists base: int :: 1 <= base <= LOOP_MAX && Stuck(base, truth)
  }

  lemma {:induction false} StuckForGood(base: int, truth: real, n: nat)
    requires 1 <= base <= LOOP_MAX && 1.0 <= truth <= LOOP_MAX as real && Stuck(base, truth)
    ensures CorrectedTimes(base, truth, n) == base && !InDeadband(base, truth)
  {
    StuckExactly(base, truth);
    if n > 0 {
      StuckForGood(base, truth, n - 1);
    }
  }

  /** Close to the true count, a correction that does not get stuck reaches the deadband from below at
      once, and from above comes a whole step nearer, or past the true count by less than one. */
  lemma CloseCorrection(base: int, truth: real)
    requires 1 <= base <= LOOP_MAX && 1.0 <= truth <= LOOP_MAX as real && !SomeStuck(truth)
    requires !InDeadband(base, truth) && truth - 3.0 < base as real
    ensures var next := CorrectedTowards(base, truth);
            InDeadband(next, truth) || (truth < next as real && next < base)
  {
    hide CorrectedTowards, InDeadband, Left;
    CorrectionHalves(base, truth);
    var next := CorrectedTowards(base, truth);
    StuckExactly(base, truth);
    StuckExactly(next, truth);
    assert !Stuck(base, truth) && !Stuck(next, truth);
    NextClose(base, next, truth);
    if truth - 2.0 < next as real <= truth {
      CloseBelow(next, truth);
    }
  }

  lemma NextClose(base: int, next: int, truth: real)
    requires (base as real + truth) / 2.0 - 1.0 < next as real <= (base as real + truth) / 2.0
    requires base as real != truth && truth - 3.0 < base as real
    ensures truth < base as real ==> truth - 1.0 < next as real && next < base
    ensures base as real <= truth - 2.0 ==> next > base && truth - 2.0 < next as real <= truth
  {
    if base as real <= truth - 2.0 {
      assert next as real > base as real;
      assert next >= base + 1;
    }
  }

  lemma CloseBelow(base: int, truth: real)
    requires 1 <= base && truth - 2.0 < base as real <= truth && !Stuck(base, truth)
    ensures InDeadband(base, truth)
  {
    DeadbandBounds(base, truth);
  }

  /** So a count that close is corrected in three steps at most. */
  lemma {:induction false} CloseIsCorrected(base: int, truth: real, n: nat, m: nat)
    requires 1 <= base <= LOOP_MAX && 1.0 <= truth <= LOOP_MAX as real && !SomeStuck(truth) && m >= 1
    requires InDeadband(CorrectedTimes(base, truth, n), truth)
             || truth - 3.0 < CorrectedTimes(base, truth, n) as real < truth + m as real
    ensures InDeadband(CorrectedTimes(base, truth, n + m), truth)
    decreases m
  {
    hide CorrectedTowards, InDeadband, SomeStuck;
    var now, next := CorrectedTimes(base, truth, n), CorrectedTimes(base, truth, n + 1);
    if InDeadband(now, truth) {
      DriftStaysCorrected(base, truth, n, m);
    } else {
      CloseCorrection(now, truth);
      if m > 1 {
        CloseIsCorrected(base, truth, n + 1, m - 1);
        assert n + 1 + (m - 1) == n + m;
      }
    }
  }

  lemma LittleLeft(left: real, n: nat)
    requires n >= 30
    ensures left * PowerOfTwo(n) <= LOOP_MAX as real ==> left < 1.0
  {
    PowerGrows(30, n);
    PowerOfThirty();
    hide PowerOfTwo;
    var p := PowerOfTwo(n);
    if left >= 1.0 {
      NotNegative(left - 1.0, p);
      assert (left - 1.0) * p == left * p - p;
    }
  }

  lemma CorrectedIn33(base: int, truth: real, n: nat)
    requires 1 <= base <= LOOP_MAX && 1.0 <= truth <= LOOP_MAX as real && !SomeStuck(truth) && n >= 33
    ensures InDeadband(CorrectedTimes(base, truth, n), truth)
  {
    hide CorrectedTowards, InDeadband, SomeStuck, PowerOfTwo;
    DistanceHalves(base, truth, n - 3);
    LittleLeft(Left(CorrectedTimes(base, truth, n - 3), truth), n - 3);
    hide CorrectedTimes;
    CloseIsCorrected(base, truth, n - 3, 3);
  }

  ghost predicate NeverCorrected(base: int, truth: real)
    requires 1 <= base <= LOOP_MAX
  {
    forall n: nat :: !InDeadband(CorrectedTimes(base, truth, n), truth)
  }

  lemma StuckIsNeverCorrected(base: int, truth: real)
    requires 1 <= base <= LOOP_MAX && 1.0 <= truth <= LOOP_MAX as real && Stuck(base, truth)
    ensures NeverCorrected(base, truth)
  {
    hide CorrectedTimes, InDeadband, Stuck;
    forall n: nat
      ensures !InDeadband(CorrectedTimes(base, truth, n), truth)
    {
      StuckForGood(base, truth, n);
    }
  }

  /** Exactly when the drift correction works: any count comes into the deadband, in 33 corrections,
      if and only if no whole number is in the gap below the true count; one that is there stays out
      of the deadband for good. */
  lemma DriftCorrectedExactly(truth: real)
    requires 1.0 <= truth <= LOOP_MAX as real
    ensures !SomeStuck(truth) <==> forall base: int, n: nat ::
              1 <= base <= LOOP_MAX && n >= 33 ==> InDeadband(CorrectedTimes(base, truth, n), truth)
    ensures SomeStuck(truth) ==> exists base: int :: 1 <= base <= LOOP_MAX && NeverCorrected(base, truth)
  {
    hide CorrectedTimes, InDeadband, Stuck, NeverCorrected;
    if SomeStuck(truth) {
      var base: int :| 1 <= base <= LOOP_MAX && Stuck(base, truth);
      StuckIsNeverCorrected(base, truth);
      StuckForGood(base, truth, 33);
    } else {
      forall base: int, n: nat | 1 <= base <= LOOP_MAX && n >= 33
        ensures InDeadband(CorrectedTimes(base, truth, n), truth)
      {
        CorrectedIn33(base, truth, n);
      }
    }
  }

  /** No count gets stuck from a true count of 41 on; just below, one does. */
  lemma NeverStuckFrom41(truth: real)
    ensures truth >= 41.0 ==> !SomeStuck(truth)
    ensures SomeStuck(40.95)
  {
    assert Stuck(39, 40.95);
    if base: int :| 1 <= base <= LOOP_MAX && Stuck(base, truth) {
      assert base as real < 40.0;
      assert base <= 39;
    }
  }

  /** Below 41 it need not be found: a count of 2 stays 2 where 3 is right. */
  lemma SmallCountsCanStick(n: nat)
    ensures CorrectedTimes(2, 3.0, n) == 2 && !InDeadband(2, 3.0)
  {
  }
}
