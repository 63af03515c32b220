/** The CPU's closed loop as the manager runs it: the controller is told the means of the last ten
    samples, and may start anywhere. */
module LoadAverages {
  import opened Prelude
  import opened LoadControl
  import opened Rolling

  const SAMPLES: nat := 10

  /** Every integral the controller has had, and every demand made, tick by tick. What demand `k` leads
      to is measured at the next tick. */
  datatype Record = Record(integrals: seq<real>, demands: seq<int>)

  // ----- Means

  function MeanOf(history: seq<real>): real
    requires history != []
  {
    SumOf(Window(history, SAMPLES)) / |Window(history, SAMPLES)| as real
  }

  function AsReals(demands: seq<int>): (r: seq<real>)
    ensures |r| == |demands|
  {
    seq(|demands|, i requires 0 <= i < |demands| => demands[i] as real)
  }

  /** The load that the workers make of a demand. */
  function OursFor(p: Plant, demand: int): real {
    p.e * demand as real
  }

  /** The samples of the process's own load, and of the system's. */
  function OursSeen(p: Plant, demands: seq<int>): (r: seq<real>)
    ensures |r| == |demands|
  {
    seq(|demands|, i requires 0 <= i < |demands| => OursFor(p, demands[i]))
  }

  function SystemSeen(p: Plant, demands: seq<int>): (r: seq<real>)
    ensures |r| == |demands|
  {
    seq(|demands|, i requires 0 <= i < |demands| => p.other + OursFor(p, demands[i]))
  }

  ghost predicate Affine(from: seq<real>, onto: seq<real>, shift: real, factor: real) {
    |from| == |onto| && forall i :: 0 <= i < |from| ==> onto[i] == shift + factor * from[i]
  }

  lemma {:induction false} SumAffine(from: seq<real>, onto: seq<real>, shift: real, factor: real)
    requires Affine(from, onto, shift, factor)
    ensures SumOf(onto) == shift * |from| as real + factor * SumOf(from)
  {
    if from != [] {
      var n := |from| - 1;
      SumAffine(from[..n], onto[..n], shift, factor);
      AddOne(shift, factor, n, SumOf(from[..n]), from[n]);
    }
  }

  lemma AddOne(shift: real, factor: real, n: nat, sum: real, x: real)
    ensures shift * n as real + factor * sum + (shift + factor * x) == shift * (n + 1) as real + factor * (sum + x)
  {
  }

  lemma MeanAffine(from: seq<real>, onto: seq<real>, shift: real, factor: real)
    requires Affine(from, onto, shift, factor) && from != []
    ensures MeanOf(onto) == shift + factor * MeanOf(from)
  {
    hide SumOf;
    var w, v := Window(from, SAMPLES), Window(onto, SAMPLES);
    SumAffine(w, v, shift, factor);
    Divided(shift, factor, SumOf(w), SumOf(v), |w| as real);
  }

  lemma Divided(shift: real, factor: real, from: real, onto: real, n: real)
    requires n > 0.0 && onto == shift * n + factor * from
    ensures onto / n == shift + factor * (from / n)
  {
    var q, r := from / n, onto / n;
    assert q * n == from && r * n == onto;
    assert (shift + factor * q) * n == shift * n + factor * (q * n);
    SameTimes(r, shift + factor * q, n);
  }

  lemma SameTimes(x: real, y: real, n: real)
    requires n > 0.0 && x * n == y * n
    ensures x == y
  {
    assert (x - y) * n == 0.0;
  }

  /** The mean of the process's samples is what the workers deliver of the mean demand, and the
      system's is the others' load above it. */
  lemma MeansSeen(p: Plant, demands: seq<int>)
    requires demands != []
    ensures MeanOf(OursSeen(p, demands)) == p.e * MeanOf(AsReals(demands))
    ensures MeanOf(SystemSeen(p, demands)) == p.other + p.e * MeanOf(AsReals(demands))
  {
    hide MeanOf;
    MeanAffine(AsReals(demands), OursSeen(p, demands), 0.0, p.e);
    MeanAffine(AsReals(demands), SystemSeen(p, demands), p.other, p.e);
  }

  /** How much the places in a window add up to, counted from its last. */
  function Places(n: nat, first: nat): nat {
    if n == 0 then 0 else first + Places(n - 1, first + 1)
  }

  lemma {:induction false} PlacesAre(n: nat, first: nat)
    ensures 2 * Places(n, first) == n * (2 * first + n - 1)
  {
    if n > 0 {
      PlacesAre(n - 1, first + 1);
      assert n * (2 * first + n - 1) == 2 * first + (n - 1) * (2 * first + n);
    }
  }

  function Lag(near: real, slope: real, place: nat): real {
    near + slope * place as real
  }

  /** Values that are near a point, but less and less so the older they are. */
  ghost predicate Trailing(s: seq<real>, point: real, near: real, slope: real, first: nat) {
    forall i :: 0 <= i < |s| ==> AbsReal(s[i] - point) <= Lag(near, slope, first + |s| - 1 - i)
  }

  /** What their sum can be off, then. */
  function LagSum(near: real, slope: real, n: nat, places: nat): real {
    near * n as real + slope * places as real
  }

  function Off(sum: real, point: real, n: nat): real {
    AbsReal(sum - point * n as real)
  }

  lemma {:induction false} SumTrailing(s: seq<real>, point: real, near: real, slope: real, first: nat)
    requires Trailing(s, point, near, slope, first)
    ensures Off(SumOf(s), point, |s|) <= LagSum(near, slope, |s|, Places(|s|, first))
  {
    hide Lag, LagSum, Off;
    if s == [] {
      TrailingNone(point, near, slope);
    } else {
      var n := |s| - 1;
      var front := s[..n];
      forall i | 0 <= i < n
        ensures AbsReal(front[i] - point) <= Lag(near, slope, first + 1 + |front| - 1 - i)
      {
        assert first + 1 + |front| - 1 - i == first + |s| - 1 - i;
      }
      SumTrailing(front, point, near, slope, first + 1);
      assert AbsReal(s[n] - point) <= Lag(near, slope, first);
      TrailingOne(point, near, slope, n, first, Places(n, first + 1), SumOf(front), s[n]);
    }
  }

  lemma TrailingNone(point: real, near: real, slope: real)
    ensures Off(0.0, point, 0) <= LagSum(near, slope, 0, 0)
  {
  }

  lemma TrailingOne(point: real, near: real, slope: real, n: nat, first: nat, places: nat, sum: real, x: real)
    requires Off(sum, point, n) <= LagSum(near, slope, n, places)
    requires AbsReal(x - point) <= Lag(near, slope, first)
    ensures Off(sum + x, point, n + 1) <= LagSum(near, slope, n + 1, first + places)
  {
    OffNext(sum, x, point, n);
    LagSumNext(near, slope, n, first, places);
    hide Off, LagSum, Lag;
  }

  lemma OffNext(sum: real, x: real, point: real, n: nat)
    ensures Off(sum + x, point, n + 1) <= Off(sum, point, n) + AbsReal(x - point)
  {
    var pn := point * n as real;
    assert point * (n + 1) as real == pn + point;
  }

  lemma LagSumNext(near: real, slope: real, n: nat, first: nat, places: nat)
    ensures LagSum(near, slope, n + 1, first + places) == LagSum(near, slope, n, places) + Lag(near, slope, first)
  {
    assert near * (n + 1) as real == near * n as real + near;
    assert slope * (first + places) as real == slope * first as real + slope * places as real;
  }

  /** The mean of a window lags behind its last value by four and a half steps of its slope, at most. */
  lemma MeanLags(history: seq<real>, point: real, near: real, slope: real)
    requires history != [] && slope >= 0.0
    requires Trailing(Window(history, SAMPLES), point, near, slope, 0)
    ensures AbsReal(MeanOf(history) - point) <= near + 4.5 * slope
  {
    hide SumOf, Trailing, Off, LagSum;
    var w := Window(history, SAMPLES);
    SumTrailing(w, point, near, slope, 0);
    PlacesAre(|w|, 0);
    assert |w| * (|w| - 1) <= |w| * 9;
    DividedNear(SumOf(w), point, near, slope, |w|, Places(|w|, 0));
  }

  lemma DividedNear(sum: real, point: real, near: real, slope: real, n: nat, places: nat)
    requires n > 0 && slope >= 0.0 && 2 * places <= 9 * n
    requires Off(sum, point, n) <= LagSum(near, slope, n, places)
    ensures AbsReal(sum / n as real - point) <= near + 4.5 * slope
  {
    var m, mean := n as real, sum / n as real;
    assert mean * m == sum;
    NotNegative(slope, 4.5 * m - places as real);
    assert slope * (4.5 * m - places as real) == 4.5 * slope * m - slope * places as real;
    Cancel(mean - point, near + 4.5 * slope, m);
  }

  lemma Cancel(x: real, y: real, m: real)
    requires m > 0.0 && AbsReal(x * m) <= y * m
    ensures AbsReal(x) <= y
  {
    assert x > y ==> (x - y) * m > 0.0;
    assert -x > y ==> (-x - y) * m > 0.0;
  }

  // ----- Runs

  /** Entry `n + 1` of the record is what the controller makes of the means of the samples so far. */
  ghost predicate Ticked(p: Plant, r: Record, n: nat)
    requires n + 1 < |r.integrals| == |r.demands|
  {
    var system := MeanOf(SystemSeen(p, r.demands[..n + 1]));
    var ours := MeanOf(OursSeen(p, r.demands[..n + 1]));
    && r.integrals[n + 1] == NextIntegral(r.integrals[n], p.target, system, ours, p.capacity)
    && r.demands[n + 1] == Demand(r.integrals[n + 1], p.target, MaxReal(0.0, system - ours), p.capacity)
  }

  /** A run of any length, from any integral and demand in their ranges. */
  ghost predicate IsRun(p: Plant, r: Record) {
    && |r.integrals| == |r.demands| >= 1
    && AbsReal(r.integrals[0]) <= p.capacity as real && 0 <= r.demands[0] <= p.capacity
    && forall n: nat :: n + 1 < |r.integrals| ==> Ticked(p, r, n)
  }

  /** How much of a unit of surplus demand one tick takes out of the integral. */
  function Gain(p: Plant): real {
    0.02 * p.e
  }

  /** How far an integral is from its fixed point, with its sign. */
  function Away(p: Plant, integral: real): real
    requires p.e > 0.0
  {
    integral - (Steady(p) - Gap(p))
  }

  /** The part of it that is left when the demand is cut off at the rails. */
  function Clipped(p: Plant, away: real): real
    requires p.e > 0.0
  {
    Clamp(away, -Steady(p), p.capacity as real - Steady(p))
  }

  /** What the mean demand is above the steady one. */
  function Surplus(p: Plant, r: Record, n: nat): real
    requires p.e > 0.0 && n < |r.demands|
  {
    MeanOf(AsReals(r.demands[..n + 1])) - Steady(p)
  }

  /** The distance that a run settles in from wherever it starts. */
  function Basin(p: Plant): real {
    0.6 + 0.1 * p.capacity as real
  }

  /** The steady demand is at least a tenth of the capacity, and 0.6, from either rail. */
  ghost predicate Roomy(p: Plant) {
    Feasible(p) && Basin(p) <= Steady(p) <= p.capacity as real - Basin(p)
  }

  /** What an unclipped tick does to the integral. */
  function Pull(p: Plant, surplus: real): real {
    -(Gain(p) * surplus)
  }

  lemma PullIs(p: Plant, mean: real)
    requires p.e > 0.0
    ensures 0.02 * (Gap(p) - p.e * mean) == Pull(p, mean - Steady(p))
  {
    SteadyFillsGap(p);
    hide Steady;
    assert p.e * (mean - Steady(p)) == p.e * mean - Gap(p);
  }

  /** The integral moves by the pull, unless that takes it past the rail that it pulls towards; it
      never moves by more, and stays in its range. */
  ghost predicate Moves(integral: real, next: real, gap: real, pull: real, cap: real) {
    && AbsReal(next) <= cap && AbsReal(next - integral) <= AbsReal(pull)
    && ((pull <= 0.0 <= gap + integral + pull) || (pull >= 0.0 && gap + integral + pull <= cap)
        ==> next == integral + pull)
  }

  lemma NextIntegralMoves(integral: real, target: int, other: real, ours: real, capacity: int, pull: real)
    requires 0.0 <= target as real - other <= capacity as real && AbsReal(integral) <= capacity as real
    requires pull == 0.02 * (target as real - other - ours)
    ensures var next := NextIntegral(integral, target, other + ours, ours, capacity);
            0.0 <= other ==> Moves(integral, next, target as real - other, pull, capacity as real)
  {
  }

  /** What the means of a tick come to: the process's is what the workers deliver of the mean demand,
      and the system's is that and the others' load. */
  lemma TickReads(p: Plant, r: Record, n: nat, ours: real)
    requires 0.0 <= p.other && n + 1 < |r.integrals| == |r.demands| && Ticked(p, r, n)
    requires ours == p.e * MeanOf(AsReals(r.demands[..n + 1]))
    ensures r.integrals[n + 1] == NextIntegral(r.integrals[n], p.target, p.other + ours, ours, p.capacity)
    ensures r.demands[n + 1] == Demand(r.integrals[n + 1], p.target, p.other, p.capacity)
  {
    hide MeanOf, AsReals, OursSeen, SystemSeen, Demand, NextIntegral, MaxReal;
    MeansSeen(p, r.demands[..n + 1]);
    var system, own := MeanOf(SystemSeen(p, r.demands[..n + 1])), MeanOf(OursSeen(p, r.demands[..n + 1]));
    assert system == p.other + ours && own == ours;
    OthersAre(p.other, system, own);
  }

  lemma OthersAre(other: real, system: real, ours: real)
    requires 0.0 <= other && system == other + ours
    ensures MaxReal(0.0, system - ours) == other
  {
  }

  /** A run's tick moves the integral by the pull of the mean demand. */
  lemma TickMoves(p: Plant, r: Record, n: nat)
    requires Feasible(p) && Steady(p) <= p.capacity as real
    requires n + 1 < |r.integrals| == |r.demands| && Ticked(p, r, n)
    requires AbsReal(r.integrals[n]) <= p.capacity as real
    ensures Moves(r.integrals[n], r.integrals[n + 1], Gap(p), Pull(p, Surplus(p, r, n)), p.capacity as real)
    ensures r.demands[n + 1] == Demand(r.integrals[n + 1], p.target, p.other, p.capacity)
  {
    hide MeanOf, AsReals, OursSeen, SystemSeen, Demand, Steady, Pull, NextIntegral, Moves, AbsReal, Ticked;
    var mean := MeanOf(AsReals(r.demands[..n + 1]));
    var ours := p.e * mean;
    PullIs(p, mean);
    GapBelowSteady(p);
    TickReads(p, r, n, ours);
    NextIntegralMoves(r.integrals[n], p.target, p.other, ours, p.capacity, Pull(p, Surplus(p, r, n)));
  }

  lemma GapBelowSteady(p: Plant)
    requires Feasible(p)
    ensures 0.0 <= Gap(p) <= Steady(p)
  {
    SteadyFillsGap(p);
    StaysBelow(Steady(p), p.e, Gap(p));
  }

  lemma StaysBelow(steady: real, e: real, gap: real)
    requires 0.0 < e <= 1.0 && steady * e == gap >= 0.0
    ensures gap <= steady
  {
    NotNegative(1.0 - e, gap);
    assert e * (steady - gap) == (1.0 - e) * gap;
    assert steady < gap ==> e * (gap - steady) > 0.0;
  }

  /** Every demand but the first is, up to rounding, the steady one and the clipped distance. */
  lemma DemandIs(p: Plant, integral: real)
    requires Feasible(p) && p.capacity > 0
    ensures var demand := Demand(integral, p.target, p.other, p.capacity);
            0 <= demand <= p.capacity && AbsReal(demand as real - Steady(p) - Clipped(p, Away(p, integral))) <= 0.5
  {
    hide Steady;
  }

  /** All integrals and demands of a run are in their ranges, and no integral jumps. */
  lemma {:induction false} RunInRange(p: Plant, r: Record, n: nat)
    requires Feasible(p) && Steady(p) <= p.capacity as real && IsRun(p, r) && n < |r.integrals|
    ensures AbsReal(r.integrals[n]) <= p.capacity as real && 0 <= r.demands[n] <= p.capacity
    ensures n > 0 ==> AbsReal(r.demands[n] as real - Steady(p) - Clipped(p, Away(p, r.integrals[n]))) <= 0.5
  {
    if n > 0 {
      hide Steady, Demand, Clipped, Away;
      RunInRange(p, r, n - 1);
      assert Ticked(p, r, n - 1);
      TickMoves(p, r, n - 1);
      DemandIs(p, r.integrals[n]);
    }
  }

  // ----- What the mean lags behind

  /** The signed distance of a run's integral from its fixed point. */
  function AwayAt(p: Plant, r: Record, n: nat): real
    requires p.e > 0.0 && n < |r.integrals|
  {
    Away(p, r.integrals[n])
  }

  /** The integral has not moved by more than `step` at any tick of a stretch. */
  ghost predicate Slow(r: Record, from: nat, until: nat, step: real)
    requires until < |r.integrals|
  {
    forall k: nat :: from <= k < until ==> AbsReal(r.integrals[k + 1] - r.integrals[k]) <= step
  }

  lemma {:induction false} Drift(r: Record, from: nat, until: nat, step: real)
    requires from <= until < |r.integrals| && Slow(r, from, until, step)
    ensures AbsReal(r.integrals[from] - r.integrals[until]) <= Lag(0.0, step, until - from)
    decreases until - from
  {
    hide Lag;
    LagNext(step, 0);
    if from < until {
      Drift(r, from + 1, until, step);
      LagNext(step, until - from - 1);
      assert AbsReal(r.integrals[from + 1] - r.integrals[from]) <= step;
    }
  }

  lemma LagNext(step: real, n: nat)
    ensures Lag(0.0, step, n + 1) == Lag(0.0, step, n) + step && Lag(0.0, step, 0) == 0.0
  {
  }

  /** What the demand is asked for is the clipped distance, and the mean of the demands is near that. */
  ghost predicate Noisy(x: real, steady: real, cap: real, surplus: real, noise: real) {
    AbsReal(surplus - Clamp(x, -steady, cap - steady)) <= noise
  }

  /** Once a run has left its first demand behind, the mean demand is, up to rounding and the lag, what
      the integral asks for now. */
  lemma MeanClose(p: Plant, r: Record, n: nat, step: real)
    requires Feasible(p) && Steady(p) <= p.capacity as real && IsRun(p, r)
    requires SAMPLES <= n < |r.integrals| && Slow(r, n + 1 - SAMPLES, n, step)
    ensures Noisy(AwayAt(p, r, n), Steady(p), p.capacity as real, Surplus(p, r, n), 0.5 + 4.5 * step)
  {
    hide Steady, Clipped, Away, AbsReal, MeanOf, Lag, Ticked;
    var point := Steady(p) + Clipped(p, AwayAt(p, r, n));
    var w := Window(AsReals(r.demands[..n + 1]), SAMPLES);
    assert Trailing(w, point, 0.5, step, 0) by {
      forall i | 0 <= i < |w|
        ensures AbsReal(w[i] - point) <= Lag(0.5, step, |w| - 1 - i)
      {
        var k := n + 1 - SAMPLES + i;
        assert w[i] == r.demands[k] as real;
        RunInRange(p, r, k);
        Drift(r, k, n, step);
        OneLags(p, r.demands[k] as real, r.integrals[k], r.integrals[n], step, n - k);
      }
    }
    StepNotNegative(r, n - 1, n, step);
    MeanLags(AsReals(r.demands[..n + 1]), point, 0.5, step);
    NoisyIs(p, AwayAt(p, r, n), MeanOf(AsReals(r.demands[..n + 1])), 0.5 + 4.5 * step);
  }

  lemma NoisyIs(p: Plant, x: real, mean: real, noise: real)
    requires p.e > 0.0 && AbsReal(mean - (Steady(p) + Clipped(p, x))) <= noise
    ensures Noisy(x, Steady(p), p.capacity as real, mean - Steady(p), noise)
  {
    hide Steady;
  }

  lemma StepNotNegative(r: Record, from: nat, until: nat, step: real)
    requires from < until < |r.integrals| && Slow(r, from, until, step)
    ensures step >= 0.0
  {
    assert AbsReal(r.integrals[from + 1] - r.integrals[from]) <= step;
  }

  lemma OneLags(p: Plant, demand: real, before: real, now: real, step: real, place: nat)
    requires Feasible(p) && AbsReal(demand - Steady(p) - Clipped(p, Away(p, before))) <= 0.5
    requires AbsReal(before - now) <= Lag(0.0, step, place)
    ensures AbsReal(demand - (Steady(p) + Clipped(p, Away(p, now)))) <= Lag(0.5, step, place)
  {
    hide Steady;
    var lag := Lag(0.0, step, place);
    assert Lag(0.5, step, place) == 0.5 + lag;
    hide Lag;
    ClipsNear(Away(p, before), Away(p, now), -Steady(p), p.capacity as real - Steady(p), lag);
  }

  lemma ClipsNear(x: real, y: real, low: real, high: real, most: real)
    requires AbsReal(x - y) <= most && low <= high
    ensures AbsReal(Clamp(x, low, high) - Clamp(y, low, high)) <= most
  {
  }

  /** If all the demands in the window are near the steady one, their mean is. */
  lemma MeanWithin(p: Plant, r: Record, n: nat, most: real)
    requires p.e > 0.0 && n < |r.demands|
    requires forall k: nat :: k <= n < k + SAMPLES ==> AbsReal(r.demands[k] as real - Steady(p)) <= most
    ensures AbsReal(Surplus(p, r, n)) <= most
  {
    hide Steady, AbsReal, MeanOf;
    var w := Window(AsReals(r.demands[..n + 1]), SAMPLES);
    assert Trailing(w, Steady(p), most, 0.0, 0) by {
      forall i | 0 <= i < |w|
        ensures AbsReal(w[i] - Steady(p)) <= Lag(most, 0.0, |w| - 1 - i)
      {
        var k := n + 1 - |w| + i;
        assert w[i] == r.demands[k] as real;
        assert AbsReal(r.demands[k] as real - Steady(p)) <= most;
      }
    }
    MeanLags(AsReals(r.demands[..n + 1]), Steady(p), most, 0.0);
  }

  // ----- From anywhere into the basin

  /** No surplus is larger than the capacity; so no tick moves the integral by more than the gain
      makes of that. */
  lemma SurplusBounded(p: Plant, r: Record, n: nat)
    requires Roomy(p) && IsRun(p, r) && n < |r.integrals|
    ensures AbsReal(Surplus(p, r, n)) <= p.capacity as real
  {
    hide Steady, Surplus, Ticked;
    forall k: nat | k <= n < k + SAMPLES
      ensures AbsReal(r.demands[k] as real - Steady(p)) <= p.capacity as real
    {
      RunInRange(p, r, k);
    }
    MeanWithin(p, r, n, p.capacity as real);
  }

  /** What a surplus of up to `most` can move the integral by at a tick. */
  function Step(p: Plant, most: real): real {
    Gain(p) * most
  }

  lemma PullBounded(p: Plant, surplus: real, most: real)
    requires 0.0 < p.e <= 1.0 && AbsReal(surplus) <= most
    ensures AbsReal(Pull(p, surplus)) <= Step(p, most) <= 0.02 * most
    ensures surplus >= 0.0 ==> Pull(p, surplus) <= 0.0
    ensures surplus <= 0.0 ==> Pull(p, surplus) >= 0.0
  {
    var g := Gain(p);
    var gs, gm := g * surplus, g * most;
    NotNegative(g, AbsReal(surplus));
    NotNegative(g, most - AbsReal(surplus));
    NotNegative(0.02 - g, most);
    assert gs == g * AbsReal(surplus) || gs == -(g * AbsReal(surplus));
    assert Pull(p, surplus) == -gs;
  }

  lemma TickSlow(p: Plant, r: Record, n: nat, most: real)
    requires Roomy(p) && IsRun(p, r) && n + 1 < |r.integrals| && AbsReal(Surplus(p, r, n)) <= most
    ensures AbsReal(r.integrals[n + 1] - r.integrals[n]) <= Step(p, most)
  {
    hide Steady, Surplus, Pull, Step, Ticked;
    assert Ticked(p, r, n);
    RunInRange(p, r, n);
    TickMoves(p, r, n);
    PullBounded(p, Surplus(p, r, n), most);
  }

  /** The run is within `most` of its fixed point from some tick on. */
  ghost predicate Settled(p: Plant, r: Record, from: nat, most: real)
    requires p.e > 0.0
  {
    forall n: nat :: from <= n < |r.integrals| ==> AbsReal(AwayAt(p, r, n)) <= most
  }

  /** Where the mean is near what is asked for, the integral is never held at a rail. */
  lemma NeverHeld(x: real, steady: real, cap: real, surplus: real, pull: real)
    requires 0.6 + 0.1 * cap <= steady <= cap - 0.6 - 0.1 * cap && AbsReal(surplus) <= cap
    requires Noisy(x, steady, cap, surplus, 0.5 + 0.09 * cap)
    requires AbsReal(pull) <= 0.02 * AbsReal(surplus)
    requires (surplus >= 0.0 ==> pull <= 0.0) && (surplus <= 0.0 ==> pull >= 0.0)
    ensures (pull <= 0.0 <= steady + x + pull) || (pull >= 0.0 && steady + x + pull <= cap)
  {
  }

  lemma AlwaysSlow(p: Plant, r: Record, n: nat)
    requires Roomy(p) && IsRun(p, r) && n + 1 < |r.integrals|
    ensures AbsReal(r.integrals[n + 1] - r.integrals[n]) <= 0.02 * p.capacity as real
  {
    hide Steady, Surplus, Pull, Step, Ticked;
    SurplusBounded(p, r, n);
    PullBounded(p, Surplus(p, r, n), p.capacity as real);
    TickSlow(p, r, n, p.capacity as real);
  }

  /** From the first tick that no longer hears of the first demand on, the distance moves by the pull. */
  lemma MovesFreely(p: Plant, r: Record, n: nat)
    requires Roomy(p) && IsRun(p, r) && SAMPLES <= n && n + 1 < |r.integrals|
    ensures AwayAt(p, r, n + 1) == AwayAt(p, r, n) + Pull(p, Surplus(p, r, n))
    ensures Noisy(AwayAt(p, r, n), Steady(p), p.capacity as real, Surplus(p, r, n), 0.5 + 0.09 * p.capacity as real)
  {
    hide Steady, Gap, Surplus, Pull, Step, Ticked, AbsReal;
    var cap, surplus := p.capacity as real, Surplus(p, r, n);
    forall k: nat | n + 1 - SAMPLES <= k < n
      ensures AbsReal(r.integrals[k + 1] - r.integrals[k]) <= 0.02 * cap
    {
      AlwaysSlow(p, r, k);
    }
    MeanClose(p, r, n, 0.02 * cap);
    SurplusBounded(p, r, n);
    PullBounded(p, surplus, AbsReal(surplus));
    NeverHeld(AwayAt(p, r, n), Steady(p), cap, surplus, Pull(p, surplus));
    assert Ticked(p, r, n);
    RunInRange(p, r, n);
    TickMoves(p, r, n);
  }

  /** Outside the basin the surplus has the distance's sign, so the pull brings the integral nearer. */
  lemma OutsideShrinks(x: real, steady: real, cap: real, surplus: real, g: real, gu: real)
    requires 0.6 + 0.1 * cap <= steady <= cap - 0.6 - 0.1 * cap && AbsReal(surplus) <= cap
    requires Noisy(x, steady, cap, surplus, 0.5 + 0.09 * cap) && 0.0 < g <= 0.02 && gu == g * surplus
    requires AbsReal(x) > 0.6 + 0.1 * cap
    ensures AbsReal(x - gu) <= AbsReal(x) - g * (0.1 + 0.01 * cap)
  {
    var least := 0.1 + 0.01 * cap;
    if x > 0.0 {
      GainBounds(g, surplus, gu, least);
    } else {
      GainBounds(g, -surplus, -gu, least);
    }
  }

  lemma GainBounds(g: real, u: real, gu: real, least: real)
    requires 0.0 < g <= 0.02 && gu == g * u && 0.0 <= least <= u
    ensures g * least <= gu <= 0.02 * u
  {
    NotNegative(g, u - least);
    assert g * (u - least) == gu - g * least;
    NotNegative(0.02 - g, u);
    assert (0.02 - g) * u == 0.02 * u - gu;
  }

  /** Anywhere, the surplus is the distance and some noise: the pull takes a part of one away and adds
      as large a part of the other. */
  lemma InsideStays(x: real, steady: real, cap: real, surplus: real, g: real, gu: real, most: real, noise: real)
    requires most <= steady <= cap - most && AbsReal(x) <= most
    requires Noisy(x, steady, cap, surplus, noise) && 0.0 < g <= 0.02 && gu == g * surplus
    ensures AbsReal(x - gu) <= (1.0 - g) * most + g * noise
  {
    var gx, gm, gn := g * x, g * most, g * noise;
    assert g * (surplus - x) == gu - gx;
    NotNegative(g, noise - (surplus - x));
    NotNegative(g, noise + (surplus - x));
    assert g * (noise - (surplus - x)) == gn - (gu - gx) && g * (noise + (surplus - x)) == gn + (gu - gx);
    NotNegative(1.0 - g, most - x);
    NotNegative(1.0 - g, most + x);
    assert (1.0 - g) * (most - x) == most - x - gm + gx && (1.0 - g) * (most + x) == most + x - gm - gx;
    assert (1.0 - g) * most == most - gm;
  }

  /** How much nearer every tick brings an integral that is far from its fixed point, at least. */
  function Fall(p: Plant): real {
    Gain(p) * (0.1 + 0.01 * p.capacity as real)
  }

  lemma OutsideFalls(p: Plant, r: Record, n: nat)
    requires Roomy(p) && IsRun(p, r) && SAMPLES <= n && n + 1 < |r.integrals|
    ensures AbsReal(AwayAt(p, r, n + 1)) <= MaxReal(Basin(p), AbsReal(AwayAt(p, r, n)) - Fall(p))
  {
    hide Steady, Surplus, Noisy, Away, Ticked, Gain;
    SurplusBounded(p, r, n);
    MovesFreely(p, r, n);
    GainIs(p);
    var gu := Gain(p) * Surplus(p, r, n);
    assert Pull(p, Surplus(p, r, n)) == -gu;
    hide Pull, AbsReal;
    OutsideNext(AwayAt(p, r, n), Steady(p), p.capacity as real, Surplus(p, r, n), Gain(p), gu, Fall(p));
  }

  lemma OutsideNext(x: real, steady: real, cap: real, surplus: real, g: real, gu: real, fall: real)
    requires 0.6 + 0.1 * cap <= steady <= cap - 0.6 - 0.1 * cap && AbsReal(surplus) <= cap
    requires Noisy(x, steady, cap, surplus, 0.5 + 0.09 * cap) && 0.0 < g <= 0.02 && gu == g * surplus
    requires fall == g * (0.1 + 0.01 * cap)
    ensures AbsReal(x - gu) <= MaxReal(0.6 + 0.1 * cap, AbsReal(x) - fall)
  {
    hide Noisy;
    var basin := 0.6 + 0.1 * cap;
    if AbsReal(x) <= basin {
      hide AbsReal;
      InsideKept(x, steady, cap, surplus, g, gu, basin, 0.5 + 0.09 * cap);
    } else {
      hide AbsReal;
      OutsideShrinks(x, steady, cap, surplus, g, gu);
    }
  }

  lemma InsideKept(x: real, steady: real, cap: real, surplus: real, g: real, gu: real, most: real, noise: real)
    requires most <= steady <= cap - most && AbsReal(x) <= most && noise <= most
    requires Noisy(x, steady, cap, surplus, noise) && 0.0 < g <= 0.02 && gu == g * surplus
    ensures AbsReal(x - gu) <= most
  {
    InsideStays(x, steady, cap, surplus, g, gu, most, noise);
    hide AbsReal, Noisy;
    NotNegative(g, most - noise);
    assert (1.0 - g) * most + g * noise == most - g * (most - noise);
  }

  lemma GainIs(p: Plant)
    requires 0.0 < p.e <= 1.0
    ensures 0.0 < Gain(p) <= 0.02
  {
  }

  /** What is left of the largest distance that a run can begin with. */
  lemma {:induction false} FallsToBasin(p: Plant, r: Record, n: nat)
    requires Roomy(p) && IsRun(p, r) && SAMPLES <= n < |r.integrals|
    ensures AbsReal(AwayAt(p, r, n)) <= MaxReal(Basin(p), 2.0 * p.capacity as real - Fallen(p, n - SAMPLES))
  {
    hide Steady, Fall, IsRun, Ticked;
    if n == SAMPLES {
      RunInRange(p, r, n);
      GapBelowSteady(p);
      assert Fallen(p, 0) == 0.0;
    } else {
      FallsToBasin(p, r, n - 1);
      OutsideFalls(p, r, n - 1);
      FallenNext(p, n - 1 - SAMPLES);
    }
  }

  function Fallen(p: Plant, n: nat): real {
    Fall(p) * n as real
  }

  lemma FallenNext(p: Plant, n: nat)
    requires 0.0 < p.e && p.capacity > 0
    ensures Fallen(p, n + 1) == Fallen(p, n) + Fall(p)
  {
    hide Fall;
  }

  /** After this many ticks, at whatever integral it began, a run is in the basin. */
  ghost predicate Long(p: Plant, start: nat) {
    start >= SAMPLES && (start - SAMPLES) as real * p.e >= 10000.0
  }

  lemma LongEnough(p: Plant, start: nat, n: nat)
    requires Roomy(p) && Long(p, start) && n >= start
    ensures Fallen(p, n - SAMPLES) >= 2.0 * p.capacity as real
  {
    var cap, m, s := p.capacity as real, (n - SAMPLES) as real, (start - SAMPLES) as real;
    NotNegative(p.e, m - s);
    var em := p.e * m;
    assert em >= 10000.0;
    var part := 0.1 + 0.01 * cap;
    NotNegative(em - 10000.0, part);
    assert (em - 10000.0) * part == em * part - 10000.0 * part;
    assert Fallen(p, n - SAMPLES) == 0.02 * (em * part);
  }

  lemma InBasin(p: Plant, r: Record, start: nat)
    requires Roomy(p) && IsRun(p, r) && Long(p, start)
    ensures Settled(p, r, start, Basin(p))
  {
    hide Steady, Fallen, Away, Ticked;
    forall n: nat | start <= n < |r.integrals|
      ensures AbsReal(AwayAt(p, r, n)) <= Basin(p)
    {
      LongEnough(p, start, n);
      FallsToBasin(p, r, n);
    }
  }

  // ----- In the basin

  /** What one turn of the window makes of a distance. */
  function Closer(g: real, most: real): real {
    0.6 + (1.0 - 0.91 * g) * (most - 0.6)
  }

  lemma InsideSurplus(p: Plant, r: Record, from: nat, n: nat, most: real)
    requires Roomy(p) && IsRun(p, r) && Settled(p, r, from, most) && 0.0 <= most <= Basin(p)
    requires 1 <= from && from + SAMPLES <= n + 1 <= |r.integrals|
    ensures AbsReal(Surplus(p, r, n)) <= most + 0.5
  {
    hide Steady, Surplus, Ticked, Away;
    forall k: nat | k <= n < k + SAMPLES
      ensures AbsReal(r.demands[k] as real - Steady(p)) <= most + 0.5
    {
      RunInRange(p, r, k);
      assert AbsReal(AwayAt(p, r, k)) <= most;
    }
    MeanWithin(p, r, n, most + 0.5);
  }

  /** Where all the last nineteen ticks have been near the fixed point, the next is nearer. */
  lemma InsideShrinks(p: Plant, r: Record, from: nat, n: nat, most: real)
    requires Roomy(p) && IsRun(p, r) && Settled(p, r, from, most) && 0.6 <= most <= Basin(p)
    requires 1 <= from && from + 2 * SAMPLES <= n + 2 && n + 1 < |r.integrals|
    ensures AbsReal(AwayAt(p, r, n + 1)) <= Closer(Gain(p), most)
  {
    hide Steady, Surplus, Ticked, Away, Gain, Noisy, Closer, AbsReal;
    var step, g, surplus := Step(p, most + 0.5), Gain(p), Surplus(p, r, n);
    forall k: nat | n + 1 - SAMPLES <= k < n
      ensures AbsReal(r.integrals[k + 1] - r.integrals[k]) <= step
    {
      InsideSurplus(p, r, from, k, most);
      TickSlow(p, r, k, most + 0.5);
    }
    MeanClose(p, r, n, step);
    MovesFreely(p, r, n);
    GainIs(p);
    var gu := g * surplus;
    assert Pull(p, surplus) == -gu;
    hide Pull;
    assert AbsReal(AwayAt(p, r, n)) <= most;
    InsideNext(AwayAt(p, r, n), Steady(p), p.capacity as real, surplus, g, gu, most, step);
  }

  lemma InsideNext(x: real, steady: real, cap: real, surplus: real, g: real, gu: real, most: real, step: real)
    requires 0.6 <= most <= steady <= cap - most && AbsReal(x) <= most
    requires 0.0 < g <= 0.02 && gu == g * surplus && step == g * (most + 0.5)
    requires Noisy(x, steady, cap, surplus, 0.5 + 4.5 * step)
    ensures AbsReal(x - gu) <= Closer(g, most)
  {
    NotNegative(0.02 - g, most + 0.5);
    var noise := 0.545 + 0.09 * most;
    InsideStays(x, steady, cap, surplus, g, gu, most, noise);
    assert (1.0 - g) * most + g * noise == 0.6 + (1.0 - 0.91 * g) * (most - 0.6) - 0.001 * g;
  }

  /** How far a run can still be after `k` turns in the basin. */
  function Left(p: Plant, k: nat): real {
    Power(1.0 - 0.91 * Gain(p), k) * (0.1 * p.capacity as real)
  }

  lemma LeftNext(p: Plant, k: nat)
    ensures Closer(Gain(p), 0.6 + Left(p, k)) == 0.6 + Left(p, k + 1) && Left(p, 0) == 0.1 * p.capacity as real
  {
  }

  lemma {:induction false} LeftBounds(p: Plant, k: nat)
    requires 0.0 < p.e <= 1.0 && p.capacity > 0
    ensures 0.0 <= Left(p, k) <= 0.1 * p.capacity as real
    ensures Left(p, k) * (1.0 + 0.0182 * p.e * k as real) <= 0.1 * p.capacity as real
  {
    PowerBound(0.0182 * p.e, k);
    assert 1.0 - 0.0182 * p.e == 1.0 - 0.91 * Gain(p);
  }

  lemma {:induction false} Settles(p: Plant, r: Record, start: nat, k: nat)
    requires Roomy(p) && IsRun(p, r) && Long(p, start)
    ensures Settled(p, r, start + 19 * k, 0.6 + Left(p, k))
  {
    hide Steady, Ticked, Left, Closer, Away, Gain;
    if k == 0 {
      InBasin(p, r, start);
      LeftNext(p, 0);
    } else {
      Settles(p, r, start, k - 1);
      LeftBounds(p, k - 1);
      LeftNext(p, k - 1);
      var from := start + 19 * (k - 1);
      forall n: nat | start + 19 * k <= n < |r.integrals|
        ensures AbsReal(AwayAt(p, r, n)) <= 0.6 + Left(p, k)
      {
        InsideShrinks(p, r, from, n - 1, 0.6 + Left(p, k - 1));
      }
    }
  }

  /** Where the distance is not clipped, the demand is as near the steady one, up to rounding. */
  lemma DemandAt(p: Plant, r: Record, n: nat, most: real)
    requires Roomy(p) && IsRun(p, r) && 1 <= n < |r.integrals| && AbsReal(AwayAt(p, r, n)) <= most <= Basin(p)
    ensures AbsReal(r.demands[n] as real - Steady(p)) <= most + 0.5
  {
    hide Steady, Away, Ticked;
    RunInRange(p, r, n);
  }

  lemma SystemAt(p: Plant, r: Record, n: nat, away: real, most: real)
    requires Roomy(p) && IsRun(p, r) && 1 <= n < |r.integrals|
    requires AbsReal(AwayAt(p, r, n)) <= away <= Basin(p) && most == away + 0.5
    ensures AbsReal(System(p, Loop(r.integrals[n], r.demands[n])) - p.target as real) <= p.e * most
  {
    DemandAt(p, r, n, away);
    hide Steady, Away, Ticked, AwayAt, System, AbsReal;
    SystemWithin(p, Loop(r.integrals[n], r.demands[n]), most);
  }

  /** Told only of means, and begun at any integral within the capacity, the loop still brings the system
      to within what the workers deliver of 1.1 units of demand, plus a part that falls off
      geometrically from a tenth of the capacity, and at least as fast as 1 / (1 + 0.0182 e k). */
  lemma AveragesConverge(p: Plant, r: Record, start: nat, k: nat, n: nat)
    requires Roomy(p) && IsRun(p, r) && Long(p, start) && start + 19 * k <= n < |r.integrals|
    ensures AbsReal(System(p, Loop(r.integrals[n], r.demands[n])) - p.target as real) <= p.e * (1.1 + Left(p, k))
    ensures 0.0 <= Left(p, k) && Left(p, k) * (1.0 + 0.0182 * p.e * k as real) <= 0.1 * p.capacity as real
  {
    hide Steady, Ticked, Left, Away, System;
    Settles(p, r, start, k);
    LeftBounds(p, k);
    SystemAt(p, r, n, 0.6 + Left(p, k), 1.1 + Left(p, k));
  }

  // ----- The manager

  /** `cpu::CpuResourceManager`, as far as its control loop goes. */
  class CpuResourceManager {
    const capacity: int
    const controller: LoadController
    const systemSampler: RollingSampler
    const processSampler: RollingSampler

    constructor (cpus: int)
      ensures Valid() && capacity == 100 * cpus && controller.integral == 0.0
      ensures systemSampler.history == [] && processSampler.history == []
      ensures fresh(controller) && fresh(systemSampler) && fresh(processSampler)
    {
      capacity := 100 * cpus;
      controller := new LoadController();
      systemSampler := new RollingSampler(SAMPLES);
      processSampler := new RollingSampler(SAMPLES);
    }

    ghost predicate Valid()
      reads systemSampler, processSampler
    {
      && systemSampler.Valid() && processSampler.Valid() && systemSampler != processSampler
      && systemSampler.capacity == processSampler.capacity == SAMPLES
    }

    /** One tick: both samplers take in what has been measured, and the controller is told their means. */
    method Schedule(processLoad: real, systemLoad: real, target: int) returns (demand: int)
      requires Valid() && capacity > 0
      modifies controller, systemSampler, processSampler
      ensures Valid()
      ensures systemSampler.history == old(systemSampler.history) + [systemLoad]
      ensures processSampler.history == old(processSampler.history) + [processLoad]
      ensures var system, own := MeanOf(systemSampler.history), MeanOf(processSampler.history);
              && controller.integral == NextIntegral(old(controller.integral), target, system, own, capacity)
              && demand == Demand(controller.integral, target, MaxReal(0.0, system - own), capacity)
    {
      hide NextIntegral, Demand, SumOf;
      processSampler.InsertValue(processLoad);
      systemSampler.InsertValue(systemLoad);
      demand := CalculateLoadDemand(target);
    }

    method CalculateLoadDemand(target: int) returns (demand: int)
      requires Valid() && capacity > 0 && systemSampler.history != [] && processSampler.history != []
      modifies controller
      ensures var system, own := MeanOf(systemSampler.history), MeanOf(processSampler.history);
              && controller.integral == NextIntegral(old(controller.integral), target, system, own, capacity)
              && demand == Demand(controller.integral, target, MaxReal(0.0, system - own), capacity)
    {
      hide NextIntegral, Demand, SumOf, FromOldest, Window, MeanOf;
      var system := systemSampler.GetMean();
      var own := processSampler.GetMean();
      MeanIs(systemSampler.history, system);
      MeanIs(processSampler.history, own);
      demand := controller.Update(target, system, own, capacity);
    }
  }

  lemma MeanIs(history: seq<real>, mean: real)
    requires history != [] && var w := Window(history, SAMPLES); mean * |w| as real == SumOf(w)
    ensures mean == MeanOf(history)
  {
    var w := Window(history, SAMPLES);
    assert MeanOf(history) * |w| as real == SumOf(w);
    SameTimes(mean, MeanOf(history), |w| as real);
  }

  function Extended(r: Record, integral: real, demand: int): Record {
    Record(r.integrals + [integral], r.demands + [demand])
  }

  /** What the manager makes of one more sample of a plant carries its run on. */
  lemma RunGoesOn(p: Plant, r: Record, integral: real, demand: int)
    requires IsRun(p, r)
    requires var system, own := MeanOf(SystemSeen(p, r.demands)), MeanOf(OursSeen(p, r.demands));
             && integral == NextIntegral(r.integrals[|r.integrals| - 1], p.target, system, own, p.capacity)
             && demand == Demand(integral, p.target, MaxReal(0.0, system - own), p.capacity)
    ensures IsRun(p, Extended(r, integral, demand))
  {
    hide NextIntegral, Demand, MeanOf;
    var next := Extended(r, integral, demand);
    forall n: nat | n + 1 < |next.integrals|
      ensures Ticked(p, next, n)
    {
      assert next.demands[..n + 1] == r.demands[..n + 1];
      if n + 1 < |r.integrals| {
        assert Ticked(p, r, n);
      } else {
        assert r.demands[..n + 1] == r.demands;
      }
    }
  }

  lemma SeenNext(p: Plant, demands: seq<int>)
    requires demands != []
    ensures var n := |demands| - 1;
            && SystemSeen(p, demands) == SystemSeen(p, demands[..n]) + [p.other + OursFor(p, demands[n])]
            && OursSeen(p, demands) == OursSeen(p, demands[..n]) + [OursFor(p, demands[n])]
  {
    hide OursFor;
    var n := |demands| - 1;
    assert SystemSeen(p, demands) == SystemSeen(p, demands[..n]) + [p.other + OursFor(p, demands[n])];
    assert OursSeen(p, demands) == OursSeen(p, demands[..n]) + [OursFor(p, demands[n])];
  }

  /** The manager has been through a run, but for the samples of its last demand. */
  ghost predicate Follows(p: Plant, manager: CpuResourceManager, r: Record)
    reads manager.controller, manager.systemSampler, manager.processSampler
  {
    && manager.Valid() && manager.capacity == p.capacity > 0 && IsRun(p, r)
    && var n := |r.demands| - 1;
       && r.integrals[n] == manager.controller.integral
       && manager.systemSampler.history == SystemSeen(p, r.demands[..n])
       && manager.processSampler.history == OursSeen(p, r.demands[..n])
  }

  /** A tick of the manager on a plant that makes of each demand what its workers deliver. */
  method TickOn(p: Plant, manager: CpuResourceManager, demand: int, ghost r: Record)
    returns (next: int, ghost longer: Record)
    requires Follows(p, manager, r) && demand == r.demands[|r.demands| - 1]
    modifies manager.controller, manager.systemSampler, manager.processSampler
    ensures Follows(p, manager, longer) && |longer.demands| == |r.demands| + 1
    ensures next == longer.demands[|r.demands|]
  {
    hide Ticked, Demand, NextIntegral, MeanOf, SystemSeen, OursSeen;
    SeenNext(p, r.demands);
    var ours := OursFor(p, demand);
    next := manager.Schedule(ours, p.other + ours, p.target);
    RunGoesOn(p, r, manager.controller.integral, next);
    longer := Extended(r, manager.controller.integral, next);
    assert longer.demands[..|r.demands|] == r.demands;
  }

  lemma RunConverges(p: Plant, r: Record)
    requires IsRun(p, r)
    ensures var ticks := |r.demands| - 1;
            forall start: nat, k: nat :: Roomy(p) && Long(p, start) && start + 19 * k <= ticks ==>
              AbsReal(p.other + OursFor(p, r.demands[ticks]) - p.target as real) <= p.e * (1.1 + Left(p, k))
  {
    hide Left, Long, Roomy, Ticked;
    var ticks := |r.demands| - 1;
    forall start: nat, k: nat | Roomy(p) && Long(p, start) && start + 19 * k <= ticks
      ensures AbsReal(p.other + OursFor(p, r.demands[ticks]) - p.target as real) <= p.e * (1.1 + Left(p, k))
    {
      AveragesConverge(p, r, start, k, ticks);
    }
  }

  /** The manager at work on a plant, from any integral within the capacity and any demand: after
      enough ticks, the system is as near its target as `AveragesConverge` says. */
  method ClosedLoop(p: Plant, manager: CpuResourceManager, first: int, ticks: nat) returns (demand: int)
    requires manager.Valid() && manager.capacity == p.capacity > 0 && 0 <= first <= p.capacity
    requires manager.systemSampler.history == manager.processSampler.history == []
    requires AbsReal(manager.controller.integral) <= p.capacity as real
    modifies manager.controller, manager.systemSampler, manager.processSampler
    ensures forall start: nat, k: nat :: Roomy(p) && Long(p, start) && start + 19 * k <= ticks ==>
              AbsReal(p.other + OursFor(p, demand) - p.target as real) <= p.e * (1.1 + Left(p, k))
  {
    hide Left, Long, Roomy, Ticked, OursFor;
    demand := first;
    ghost var r := Record([manager.controller.integral], [first]);
    for i := 0 to ticks
      invariant Follows(p, manager, r) && |r.demands| == i + 1 && demand == r.demands[i]
    {
      demand, r := TickOn(p, manager, demand, r);
    }
    RunConverges(p, r);
  }
}
