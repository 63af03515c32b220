/** The price of memory traffic: the decayed least-squares fit of
    `GpuWorkerContext::UpdateMemCost`. */
module MemCost {
  import opened Prelude

  const KEEP: real := 0.95
  const MIN_LAUNCHES: nat := 10
  const MIN_SPREAD: real := 0.1

  /** One launch: its traffic, and its time beyond the ALU loop's. */
  datatype Sample = Sample(mib: real, residualMs: real)

  /** The fit's sums, which all decay alike: the weight, traffic (x), time (y), and their products. */
  datatype Fit = Fit(launches: nat, w: real, x: real, y: real, xx: real, xy: real)

  const NoFit := Fit(0, 0.0, 0.0, 0.0, 0.0, 0.0)

  function Add(f: Fit, s: Sample): Fit {
    Fit(Min(f.launches + 1, MIN_LAUNCHES), f.w * KEEP + 1.0, f.x * KEEP + s.mib, f.y * KEEP + s.residualMs,
        f.xx * KEEP + s.mib * s.mib, f.xy * KEEP + s.mib * s.residualMs)
  }

  function FitOf(samples: seq<Sample>): Fit {
    if samples == [] then NoFit else Add(FitOf(samples[..|samples| - 1]), samples[|samples| - 1])
  }

  /** What every launch keeps: positive weight and traffic, and the Cauchy-Schwarz inequality. */
  predicate Sound(f: Fit) {
    f == NoFit || (f.launches > 0 && f.w > 0.0 && f.x > 0.0 && f.w * f.xx >= f.x * f.x)
  }

  lemma AddKeepsSound(f: Fit, s: Sample)
    requires Sound(f) && s.mib > 0.0
    ensures Sound(Add(f, s)) && Add(f, s) != NoFit
  {
    if f != NoFit {
      SquareAndGap(f.w, f.x, f.xx, s.mib);
      SignOf(f.w, Cross(f.w, f.x, f.xx, s.mib));
      NewGap(f.w, f.x, f.xx, s.mib);
      DecayedSum(f.w * f.xx - f.x * f.x, Cross(f.w, f.x, f.xx, s.mib));
      hide Cross;
    }
  }

  /** What a launch of `m` MiB adds to the gap of the inequality: a square and the old gap, over w. */
  function Cross(w: real, x: real, xx: real, m: real): real {
    w * (m * m) - 2.0 * (m * x) + xx
  }

  lemma DecayedSum(gap: real, cross: real)
    requires gap >= 0.0 && cross >= 0.0
    ensures KEEP * KEEP * gap + KEEP * cross >= 0.0
  {
  }

  lemma SignOf(w: real, v: real)
    requires w > 0.0
    ensures w * v >= 0.0 ==> v >= 0.0
  {
  }

  lemma SquareAndGap(w: real, x: real, xx: real, m: real)
    ensures w * Cross(w, x, xx, m) == (w * m - x) * (w * m - x) + (w * xx - x * x)
    ensures (w * m - x) * (w * m - x) >= 0.0
  {
  }

  lemma NewGap(w: real, x: real, xx: real, m: real)
    ensures (w * KEEP + 1.0) * (xx * KEEP + m * m) - (x * KEEP + m) * (x * KEEP + m)
            == KEEP * KEEP * (w * xx - x * x) + KEEP * Cross(w, x, xx, m)
  {
  }

  function VarX(f: Fit): real
    requires f.w > 0.0
  {
    f.xx / f.w - f.x / f.w * (f.x / f.w)
  }

  /** Whether the fit is long and spread enough to go by. */
  predicate Publishes(f: Fit) {
    f.launches >= MIN_LAUNCHES && f.w > 0.0 &&
    VarX(f) >= MIN_SPREAD * MIN_SPREAD * (f.x / f.w) * (f.x / f.w)
  }

  /** The division that publishes a cost never sees a zero variance. */
  lemma PublishesPositiveVariance(f: Fit)
    requires Sound(f) && f != NoFit
    ensures VarX(f) >= 0.0
    ensures Publishes(f) ==> VarX(f) > 0.0
  {
  }

  function Slope(f: Fit): real
    requires Sound(f) && f != NoFit && Publishes(f)
  {
    PublishesPositiveVariance(f);
    (f.xy / f.w - f.x / f.w * f.y / f.w) / VarX(f)
  }

  function Intercept(f: Fit): real
    requires Sound(f) && f != NoFit && Publishes(f)
  {
    (f.y - Slope(f) * f.x) / f.w
  }

  // ----- What the slope is

  predicate AllMoved(samples: seq<Sample>) {
    forall i :: 0 <= i < |samples| ==> samples[i].mib > 0.0
  }

  lemma {:induction false} FitIsSound(samples: seq<Sample>)
    requires AllMoved(samples) && samples != []
    ensures Sound(FitOf(samples)) && FitOf(samples) != NoFit
  {
    var before := samples[..|samples| - 1];
    if before != [] {
      FitIsSound(before);
    }
    AddKeepsSound(FitOf(before), samples[|samples| - 1]);
  }

  /** The published slope and its intercept solve the normal equations. */
  lemma NormalEquations(f: Fit)
    requires Sound(f) && f != NoFit && Publishes(f)
    ensures Slope(f) * f.x + Intercept(f) * f.w == f.y
    ensures Slope(f) * f.xx + Intercept(f) * f.x == f.xy
  {
  }

  /** The squared distance of a sample from a line. */
  function Miss(s: Sample, slope: real, intercept: real): real {
    var e := s.residualMs - slope * s.mib - intercept;
    e * e
  }

  /** The decayed squared error of a line through the samples. */
  function SquaredError(samples: seq<Sample>, slope: real, intercept: real): real {
    if samples == [] then 0.0
    else SquaredError(samples[..|samples| - 1], slope, intercept) * 0.95
         + Miss(samples[|samples| - 1], slope, intercept)
  }

  function SumYY(samples: seq<Sample>): real {
    if samples == [] then 0.0
    else SumYY(samples[..|samples| - 1]) * KEEP + samples[|samples| - 1].residualMs * samples[|samples| - 1].residualMs
  }

  /** That error in terms of the fit's sums. */
  function ErrorOf(f: Fit, yy: real, a: real, b: real): real {
    yy - 2.0 * a * f.xy - 2.0 * b * f.y + a * a * f.xx + 2.0 * a * b * f.x + b * b * f.w
  }

  lemma {:induction false} ErrorFromSums(samples: seq<Sample>, a: real, b: real)
    ensures SquaredError(samples, a, b) == ErrorOf(FitOf(samples), SumYY(samples), a, b)
  {
    hide ErrorOf, Add, Miss;
    if samples == [] {
      ErrorOfNothing(a, b);
    } else {
      var before, s := samples[..|samples| - 1], samples[|samples| - 1];
      ErrorFromSums(before, a, b);
      ErrorAdds(FitOf(before), SumYY(before), s, a, b);
      assert SumYY(samples) == SumYY(before) * KEEP + s.residualMs * s.residualMs;
    }
  }

  lemma ErrorOfNothing(a: real, b: real)
    ensures ErrorOf(NoFit, 0.0, a, b) == 0.0
  {
  }

  lemma ErrorAdds(f: Fit, yy: real, s: Sample, a: real, b: real)
    ensures ErrorOf(f, yy, a, b) * KEEP + Miss(s, a, b)
            == ErrorOf(Add(f, s), yy * KEEP + s.residualMs * s.residualMs, a, b)
  {
    var m, r := s.mib, s.residualMs;
    assert Miss(s, a, b) == ErrorOf(Fit(1, 1.0, m, r, m * m, m * r), r * r, a, b) by {
      MissExpanded(m, r, a, b);
    }
    ErrorIsLinear(f, Fit(1, 1.0, m, r, m * m, m * r), Add(f, s), yy, r * r, a, b);
  }

  lemma MissExpanded(m: real, r: real, a: real, b: real)
    ensures (r - a * m - b) * (r - a * m - b)
            == r * r - 2.0 * a * (m * r) - 2.0 * b * r + a * a * (m * m) + 2.0 * a * b * m + b * b
  {
  }

  /** The error is linear in the sums. */
  lemma ErrorIsLinear(f: Fit, g: Fit, h: Fit, yyf: real, yyg: real, a: real, b: real)
    requires h.w == f.w * KEEP + g.w && h.x == f.x * KEEP + g.x && h.y == f.y * KEEP + g.y
    requires h.xx == f.xx * KEEP + g.xx && h.xy == f.xy * KEEP + g.xy
    ensures ErrorOf(f, yyf, a, b) * KEEP + ErrorOf(g, yyg, a, b) == ErrorOf(h, yyf * KEEP + yyg, a, b)
  {
  }

  lemma Scale(c: real, u: real, v: real)
    ensures c * (u * KEEP + v) == c * u * KEEP + c * v
  {
  }

  /** The fit is a least-squares fit: no line comes closer to the launches, weighted by how long ago
      they were, than the one whose slope is published. */
  lemma LeastSquares(samples: seq<Sample>, a: real, b: real)
    requires AllMoved(samples) && samples != []
    requires Sound(FitOf(samples)) && FitOf(samples) != NoFit && Publishes(FitOf(samples))
    ensures SquaredError(samples, Slope(FitOf(samples)), Intercept(FitOf(samples))) <= SquaredError(samples, a, b)
  {
    hide ErrorOf, SquaredError, FitOf, SumYY, Slope, Intercept, Publishes;
    var f, yy := FitOf(samples), SumYY(samples);
    var s, t := Slope(f), Intercept(f);
    ErrorFromSums(samples, a, b);
    ErrorFromSums(samples, s, t);
    NormalEquations(f);
    ErrorDifference(f, yy, s, t, a, b);
    QuadraticForm(f, a - s, b - t);
  }

  lemma ErrorDifference(f: Fit, yy: real, s: real, t: real, a: real, b: real)
    requires s * f.x + t * f.w == f.y && s * f.xx + t * f.x == f.xy
    ensures ErrorOf(f, yy, a, b) - ErrorOf(f, yy, s, t)
            == (a - s) * (a - s) * f.xx + 2.0 * (a - s) * (b - t) * f.x + (b - t) * (b - t) * f.w
  {
  }

  lemma QuadraticForm(f: Fit, p: real, q: real)
    requires f.w > 0.0 && f.w * f.xx >= f.x * f.x
    ensures p * p * f.xx + 2.0 * p * q * f.x + q * q * f.w >= 0.0
  {
    var form := p * p * f.xx + 2.0 * p * q * f.x + q * q * f.w;
    var root := p * f.x + q * f.w;
    assert f.w * form == root * root + p * p * (f.w * f.xx - f.x * f.x);
    assert p * p >= 0.0;
    assert root * root >= 0.0;
    SignOf(f.w, form);
  }

  /** Every launch follows one line. */
  ghost predicate OnLine(samples: seq<Sample>, cost: real, overhead: real) {
    forall i :: 0 <= i < |samples| ==> samples[i].residualMs == cost * samples[i].mib + overhead
  }

  predicate Balances(x: real, w: real, y: real, cost: real, overhead: real) {
    y == cost * x + overhead * w
  }

  predicate FitOnLine(f: Fit, cost: real, overhead: real) {
    Balances(f.x, f.w, f.y, cost, overhead) && Balances(f.xx, f.x, f.xy, cost, overhead)
  }

  lemma LineAdds(f: Fit, s: Sample, mm: real, mr: real, cost: real, overhead: real)
    requires mm == s.mib * s.mib && mr == s.mib * s.residualMs
    requires Balances(s.mib, 1.0, s.residualMs, cost, overhead) && Balances(mm, s.mib, mr, cost, overhead)
    requires FitOnLine(f, cost, overhead)
    ensures FitOnLine(Add(f, s), cost, overhead)
  {
    hide Balances;
    AddIs(f, s, mm, mr);
    hide Add;
    BalancesNext(cost, overhead, f.x, f.w, f.y, s.mib, 1.0, s.residualMs);
    BalancesNext(cost, overhead, f.xx, f.x, f.xy, mm, s.mib, mr);
  }

  lemma AddIs(f: Fit, s: Sample, mm: real, mr: real)
    requires mm == s.mib * s.mib && mr == s.mib * s.residualMs
    ensures var g := Add(f, s);
            && g.w == f.w * KEEP + 1.0 && g.x == f.x * KEEP + s.mib && g.y == f.y * KEEP + s.residualMs
            && g.xx == f.xx * KEEP + mm && g.xy == f.xy * KEEP + mr
  {
  }

  lemma SampleBalances(cost: real, overhead: real, m: real, r: real, mm: real, mr: real)
    requires r == cost * m + overhead && mm == m * m && mr == m * r
    ensures Balances(m, 1.0, r, cost, overhead) && Balances(mm, m, mr, cost, overhead)
  {
  }

  lemma BalancesNext(cost: real, overhead: real, x: real, w: real, y: real, dx: real, dw: real, dy: real)
    requires Balances(x, w, y, cost, overhead) && Balances(dx, dw, dy, cost, overhead)
    ensures Balances(x * KEEP + dx, w * KEEP + dw, y * KEEP + dy, cost, overhead)
  {
    Scale(cost, x, dx);
    Scale(overhead, w, dw);
  }

  lemma NoFitOnLine(cost: real, overhead: real)
    ensures FitOnLine(NoFit, cost, overhead)
  {
  }

  lemma {:induction false} SumsOnLine(samples: seq<Sample>, cost: real, overhead: real)
    requires OnLine(samples, cost, overhead)
    ensures FitOnLine(FitOf(samples), cost, overhead)
  {
    hide FitOnLine, Add, Balances;
    if samples == [] {
      NoFitOnLine(cost, overhead);
    } else {
      var before, s := samples[..|samples| - 1], samples[|samples| - 1];
      SumsOnLine(before, cost, overhead);
      var mm, mr := s.mib * s.mib, s.mib * s.residualMs;
      SampleBalances(cost, overhead, s.mib, s.residualMs, mm, mr);
      LineAdds(FitOf(before), s, mm, mr, cost, overhead);
    }
  }

  /** Launches whose time beyond the ALU loop is a cost per MiB plus a fixed overhead have exactly
      that cost published, however their traffic moves. */
  lemma CostRecovered(samples: seq<Sample>, cost: real, overhead: real)
    requires AllMoved(samples) && samples != [] && OnLine(samples, cost, overhead)
    requires Sound(FitOf(samples)) && FitOf(samples) != NoFit && Publishes(FitOf(samples))
    ensures Slope(FitOf(samples)) == cost
  {
    hide FitOf, VarX, Slope, Intercept;
    var f := FitOf(samples);
    SumsOnLine(samples, cost, overhead);
    PublishesPositiveVariance(f);
    NormalEquations(f);
    OneSolution(f, Slope(f), Intercept(f), cost, overhead);
  }

  lemma OneSolution(f: Fit, s: real, t: real, a: real, b: real)
    requires f.w > 0.0 && VarX(f) > 0.0
    requires s * f.x + t * f.w == f.y == a * f.x + b * f.w
    requires s * f.xx + t * f.x == f.xy == a * f.xx + b * f.x
    ensures s == a
  {
  }

  /** The cost in use after a run of launches: the last one published, 0 before the first. */
  function Published(samples: seq<Sample>): real
    requires AllMoved(samples)
  {
    if samples == [] then 0.0
    else
      FitIsSound(samples);
      if Publishes(FitOf(samples)) then Slope(FitOf(samples)) else Published(samples[..|samples| - 1])
  }

  /** Over whole runs on one line, nothing but the line's own cost is ever in use. */
  lemma {:induction false} OnlyTheCostPublished(samples: seq<Sample>, cost: real, overhead: real)
    requires AllMoved(samples) && OnLine(samples, cost, overhead)
    ensures Published(samples) == cost || Published(samples) == 0.0
  {
    if samples != [] {
      hide Slope, Publishes, FitOf;
      FitIsSound(samples);
      if Publishes(FitOf(samples)) {
        CostRecovered(samples, cost, overhead);
      } else {
        OnlyTheCostPublished(samples[..|samples| - 1], cost, overhead);
      }
    }
  }

  lemma FirstOnLine(samples: seq<Sample>, n: nat, cost: real, overhead: real)
    requires AllMoved(samples) && OnLine(samples, cost, overhead) && n <= |samples|
    ensures AllMoved(samples[..n]) && OnLine(samples[..n], cost, overhead)
  {
  }

  lemma CostStaysOnce(samples: seq<Sample>, cost: real, overhead: real)
    requires AllMoved(samples) && OnLine(samples, cost, overhead) && samples != []
    requires Published(samples[..|samples| - 1]) == cost
    ensures Published(samples) == cost
  {
    hide Slope, Publishes, FitOf;
    FitIsSound(samples);
    if Publishes(FitOf(samples)) {
      CostRecovered(samples, cost, overhead);
    }
  }

  /** And once it is in use, it stays in use. */
  lemma {:induction false} CostStays(samples: seq<Sample>, m: nat, n: nat, cost: real, overhead: real)
    requires AllMoved(samples) && OnLine(samples, cost, overhead) && m <= n <= |samples|
    requires Published(samples[..m]) == cost
    ensures Published(samples[..n]) == cost
  {
    if m < n {
      hide Published, AllMoved, OnLine;
      CostStays(samples, m, n - 1, cost, overhead);
      assert samples[..n][..n - 1] == samples[..n - 1];
      FirstOnLine(samples, n, cost, overhead);
      CostStaysOnce(samples[..n], cost, overhead);
    }
  }

  // ----- When a cost is published

  /** The weights of the samples: 1 for the newest, a twentieth less for each launch since. */
  function Weight(samples: seq<Sample>): real {
    if samples == [] then 0.0 else Weight(samples[..|samples| - 1]) * 0.95 + 1.0
  }

  function WeighedMib(samples: seq<Sample>): real {
    if samples == [] then 0.0 else WeighedMib(samples[..|samples| - 1]) * 0.95 + samples[|samples| - 1].mib
  }

  /** The weighed squared distances of their traffic from a value. */
  function SquaresAbout(samples: seq<Sample>, c: real): real {
    if samples == [] then 0.0
    else SquaresAbout(samples[..|samples| - 1], c) * 0.95 + SquareAbout(samples[|samples| - 1], c)
  }

  function SquareAbout(s: Sample, c: real): real {
    (s.mib - c) * (s.mib - c)
  }

  lemma {:induction false} WeightPositive(samples: seq<Sample>)
    requires samples != []
    ensures Weight(samples) > 0.0
  {
    if |samples| > 1 {
      WeightPositive(samples[..|samples| - 1]);
    }
  }

  function MeanMib(samples: seq<Sample>): real
    requires samples != []
  {
    WeightPositive(samples);
    WeighedMib(samples) / Weight(samples)
  }

  function VarianceMib(samples: seq<Sample>): real
    requires samples != []
  {
    WeightPositive(samples);
    SquaresAbout(samples, MeanMib(samples)) / Weight(samples)
  }

  /** Ten launches or more, whose traffic has a standard deviation of a tenth of its mean. */
  predicate Telling(samples: seq<Sample>) {
    |samples| >= 10 && VarianceMib(samples) >= 0.01 * (MeanMib(samples) * MeanMib(samples))
  }

  /** The same squares from a fit's sums. */
  function AboutOf(f: Fit, c: real): real {
    f.xx - 2.0 * (c * f.x) + c * c * f.w
  }

  lemma AboutAdds(f: Fit, s: Sample, c: real)
    ensures AboutOf(Add(f, s), c) == AboutOf(f, c) * 0.95 + SquareAbout(s, c)
  {
    var m, mm, mr, cc, cm := s.mib, s.mib * s.mib, s.mib * s.residualMs, c * c, c * s.mib;
    AddIs(f, s, mm, mr);
    SquareIs(s, c, mm, cm, cc);
    hide Add, SquareAbout;
    AboutIs(f, c, c * f.x, cc * f.w);
    Scale(c, f.x, m);
    Scale(cc, f.w, 1.0);
    AboutIs(Add(f, s), c, c * f.x * KEEP + cm, cc * f.w * KEEP + cc);
    hide AboutOf;
  }

  lemma AboutIs(f: Fit, c: real, cx: real, ccw: real)
    requires cx == c * f.x && ccw == c * c * f.w
    ensures AboutOf(f, c) == f.xx - 2.0 * cx + ccw
  {
  }

  lemma SquareIs(s: Sample, c: real, mm: real, cm: real, cc: real)
    requires mm == s.mib * s.mib && cm == c * s.mib && cc == c * c
    ensures SquareAbout(s, c) == mm - 2.0 * cm + cc
  {
  }

  lemma {:induction false} WeightsOf(samples: seq<Sample>)
    ensures var f := FitOf(samples);
            f.launches == Min(|samples|, 10) && f.w == Weight(samples) && f.x == WeighedMib(samples)
  {
    if samples != [] {
      WeightsOf(samples[..|samples| - 1]);
    }
  }

  lemma {:induction false} SquaresOf(samples: seq<Sample>, c: real)
    ensures AboutOf(FitOf(samples), c) == SquaresAbout(samples, c)
  {
    hide AboutOf, Add, SquareAbout;
    if samples == [] {
      AboutNothing(c);
    } else {
      var before, s := samples[..|samples| - 1], samples[|samples| - 1];
      SquaresOf(before, c);
      AboutAdds(FitOf(before), s, c);
    }
  }

  lemma AboutNothing(c: real)
    ensures AboutOf(NoFit, c) == 0.0
  {
  }

  lemma VarianceIs(f: Fit)
    requires f.w > 0.0
    ensures AboutOf(f, f.x / f.w) / f.w == VarX(f)
  {
    var mean := f.x / f.w;
    assert mean * f.w == f.x;
    assert mean * mean * f.w == mean * f.x;
    assert AboutOf(f, mean) == f.xx - mean * f.x;
    QuotientOf(f.xx, mean, f.x, f.w);
  }

  lemma QuotientOf(xx: real, mean: real, x: real, w: real)
    requires w > 0.0 && mean == x / w
    ensures (xx - mean * x) / w == xx / w - mean * mean
  {
    var mx := mean * x;
    assert mx / w == mean * (x / w);
    assert (xx - mx) / w == xx / w - mx / w;
  }

  /** A cost is published with a sample if and only if the samples so far are telling. */
  lemma PublishesExactly(samples: seq<Sample>)
    requires samples != []
    ensures Publishes(FitOf(samples)) <==> Telling(samples)
  {
    hide FitOf, AboutOf, SquaresAbout, Weight, WeighedMib, VarX;
    WeightPositive(samples);
    var f := FitOf(samples);
    WeightsOf(samples);
    SquaresOf(samples, MeanMib(samples));
    VarianceIs(f);
    assert MeanMib(samples) == f.x / f.w;
    SpreadIs(f);
  }

  lemma SpreadIs(f: Fit)
    requires f.w > 0.0
    ensures var mean := f.x / f.w;
            Publishes(f) <==> f.launches >= 10 && VarX(f) >= 0.01 * (mean * mean)
  {
    hide VarX;
    var mean := f.x / f.w;
    assert MIN_SPREAD * MIN_SPREAD * mean * mean == 0.01 * (mean * mean);
  }

  /** A slope with which no line has a smaller squared error. */
  ghost predicate BestSlope(samples: seq<Sample>, slope: real) {
    exists intercept :: BestLine(samples, slope, intercept)
  }

  ghost predicate BestLine(samples: seq<Sample>, slope: real, intercept: real) {
    forall a, b :: SquaredError(samples, slope, intercept) <= SquaredError(samples, a, b)
  }

  /** Telling samples put their best slope to use; others leave the cost in use as it was. */
  lemma PublishedIsBest(samples: seq<Sample>)
    requires AllMoved(samples) && samples != []
    ensures Telling(samples) ==> BestSlope(samples, Published(samples))
    ensures !Telling(samples) ==> Published(samples) == Published(samples[..|samples| - 1])
  {
    hide Telling, SquaredError, FitOf, Slope, Intercept, Publishes;
    FitIsSound(samples);
    PublishesExactly(samples);
    if Telling(samples) {
      forall a, b
        ensures SquaredError(samples, Slope(FitOf(samples)), Intercept(FitOf(samples))) <= SquaredError(samples, a, b)
      {
        LeastSquares(samples, a, b);
      }
      assert BestLine(samples, Slope(FitOf(samples)), Intercept(FitOf(samples)));
    }
  }

  /** Whether any samples so far have been telling. */
  ghost predicate EverTelling(samples: seq<Sample>) {
    exists n :: 0 <= n <= |samples| && Telling(samples[..n])
  }

  lemma EverTellingNext(samples: seq<Sample>)
    requires samples != []
    ensures EverTelling(samples) <==> Telling(samples) || EverTelling(samples[..|samples| - 1])
  {
    hide Telling;
    var before := samples[..|samples| - 1];
    assert samples[..|samples|] == samples;
    forall n | 0 <= n < |samples|
      ensures samples[..n] == before[..n]
    {
    }
    if EverTelling(before) {
      var n :| 0 <= n <= |before| && Telling(before[..n]);
      assert Telling(samples[..n]);
    }
    if EverTelling(samples) && !Telling(samples) {
      var n :| 0 <= n <= |samples| && Telling(samples[..n]);
      assert n < |samples| && Telling(before[..n]);
    }
  }

  /** On a line, the cost in use is the line's from the first telling samples on, and none before. */
  lemma {:induction false} CostInUse(samples: seq<Sample>, cost: real, overhead: real)
    requires AllMoved(samples) && OnLine(samples, cost, overhead)
    ensures Published(samples) == if EverTelling(samples) then cost else 0.0
  {
    hide Slope, Publishes, FitOf, Telling, EverTelling;
    if samples == [] {
      NothingTells();
    } else {
      CostInUse(samples[..|samples| - 1], cost, overhead);
      FitIsSound(samples);
      PublishesExactly(samples);
      EverTellingNext(samples);
      if Publishes(FitOf(samples)) {
        CostRecovered(samples, cost, overhead);
      }
    }
  }

  /** The same of whatever line they are on. */
  lemma CostInUseOnAnyLine(samples: seq<Sample>)
    requires AllMoved(samples)
    ensures forall cost, overhead :: OnLine(samples, cost, overhead) ==>
              Published(samples) == if EverTelling(samples) then cost else 0.0
  {
    forall cost, overhead | OnLine(samples, cost, overhead)
      ensures Published(samples) == if EverTelling(samples) then cost else 0.0
    {
      CostInUse(samples, cost, overhead);
    }
  }

  lemma NothingTells()
    ensures !EverTelling([])
  {
  }
}
