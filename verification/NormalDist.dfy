/** The bisection of `util::NormalDistribution`. */
module NormalDist {
  import opened Prelude

  const MAX_RANGE: real := 100_000.0
  const EPSILON: real := 0.0000001

  /** A comparison that turns true at a threshold, and stays so. */
  ghost predicate TurnsAt(compare: real -> bool, threshold: real) {
    forall x: real :: (x < threshold ==> !compare(x)) && (x > threshold ==> compare(x))
  }

  lemma FortyHalvings()
    ensures PowerOfTwo(39) == 549_755_813_888.0 && PowerOfTwo(40) == 1_099_511_627_776.0
  {
    assert PowerOfTwo(10) == 1024.0;
    assert PowerOfTwo(20) == 1_048_576.0;
    assert PowerOfTwo(30) == 1_073_741_824.0;
  }

  lemma PowerOfNone()
    ensures PowerOfTwo(0) == 1.0
  {
  }

  lemma PowerDoubles(n: nat)
    ensures PowerOfTwo(n + 1) == 2.0 * PowerOfTwo(n)
  {
  }

  /** With 41 iterations or more the search always ends by its width, within half of that width of
      the threshold; with fewer it ends by their number, within the width it has come to. */
  method FindXAxisPosition(mean: real, compare: real -> bool, maxIteration: int, ghost threshold: real)
    returns (x: real)
    requires TurnsAt(compare, threshold) && mean <= threshold <= mean + MAX_RANGE
    ensures maxIteration >= 41 ==> AbsReal(x - threshold) < EPSILON / 2.0
    ensures 0 < maxIteration <= 40 ==> AbsReal(x - threshold) * PowerOfTwo(maxIteration) <= MAX_RANGE
    ensures maxIteration <= 0 ==> x == 0.0
  {
    var l, r := mean, mean + MAX_RANGE;
    var iteration := 0;
    x := 0.0;
    hide PowerOfTwo;
    PowerOfNone();
    while l < r && iteration < maxIteration
      invariant 0 <= iteration <= 40 && iteration <= Max(maxIteration, 0)
      invariant l <= threshold <= r && l < r
      invariant (r - l) * PowerOfTwo(iteration) == MAX_RANGE
      invariant if iteration == 0 then x == 0.0 else x == l || x == r
      decreases 40 - iteration
    {
      x := (l + r) / 2.0;
      PowerDoubles(iteration);
      WidthTells(r - l, iteration);
      if r - l < EPSILON {
        break;
      }
      if compare(x) {
        r := x;
      } else {
        l := x;
      }
      iteration := iteration + 1;
    }
  }

  lemma TimesMore(w: real, p: real, q: real)
    requires w > 0.0 && p <= q
    ensures w * p <= w * q
  {
  }

  /** The width is below the bound just from the fortieth halving on. */
  lemma WidthTells(width: real, iteration: nat)
    requires width > 0.0 && width * PowerOfTwo(iteration) == MAX_RANGE && iteration <= 40
    ensures width < EPSILON <==> iteration == 40
  {
    hide PowerOfTwo;
    FortyHalvings();
    if iteration < 40 {
      PowerGrows(iteration, 39);
      TimesMore(width, PowerOfTwo(iteration), PowerOfTwo(39));
    }
  }
}
