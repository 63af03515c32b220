/** `util::BuildNormalSchedulePoints`: a bell of load points with an exact integer total. */
module NormalSchedule {
  import opened Prelude

  // ----- Sums

  function Sum(s: seq<real>, n: nat): real
    requires n <= |s|
  {
    if n == 0 then 0.0 else Sum(s, n - 1) + s[n - 1]
  }

  function Total(s: seq<int>, n: nat): int
    requires n <= |s|
  {
    if n == 0 then 0 else Total(s, n - 1) + s[n - 1]
  }

  lemma {:induction false} SumScaled(s: seq<real>, t: seq<real>, c: real, n: nat)
    requires n <= |s| == |t|
    requires forall i :: 0 <= i < n ==> t[i] == c * s[i]
    ensures Sum(t, n) == c * Sum(s, n)
  {
    if n > 0 {
      SumScaled(s, t, c, n - 1);
    }
  }

  lemma {:induction false} SumPositive(s: seq<real>, n: nat)
    requires n <= |s|
    requires forall i :: 0 <= i < n ==> s[i] > 0.0
    ensures Sum(s, n) >= 0.0 && (n > 0 ==> Sum(s, n) > 0.0)
  {
    if n > 0 {
      SumPositive(s, n - 1);
    }
  }

  lemma {:induction false} SumBounded(s: seq<real>, cap: real, n: nat)
    requires n <= |s|
    requires forall i :: 0 <= i < n ==> s[i] <= cap
    ensures Sum(s, n) <= cap * n as real
  {
    if n > 0 {
      SumBounded(s, cap, n - 1);
    }
  }

  lemma {:induction false} SumConstant(s: seq<real>, c: real, n: nat)
    requires n <= |s|
    requires forall i :: 0 <= i < n ==> s[i] == c
    ensures Sum(s, n) == c * n as real
  {
    if n > 0 {
      SumConstant(s, c, n - 1);
    }
  }

  lemma {:induction false} TotalUpdate(s: seq<int>, i: nat, v: int, n: nat)
    requires i < |s| && n <= |s|
    ensures Total(s[i := v], n) == Total(s, n) + if i < n then v - s[i] else 0
  {
    if n > 0 {
      TotalUpdate(s, i, v, n - 1);
    }
  }

  // ----- Water-filling

  ghost predicate AllPositive(s: seq<real>) {
    forall i :: 0 <= i < |s| ==> s[i] > 0.0
  }

  /** What the first `n` values hold above the cap. */
  function Excess(v: seq<real>, cap: real, n: nat): real
    requires n <= |v|
  {
    if n == 0 then 0.0 else Excess(v, cap, n - 1) + if v[n - 1] > cap then v[n - 1] - cap else 0.0
  }

  /** The sum of those below it. */
  function FreeWeight(v: seq<real>, cap: real, n: nat): real
    requires n <= |v|
  {
    if n == 0 then 0.0 else FreeWeight(v, cap, n - 1) + if v[n - 1] < cap then v[n - 1] else 0.0
  }

  /** The values that are at the cap. */
  function Pinned(v: seq<real>, cap: real, n: nat): (r: nat)
    requires n <= |v|
    ensures r <= n
  {
    if n == 0 then 0 else Pinned(v, cap, n - 1) + if v[n - 1] == cap then 1 else 0
  }

  ghost predicate Clipped(v: seq<real>, c: seq<real>, cap: real) {
    |c| == |v| && forall i :: 0 <= i < |v| ==> c[i] == MinReal(v[i], cap)
  }

  ghost predicate Spread(c: seq<real>, s: seq<real>, cap: real, factor: real) {
    |s| == |c| && forall i :: 0 <= i < |c| ==> s[i] == if c[i] < cap then factor * c[i] else c[i]
  }

  lemma {:induction false} ClipTakesExcess(v: seq<real>, c: seq<real>, cap: real, n: nat)
    requires Clipped(v, c, cap) && n <= |v|
    ensures Sum(c, n) == Sum(v, n) - Excess(v, cap, n)
    ensures FreeWeight(c, cap, n) == FreeWeight(v, cap, n)
    ensures Pinned(c, cap, n) >= Pinned(v, cap, n)
    ensures Excess(v, cap, n) >= 0.0
    ensures Excess(v, cap, n) > 0.0 ==> Pinned(c, cap, n) > Pinned(v, cap, n)
  {
    if n > 0 {
      ClipTakesExcess(v, c, cap, n - 1);
    }
  }

  /** What growing by a factor adds to a weight. */
  function Growth(factor: real, weight: real): real {
    (factor - 1.0) * weight
  }

  lemma GrowthAdds(factor: real, weight: real, x: real, grown: real, sum: real)
    requires sum == weight + x && grown == factor * x
    ensures Growth(factor, sum) == Growth(factor, weight) + (grown - x)
  {
  }

  lemma {:induction false} SpreadAdds(c: seq<real>, s: seq<real>, cap: real, factor: real, n: nat)
    requires Spread(c, s, cap, factor) && n <= |c|
    ensures Sum(s, n) == Sum(c, n) + Growth(factor, FreeWeight(c, cap, n))
  {
    if n > 0 {
      hide Growth;
      SpreadAdds(c, s, cap, factor, n - 1);
      if c[n - 1] < cap {
        GrowthAdds(factor, FreeWeight(c, cap, n - 1), c[n - 1], s[n - 1], FreeWeight(c, cap, n));
      }
    }
  }

  lemma {:induction false} SpreadKeepsPinned(c: seq<real>, s: seq<real>, cap: real, factor: real, n: nat)
    requires Spread(c, s, cap, factor) && n <= |c|
    ensures Pinned(s, cap, n) >= Pinned(c, cap, n)
  {
    if n > 0 {
      SpreadKeepsPinned(c, s, cap, factor, n - 1);
    }
  }

  lemma {:induction false} FreeUnlessPinned(v: seq<real>, cap: real, n: nat)
    requires n <= |v| && AllPositive(v)
    requires forall i :: 0 <= i < n ==> v[i] <= cap
    ensures FreeWeight(v, cap, n) >= 0.0
    ensures FreeWeight(v, cap, n) == 0.0 || Pinned(v, cap, n) == n ==> forall i :: 0 <= i < n ==> v[i] == cap
  {
    if n > 0 {
      FreeUnlessPinned(v, cap, n - 1);
    }
  }

  /** Scaled up by one factor for all, except that what reached the cap stays there. */
  ghost predicate ScaledToCap(values: seq<real>, v: seq<real>, cap: real, scale: real) {
    |v| == |values| && scale >= 1.0 &&
    forall i :: 0 <= i < |v| ==> v[i] == scale * values[i] || (v[i] == cap <= scale * values[i])
  }

  lemma {:induction false} ScaledOnce(values: seq<real>, v: seq<real>, c: seq<real>, s: seq<real>, cap: real,
                                      scale: real, factor: real)
    requires AllPositive(values) && ScaledToCap(values, v, cap, scale) && factor >= 1.0
    requires Clipped(v, c, cap) && Spread(c, s, cap, factor)
    ensures ScaledToCap(values, s, cap, scale * factor)
  {
  }

  /** One round's clipping. */
  method Clip(values: seq<real>, cap: real) returns (v: seq<real>, excess: real, freeWeight: real)
    ensures Clipped(values, v, cap)
    ensures excess == Excess(values, cap, |values|) && freeWeight == FreeWeight(values, cap, |values|)
  {
    v, excess, freeWeight := values, 0.0, 0.0;
    for i := 0 to |values|
      invariant |v| == |values|
      invariant forall j :: 0 <= j < i ==> v[j] == MinReal(values[j], cap)
      invariant forall j :: i <= j < |v| ==> v[j] == values[j]
      invariant excess == Excess(values, cap, i) && freeWeight == FreeWeight(values, cap, i)
    {
      if v[i] > cap {
        excess := excess + (v[i] - cap);
        v := v[i := cap];
      } else if v[i] < cap {
        freeWeight := freeWeight + v[i];
      }
    }
  }

  /** One round's handing out of the excess, in proportion. */
  method HandOut(values: seq<real>, cap: real, excess: real, freeWeight: real) returns (v: seq<real>)
    requires freeWeight > 0.0
    ensures Spread(values, v, cap, 1.0 + excess / freeWeight)
  {
    v := values;
    for i := 0 to |values|
      invariant |v| == |values|
      invariant forall j :: 0 <= j < i ==>
        v[j] == if values[j] < cap then (1.0 + excess / freeWeight) * values[j] else values[j]
      invariant forall j :: i <= j < |v| ==> v[j] == values[j]
    {
      if v[i] < cap {
        Proportional(excess, freeWeight, v[i]);
        v := v[i := v[i] + excess * (v[i] / freeWeight)];
      }
    }
  }

  /** A whole round keeps the sum and the common factor, and pins another value at the cap. */
  lemma RoundKeeps(values: seq<real>, v: seq<real>, c: seq<real>, s: seq<real>, cap: real, scale: real, factor: real)
    requires AllPositive(values) && cap > 0.0 && ScaledToCap(values, v, cap, scale) && |c| == |v| == |s|
    requires var excess, free := Excess(v, cap, |v|), FreeWeight(v, cap, |v|);
             excess > 0.0 && free > 0.0 && factor == 1.0 + excess / free
    requires Clipped(v, c, cap) && Spread(c, s, cap, factor)
    ensures ScaledToCap(values, s, cap, scale * factor)
    ensures AllPositive(s) && Sum(s, |s|) == Sum(v, |v|) && Pinned(s, cap, |s|) > Pinned(v, cap, |v|)
  {
    hide Sum, Excess, FreeWeight, Pinned, ScaledToCap, AllPositive, Clipped, Spread;
    QuotientTimes(Excess(v, cap, |v|), FreeWeight(v, cap, |v|));
    ClipTakesExcess(v, c, cap, |v|);
    SpreadAdds(c, s, cap, factor, |v|);
    SpreadKeepsPinned(c, s, cap, factor, |v|);
    ScaledOnce(values, v, c, s, cap, scale, factor);
    AllPositiveScaled(values, s, cap, scale * factor);
  }

  /** Rounds of cutting off at the cap and sharing out what was cut off, until there is (next to)
      nothing to share, or nobody to share it. The outcome is the simple one: a single factor
      for all values, cut off at the cap. What is dropped is next to nothing, unless there is no
      room for it. */
  method WaterFill(values: seq<real>, cap: real) returns (filled: seq<real>, ghost scale: real, ghost dropped: real)
    requires AllPositive(values) && cap > 0.0
    ensures |filled| == |values| && scale >= 1.0
    ensures forall i :: 0 <= i < |values| ==> filled[i] == MinReal(cap, scale * values[i])
    ensures Sum(filled, |values|) == Sum(values, |values|) - dropped && dropped >= 0.0
    ensures dropped <= 0.000000001 || forall i :: 0 <= i < |values| ==> filled[i] == cap
  {
    hide Sum, Excess, FreeWeight, Pinned;
    filled, scale, dropped := values, 1.0, 0.0;
    for round := 0 to |values|
      invariant ScaledToCap(values, filled, cap, scale) && AllPositive(filled)
      invariant Sum(filled, |values|) == Sum(values, |values|)
      invariant Pinned(filled, cap, |values|) >= round
    {
      var clipped, excess, freeWeight := Clip(filled, cap);
      ClipTakesExcess(filled, clipped, cap, |values|);
      FreeUnlessPinned(clipped, cap, |values|);
      if excess <= 0.000000001 || freeWeight <= 0.0 {
        filled, dropped := clipped, excess;
        return;
      }
      var next := HandOut(clipped, cap, excess, freeWeight);
      ghost var factor := 1.0 + excess / freeWeight;
      RoundKeeps(values, filled, clipped, next, cap, scale, factor);
      filled, scale := next, scale * factor;
    }
    AllPinned(filled, cap, |values|);
  }

  lemma QuotientTimes(a: real, b: real)
    requires a >= 0.0 && b > 0.0
    ensures a / b * b == a && a / b >= 0.0
  {
  }

  lemma Proportional(excess: real, weight: real, v: real)
    requires weight > 0.0
    ensures v + excess * (v / weight) == (1.0 + excess / weight) * v
  {
  }

  lemma AllPositiveScaled(values: seq<real>, v: seq<real>, cap: real, scale: real)
    requires AllPositive(values) && cap > 0.0 && ScaledToCap(values, v, cap, scale)
    ensures AllPositive(v)
  {
  }

  lemma {:induction false} AllPinned(v: seq<real>, cap: real, n: nat)
    requires n <= |v| && Pinned(v, cap, n) >= n
    ensures forall i :: 0 <= i < n ==> v[i] == cap
  {
    if n > 0 {
      AllPinned(v, cap, n - 1);
    }
  }

  // ----- Largest-remainder rounding

  function Remainder(v: real): real {
    v - v.Floor as real
  }

  /** Place index `i` behind the indices whose values have at least as large a remainder. */
  function Insert(values: seq<real>, order: seq<nat>, i: nat): (r: seq<nat>)
    requires i < |values| && forall k :: 0 <= k < |order| ==> order[k] < |values|
    ensures |r| == |order| + 1
    ensures forall k :: 0 <= k < |r| ==> r[k] == i || r[k] in order
    ensures i in r && forall j :: j in order ==> j in r
  {
    if order == [] then [i]
    else if Remainder(values[i]) > Remainder(values[order[0]]) then [i] + order
    else
      var rest := Insert(values, order[1..], i);
      assert forall j :: j in order ==> j == order[0] || j in order[1..];
      assert forall j :: j in rest ==> j in [order[0]] + rest;
      [order[0]] + rest
  }

  /** The stable order of the first `n` indices by falling remainder. */
  function ByRemainder(values: seq<real>, n: nat): (r: seq<nat>)
    requires n <= |values|
    ensures |r| == n && forall k :: 0 <= k < n ==> r[k] < n
  {
    if n == 0 then [] else Insert(values, ByRemainder(values, n - 1), n - 1)
  }

  /** A larger remainder, or the same and an earlier place. */
  predicate Ahead(values: seq<real>, i: nat, j: nat)
    requires i < |values| && j < |values|
  {
    Remainder(values[i]) > Remainder(values[j]) || (Remainder(values[i]) == Remainder(values[j]) && i < j)
  }

  ghost predicate Falling(values: seq<real>, order: seq<nat>) {
    && (forall k :: 0 <= k < |order| ==> order[k] < |values|)
    && (forall j, k :: 0 <= j < k < |order| ==> Ahead(values, order[j], order[k]))
  }

  ghost predicate Distinct(order: seq<nat>) {
    forall j, k :: 0 <= j < k < |order| ==> order[j] != order[k]
  }

  lemma PrependSorts(values: seq<real>, i: nat, order: seq<nat>)
    requires i < |values| && Falling(values, order) && Distinct(order) && i !in order
    requires forall k :: 0 <= k < |order| ==> Ahead(values, i, order[k])
    ensures Falling(values, [i] + order) && Distinct([i] + order)
  {
  }

  lemma {:induction false} InsertSorts(values: seq<real>, order: seq<nat>, i: nat)
    requires i < |values| && Falling(values, order) && Distinct(order)
    requires forall k :: 0 <= k < |order| ==> order[k] < i
    ensures Falling(values, Insert(values, order, i)) && Distinct(Insert(values, order, i))
  {
    hide Remainder;
    if order == [] {
    } else if Remainder(values[i]) > Remainder(values[order[0]]) {
      PrependSorts(values, i, order);
    } else {
      var first, rest := order[0], order[1..];
      InsertSorts(values, rest, i);
      forall k | 0 <= k < |Insert(values, rest, i)|
        ensures var j := Insert(values, rest, i)[k]; j != first && Ahead(values, first, j)
      {
        var j := Insert(values, rest, i)[k];
        if j != i {
          var m :| 0 <= m < |rest| && rest[m] == j;
          assert order[m + 1] == j;
        }
      }
      PrependSorts(values, first, Insert(values, rest, i));
    }
  }

  lemma ByRemainderNext(values: seq<real>, n: nat)
    requires 0 < n <= |values|
    ensures ByRemainder(values, n) == Insert(values, ByRemainder(values, n - 1), n - 1)
  {
    hide Insert;
  }

  lemma NothingSorts(values: seq<real>)
    ensures ByRemainder(values, 0) == [] && Falling(values, []) && Distinct([])
  {
  }

  lemma {:induction false} ByRemainderSorts(values: seq<real>, n: nat)
    requires n <= |values|
    ensures Falling(values, ByRemainder(values, n)) && Distinct(ByRemainder(values, n))
  {
    hide ByRemainder, Insert, Falling, Distinct;
    if n == 0 {
      NothingSorts(values);
    } else {
      ByRemainderNext(values, n);
      ByRemainderSorts(values, n - 1);
      InsertSorts(values, ByRemainder(values, n - 1), n - 1);
    }
  }

  lemma {:induction false} ByRemainderHasAll(values: seq<real>, n: nat)
    requires n <= |values|
    ensures forall i :: 0 <= i < n ==> i in ByRemainder(values, n)
  {
    if n > 0 {
      hide Insert;
      ByRemainderHasAll(values, n - 1);
    }
  }

  /** Whether a point may be rounded up. */
  predicate CanRise(v: real, maxPoint: int) {
    maxPoint <= 0 || v.Floor < maxPoint
  }

  /** How many of the indices in `order` belong to such points. */
  function Risers(values: seq<real>, order: seq<nat>, maxPoint: int): nat
    requires forall k :: 0 <= k < |order| ==> order[k] < |values|
  {
    if order == [] then 0
    else (if CanRise(values[order[0]], maxPoint) then 1 else 0) + Risers(values, order[1..], maxPoint)
  }

  lemma {:induction false} InsertRisers(values: seq<real>, order: seq<nat>, i: nat, maxPoint: int)
    requires i < |values| && forall k :: 0 <= k < |order| ==> order[k] < |values|
    ensures Risers(values, Insert(values, order, i), maxPoint)
            == Risers(values, order, maxPoint) + if CanRise(values[i], maxPoint) then 1 else 0
  {
    if order != [] && Remainder(values[i]) <= Remainder(values[order[0]]) {
      InsertRisers(values, order[1..], i, maxPoint);
    }
  }

  function Floors(values: seq<real>): seq<int> {
    seq(|values|, i requires 0 <= i < |values| => values[i].Floor)
  }

  /** What rounding down takes off is at most one per point that may be rounded up again. */
  lemma {:induction false} FloorsLose(values: seq<real>, n: nat, maxPoint: int)
    requires n <= |values|
    requires forall i :: 0 <= i < n && maxPoint > 0 ==> values[i] <= maxPoint as real
    ensures Total(Floors(values), n) as real <= Sum(values, n)
    ensures Sum(values, n)
            <= Total(Floors(values), n) as real + Risers(values, ByRemainder(values, n), maxPoint) as real
  {
    if n > 0 {
      FloorsLose(values, n - 1, maxPoint);
      InsertRisers(values, ByRemainder(values, n - 1), n - 1, maxPoint);
    }
  }

  /** The points once the first `k` indices of the order have been seen. */
  ghost predicate RaisedTo(values: seq<real>, order: seq<nat>, k: nat, maxPoint: int, points: seq<int>)
    requires k <= |order|
  {
    |points| == |values| && forall i :: 0 <= i < |values| ==>
      points[i] == values[i].Floor + if i in order[..k] && CanRise(values[i], maxPoint) then 1 else 0
  }

  lemma RaiseNext(values: seq<real>, order: seq<nat>, k: nat, maxPoint: int, points: seq<int>)
    requires k < |order| && Distinct(order) && order[k] < |values| && RaisedTo(values, order, k, maxPoint, points)
    requires |points| == |values|
    ensures var i := order[k];
            var rises := !(maxPoint > 0 && points[i] >= maxPoint);
            && rises == CanRise(values[i], maxPoint)
            && RaisedTo(values, order, k + 1, maxPoint, if rises then points[i := points[i] + 1] else points)
  {
  }

  lemma RisersNext(values: seq<real>, order: seq<nat>, k: nat, maxPoint: int)
    requires k < |order| && forall j :: 0 <= j < |order| ==> order[j] < |values|
    ensures Risers(values, order[k..], maxPoint)
            == Risers(values, order[k + 1..], maxPoint) + if CanRise(values[order[k]], maxPoint) then 1 else 0
  {
  }

  method RoundDown(values: seq<real>) returns (points: seq<int>, assignedSum: int)
    ensures points == Floors(values) && assignedSum == Total(points, |points|)
  {
    points, assignedSum := [], 0;
    for i := 0 to |values|
      invariant points == Floors(values)[..i] && assignedSum == Total(Floors(values), i)
    {
      points := points + [values[i].Floor];
      assignedSum := assignedSum + points[i];
    }
  }

  /** Round down, then up again in the order of the remainders, until the total is right. */
  method RoundToTotal(values: seq<real>, total: int, maxPoint: int) returns (points: seq<int>)
    requires forall i :: 0 <= i < |values| && maxPoint > 0 ==> values[i] <= maxPoint as real
    requires Sum(values, |values|) <= total as real <= Sum(values, |values|) + 0.000000001
    ensures |points| == |values| && Total(points, |points|) == total
    ensures forall i :: 0 <= i < |values| ==> values[i].Floor <= points[i] <= values[i].Floor + 1
    ensures forall i :: 0 <= i < |values| && maxPoint > 0 ==> points[i] <= maxPoint
    ensures forall i, j :: 0 <= i < |values| && 0 <= j < |values| && values[i] < values[j] ==> points[i] <= points[j]
    ensures forall i, j :: 0 <= i < j < |values| && values[i] == values[j] ==> points[i] >= points[j]
    ensures LargestFirst(values, maxPoint, points) && Nearest(values, maxPoint, points)
  {
    hide *;
    var assignedSum;
    points, assignedSum := RoundDown(values);
    var order := ByRemainder(values, |values|);
    ByRemainderSorts(values, |values|);
    ByRemainderHasAll(values, |values|);
    FitsRisers(values, order, total, maxPoint);
    var k := 0;
    while assignedSum < total && k < |order|
      invariant k <= |order| && |points| == |values| && RaisedTo(values, order, k, maxPoint, points)
      invariant assignedSum == Total(points, |points|) <= total
      invariant total - assignedSum <= Risers(values, order[k..], maxPoint)
    {
      var i := order[k];
      RaiseNext(values, order, k, maxPoint, points);
      RisersNext(values, order, k, maxPoint);
      if !(maxPoint > 0 && points[i] >= maxPoint) {
        TotalUpdate(points, i, points[i] + 1, |points|);
        points := points[i := points[i] + 1];
        assignedSum := assignedSum + 1;
      }
      k := k + 1;
    }
    NoRisersLeft(values, order, maxPoint);
    RaisedInOrder(values, order, k, maxPoint, points);
    LargestFirstIsNearest(values, maxPoint, points);
  }

  lemma FitsRisers(values: seq<real>, order: seq<nat>, total: int, maxPoint: int)
    requires forall i :: 0 <= i < |values| && maxPoint > 0 ==> values[i] <= maxPoint as real
    requires Sum(values, |values|) <= total as real <= Sum(values, |values|) + 0.000000001
    requires order == ByRemainder(values, |values|)
    ensures 0 <= total - Total(Floors(values), |values|) <= Risers(values, order[0..], maxPoint)
    ensures |Floors(values)| == |values| && RaisedTo(values, order, 0, maxPoint, Floors(values))
  {
    hide ByRemainder, Sum, Risers, Total;
    FloorsLose(values, |values|, maxPoint);
    assert order[0..] == order;
  }

  lemma NoRisersLeft(values: seq<real>, order: seq<nat>, maxPoint: int)
    ensures Risers(values, order[|order|..], maxPoint) == 0
  {
  }

  /** A point is rounded up only if it may be, and only after all with a larger remainder, and those
      in front of it with the same one, that may be. */
  ghost predicate LargestFirst(values: seq<real>, maxPoint: int, points: seq<int>) {
    && |points| == |values|
    && (forall i :: 0 <= i < |values| ==> points[i] == values[i].Floor ||
                                          (points[i] == values[i].Floor + 1 && CanRise(values[i], maxPoint)))
    && (forall i, j :: 0 <= i < |values| && 0 <= j < |values| && points[i] > values[i].Floor
                       && Ahead(values, j, i) && CanRise(values[j], maxPoint)
                       ==> points[j] > values[j].Floor)
  }

  /** How far integers are from the values they stand for, in all. */
  function Deviation(points: seq<int>, values: seq<real>, n: nat): real
    requires n <= |points| == |values|
  {
    if n == 0 then 0.0 else Deviation(points, values, n - 1) + AbsReal(points[n - 1] as real - values[n - 1])
  }

  /** Other integers with the same total, none above the cap. */
  ghost predicate Rival(points: seq<int>, maxPoint: int, q: seq<int>) {
    && |q| == |points| && Total(q, |q|) == Total(points, |points|)
    && (maxPoint > 0 ==> forall i :: 0 <= i < |q| ==> q[i] <= maxPoint)
  }

  /** No integers with the same total, and within the cap, come nearer to the values. */
  ghost predicate Nearest(values: seq<real>, maxPoint: int, points: seq<int>) {
    && |points| == |values|
    && forall q: seq<int> :: Rival(points, maxPoint, q) ==>
         Deviation(points, values, |values|) <= Deviation(q, values, |values|)
  }

  /** What so many units are worth. */
  function Worth(worth: real, units: int): real {
    worth * units as real
  }

  lemma WorthAdds(worth: real, a: int, b: int)
    ensures Worth(worth, a + b) == Worth(worth, a) + Worth(worth, b) && Worth(worth, 0) == 0.0
  {
    assert (a + b) as real == a as real + b as real;
  }

  /** What one point can gain by being another integer is at most what each unit is worth elsewhere. */
  lemma NoGain(v: real, p: int, q: int, worth: real)
    requires -1.0 <= worth <= 1.0 && (p == v.Floor || p == v.Floor + 1)
    requires p == v.Floor + 1 ==> 1.0 - 2.0 * (v - v.Floor as real) <= worth
    requires p == v.Floor && q > p ==> 1.0 - 2.0 * (v - v.Floor as real) >= worth
    ensures AbsReal(q as real - v) - AbsReal(p as real - v) >= Worth(worth, q - p)
  {
    UnitsBound(worth, q - p);
    hide Worth;
    assert (q - p) as real == q as real - p as real;
  }

  /** Beyond the first, no unit is worth more than one, either way. */
  lemma UnitsBound(worth: real, units: int)
    requires -1.0 <= worth <= 1.0
    ensures units == 0 ==> Worth(worth, units) == 0.0
    ensures units >= 1 ==> Worth(worth, units) <= worth + units as real - 1.0
    ensures units <= -1 ==> Worth(worth, units) <= -worth - units as real - 1.0
  {
    var d := units as real;
    var wd := worth * d;
    if units >= 1 {
      NotNegative(1.0 - worth, d - 1.0);
      assert (1.0 - worth) * (d - 1.0) == d - 1.0 - wd + worth;
    } else if units <= -1 {
      NotNegative(1.0 + worth, -d - 1.0);
      assert (1.0 + worth) * (-d - 1.0) == -d - 1.0 - wd - worth;
    }
  }

  lemma {:induction false} NoGainInAll(values: seq<real>, p: seq<int>, q: seq<int>, worth: real, n: nat)
    requires n <= |values| == |p| == |q|
    requires forall i :: 0 <= i < n ==>
               AbsReal(q[i] as real - values[i]) - AbsReal(p[i] as real - values[i]) >= Worth(worth, q[i] - p[i])
    ensures Deviation(q, values, n) - Deviation(p, values, n) >= Worth(worth, Total(q, n) - Total(p, n))
  {
    hide AbsReal, Worth;
    if n == 0 {
      WorthAdds(worth, 0, 0);
    } else {
      NoGainInAll(values, p, q, worth, n - 1);
      var before, last := Total(q, n - 1) - Total(p, n - 1), q[n - 1] - p[n - 1];
      WorthAdds(worth, before, last);
      assert Total(q, n) - Total(p, n) == before + last;
    }
  }

  /** Of the points rounded up, one with the least remainder. */
  lemma {:induction false} LeastRaised(values: seq<real>, points: seq<int>, n: nat) returns (i: nat)
    requires n <= |values| == |points| && exists k :: 0 <= k < n && points[k] > values[k].Floor
    ensures i < n && points[i] > values[i].Floor
    ensures forall k :: 0 <= k < n && points[k] > values[k].Floor ==> Remainder(values[i]) <= Remainder(values[k])
  {
    hide Remainder;
    if exists k :: 0 <= k < n - 1 && points[k] > values[k].Floor {
      i := LeastRaised(values, points, n - 1);
      if points[n - 1] > values[n - 1].Floor && Remainder(values[n - 1]) < Remainder(values[i]) {
        i := n - 1;
      }
    } else {
      i := n - 1;
    }
  }

  /** What a unit is worth: raising no point that is not would cost less, lowering none that is. */
  lemma UnitWorth(values: seq<real>, maxPoint: int, points: seq<int>) returns (worth: real)
    requires LargestFirst(values, maxPoint, points)
    ensures -1.0 <= worth <= 1.0
    ensures forall k :: 0 <= k < |values| && points[k] > values[k].Floor ==> 1.0 - 2.0 * Remainder(values[k]) <= worth
    ensures forall k :: 0 <= k < |values| && points[k] == values[k].Floor && CanRise(values[k], maxPoint) ==>
              1.0 - 2.0 * Remainder(values[k]) >= worth
  {
    worth := -1.0;
    if exists k :: 0 <= k < |values| && points[k] > values[k].Floor {
      var i := LeastRaised(values, points, |values|);
      worth := 1.0 - 2.0 * Remainder(values[i]);
      forall k | 0 <= k < |values| && points[k] == values[k].Floor && CanRise(values[k], maxPoint)
        ensures Remainder(values[k]) <= Remainder(values[i])
      {
        assert !Ahead(values, k, i);
      }
    }
  }

  /** Rounding up the largest remainders is nearest. */
  lemma LargestFirstIsNearest(values: seq<real>, maxPoint: int, points: seq<int>)
    requires LargestFirst(values, maxPoint, points)
    ensures Nearest(values, maxPoint, points)
  {
    hide Total, Deviation, AbsReal, Worth;
    var worth := UnitWorth(values, maxPoint, points);
    forall q: seq<int> | Rival(points, maxPoint, q)
      ensures Deviation(points, values, |values|) <= Deviation(q, values, |values|)
    {
      forall i | 0 <= i < |values|
        ensures AbsReal(q[i] as real - values[i]) - AbsReal(points[i] as real - values[i])
                >= Worth(worth, q[i] - points[i])
      {
        NoGain(values[i], points[i], q[i], worth);
      }
      NoGainInAll(values, points, q, worth, |values|);
      WorthAdds(worth, 0, 0);
    }
  }

  lemma {:induction false} NoSmallerTotal(p: seq<int>, q: seq<int>, n: nat)
    requires n <= |p| == |q| && forall i :: 0 <= i < n ==> p[i] <= q[i]
    ensures Total(p, n) <= Total(q, n)
    ensures Total(p, n) == Total(q, n) ==> forall i :: 0 <= i < n ==> p[i] == q[i]
  {
    if n > 0 {
      NoSmallerTotal(p, q, n - 1);
    }
  }

  lemma RaisedInOne(values: seq<real>, maxPoint: int, p: seq<int>, q: seq<int>, i: nat)
    requires LargestFirst(values, maxPoint, p) && LargestFirst(values, maxPoint, q)
    requires i < |values| && p[i] > q[i]
    ensures forall j :: 0 <= j < |values| ==> q[j] <= p[j]
  {
    forall j | 0 <= j < |values|
      ensures q[j] <= p[j]
    {
      assert Ahead(values, i, j) || Ahead(values, j, i) || i == j;
    }
  }

  /** There is only one way of doing this for a total. */
  lemma OneRounding(values: seq<real>, maxPoint: int, p: seq<int>, q: seq<int>)
    requires LargestFirst(values, maxPoint, p) && LargestFirst(values, maxPoint, q)
    requires Total(p, |p|) == Total(q, |q|)
    ensures p == q
  {
    if i: nat :| i < |values| && p[i] != q[i] {
      if p[i] > q[i] {
        RaisedInOne(values, maxPoint, p, q, i);
        NoSmallerTotal(q, p, |p|);
      } else {
        RaisedInOne(values, maxPoint, q, p, i);
        NoSmallerTotal(p, q, |p|);
      }
    }
  }

  /** Whichever indices have been seen, the points are the values rounded down or up, none above
      the cap, and a larger value has not got the smaller point. */
  lemma RaisedInOrder(values: seq<real>, order: seq<nat>, k: nat, maxPoint: int, points: seq<int>)
    requires Falling(values, order) && k <= |order|
    requires RaisedTo(values, order, k, maxPoint, points) && |points| == |values|
    requires forall i :: 0 <= i < |values| ==> i in order
    requires forall i :: 0 <= i < |values| && maxPoint > 0 ==> values[i] <= maxPoint as real
    ensures forall i :: 0 <= i < |values| ==> values[i].Floor <= points[i] <= values[i].Floor + 1
    ensures forall i :: 0 <= i < |values| && maxPoint > 0 ==> points[i] <= maxPoint
    ensures forall i, j :: 0 <= i < |values| && 0 <= j < |values| && values[i] < values[j] ==> points[i] <= points[j]
    ensures forall i, j :: 0 <= i < j < |values| && values[i] == values[j] ==> points[i] >= points[j]
    ensures LargestFirst(values, maxPoint, points)
  {
    forall i, j | 0 <= i < |values| && 0 <= j < |values|
      ensures values[i] < values[j] ==> points[i] <= points[j]
      ensures i < j && values[i] == values[j] ==> points[i] >= points[j]
      ensures points[i] > values[i].Floor && Ahead(values, j, i) && CanRise(values[j], maxPoint) ==>
                points[j] > values[j].Floor
    {
      if i in order[..k] && Ahead(values, j, i) {
        LargerRemainderFirst(values, order, k, i, j);
      }
      if j in order[..k] && Ahead(values, i, j) {
        LargerRemainderFirst(values, order, k, j, i);
      }
    }
  }

  lemma LargerRemainderFirst(values: seq<real>, order: seq<nat>, k: nat, i: nat, j: nat)
    requires Falling(values, order) && k <= |order| && i < |values| && j < |values|
    requires i in order[..k] && j in order && Ahead(values, j, i)
    ensures j in order[..k]
  {
  }

  // ----- The schedule

  /** The bins' masses, scaled to a total. */
  method Normalise(binMass: seq<real>, total: real) returns (values: seq<real>, ghost factor: real)
    requires AllPositive(binMass) && binMass != [] && total > 0.0
    ensures |values| == |binMass| && factor > 0.0
    ensures forall i :: 0 <= i < |values| ==> values[i] == factor * binMass[i]
    ensures Sum(values, |values|) == total
  {
    var mass := 0.0;
    for i := 0 to |binMass|
      invariant mass == Sum(binMass, i)
    {
      mass := mass + binMass[i];
    }
    SumPositive(binMass, |binMass|);
    factor := total / mass;
    values := [];
    for i := 0 to |binMass|
      invariant |values| == i && forall j :: 0 <= j < i ==> values[j] == factor * binMass[j]
    {
      assert binMass[i] / mass * total == factor * binMass[i];
      values := values + [binMass[i] / mass * total];
    }
    SumScaled(binMass, values, factor, |binMass|);
    QuotientTimes(total, mass);
  }

  /** The mean load times the number of points; a cap below the mean takes its place. */
  function PromisedTotal(meanLoad: int, maxPoint: int, count: nat): int {
    (if maxPoint > 0 then Min(meanLoad, maxPoint) else meanLoad) * count
  }

  /** The target the source works out. */
  function TargetTotal(meanLoad: int, maxPoint: int, count: nat): int {
    var total := Round((meanLoad * count) as real);
    if maxPoint > 0 then Min(total, maxPoint * count) else total
  }

  lemma TargetIsPromised(meanLoad: int, maxPoint: int, count: nat)
    ensures TargetTotal(meanLoad, maxPoint, count) == PromisedTotal(meanLoad, maxPoint, count)
  {
  }

  /** A filled schedule holds the total, but for next to nothing if there is a cap. */
  ghost predicate Holds(filled: seq<real>, maxPoint: int, total: int) {
    && Sum(filled, |filled|) <= total as real <= Sum(filled, |filled|) + 0.000000001
    && (maxPoint <= 0 ==> Sum(filled, |filled|) == total as real)
  }

  /** The points are the masses by the one factor that makes them hold the total, cut off at the cap if
      there is one, and rounded to the nearest integers with that total, the largest remainders up. */
  ghost predicate FollowsMasses(binMass: seq<real>, maxPoint: int, total: int, points: seq<int>) {
    exists factor: real, filled: seq<real> ::
      && CutOff(binMass, filled, factor, maxPoint) && Holds(filled, maxPoint, total)
      && LargestFirst(filled, maxPoint, points) && Nearest(filled, maxPoint, points)
  }

  lemma UncappedFactor(binMass: seq<real>, filled: seq<real>, factor: real, maxPoint: int, total: int)
    requires maxPoint <= 0 && CutOff(binMass, filled, factor, maxPoint) && Holds(filled, maxPoint, total)
    ensures factor * Sum(binMass, |binMass|) == total as real
  {
    hide Sum;
    SumScaled(binMass, filled, factor, |binMass|);
  }

  lemma OneFactor(f: real, g: real, mass: real, total: real)
    requires mass > 0.0 && f * mass == total && g * mass == total
    ensures f == g
  {
    assert (f - g) * mass == 0.0;
  }

  lemma OneFilled(binMass: seq<real>, v: seq<real>, w: seq<real>, factor: real, maxPoint: int)
    requires CutOff(binMass, v, factor, maxPoint) && CutOff(binMass, w, factor, maxPoint)
    ensures v == w
  {
  }

  /** Without a cap that leaves only one schedule. */
  lemma OneSchedule(binMass: seq<real>, maxPoint: int, total: int, p: seq<int>, q: seq<int>)
    requires AllPositive(binMass) && binMass != [] && maxPoint <= 0
    requires FollowsMasses(binMass, maxPoint, total, p) && FollowsMasses(binMass, maxPoint, total, q)
    requires Total(p, |p|) == total == Total(q, |q|)
    ensures p == q
  {
    hide Sum, Total, LargestFirst, CutOff, Holds, Nearest;
    var f, v :| CutOff(binMass, v, f, maxPoint) && Holds(v, maxPoint, total) && LargestFirst(v, maxPoint, p);
    var g, w :| CutOff(binMass, w, g, maxPoint) && Holds(w, maxPoint, total) && LargestFirst(w, maxPoint, q);
    UncappedFactor(binMass, v, f, maxPoint, total);
    UncappedFactor(binMass, w, g, maxPoint, total);
    SumPositive(binMass, |binMass|);
    OneFactor(f, g, Sum(binMass, |binMass|), total as real);
    OneFilled(binMass, v, w, f, maxPoint);
    OneRounding(v, maxPoint, p, q);
  }

  /** The load points of a schedule from the (positive) masses of its bins. They add up exactly:
      to the mean load times their number, or, where the cap is below the mean, to the cap times
      their number. None is above the cap, or below zero, and their order is the bell's. */
  method BuildNormalSchedulePoints(binMass: seq<real>, meanLoad: int, maxPoint: int) returns (points: seq<int>)
    requires AllPositive(binMass)
    ensures |points| == |binMass|
    ensures meanLoad <= 0 ==> forall i :: 0 <= i < |points| ==> points[i] == 0
    ensures meanLoad > 0 ==> Total(points, |points|) == PromisedTotal(meanLoad, maxPoint, |points|)
    ensures meanLoad > 0 ==> FollowsMasses(binMass, maxPoint, PromisedTotal(meanLoad, maxPoint, |points|), points)
    ensures forall i :: 0 <= i < |points| ==> points[i] >= 0 && (maxPoint > 0 ==> points[i] <= maxPoint)
    ensures forall i, j :: 0 <= i < |points| && 0 <= j < |points| && binMass[i] < binMass[j] ==> points[i] <= points[j]
    ensures forall i, j :: 0 <= i < j < |points| && binMass[i] == binMass[j] ==> 0 <= points[i] - points[j] <= 1
  {
    hide Sum, Total, AllPositive, CutOff, Holds, LargestFirst, Nearest, PromisedTotal, TargetTotal;
    if binMass == [] {
      EmptyTotal();
      NothingFollows(maxPoint);
      return [];
    }
    if meanLoad <= 0 {
      return seq(|binMass|, _ => 0);
    }
    var total := (meanLoad * |binMass|) as real;
    MulMonotone(1, meanLoad, |binMass|);
    var values, factor := Normalise(binMass, total);
    AllPositiveFrom(binMass, values, factor);
    var targetTotal := TargetTotal(meanLoad, maxPoint, |binMass|);
    TargetIsPromised(meanLoad, maxPoint, |binMass|);
    ghost var normalised, scale, dropped := values, 1.0, 0.0;
    if maxPoint > 0 {
      values, scale, dropped := WaterFill(values, maxPoint as real);
    }
    CutOffOnce(binMass, normalised, values, factor, scale, maxPoint);
    FilledTotal(values, meanLoad, maxPoint, dropped);
    FilledHolds(values, meanLoad, maxPoint, targetTotal, dropped);
    points := RoundToTotal(values, targetTotal, maxPoint);
    assert CutOff(binMass, values, factor * scale, maxPoint) && Holds(values, maxPoint, targetTotal)
           && LargestFirst(values, maxPoint, points) && Nearest(values, maxPoint, points);
    OrderKept(binMass, factor * scale, maxPoint, values, points);
  }

  /** A mass times the factor, cut off at the cap if there is one. */
  ghost function CutAt(factor: real, mass: real, maxPoint: int): real {
    if maxPoint > 0 then MinReal(maxPoint as real, factor * mass) else factor * mass
  }

  /** One factor for all values, cut off at the cap if there is one. */
  ghost predicate CutOff(binMass: seq<real>, filled: seq<real>, factor: real, maxPoint: int) {
    && |filled| == |binMass| && factor > 0.0
    && forall i :: 0 <= i < |filled| ==> filled[i] == CutAt(factor, binMass[i], maxPoint)
  }

  lemma CutOffOnce(binMass: seq<real>, values: seq<real>, filled: seq<real>, factor: real, scale: real, maxPoint: int)
    requires |binMass| == |values| == |filled| && factor > 0.0 && scale >= 1.0
    requires forall i :: 0 <= i < |values| ==> values[i] == factor * binMass[i]
    requires maxPoint > 0 ==>
               forall i :: 0 <= i < |values| ==> filled[i] == MinReal(maxPoint as real, scale * values[i])
    requires maxPoint <= 0 ==> filled == values && scale == 1.0
    ensures CutOff(binMass, filled, factor * scale, maxPoint) && factor * scale > 0.0
    ensures maxPoint > 0 ==> forall i :: 0 <= i < |filled| ==> filled[i] <= maxPoint as real
  {
  }

  lemma NothingFollows(maxPoint: int)
    ensures FollowsMasses([], maxPoint, 0, [])
  {
    LargestFirstIsNearest([], maxPoint, []);
    assert CutOff([], [], 1.0, maxPoint) && Holds([], maxPoint, 0)
           && LargestFirst([], maxPoint, []) && Nearest([], maxPoint, []);
  }

  lemma EmptyTotal()
    ensures forall meanLoad, maxPoint :: PromisedTotal(meanLoad, maxPoint, 0) == Total([], 0)
    ensures Total([], 0) == 0
  {
  }

  lemma AllPositiveFrom(binMass: seq<real>, values: seq<real>, factor: real)
    requires AllPositive(binMass) && factor > 0.0 && |values| == |binMass|
    requires forall i :: 0 <= i < |values| ==> values[i] == factor * binMass[i]
    ensures AllPositive(values)
  {
  }

  /** The drop of at most 1e-9 costs no point: what water-filling leaves is within it of the
      promised total. */
  lemma FilledTotal(filled: seq<real>, meanLoad: int, maxPoint: int, dropped: real)
    requires meanLoad > 0 && filled != []
    requires maxPoint > 0 ==> forall i :: 0 <= i < |filled| ==> filled[i] <= maxPoint as real
    requires Sum(filled, |filled|) == (meanLoad * |filled|) as real - dropped && dropped >= 0.0
    requires dropped <= 0.000000001 || (maxPoint > 0 && forall i :: 0 <= i < |filled| ==> filled[i] == maxPoint as real)
    ensures var promised := PromisedTotal(meanLoad, maxPoint, |filled|);
            Sum(filled, |filled|) <= promised as real <= Sum(filled, |filled|) + 0.000000001
  {
    var n := |filled|;
    var mean, most := meanLoad * n, maxPoint * n;
    PromisedIs(meanLoad, maxPoint, n, mean, most);
    hide PromisedTotal, Sum;
    if maxPoint > 0 {
      SumBounded(filled, maxPoint as real, n);
      assert most as real == maxPoint as real * n as real;
      if dropped > 0.000000001 {
        SumConstant(filled, maxPoint as real, n);
      }
    }
  }

  lemma PromisedIs(meanLoad: int, maxPoint: int, n: nat, mean: int, most: int)
    requires mean == meanLoad * n && most == maxPoint * n
    ensures PromisedTotal(meanLoad, maxPoint, n) == if maxPoint > 0 then Min(mean, most) else mean
  {
    MulMonotone(meanLoad, maxPoint, n);
    MulMonotone(maxPoint, meanLoad, n);
  }

  lemma FilledHolds(filled: seq<real>, meanLoad: int, maxPoint: int, promised: int, dropped: real)
    requires Sum(filled, |filled|) == (meanLoad * |filled|) as real - dropped && (maxPoint <= 0 ==> dropped == 0.0)
    requires promised == PromisedTotal(meanLoad, maxPoint, |filled|)
    requires Sum(filled, |filled|) <= promised as real <= Sum(filled, |filled|) + 0.000000001
    ensures Holds(filled, maxPoint, promised)
  {
    hide Sum;
  }

  lemma PointsInOrder(mi: real, mj: real, factor: real, maxPoint: int, vi: real, vj: real, pi: int, pj: int)
    requires 0.0 < mi && 0.0 < mj && factor > 0.0
    requires vi == CutAt(factor, mi, maxPoint) && vj == CutAt(factor, mj, maxPoint)
    requires vi.Floor <= pi <= vi.Floor + 1 && vj.Floor <= pj <= vj.Floor + 1
    requires maxPoint > 0 ==> pi <= maxPoint && pj <= maxPoint
    requires vi < vj ==> pi <= pj
    ensures pi >= 0
    ensures mi < mj ==> pi <= pj
    ensures mi == mj ==> -1 <= pi - pj <= 1
  {
  }

  /** Scaling and cutting off keep the order of the bins, and rounding keeps what they leave. */
  lemma OrderKept(binMass: seq<real>, factor: real, maxPoint: int, filled: seq<real>, points: seq<int>)
    requires AllPositive(binMass) && |binMass| == |filled| == |points| && CutOff(binMass, filled, factor, maxPoint)
    requires forall i :: 0 <= i < |filled| ==> filled[i].Floor <= points[i] <= filled[i].Floor + 1
    requires forall i :: 0 <= i < |filled| && maxPoint > 0 ==> points[i] <= maxPoint
    requires forall i, j :: 0 <= i < |filled| && 0 <= j < |filled| && filled[i] < filled[j] ==> points[i] <= points[j]
    requires forall i, j :: 0 <= i < j < |filled| && filled[i] == filled[j] ==> points[i] >= points[j]
    ensures forall i :: 0 <= i < |points| ==> points[i] >= 0
    ensures forall i, j :: 0 <= i < |points| && 0 <= j < |points| && binMass[i] < binMass[j] ==> points[i] <= points[j]
    ensures forall i, j :: 0 <= i < j < |points| && binMass[i] == binMass[j] ==> 0 <= points[i] - points[j] <= 1
  {
    hide CutAt;
    forall i, j | 0 <= i < |points| && 0 <= j < |points|
      ensures points[i] >= 0
      ensures binMass[i] < binMass[j] ==> points[i] <= points[j]
      ensures i < j && binMass[i] == binMass[j] ==> 0 <= points[i] - points[j] <= 1
    {
      PointsInOrder(binMass[i], binMass[j], factor, maxPoint, filled[i], filled[j], points[i], points[j]);
    }
  }
}
