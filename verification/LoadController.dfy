/** The CPU load controller: feedforward plus a small integral, with anti-windup
    (`cpu::LoadController`). */
module LoadControl {
  import opened Prelude

  const KI: real := 0.02

  /** What the controller should do to its integral. */
  function NextIntegral(integral: real, target: int, systemAvg: real, processAvg: real, capacity: int): real {
    var cap := capacity as real;
    var feedforward := target as real - MaxReal(0.0, systemAvg - processAvg);
    var error := target as real - systemAvg;
    var candidate := integral + KI * error;
    var raw := feedforward + candidate;
    if (raw > cap && error > 0.0) || (raw < 0.0 && error < 0.0) then integral else Clamp(candidate, -cap, cap)
  }

  /** The demand that an integral comes to against the room that others leave. */
  function Demand(integral: real, target: int, other: real, capacity: int): int {
    Round(Clamp(target as real - other + integral, 0.0, capacity as real))
  }

  /** What the controller is told at a tick. */
  datatype Reading = Reading(target: int, systemAvg: real, processAvg: real)

  /** The load of the other processes. */
  function OthersIn(r: Reading): real {
    MaxReal(0.0, r.systemAvg - r.processAvg)
  }

  /** The demand would be beyond a rail, and the error pushes it further. */
  predicate Pinned(integral: real, r: Reading, capacity: int) {
    var error := r.target as real - r.systemAvg;
    var raw := r.target as real - OthersIn(r) + integral + 0.02 * error;
    (raw > capacity as real && error > 0.0) || (raw < 0.0 && error < 0.0)
  }

  /** Anti-windup: the integral stays where it is while the output is pinned; otherwise it moves by a
      fiftieth of the error, as far as the capacity lets it. */
  ghost predicate AntiWindup(before: real, after: real, r: Reading, capacity: int) {
    var cap, moved := capacity as real, before + 0.02 * (r.target as real - r.systemAvg);
    && (Pinned(before, r, capacity) ==> after == before)
    && (!Pinned(before, r, capacity) ==>
          && -cap <= after <= cap && (-cap <= moved <= cap ==> after == moved)
          && (moved > cap ==> after == cap) && (moved < -cap ==> after == -cap))
  }

  /** The demand is, to the nearest whole number, what others leave of the target and the integral, as
      far as there is capacity. */
  ghost predicate Demanded(integral: real, demand: int, r: Reading, capacity: int) {
    var wanted := r.target as real - OthersIn(r) + integral;
    && 0 <= demand <= capacity
    && (0.0 <= wanted <= capacity as real ==> AbsReal(demand as real - wanted) <= 0.5)
    && (wanted <= 0.0 ==> demand == 0) && (wanted >= capacity as real ==> demand == capacity)
  }

  lemma IntegratesSo(integral: real, r: Reading, capacity: int)
    requires capacity > 0
    ensures AntiWindup(integral, NextIntegral(integral, r.target, r.systemAvg, r.processAvg, capacity), r, capacity)
  {
  }

  lemma DemandsSo(integral: real, r: Reading, capacity: int)
    requires capacity > 0
    ensures Demanded(integral, Demand(integral, r.target, OthersIn(r), capacity), r, capacity)
  {
  }

  class LoadController {
    var integral: real

    constructor ()
      ensures integral == 0.0
    {
      integral := 0.0;
    }

    /** The demand is within 0..capacity; the integral stays within the capacity either way once it
        is, and does not move when the output is at a rail and the error would push it further. */
    method Update(target: int, systemAvg: real, processAvg: real, capacity: int) returns (demand: int)
      modifies this
      ensures capacity <= 0 ==> demand == 0 && integral == old(integral)
      ensures capacity > 0 ==> 0 <= demand <= capacity
      ensures capacity > 0 ==>
                && integral == NextIntegral(old(integral), target, systemAvg, processAvg, capacity)
                && demand == Demand(integral, target, MaxReal(0.0, systemAvg - processAvg), capacity)
      ensures var r := Reading(target, systemAvg, processAvg);
              capacity > 0 ==>
                AntiWindup(old(integral), integral, r, capacity) && Demanded(integral, demand, r, capacity)
      ensures capacity > 0 && -(capacity as real) <= old(integral) <= capacity as real ==>
                -(capacity as real) <= integral <= capacity as real
    {
      if capacity <= 0 {
        return 0;
      }
      ghost var before, r := integral, Reading(target, systemAvg, processAvg);
      IntegratesSo(before, r, capacity);
      hide AntiWindup, Demanded;
      var cap := capacity as real;
      var other := MaxReal(0.0, systemAvg - processAvg);
      var feedforward := target as real - other;
      var error := target as real - systemAvg;
      var candidate := integral + KI * error;
      var raw := feedforward + candidate;
      var saturatedHigh := raw > cap && error > 0.0;
      var saturatedLow := raw < 0.0 && error < 0.0;
      if !saturatedHigh && !saturatedLow {
        integral := Clamp(candidate, -cap, cap);
      }
      DemandsSo(integral, r, capacity);
      demand := Round(Clamp(feedforward + integral, 0.0, cap));
    }
  }

  // ----- The closed loop

  /** A system whose other load is constant and whose workers deliver a fraction `e` of what they
      are asked for, measured exactly. */
  datatype Plant = Plant(target: int, other: real, e: real, capacity: int)

  /** The controller's integral and the demand it last made. */
  datatype Loop = Loop(integral: real, demand: int)

  ghost predicate Feasible(p: Plant) {
    0.0 <= p.other <= p.target as real && 0.0 < p.e <= 1.0 && p.capacity > 0
  }

  /** The load that the workers make. */
  function Ours(p: Plant, s: Loop): real {
    p.e * s.demand as real
  }

  function System(p: Plant, s: Loop): real {
    p.other + Ours(p, s)
  }

  function Tick(p: Plant, s: Loop): Loop {
    var integral := NextIntegral(s.integral, p.target, System(p, s), Ours(p, s), p.capacity);
    Loop(integral, Demand(integral, p.target, MaxReal(0.0, System(p, s) - Ours(p, s)), p.capacity))
  }

  function Ticks(p: Plant, s: Loop, n: nat): Loop {
    if n == 0 then s else Tick(p, Ticks(p, s, n - 1))
  }

  /** The gap that others leave. */
  function Gap(p: Plant): real {
    p.target as real - p.other
  }

  /** The demand at which the workers just fill the gap. */
  function Steady(p: Plant): real
    requires p.e > 0.0
  {
    Gap(p) / p.e
  }

  /** How far the integral is from where it makes up for what the workers do not deliver. */
  function Distance(p: Plant, s: Loop): real
    requires p.e > 0.0
  {
    AbsReal(s.integral - (Steady(p) - Gap(p)))
  }

  /** The demand is the one the integral comes to, and there is room for the steady demand with the
      distance still to go, or half a unit of rounding, on either side. */
  ghost predicate Headroom(p: Plant, s: Loop, room: real) {
    && Feasible(p)
    && s.demand == Demand(s.integral, p.target, p.other, p.capacity)
    && room >= 0.5 && Distance(p, s) <= room <= Steady(p)
    && Steady(p) + room <= p.capacity as real
  }

  /** A controller starts with headroom if the capacity has room for the steady demand and for as
      much above it as the integral has to make up. */
  lemma StartsWithHeadroom(p: Plant)
    requires Feasible(p) && Steady(p) >= 0.5
    requires var room := MaxReal(0.5, Steady(p) - Gap(p)); Steady(p) + room <= p.capacity as real
    ensures Headroom(p, Loop(0.0, Demand(0.0, p.target, p.other, p.capacity)), MaxReal(0.5, Steady(p) - Gap(p)))
  {
    hide Demand;
    SteadyFillsGap(p);
    NotNegative(Steady(p), 1.0 - p.e);
  }

  lemma SteadyFillsGap(p: Plant)
    requires p.e > 0.0
    ensures Steady(p) * p.e == Gap(p)
  {
  }

  /** Away from the rails, rounding is all that comes between the integral and the demand. */
  lemma DemandNear(p: Plant, s: Loop, room: real)
    requires Headroom(p, s, room)
    ensures AbsReal(s.demand as real - (Gap(p) + s.integral)) <= 0.5
    ensures Gap(p) >= 0.0
  {
    OffRails(p, s.integral, room);
  }

  /** One tick: the distance to the fixed point shrinks by the factor 1 - 0.02 e, but for at most
      0.01 e of rounding; so the headroom is kept. */
  lemma TickContracts(p: Plant, s: Loop, room: real)
    requires Headroom(p, s, room)
    ensures Distance(p, Tick(p, s)) <= Shrunk(p.e, Distance(p, s))
    ensures Headroom(p, Tick(p, s), room)
  {
    hide Demand, NextIntegral, Tick, Shrunk, Steady, Gap, Integrated;
    IntegratedNear(p, s, room);
    OffRails(p, Integrated(p, s), room);
    TickIs(p, s);
  }

  /** The integral after a tick off the rails. */
  function Integrated(p: Plant, s: Loop): real {
    s.integral + 0.02 * (Gap(p) - Ours(p, s))
  }

  lemma IntegratedNear(p: Plant, s: Loop, room: real)
    requires Headroom(p, s, room)
    ensures AbsReal(Integrated(p, s) - (Steady(p) - Gap(p))) <= Shrunk(p.e, Distance(p, s)) <= room
  {
    DemandNear(p, s, room);
    hide Demand, Steady, Gap;
    SteadyFillsGap(p);
    Contracts(Gap(p), p.e, Steady(p), s.integral, s.demand as real, Integrated(p, s), room);
  }

  lemma OffRails(p: Plant, integral: real, room: real)
    requires Feasible(p) && room <= Steady(p) && Steady(p) + room <= p.capacity as real
    requires AbsReal(integral - (Steady(p) - Gap(p))) <= room
    ensures 0.0 <= Gap(p) + integral <= p.capacity as real
    ensures -(p.capacity as real) <= integral <= p.capacity as real
  {
    SteadyFillsGap(p);
    StaysOffRails(Gap(p), p.e, Steady(p), p.capacity as real, integral, room);
  }

  /** What a tick leaves of a distance, rounding aside. */
  function Kept(e: real): real {
    1.0 - 0.02 * e
  }

  /** What a tick makes of a distance, at most: shrunk by the gain times the workers' efficiency,
      plus what rounding the demand to a whole number can put back. */
  function Shrunk(e: real, distance: real): real {
    Kept(e) * distance + 0.01 * e
  }

  /** Off the rails, the integral just integrates. */
  lemma NextIntegralIs(integral: real, target: int, other: real, ours: real, capacity: int, next: real)
    requires 0.0 <= other && next == integral + 0.02 * (target as real - other - ours)
    requires 0.0 <= target as real - other + next <= capacity as real && -(capacity as real) <= next <= capacity as real
    ensures NextIntegral(integral, target, other + ours, ours, capacity) == next
    ensures MaxReal(0.0, other + ours - ours) == other
  {
  }

  lemma TickIs(p: Plant, s: Loop)
    requires Feasible(p)
    requires 0.0 <= Gap(p) + Integrated(p, s) <= p.capacity as real
    requires -(p.capacity as real) <= Integrated(p, s) <= p.capacity as real
    ensures Tick(p, s) == Loop(Integrated(p, s), Demand(Integrated(p, s), p.target, p.other, p.capacity))
  {
    hide NextIntegral, Demand, MaxReal, Ours;
    NextIntegralIs(s.integral, p.target, p.other, Ours(p, s), p.capacity, Integrated(p, s));
  }

  /** The integral's next distance: its last one shrunk, and what rounding has put into the demand. */
  lemma NextDistance(gap: real, e: real, steady: real, integral: real, demand: real, d: real, delta: real)
    requires steady * e == gap && d == integral - (steady - gap) && delta == demand - (gap + integral)
    ensures integral + 0.02 * (gap - e * demand) - (steady - gap) == Kept(e) * d - 0.02 * (e * delta)
  {
    assert e * demand == e * (steady + d + delta) == gap + e * d + e * delta;
  }

  /** The integral's next value is nearer its fixed point, rounding of the demand aside. */
  lemma Contracts(gap: real, e: real, steady: real, integral: real, demand: real, next: real, room: real)
    requires 0.0 < e <= 1.0 && steady * e == gap && next == integral + 0.02 * (gap - e * demand) && room >= 0.5
    requires AbsReal(demand - (gap + integral)) <= 0.5 && AbsReal(integral - (steady - gap)) <= room
    ensures var d := AbsReal(integral - (steady - gap));
            AbsReal(next - (steady - gap)) <= Shrunk(e, d) <= room
  {
    var d, delta := integral - (steady - gap), demand - (gap + integral);
    NextDistance(gap, e, steady, integral, demand, d, delta);
    ShrunkBounds(e, d, delta, next - (steady - gap), room);
  }

  lemma ShrunkBounds(e: real, d: real, delta: real, nextDistance: real, room: real)
    requires 0.0 < e <= 1.0 && room >= 0.5 && AbsReal(delta) <= 0.5 && AbsReal(d) <= room
    requires nextDistance == Kept(e) * d - 0.02 * (e * delta)
    ensures AbsReal(nextDistance) <= Shrunk(e, AbsReal(d)) <= room
  {
    var size, keep := AbsReal(d), Kept(e);
    var kd, ks, ed, he := keep * d, keep * size, e * delta, e * 0.5;
    ShrunkFits(e, size, room);
    hide Kept, AbsReal;
    Product(keep, d, size, kd, ks);
    Product(e, delta, 0.5, ed, he);
    Near(nextDistance, kd, ks, ed, he);
  }

  lemma Near(next: real, kept: real, most: real, noise: real, mostNoise: real)
    requires next == kept - 0.02 * noise && -most <= kept <= most && -mostNoise <= noise <= mostNoise
    ensures AbsReal(next) <= most + 0.02 * mostNoise
  {
  }

  lemma Product(x: real, y: real, most: real, xy: real, xMost: real)
    requires x >= 0.0 && AbsReal(y) <= most && xy == x * y && xMost == x * most
    ensures -xMost <= xy <= xMost
  {
    assert x * (most - y) >= 0.0 && x * (most + y) >= 0.0;
  }

  lemma ShrunkFits(e: real, size: real, room: real)
    requires 0.0 < e <= 1.0 && room >= 0.5 && size <= room
    ensures Shrunk(e, size) <= room
  {
    assert Kept(e) * (room - size) >= 0.0;
    assert e * (room - 0.5) >= 0.0;
  }

  lemma StaysOffRails(gap: real, e: real, steady: real, cap: real, integral: real, room: real)
    requires 0.0 <= gap && 0.0 < e <= 1.0 && steady * e == gap && room <= steady && steady + room <= cap
    requires AbsReal(integral - (steady - gap)) <= room
    ensures 0.0 <= gap + integral <= cap && -cap <= integral <= cap
  {
    NotNegative(steady, 1.0 - e);
  }

  // ----- Whole runs

  function Power(q: real, n: nat): real {
    if n == 0 then 1.0 else q * Power(q, n - 1)
  }

  /** What one tick keeps of the distance beyond the half unit that rounding can hold up. */
  function Keep(p: Plant): real {
    Kept(p.e)
  }

  /** A distance that falls off geometrically, down to half a unit. */
  function Remaining(p: Plant, distance: real, n: nat): real {
    Power(Keep(p), n) * distance + 0.5
  }

  lemma RemainingShrinks(p: Plant, first: real, distance: real, n: nat)
    requires 0.0 < p.e <= 1.0 && n > 0 && distance <= Remaining(p, first, n - 1)
    ensures Shrunk(p.e, distance) <= Remaining(p, first, n)
  {
  }

  /** The headroom lasts, and the distance falls off. */
  lemma {:induction false} DistanceFalls(p: Plant, s: Loop, room: real, n: nat)
    requires Headroom(p, s, room)
    ensures Headroom(p, Ticks(p, s, n), room)
    ensures Distance(p, Ticks(p, s, n)) <= Remaining(p, Distance(p, s), n)
  {
    FeasibleOf(p, s, room);
    if n == 0 {
      assert Remaining(p, Distance(p, s), 0) == Distance(p, s) + 0.5;
    } else {
      hide Tick, Shrunk, Distance, Remaining, Headroom;
      DistanceFalls(p, s, room, n - 1);
      var before := Ticks(p, s, n - 1);
      TickContracts(p, before, room);
      RemainingShrinks(p, Distance(p, s), Distance(p, before), n);
    }
  }

  lemma FeasibleOf(p: Plant, s: Loop, room: real)
    requires Headroom(p, s, room)
    ensures 0.0 < p.e <= 1.0
  {
  }

  lemma {:induction false} PowerBound(x: real, n: nat)
    requires 0.0 <= x <= 1.0
    ensures 0.0 <= Power(1.0 - x, n) && Power(1.0 - x, n) * (1.0 + x * n as real) <= 1.0
  {
    if n > 0 {
      PowerBound(x, n - 1);
      var q, m := Power(1.0 - x, n - 1), (n - 1) as real;
      NotNegative(1.0 - x, q);
      // (1 - x) (1 + x (m + 1)) == 1 + x m - x^2 (m + 1)
      NotNegative(x, x);
      NotNegative(x * x, m + 1.0);
      NotNegative(q, x * x * (m + 1.0));
      Expand(q, x, m);
    }
  }

  lemma Expand(q: real, x: real, m: real)
    ensures (1.0 - x) * q * (1.0 + x * (m + 1.0)) == q * (1.0 + x * m) - q * (x * x * (m + 1.0))
  {
  }

  /** Off the rails, the system is as far from the target as the integral from its fixed point and
      the demand from its rounding let it be. */
  lemma SystemNear(p: Plant, s: Loop, room: real)
    requires Headroom(p, s, room)
    ensures AbsReal(System(p, s) - p.target as real) <= p.e * (Distance(p, s) + 0.5)
  {
    hide *;
    FeasibleOf(p, s, room);
    NearSteady(p, s, room);
    SystemWithin(p, s, Distance(p, s) + 0.5);
  }

  lemma SystemWithin(p: Plant, s: Loop, most: real)
    requires p.e > 0.0 && AbsReal(s.demand as real - Steady(p)) <= most
    ensures AbsReal(System(p, s) - p.target as real) <= p.e * most
  {
    SteadyFillsGap(p);
    hide Steady;
    ScaledError(p.other, p.target as real, p.e, s.demand as real, Steady(p), most);
  }

  lemma NearSteady(p: Plant, s: Loop, room: real)
    requires Headroom(p, s, room)
    ensures AbsReal(s.demand as real - Steady(p)) <= Distance(p, s) + 0.5
  {
    DemandNear(p, s, room);
    hide Demand, Steady, Gap;
  }

  lemma ScaledError(other: real, target: real, e: real, demand: real, steady: real, most: real)
    requires e > 0.0 && steady * e == target - other && -most <= demand - steady <= most
    ensures AbsReal(other + e * demand - target) <= e * most
  {
  }

  /** The system load converges on the target: with room for it, after n ticks it is within what
      the workers deliver of one unit of demand, plus a part of the distance at the start that
      falls off geometrically, and at least as fast as 1 / (1 + 0.02 e n). */
  lemma SystemConverges(p: Plant, s: Loop, room: real, n: nat)
    requires Headroom(p, s, room)
    ensures AbsReal(System(p, Ticks(p, s, n)) - p.target as real) <= p.e * (Remaining(p, Distance(p, s), n) + 0.5)
    ensures 0.0 <= Power(Keep(p), n) && Power(Keep(p), n) * (1.0 + 0.02 * p.e * n as real) <= 1.0
  {
    hide Tick, Headroom, Distance, Remaining, System;
    var after := Ticks(p, s, n);
    DistanceFalls(p, s, room, n);
    SystemNear(p, after, room);
    FeasibleOf(p, s, room);
    NotNegative(p.e, Remaining(p, Distance(p, s), n) - Distance(p, after));
    PowerBound(0.02 * p.e, n);
  }

  // ----- Runs and overload

  /** The integrals before each of the readings and after the last, as the controller moves them. */
  ghost predicate Moved(integrals: seq<real>, readings: seq<Reading>, capacity: int) {
    && |integrals| == |readings| + 1
    && forall k :: 0 <= k < |readings| ==> AntiWindup(integrals[k], integrals[k + 1], readings[k], capacity)
  }

  /** Whatever is measured, the integral never winds up beyond the capacity. */
  lemma {:induction false} IntegralBounded(integrals: seq<real>, readings: seq<Reading>, capacity: int, k: nat)
    requires Moved(integrals, readings, capacity) && capacity > 0 && k <= |readings|
    requires -(capacity as real) <= integrals[0] <= capacity as real
    ensures -(capacity as real) <= integrals[k] <= capacity as real
  {
    if k > 0 {
      IntegralBounded(integrals, readings, capacity, k - 1);
    }
  }

  /** While the others alone take more than the target, by at least what the integral would make up, the
      demand is pinned at nothing. */
  lemma OverloadPins(integral: real, r: Reading, capacity: int)
    requires OthersIn(r) > r.target as real >= 0.0 && integral <= OthersIn(r) - r.target as real
    requires r.processAvg >= 0.0
    ensures Pinned(integral, r, capacity)
  {
  }

  /** However long the output is pinned, nothing is wound up. */
  lemma {:induction false} PinnedHolds(integrals: seq<real>, readings: seq<Reading>, capacity: int, k: nat)
    requires Moved(integrals, readings, capacity) && k <= |readings|
    requires forall i :: 0 <= i < |readings| ==> Pinned(integrals[0], readings[i], capacity)
    ensures integrals[k] == integrals[0]
  {
    if k > 0 {
      hide Pinned;
      PinnedHolds(integrals, readings, capacity, k - 1);
      assert AntiWindup(integrals[k - 1], integrals[k], readings[k - 1], capacity);
    }
  }

  lemma OneWay(integral: real, a: real, b: real, r: Reading, capacity: int)
    requires AntiWindup(integral, a, r, capacity) && AntiWindup(integral, b, r, capacity)
    ensures a == b
  {
  }

  /** So the first tick after an overload is as if there had been none: the integral becomes what it
      would have become before it. */
  lemma BackAtOnce(integrals: seq<real>, readings: seq<Reading>, capacity: int, r: Reading, next: real, without: real)
    requires Moved(integrals, readings, capacity)
    requires forall i :: 0 <= i < |readings| ==> Pinned(integrals[0], readings[i], capacity)
    requires AntiWindup(integrals[|readings|], next, r, capacity)
    requires AntiWindup(integrals[0], without, r, capacity)
    ensures next == without
  {
    hide AntiWindup, Pinned;
    PinnedHolds(integrals, readings, capacity, |readings|);
    OneWay(integrals[0], next, without, r, capacity);
  }

  /** A fresh controller that has been overloaded for any time demands the target as soon as the system
      is idle, and a fiftieth more if there is capacity for it. */
  lemma IdleAfterOverload(integrals: seq<real>, readings: seq<Reading>, capacity: int, target: int,
                          next: real, demand: int)
    requires Moved(integrals, readings, capacity) && integrals[0] == 0.0 && 0 <= target < capacity
    requires forall i :: 0 <= i < |readings| ==>
               OthersIn(readings[i]) > readings[i].target as real >= 0.0 && readings[i].processAvg >= 0.0
    requires AntiWindup(integrals[|readings|], next, Reading(target, 0.0, 0.0), capacity)
    requires Demanded(next, demand, Reading(target, 0.0, 0.0), capacity)
    ensures 1.02 * target as real <= capacity as real ==> AbsReal(demand as real - 1.02 * target as real) <= 0.5
    ensures 1.02 * target as real > capacity as real ==> demand == target
  {
    forall i | 0 <= i < |readings|
      ensures Pinned(integrals[0], readings[i], capacity)
    {
      OverloadPins(integrals[0], readings[i], capacity);
    }
    PinnedHolds(integrals, readings, capacity, |readings|);
  }
}
