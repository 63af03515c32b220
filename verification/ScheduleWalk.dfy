/** How the managers go through the points of their schedules: `gpu::GpuResourceManagerRandomNormal` and
    `cpu::CpuResourceManagerRandomNormal`. */
module ScheduleWalk {
  import opened Prelude
  import opened NormalSchedule

  const INTERVAL_MS: int := 10_000

  /** Aligned blocks of as many targets as there are points each have every point once, in any
      order; what does not fill a block yet is left. */
  ghost predicate WholePeriods(targets: seq<int>, base: seq<int>)
    requires base != []
  {
    |targets| < |base| ||
    (multiset(targets[..|base|]) == multiset(base) && WholePeriods(targets[|base|..], base))
  }

  function Started(targets: seq<int>, n: nat): seq<int>
    requires n > 0
  {
    if |targets| < n then targets else Started(targets[n..], n)
  }

  lemma {:induction false} TargetAdds(targets: seq<int>, base: seq<int>, x: int)
    requires base != [] && WholePeriods(targets, base)
    requires var begun := Started(targets, |base|) + [x]; |begun| == |base| ==> multiset(begun) == multiset(base)
    ensures WholePeriods(targets + [x], base)
    ensures var begun := Started(targets, |base|) + [x];
            Started(targets + [x], |base|) == if |begun| == |base| then [] else begun
  {
    var n := |base|;
    if |targets| >= n {
      assert (targets + [x])[..n] == targets[..n] && (targets + [x])[n..] == targets[n..] + [x];
      TargetAdds(targets[n..], base, x);
    } else if |targets| + 1 == n {
      assert (targets + [x])[..n] == targets + [x] && (targets + [x])[n..] == [];
    }
  }

  /** The k-th aligned block, by its place in the whole run. */
  lemma {:induction false} PeriodAt(targets: seq<int>, base: seq<int>, k: nat)
    requires base != [] && WholePeriods(targets, base) && (k + 1) * |base| <= |targets|
    ensures k * |base| >= 0 && multiset(targets[k * |base|..(k + 1) * |base|]) == multiset(base)
  {
    var n := |base|;
    assert (k + 1) * n == k * n + n;
    MulMonotone(0, k, n);
    if k > 0 {
      assert (k - 1) * n + n == k * n;
      PeriodAt(targets[n..], base, k - 1);
      assert targets[n..][(k - 1) * n..k * n] == targets[k * n..(k + 1) * n];
    } else {
      assert targets[0..n] == targets[..n];
    }
  }

  lemma LastOut(a: seq<int>)
    requires a != []
    ensures multiset(a[..|a| - 1]) == multiset(a) - multiset{a[|a| - 1]}
  {
    assert a == a[..|a| - 1] + [a[|a| - 1]];
  }

  /** Take one occurrence of a value out. */
  lemma TakeOut(b: seq<int>, x: int) returns (rest: seq<int>)
    requires x in multiset(b)
    ensures multiset(rest) == multiset(b) - multiset{x} && |rest| == |b| - 1
    ensures Total(rest, |rest|) + x == Total(b, |b|)
  {
    var i :| 0 <= i < |b| && b[i] == x;
    rest := b[..i] + b[i + 1..];
    assert b == b[..i] + [x] + b[i + 1..];
    TotalWithout(b, i);
  }

  lemma {:induction false} TotalOfPermutation(a: seq<int>, b: seq<int>)
    requires multiset(a) == multiset(b)
    ensures |a| == |b| && Total(a, |a|) == Total(b, |b|)
  {
    assert |a| == |multiset(a)| == |multiset(b)| == |b|;
    if a != [] {
      var n, x := |a| - 1, a[|a| - 1];
      assert x in multiset(a);
      LastOut(a);
      var rest := TakeOut(b, x);
      TotalOfPermutation(a[..n], rest);
      TotalPrefix(a, n);
    }
  }

  lemma {:induction false} TotalPrefix(s: seq<int>, n: nat)
    requires n <= |s|
    ensures Total(s[..n], n) == Total(s, n)
    decreases n
  {
    if n > 0 {
      TotalPrefix(s, n - 1);
      TotalPrefix(s[..n], n - 1);
      assert s[..n][..n - 1] == s[..n - 1];
    }
  }

  lemma {:induction false} TotalConcat(a: seq<int>, b: seq<int>)
    ensures Total(a + b, |a + b|) == Total(a, |a|) + Total(b, |b|)
  {
    if b == [] {
      assert a + b == a;
    } else {
      var front := b[..|b| - 1];
      TotalConcat(a, front);
      assert (a + b)[..|a + b| - 1] == a + front;
      TotalPrefix(a + b, |a + b| - 1);
      TotalPrefix(b, |b| - 1);
    }
  }

  lemma TotalWithout(s: seq<int>, i: nat)
    requires i < |s|
    ensures var rest := s[..i] + s[i + 1..]; Total(rest, |rest|) + s[i] == Total(s, |s|)
  {
    var front, back := s[..i], s[i + 1..];
    assert s == front + ([s[i]] + back);
    TotalConcat(front, back);
    TotalConcat(front, [s[i]] + back);
    TotalConcat([s[i]], back);
    assert Total([s[i]], 1) == s[i];
  }

  /** The average over every period: with points that add up to the load times their number, so do
      the targets of each aligned block, whatever the shuffles. */
  lemma PeriodAverage(targets: seq<int>, base: seq<int>, load: int, maxPoint: int, k: nat)
    requires base != [] && WholePeriods(targets, base) && (k + 1) * |base| <= |targets|
    requires Total(base, |base|) == PromisedTotal(load, maxPoint, |base|) && (maxPoint > 0 ==> load <= maxPoint)
    ensures k * |base| >= 0
    ensures var period := targets[k * |base|..(k + 1) * |base|]; Total(period, |period|) == load * |base|
  {
    PeriodAt(targets, base, k);
    TotalOfPermutation(targets[k * |base|..(k + 1) * |base|], base);
  }

  // ----- The GPU's walk, one per device

  class DeviceState {
    var schedulePoints: seq<int>
    var pointIdx: nat
    var lastChange: int
    var started: bool
    /** Every load set on the device's worker. */
    var targets: seq<int>

    ghost predicate Valid(base: seq<int>)
      reads this
    {
      && base != [] && multiset(schedulePoints) == multiset(base) && |schedulePoints| == |base|
      && pointIdx < |base|
      && (!started ==> targets == [])
      && WholePeriods(targets, base) && Started(targets, |base|) == schedulePoints[..pointIdx]
    }

    constructor (shuffled: seq<int>, ghost base: seq<int>)
      requires base != [] && multiset(shuffled) == multiset(base) && |shuffled| == |base|
      ensures Valid(base) && schedulePoints == shuffled && targets == [] && !started
    {
      schedulePoints, pointIdx, lastChange, started, targets := shuffled, 0, 0, false, [];
    }

    /** Moved on to the next point, if it is time to. */
    twostate predicate Advanced(time: int, shuffled: seq<int>)
      reads this
    {
      if old(started) && time - old(lastChange) < 10_000 then unchanged(this)
      else
        && started && lastChange == time && old(pointIdx) < |schedulePoints|
        && schedulePoints == (if old(pointIdx) == 0 && old(started) then shuffled else old(schedulePoints))
        && targets == old(targets) + [schedulePoints[old(pointIdx)]]
        && pointIdx == if old(pointIdx) + 1 == |schedulePoints| then 0 else old(pointIdx) + 1
    }

    /** Move on to the next point, at once on the first tick and ten seconds apart from then on,
        with a fresh shuffle at the start of every period but the first. */
    method AdvanceDevice(time: int, shuffled: seq<int>, ghost base: seq<int>)
      requires Valid(base) && multiset(shuffled) == multiset(base) && |shuffled| == |base|
      modifies this
      ensures Valid(base)
      ensures Advanced(time, shuffled)
    {
      if started {
        var elapsedMs := time - lastChange;
        if elapsedMs < INTERVAL_MS {
          return;
        }
      }
      if pointIdx == 0 && started {
        schedulePoints := shuffled;
      }
      var loadPercent := schedulePoints[pointIdx];
      PointTaken(targets, base, schedulePoints, pointIdx);
      targets := targets + [loadPercent];
      pointIdx := pointIdx + 1;
      if pointIdx == |schedulePoints| {
        pointIdx := 0;
      }
      lastChange := time;
      started := true;
    }
  }

  lemma PointTaken(targets: seq<int>, base: seq<int>, points: seq<int>, idx: nat)
    requires base != [] && WholePeriods(targets, base) && multiset(points) == multiset(base) && |points| == |base|
    requires idx < |base| && Started(targets, |base|) == points[..idx]
    ensures WholePeriods(targets + [points[idx]], base)
    ensures Started(targets + [points[idx]], |base|) == if idx + 1 == |base| then [] else points[..idx + 1]
  {
    assert points[..idx] + [points[idx]] == points[..idx + 1];
    assert points[..|points|] == points;
    TargetAdds(targets, base, points[idx]);
  }

  ghost predicate Shuffles(shuffles: seq<seq<int>>, base: seq<int>) {
    forall i :: 0 <= i < |shuffles| ==> multiset(shuffles[i]) == multiset(base) && |shuffles[i]| == |base|
  }

  const MAX_LOAD_PER_DEVICE: int := 100

  /** The manager: one schedule, and a walk over it for each device. */
  class GpuSchedule {
    const load: nat
    const base: seq<int>
    var states: seq<DeviceState>

    ghost predicate Valid()
      reads this, states
    {
      && load <= 100 && base != []
      && Total(base, |base|) == PromisedTotal(load, 100, |base|)
      && (forall p :: 0 <= p < |base| ==> 0 <= base[p] <= 100)
      && (forall i, j :: 0 <= i < j < |states| ==> states[i] != states[j])
      && (forall i :: 0 <= i < |states| ==> states[i].Valid(base))
    }

    constructor (binMass: seq<real>, load: nat)
      requires AllPositive(binMass) && binMass != [] && load <= 100
      ensures Valid() && states == [] && this.load == load && |base| == |binMass|
      ensures load > 0 ==> FollowsMasses(binMass, 100, load * |base|, base)
    {
      hide AllPositive, FollowsMasses;
      var points := BuildNormalSchedulePoints(binMass, load, MAX_LOAD_PER_DEVICE);
      if load == 0 {
        ZeroTotal(points, |points|);
      }
      this.load, base, states := load, points, [];
    }

    /** Shuffle the schedule for each device. */
    method Init(shuffles: seq<seq<int>>)
      requires Valid() && Shuffles(shuffles, base)
      modifies this
      ensures Valid() && |states| == |shuffles| && fresh(states)
      ensures forall i :: 0 <= i < |states| ==> states[i].schedulePoints == shuffles[i] && states[i].targets == []
    {
      hide Total, PromisedTotal, DeviceState.Valid;
      states := [];
      for i := 0 to |shuffles|
        invariant Valid() && |states| == i && fresh(states)
        invariant forall j :: 0 <= j < i ==> states[j].schedulePoints == shuffles[j] && states[j].targets == []
      {
        var state := new DeviceState(shuffles[i], base);
        states := states + [state];
      }
    }

    /** One tick: every device is moved on if it is time to, on its own. */
    method Schedule(time: int, shuffles: seq<seq<int>>)
      requires Valid() && Shuffles(shuffles, base) && |shuffles| == |states|
      modifies states
      ensures Valid()
      ensures forall i :: 0 <= i < |states| ==> states[i].Advanced(time, shuffles[i])
    {
      hide Total, PromisedTotal, DeviceState.Valid;
      for i := 0 to |states|
        invariant Valid()
        invariant forall j :: 0 <= j < i ==> states[j].Advanced(time, shuffles[j])
        invariant forall j :: i <= j < |states| ==> unchanged(states[j])
      {
        states[i].AdvanceDevice(time, shuffles[i], base);
      }
    }

    /** Whatever the ticks and shuffles have been, every aligned block of a device's targets adds up
        to the configured load times its length. */
    lemma AverageKept(i: nat, k: nat)
      requires Valid() && i < |states| && (k + 1) * |base| <= |states[i].targets|
      ensures k * |base| >= 0
      ensures var period := states[i].targets[k * |base|..(k + 1) * |base|]; Total(period, |period|) == load * |base|
    {
      PeriodAverage(states[i].targets, base, load, MAX_LOAD_PER_DEVICE, k);
    }
  }

  lemma {:induction false} ZeroTotal(s: seq<int>, n: nat)
    requires n <= |s| && forall i :: 0 <= i < |s| ==> s[i] == 0
    ensures Total(s, n) == 0
  {
    if n > 0 {
      ZeroTotal(s, n - 1);
    }
  }

  // ----- The CPU's walk

  class CpuSchedule {
    const load: nat
    ghost const base: seq<int>
    var schedulePoints: seq<int>
    var pointIdx: nat
    var loadTarget: int
    var lastLoadTargetChange: int
    var loadTargetStarted: bool
    /** Every target picked. */
    ghost var targets: seq<int>

    ghost predicate Valid()
      reads this
    {
      && base != [] && Total(base, |base|) == PromisedTotal(load, 0, |base|)
      && multiset(schedulePoints) == multiset(base) && |schedulePoints| == |base|
      && pointIdx < |base|
      && WholePeriods(targets, base) && Started(targets, |base|) == schedulePoints[..pointIdx]
    }

    /** Without a cap: there will be as many workers as the highest point needs. */
    constructor (binMass: seq<real>, load: nat)
      requires AllPositive(binMass) && binMass != []
      ensures Valid() && targets == [] && !loadTargetStarted && pointIdx == 0
      ensures this.load == load && |base| == |binMass| && schedulePoints == base
      ensures load > 0 ==> FollowsMasses(binMass, 0, load * |base|, base)
    {
      hide AllPositive, FollowsMasses;
      var points := BuildNormalSchedulePoints(binMass, load, 0);
      if load == 0 {
        ZeroTotal(points, |points|);
      }
      this.load, base := load, points;
      schedulePoints, pointIdx, loadTarget, targets := points, 0, 0, [];
      lastLoadTargetChange, loadTargetStarted := 0, false;
    }

    /** Put the points in another order; only ever done between two periods. */
    method ShuffleSchedulePoints(shuffled: seq<int>)
      requires Valid() && pointIdx == 0
      requires multiset(shuffled) == multiset(schedulePoints) && |shuffled| == |schedulePoints|
      modifies `schedulePoints
      ensures Valid() && schedulePoints == shuffled
    {
      schedulePoints := shuffled;
    }

    method IncreasePointIndex()
      requires schedulePoints != [] && pointIdx < |schedulePoints|
      modifies `pointIdx
      ensures pointIdx == if old(pointIdx) + 1 == |schedulePoints| then 0 else old(pointIdx) + 1
    {
      pointIdx := pointIdx + 1;
      if pointIdx == |schedulePoints| {
        pointIdx := 0;
      }
    }

    /** Pick the next target, at once on the first tick and ten seconds apart from then on, with the
        points shuffled in place at the start of every period. */
    method UpdateLoadTarget(time: int, shuffled: seq<int>)
      requires Valid() && multiset(shuffled) == multiset(schedulePoints) && |shuffled| == |schedulePoints|
      modifies this
      ensures Valid()
      ensures old(loadTargetStarted) && time - old(lastLoadTargetChange) < 10_000 ==> unchanged(this)
      ensures !(old(loadTargetStarted) && time - old(lastLoadTargetChange) < 10_000) ==>
                && loadTargetStarted && lastLoadTargetChange == time
                && schedulePoints == (if old(pointIdx) == 0 then shuffled else old(schedulePoints))
                && loadTarget == schedulePoints[old(pointIdx)] && targets == old(targets) + [loadTarget]
                && pointIdx == if old(pointIdx) + 1 == |base| then 0 else old(pointIdx) + 1
    {
      if loadTargetStarted {
        var elapsedMs := time - lastLoadTargetChange;
        if elapsedMs < INTERVAL_MS {
          return;
        }
      }
      if pointIdx == 0 {
        ShuffleSchedulePoints(shuffled);
      }
      loadTarget := schedulePoints[pointIdx];
      PointTaken(targets, base, schedulePoints, pointIdx);
      targets := targets + [loadTarget];
      IncreasePointIndex();
      lastLoadTargetChange := time;
      loadTargetStarted := true;
    }

    /** The CPU's targets keep the average too: every aligned block adds up to the configured load
        times its length. */
    lemma AverageKept(k: nat)
      requires Valid() && (k + 1) * |base| <= |targets|
      ensures k * |base| >= 0
      ensures var period := targets[k * |base|..(k + 1) * |base|]; Total(period, |period|) == load * |base|
    {
      PeriodAverage(targets, base, load, 0, k);
    }
  }
}
