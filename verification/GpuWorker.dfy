/** One device's worker: `gpu::GpuWorkerContext`, driven by a device that may fail. */
module GpuWorker {
  import opened Prelude
  import opened LoopCount
  import opened MemCost

  const MIB: real := 1_048_576.0
  const CALIBRATION_START: int := 1024
  const CALIBRATION_MIN_SAMPLE_MS: real := 5.0
  const CALIBRATION_TOLERANCE: real := 0.03
  const CALIBRATION_REFINE_ROUNDS: nat := 3
  const MEM_COST_MAX_SHARE: real := 0.5
  const TRAFFIC_BANDWIDTH_SHARE: real := 0.01
  const TRAFFIC_MIB_PER_SECOND: real := 1024.0
  const MAX_CONSECUTIVE_FAILURES: nat := 50

  type Percent = p: int | 0 <= p <= 100

  /** The others' part of the device as a percentage; -1 stands for nobody else on it. */
  type Others = o: int | -1 <= o <= 100

  /** The busy time left to us: what the others take comes out of the load asked for, so that the
      two together come to the larger of both. */
  function TargetMs(load: Percent, others: Others): (r: nat)
    ensures r + Max(others, 0) == Max(load, others)
    ensures r <= 100
  {
    Max(0, load - Max(others, 0) * 100 / 100)
  }

  // ----- The protocol between worker and device

  /** What the worker does with the device, tick by tick. */
  datatype Event =
    | Tick(others: Others, load: Percent)
    | Allocate(ok: bool)
    | Release
    | Trial(ok: bool)
    | Calibrated
    | Launch(loopCount: int, traffic: nat, ok: bool)
    | GiveUp

  /** Where the device stands: whether there is a block to hold, and it is held; whether the device
      has refused it since the last sharing tick; whether it is shared; whether its kernel is
      calibrated or has failed a trial; launches failed in a row; whether it has been given up;
      and the ticks so far, with what the last one still asks for: to free or get the block, and
      to run the kernel. */
  datatype Phase = Phase(block: bool, held: bool, refused: bool, sharing: bool, calibrated: bool, trialFailed: bool,
                         failures: nat, dead: bool, ticks: nat, memoryDue: bool, launchDue: bool)

  const NEW_DEVICE := Phase(false, false, false, false, false, false, 0, false, 0, false, false)

  function Follow(p: Phase, e: Event): Phase {
    match e
    case Tick(others, load) =>
      var sharing := others >= 0;
      p.(sharing := sharing, refused := p.refused && !sharing, ticks := p.ticks + 1,
         memoryDue := p.block && if sharing then p.held else !p.held && !p.refused,
         launchDue := TargetMs(load, others) > 0)
    case Allocate(ok) => p.(held := ok, refused := !ok, memoryDue := false)
    case Release => p.(held := false, memoryDue := false)
    case Trial(ok) => p.(trialFailed := !ok)
    case Calibrated => p.(calibrated := true, launchDue := false)
    case Launch(_, _, ok) => p.(failures := if ok then 0 else p.failures + 1, launchDue := false)
    case GiveUp => p.(dead := true, refused := false)
  }

  predicate Running(p: Phase) {
    !p.dead && !p.trialFailed && p.failures < 50
  }

  /** Everything the last tick asks for has been done. */
  predicate Idle(p: Phase) {
    Running(p) && !p.memoryDue && !p.launchDue
  }

  /** What the worker may do: free or get the block first when a tick asks for it, and nothing else
      before that; so allocate only on a device of its own, with nothing held, and not again after
      a refusal before the device has been shared, and release only what it holds, when sharing or
      giving up. Then calibrate (if that was not done at startup) or, once calibrated, launch, once
      a tick and only if the tick leaves it a budget; never with a block on a shared device, and
      with traffic only when there is a block. No new tick before the last one's work is done. Give
      up after a failed trial or after exactly so many failed launches in a row, and do nothing but
      release afterwards. */
  predicate Allowed(p: Phase, e: Event) {
    match e
    case Tick(_, _) => Idle(p)
    case Allocate(_) => Running(p) && p.memoryDue && !p.held && !p.refused && !p.sharing
    case Release => p.held && (p.dead || (p.memoryDue && p.sharing))
    case Trial(_) =>
      && Running(p) && !p.calibrated && (p.launchDue || p.ticks == 0)
      && !p.memoryDue && !(p.sharing && p.held)
    case Calibrated => Running(p) && !p.calibrated
    case Launch(loopCount, traffic, _) =>
      && Running(p) && p.calibrated && p.launchDue && !p.memoryDue
      && loopCount >= 1 && (traffic > 0 ==> p.held) && !(p.sharing && p.held)
    case GiveUp => !p.dead && (p.trialFailed || p.failures == 50)
  }

  function PhaseAfter(start: Phase, log: seq<Event>): Phase {
    if log == [] then start else Follow(PhaseAfter(start, log[..|log| - 1]), log[|log| - 1])
  }

  predicate Accepted(start: Phase, log: seq<Event>) {
    log == [] || (Accepted(start, log[..|log| - 1])
                  && Allowed(PhaseAfter(start, log[..|log| - 1]), log[|log| - 1]))
  }

  /** The ticks of a log, in order. */
  function TicksOf(log: seq<Event>): seq<(Others, Percent)> {
    if log == [] then []
    else
      var before := TicksOf(log[..|log| - 1]);
      match log[|log| - 1]
      case Tick(others, load) => before + [(others, load)]
      case _ => before
  }

  function TicksOfInputs(inputs: seq<TickInput>): seq<(Others, Percent)> {
    seq(|inputs|, i requires 0 <= i < |inputs| => (inputs[i].others, inputs[i].load))
  }

  lemma TicksOfNext(inputs: seq<TickInput>, i: nat)
    requires i < |inputs|
    ensures TicksOfInputs(inputs[..i + 1]) == TicksOfInputs(inputs[..i]) + [(inputs[i].others, inputs[i].load)]
  {
  }

  lemma TicksOfNone()
    ensures TicksOfInputs([]) == []
  {
  }

  lemma AcceptedNext(start: Phase, log: seq<Event>, e: Event)
    ensures PhaseAfter(start, log + [e]) == Follow(PhaseAfter(start, log), e)
    ensures Accepted(start, log) && Allowed(PhaseAfter(start, log), e) ==> Accepted(start, log + [e])
    ensures TicksOf(log + [e]) == TicksOf(log) + if e.Tick? then [(e.others, e.load)] else []
  {
  }

  /** The bytes that the launches of a log have been told to move. */
  function BytesMoved(log: seq<Event>): nat {
    if log == [] then 0
    else
      var before := BytesMoved(log[..|log| - 1]);
      match log[|log| - 1]
      case Launch(_, traffic, _) => before + traffic
      case _ => before
  }

  lemma BytesMovedNext(log: seq<Event>, e: Event)
    ensures BytesMoved(log + [e]) == BytesMoved(log) + if e.Launch? then e.traffic else 0
  {
  }

  // ----- The device and the inputs of a tick

  /** The device's answers, by how much has been asked of it before: a launch's time, unless it
      fails, and whether an allocation succeeds; and the bandwidth it reports. */
  datatype Device = Device(run: (nat, int, nat) -> Option<real>, allocate: nat -> bool, bandwidth: Option<real>)

  /** What the worker finds at a tick: the share of others, the load asked for, and the traffic's
      fluctuating factor. */
  datatype TickInput = TickInput(others: Others, load: Percent, factor: real)

  /** A device that takes `t` ms per iteration at its `k`-th launch. */
  ghost predicate ExactAt(d: Device, t: real, k: nat) {
    forall n: int :: n >= 1 ==> d.run(k, n, 0) == Some(t * n as real)
  }

  ghost predicate Linear(d: Device, t: real) {
    t > 0.0 && forall k: nat :: ExactAt(d, t, k)
  }

  /** One that never fails, but whose time may be off once in any three launches. */
  ghost predicate MostlyLinear(d: Device, t: real) {
    && t > 0.0
    && (forall k: nat, n: int :: n >= 1 ==> d.run(k, n, 0).Some?)
    && (forall k: nat {:trigger ExactAt(d, t, k)} ::
          (ExactAt(d, t, k) && ExactAt(d, t, k + 1)) || (ExactAt(d, t, k) && ExactAt(d, t, k + 2))
          || (ExactAt(d, t, k + 1) && ExactAt(d, t, k + 2)))
  }

  lemma LinearIsMostly(d: Device, t: real)
    requires Linear(d, t)
    ensures MostlyLinear(d, t)
  {
    forall k: nat, n: int | n >= 1
      ensures d.run(k, n, 0).Some?
    {
      assert ExactAt(d, t, k);
    }
  }

  lemma TrialSucceeds(d: Device, t: real, k: nat, n: int)
    requires n >= 1
    ensures Linear(d, t) ==> MostlyLinear(d, t)
    ensures MostlyLinear(d, t) ==> d.run(k, n, 0).Some?
  {
    if Linear(d, t) {
      LinearIsMostly(d, t);
    }
  }

  lemma MostlyLinearTakesTime(d: Device, t: real)
    ensures MostlyLinear(d, t) ==> t > 0.0
  {
  }

  lemma TwoOfThreeExact(d: Device, t: real, k: nat)
    requires MostlyLinear(d, t)
    ensures (ExactAt(d, t, k) && ExactAt(d, t, k + 1)) || (ExactAt(d, t, k) && ExactAt(d, t, k + 2))
            || (ExactAt(d, t, k + 1) && ExactAt(d, t, k + 2))
  {
  }

  /** The median of three launches of which two are exact is exact. */
  lemma MedianExact(d: Device, t: real, k: nat, n: int)
    requires n >= 1
    requires (ExactAt(d, t, k) && ExactAt(d, t, k + 1)) || (ExactAt(d, t, k) && ExactAt(d, t, k + 2))
             || (ExactAt(d, t, k + 1) && ExactAt(d, t, k + 2))
    requires d.run(k, n, 0).Some? && d.run(k + 1, n, 0).Some? && d.run(k + 2, n, 0).Some?
    ensures Median(d.run(k, n, 0).value, d.run(k + 1, n, 0).value, d.run(k + 2, n, 0).value) == t * n as real
  {
  }

  /** The middle of three. */
  function Median(a: real, b: real, c: real): real {
    MaxReal(MinReal(a, b), MinReal(MaxReal(a, b), c))
  }

  /** One of the three, with no two of them on the same side of it. */
  lemma MedianIsMiddle(a: real, b: real, c: real)
    ensures var m := Median(a, b, c);
            && (m == a || m == b || m == c)
            && !(a < m && b < m) && !(a < m && c < m) && !(b < m && c < m)
            && !(a > m && b > m) && !(a > m && c > m) && !(b > m && c > m)
  {
  }

  /** The count after so many steps of growth. */
  function Grown(n: nat): int {
    if n == 0 then CALIBRATION_START else Min(Grown(n - 1) * 4, LOOP_MAX)
  }

  lemma GrownNext(n: nat)
    ensures Grown(0) == 1024 && Grown(n + 1) == Min(Grown(n) * 4, LOOP_MAX) && Grown(10) == LOOP_MAX
  {
    assert Grown(2) == 16_384;
    assert Grown(4) == 262_144;
    assert Grown(6) == 4_194_304;
    assert Grown(8) == 67_108_864;
    assert Grown(9) == 268_435_456;
  }

  // ----- Traffic

  /** A hundredth of the bandwidth that the device reports, or a gibibyte a second. */
  ghost predicate RateIs(bandwidth: Option<real>, bytesPerSecond: real) {
    match bandwidth
    case Some(b) => 100.0 * bytesPerSecond == b
    case None => bytesPerSecond == 1_073_741_824.0
  }

  /** The whole bytes of so much busy time at a rate, scaled by a factor. */
  function BytesAt(bytesPerSecond: real, targetMs: nat, factor: real): (r: nat)
    requires bytesPerSecond >= 0.0 && factor >= 0.0
  {
    TrafficPositive(bytesPerSecond, targetMs as real, factor);
    (bytesPerSecond * targetMs as real / 1000.0 * factor).Floor
  }

  /** The bytes of the first `n` launches, and their busy time in seconds, each weighed by its factor. */
  function BytesOf(bytesPerSecond: real, inputs: seq<TickInput>, n: nat): nat
    requires n <= |inputs| && bytesPerSecond >= 0.0 && forall i :: 0 <= i < |inputs| ==> inputs[i].factor >= 0.0
  {
    if n == 0 then 0
    else BytesOf(bytesPerSecond, inputs, n - 1)
         + BytesAt(bytesPerSecond, Budget(inputs[n - 1]), inputs[n - 1].factor)
  }

  /** Nobody else is found on the device. */
  predicate Undisturbed(inputs: seq<TickInput>) {
    forall i :: 0 <= i < |inputs| ==> inputs[i].others < 0
  }

  /** Held at a rate, the block has had the bytes of some ticks more than so many. */
  ghost predicate Carried(log: seq<Event>, before: nat, rate: real, inputs: seq<TickInput>, n: nat)
    requires n <= |inputs| && forall i :: 0 <= i < |inputs| ==> inputs[i].factor >= 0.0
  {
    rate >= 0.0 && BytesMoved(log) == before + BytesOf(rate, inputs, n)
  }

  lemma CarriedNext(log: seq<Event>, after: seq<Event>, before: nat, rate: real, inputs: seq<TickInput>, i: nat)
    requires i < |inputs| && forall k :: 0 <= k < |inputs| ==> inputs[k].factor >= 0.0
    requires Carried(log, before, rate, inputs, i) && Carried(after, BytesMoved(log), rate, [inputs[i]], 1)
    ensures Carried(after, before, rate, inputs, i + 1)
  {
    hide BytesAt;
    BytesOfNext(rate, inputs, i);
    BytesOfNext(rate, [inputs[i]], 0);
    BytesOfNone(rate, [inputs[i]]);
  }

  lemma BytesOfNext(bytesPerSecond: real, inputs: seq<TickInput>, i: nat)
    requires i < |inputs| && bytesPerSecond >= 0.0 && forall k :: 0 <= k < |inputs| ==> inputs[k].factor >= 0.0
    ensures BytesOf(bytesPerSecond, inputs, i + 1)
            == BytesOf(bytesPerSecond, inputs, i) + BytesAt(bytesPerSecond, Budget(inputs[i]), inputs[i].factor)
    ensures Budget(inputs[i]) == 0 ==> BytesAt(bytesPerSecond, Budget(inputs[i]), inputs[i].factor) == 0
  {
  }

  lemma NothingCarried(log: seq<Event>, rate: real, inputs: seq<TickInput>)
    requires rate >= 0.0 && forall i :: 0 <= i < |inputs| ==> inputs[i].factor >= 0.0
    ensures Carried(log, BytesMoved(log), rate, inputs, 0)
  {
  }

  lemma OthersAt(inputs: seq<TickInput>, i: nat)
    requires i < |inputs|
    ensures Undisturbed(inputs) ==> inputs[i].others < 0
  {
  }

  lemma BytesOfNone(bytesPerSecond: real, inputs: seq<TickInput>)
    requires bytesPerSecond >= 0.0 && forall k :: 0 <= k < |inputs| ==> inputs[k].factor >= 0.0
    ensures BytesOf(bytesPerSecond, inputs, 0) == 0
  {
  }

  function BusySeconds(inputs: seq<TickInput>, n: nat): real
    requires n <= |inputs|
  {
    if n == 0 then 0.0 else BusySeconds(inputs, n - 1) + Seconds(Budget(inputs[n - 1]), inputs[n - 1].factor)
  }

  function Seconds(ms: nat, factor: real): real {
    ms as real / 1000.0 * factor
  }

  /** What a rate comes to in so many seconds. */
  function Due(bytesPerSecond: real, seconds: real): real {
    bytesPerSecond * seconds
  }

  lemma DueAdds(bytesPerSecond: real, x: real, y: real)
    ensures Due(bytesPerSecond, x + y) == Due(bytesPerSecond, x) + Due(bytesPerSecond, y)
    ensures Due(bytesPerSecond, 0.0) == 0.0
  {
  }

  /** In any run the launches' traffic is the rate times the busy time, but for less than a byte a launch. */
  lemma {:induction false} TrafficKeepsRate(bytesPerSecond: real, inputs: seq<TickInput>, n: nat)
    requires n <= |inputs| && bytesPerSecond >= 0.0 && forall i :: 0 <= i < |inputs| ==> inputs[i].factor >= 0.0
    ensures var due := Due(bytesPerSecond, BusySeconds(inputs, n));
            due - n as real <= BytesOf(bytesPerSecond, inputs, n) as real <= due
  {
    hide BytesAt, Budget, Due, Seconds;
    if n == 0 {
      DueAdds(bytesPerSecond, 0.0, 0.0);
    } else {
      TrafficKeepsRate(bytesPerSecond, inputs, n - 1);
      var ms, factor := Budget(inputs[n - 1]), inputs[n - 1].factor;
      BytesWithin(bytesPerSecond, ms, factor);
      DueAdds(bytesPerSecond, BusySeconds(inputs, n - 1), Seconds(ms, factor));
    }
  }

  lemma BytesWithin(bytesPerSecond: real, targetMs: nat, factor: real)
    requires bytesPerSecond >= 0.0 && factor >= 0.0
    ensures var due := Due(bytesPerSecond, Seconds(targetMs, factor));
            due - 1.0 < BytesAt(bytesPerSecond, targetMs, factor) as real <= due
  {
    assert Due(bytesPerSecond, Seconds(targetMs, factor)) == bytesPerSecond * targetMs as real / 1000.0 * factor;
  }

  lemma TrafficPositive(bytesPerSecond: real, targetMs: real, factor: real)
    requires bytesPerSecond >= 0.0 && targetMs >= 0.0 && factor >= 0.0
    ensures bytesPerSecond * targetMs / 1000.0 * factor >= 0.0
  {
  }

  // ----- Budgets

  function Mib(bytes: nat): (r: real)
    ensures bytes > 0 ==> r > 0.0
    ensures r * 1_048_576.0 == bytes as real
  {
    bytes as real / MIB
  }

  /** What so many iterations should take. */
  function AluMs(loopCount: int, base: int): real
    requires base >= 1
  {
    loopCount as real * PERIOD_MS / base as real
  }

  /** What a launch took beyond the ALU loop's time. */
  function Residual(elapsedMs: real, aluMs: real): real {
    elapsedMs - aluMs
  }

  /** What is left for the ALU loop once the traffic's cost is taken out. */
  function AluElapsed(elapsedMs: real, msPerMib: real, mib: real): real {
    elapsedMs - MaxReal(msPerMib, 0.0) * mib
  }

  /** The part of the budget that so much traffic should cost, at most half of it. */
  function CostMs(msPerMib: real, targetMs: nat, traffic: nat): (r: real)
    ensures 0.0 <= r <= targetMs as real * MEM_COST_MAX_SHARE
  {
    Clamp(msPerMib * Mib(traffic), 0.0, targetMs as real * MEM_COST_MAX_SHARE)
  }

  /** The iterations of so many milliseconds. */
  function Scaled(base: int, ms: real): real {
    base as real * ms / PERIOD_MS
  }

  /** Iterations of a launch whose ALU loop gets the budget less what the traffic should cost. */
  function LaunchLoops(base: int, targetMs: nat, memMs: real): int {
    Truncate(MaxReal(Scaled(base, targetMs as real - memMs), 1.0))
  }

  /** At least one iteration, never more than a full period's, and at least half of what the budget
      would give without traffic. */
  lemma LaunchLoopsBounds(base: int, targetMs: nat, memMs: real)
    requires 1 <= base <= LOOP_MAX && 1 <= targetMs <= 100
    requires 0.0 <= memMs <= targetMs as real * MEM_COST_MAX_SHARE
    ensures 1 <= LaunchLoops(base, targetMs, memMs) <= base
    ensures LaunchLoops(base, targetMs, memMs) as real > Scaled(base, targetMs as real / 2.0) - 1.0
  {
    hide Truncate, MaxReal, Scaled;
    var left := targetMs as real - memMs;
    ScaledMonotone(base, left, PERIOD_MS);
    ScaledMonotone(base, targetMs as real / 2.0, left);
    ScaledPeriod(base);
    TruncateWithin(Scaled(base, left), base);
  }

  lemma ScaledMonotone(base: int, x: real, y: real)
    requires base >= 1 && x <= y
    ensures Scaled(base, x) <= Scaled(base, y)
  {
  }

  lemma ScaledPeriod(base: int)
    ensures Scaled(base, PERIOD_MS) == base as real
  {
  }

  lemma TruncateWithin(v: real, hi: int)
    requires v <= hi as real && hi >= 1
    ensures 1 <= Truncate(MaxReal(v, 1.0)) <= hi
    ensures Truncate(MaxReal(v, 1.0)) as real > v - 1.0
  {
  }

  // ----- The loop count over a run of ticks

  /** Whether a tick's launch corrects the count at all: short ones do not. */
  predicate Teaches(base: int, targetMs: nat)
    requires base >= 1
  {
    targetMs > 0 && AluMs(LaunchLoops(base, targetMs, 0.0), base) >= ADAPT_MIN_BUSY_MS
  }

  /** The loop count after a tick on a device whose true count is `truth`. */
  function AfterLaunch(base: int, targetMs: nat, truth: real): (r: int)
    requires 1 <= base <= LOOP_MAX
    ensures 1 <= r <= LOOP_MAX
  {
    if Teaches(base, targetMs) then CorrectedTowards(base, truth) else base
  }

  function Budget(input: TickInput): (r: nat)
    ensures r <= 100
  {
    TargetMs(input.load, input.others)
  }

  /** The same after a run of ticks, and how many of them have corrected it. */
  function CountAfter(base: int, inputs: seq<TickInput>, truth: real): (r: int)
    requires 1 <= base <= LOOP_MAX
    ensures 1 <= r <= LOOP_MAX
  {
    if inputs == [] then base
    else
      var before := CountAfter(base, inputs[..|inputs| - 1], truth);
      AfterLaunch(before, Budget(inputs[|inputs| - 1]), truth)
  }

  function Lessons(base: int, inputs: seq<TickInput>, truth: real): nat
    requires 1 <= base <= LOOP_MAX
  {
    if inputs == [] then 0
    else
      Lessons(base, inputs[..|inputs| - 1], truth)
      + if Teaches(CountAfter(base, inputs[..|inputs| - 1], truth), Budget(inputs[|inputs| - 1])) then 1 else 0
  }

  lemma {:induction false} CountIsCorrected(base: int, inputs: seq<TickInput>, truth: real)
    requires 1 <= base <= LOOP_MAX
    ensures CountAfter(base, inputs, truth) == CorrectedTimes(base, truth, Lessons(base, inputs, truth))
  {
    hide Teaches, CorrectedTowards;
    if inputs != [] {
      CountIsCorrected(base, inputs[..|inputs| - 1], truth);
    }
  }

  /** The ticks with a budget of at least so many milliseconds. */
  function LongTicks(inputs: seq<TickInput>, ms: nat): nat {
    if inputs == [] then 0
    else LongTicks(inputs[..|inputs| - 1], ms) + if Budget(inputs[|inputs| - 1]) >= ms then 1 else 0
  }

  lemma LongTicksNext(inputs: seq<TickInput>, i: nat, ms: nat)
    requires i < |inputs|
    ensures LongTicks(inputs[..i + 1], ms) == LongTicks(inputs[..i], ms) + if Budget(inputs[i]) >= ms then 1 else 0
  {
    assert inputs[..i + 1][..i] == inputs[..i];
  }

  lemma WholePart(x: real)
    ensures 2.0 * Truncate(MaxReal(x, 1.0)) as real >= x
    ensures Truncate(MaxReal(x, 1.0)) >= 1
  {
  }

  /** A launch whose ALU loop gets 20 ms or more is long enough, whatever the count: rounding it down to
      whole iterations takes off less than half. */
  lemma LongLaunchTeaches(base: int, targetMs: nat, memMs: real)
    requires 1 <= base <= LOOP_MAX && targetMs as real - memMs >= 20.0
    ensures AluMs(LaunchLoops(base, targetMs, memMs), base) >= ADAPT_MIN_BUSY_MS
  {
    hide AluMs, Scaled;
    WholePart(Scaled(base, targetMs as real - memMs));
    HalfScaled(base, targetMs as real - memMs, LaunchLoops(base, targetMs, memMs));
  }

  lemma HalfScaled(base: int, ms: real, loops: int)
    requires base >= 1 && ms >= 20.0 && 2.0 * loops as real >= Scaled(base, ms)
    ensures AluMs(loops, base) >= 10.0
  {
    var b, l, q, s := base as real, loops as real, AluMs(loops, base), Scaled(base, ms);
    var qb, bm := q * b, b * ms;
    assert qb == l * PERIOD_MS && s * PERIOD_MS == bm;
    hide AluMs, Scaled;
    NotNegative(b, ms - 20.0);
    assert b * (ms - 20.0) == bm - 20.0 * b;
    FactorAtLeast(q, b, qb, 10.0);
  }

  lemma FactorAtLeast(q: real, b: real, qb: real, least: real)
    requires b > 0.0 && qb == q * b && qb >= least * b
    ensures q >= least
  {
    assert q < least ==> (least - q) * b > 0.0;
  }

  lemma {:induction false} LongTicksAreLessons(base: int, inputs: seq<TickInput>, truth: real)
    requires 1 <= base <= LOOP_MAX
    ensures LongTicks(inputs, 20) <= Lessons(base, inputs, truth)
  {
    hide AluMs, LaunchLoops, CountAfter;
    if inputs != [] {
      LongTicksAreLessons(base, inputs[..|inputs| - 1], truth);
      if Budget(inputs[|inputs| - 1]) >= 20 {
        LongLaunchTeaches(CountAfter(base, inputs[..|inputs| - 1], truth), Budget(inputs[|inputs| - 1]), 0.0);
      }
    }
  }

  /** The loop count of a run is in the deadband from the 33rd launch on that teaches, unless a count
      can get stuck below the true one; 33 ticks of at least 20 ms are enough. */
  lemma RunCorrectsDrift(base: int, inputs: seq<TickInput>, truth: real)
    requires 1 <= base <= LOOP_MAX && 1.0 <= truth <= LOOP_MAX as real && !SomeStuck(truth)
    requires Lessons(base, inputs, truth) >= 33 || LongTicks(inputs, 20) >= 33
    ensures InDeadband(CountAfter(base, inputs, truth), truth)
  {
    hide InDeadband, SomeStuck, CorrectedTimes;
    LongTicksAreLessons(base, inputs, truth);
    CountIsCorrected(base, inputs, truth);
    CorrectedIn33(base, truth, Lessons(base, inputs, truth));
  }

  lemma BareCorrection(t: real, base: int, loops: int, elapsed: real)
    requires t > 0.0 && 1 <= base <= LOOP_MAX && loops >= 1 && elapsed == t * loops as real
    ensures Corrected(base, AluMs(loops, base), elapsed)
            == if AluMs(loops, base) >= ADAPT_MIN_BUSY_MS then CorrectedTowards(base, PERIOD_MS / t) else base
  {
    if AluMs(loops, base) >= ADAPT_MIN_BUSY_MS {
      hide Corrected, CorrectedTowards;
      CorrectedLinear(base, loops, t);
    }
  }

  lemma NoCost(msPerMib: real, targetMs: nat)
    ensures CostMs(msPerMib, targetMs, 0) == 0.0
  {
  }

  lemma CountAfterNext(base: int, inputs: seq<TickInput>, i: nat, truth: real)
    requires 1 <= base <= LOOP_MAX && i < |inputs|
    ensures CountAfter(base, inputs[..i + 1], truth)
            == AfterLaunch(CountAfter(base, inputs[..i], truth), Budget(inputs[i]), truth)
  {
    assert inputs[..i + 1][..i] == inputs[..i];
  }

  /** The count has come from a first one by so many corrections, one at least in each tick of 40 ms;
      but for the tick that calibrated it, if that was not done before. */
  ghost predicate CorrectedFrom(first: int, truth: real, base: int, lessons: nat, early: bool, inputs: seq<TickInput>)
    requires 1 <= first <= LOOP_MAX
  {
    base == CorrectedTimes(first, truth, lessons) && lessons + (if early then 0 else 1) >= LongTicks(inputs, 40)
  }

  lemma CorrectedNext(first: int, truth: real, before: int, base: int, lessons: nat, early: bool,
                      inputs: seq<TickInput>, i: nat, taught: bool)
    requires 1 <= first <= LOOP_MAX && 1 <= before <= LOOP_MAX && i < |inputs|
    requires CorrectedFrom(first, truth, before, lessons, early, inputs[..i])
    requires base == AfterLesson(before, taught, truth) && (Budget(inputs[i]) >= 40 ==> taught)
    ensures CorrectedFrom(first, truth, base, lessons + if taught then 1 else 0, early, inputs[..i + 1])
  {
    hide LongTicks;
    LongTicksNext(inputs, i, 40);
    LessonNext(first, truth, lessons, taught);
  }

  lemma CorrectedFirst(first: int, truth: real, inputs: seq<TickInput>, i: nat)
    requires 1 <= first <= LOOP_MAX && i < |inputs| && LongTicks(inputs[..i], 1) == 0
    ensures CorrectedFrom(first, truth, first, 0, false, inputs[..i + 1])
  {
    hide LongTicks;
    LongTicksNext(inputs, i, 40);
    LongerTicks(inputs[..i]);
  }

  lemma {:induction false} LongerTicks(inputs: seq<TickInput>)
    ensures LongTicks(inputs, 40) <= LongTicks(inputs, 1)
  {
    hide Budget;
    if inputs != [] {
      LongerTicks(inputs[..|inputs| - 1]);
    }
  }

  lemma NothingYet(base: int, first: int, truth: real, early: bool)
    requires 1 <= base <= LOOP_MAX && 1 <= first <= LOOP_MAX
    ensures CountAfter(base, [], truth) == base && LongTicks([], 1) == 0
    ensures CorrectedFrom(first, truth, first, 0, early, [])
  {
  }

  lemma LessonNext(first: int, truth: real, lessons: nat, taught: bool)
    requires 1 <= first <= LOOP_MAX
    ensures CorrectedTimes(first, truth, lessons + if taught then 1 else 0)
            == AfterLesson(CorrectedTimes(first, truth, lessons), taught, truth)
  {
  }

  /** A device whose launches take `t` ms per iteration and `c` ms per MiB of traffic. */
  ghost predicate CostLinear(d: Device, t: real, c: real) {
    t > 0.0 && c >= 0.0 && forall k: nat :: CostExactAt(d, t, c, k)
  }

  ghost predicate CostExactAt(d: Device, t: real, c: real, k: nat) {
    forall n: int, traffic: nat :: n >= 1 ==> d.run(k, n, traffic) == Some(LaunchMs(t, c, n, traffic))
  }

  function LaunchMs(t: real, c: real, n: int, traffic: nat): real {
    t * n as real + c * Mib(traffic)
  }

  lemma CostLaunch(d: Device, t: real, c: real, k: nat, n: int, traffic: nat)
    requires CostLinear(d, t, c) && n >= 1
    ensures d.run(k, n, traffic) == Some(LaunchMs(t, c, n, traffic))
  {
    assert CostExactAt(d, t, c, k);
  }

  lemma CostLinearIsLinear(d: Device, t: real, c: real)
    requires CostLinear(d, t, c)
    ensures Linear(d, t)
  {
    forall k: nat
      ensures ExactAt(d, t, k)
    {
      forall n: int | n >= 1
        ensures d.run(k, n, 0) == Some(t * n as real)
      {
        CostLaunch(d, t, c, k, n, 0);
        NothingMoved(t, c, n);
      }
    }
  }

  lemma NothingMoved(t: real, c: real, n: int)
    ensures LaunchMs(t, c, n, 0) == t * n as real
  {
    assert Mib(0) == 0.0;
  }

  /** With the traffic's cost in use, or without traffic, what is left of a launch's time is its ALU
      loop's. */
  lemma CostTakenOut(t: real, c: real, n: int, traffic: nat, msPerMib: real)
    requires traffic == 0 || msPerMib == c >= 0.0
    ensures AluElapsed(LaunchMs(t, c, n, traffic), msPerMib, Mib(traffic)) == t * n as real
  {
    if traffic == 0 {
      assert Mib(traffic) == 0.0;
    } else {
      assert MaxReal(msPerMib, 0.0) == c;
    }
  }

  /** So the launch corrects the count towards the true one, however its traffic has moved. */
  lemma CostlyLaunch(t: real, c: real, base: int, n: int, traffic: nat, msPerMib: real)
    requires t > 0.0 && 1 <= base <= LOOP_MAX && n >= 1
    requires traffic == 0 || msPerMib == c >= 0.0
    ensures Corrected(base, AluMs(n, base), AluElapsed(LaunchMs(t, c, n, traffic), msPerMib, Mib(traffic)))
            == if AluMs(n, base) >= ADAPT_MIN_BUSY_MS then CorrectedTowards(base, PERIOD_MS / t) else base
  {
    hide CorrectedTowards, Corrected, AluMs, AluElapsed, Mib, LaunchMs;
    CostTakenOut(t, c, n, traffic, msPerMib);
    BareCorrection(t, base, n, AluElapsed(LaunchMs(t, c, n, traffic), msPerMib, Mib(traffic)));
  }

  /** A device whose launches' times are known: with any traffic, or without a block. */
  ghost predicate Timed(d: Device, t: real, c: real, memoryHeld: bool) {
    t > 0.0 && (CostLinear(d, t, c) || (Linear(d, t) && !memoryHeld))
  }

  lemma TimeIs(d: Device, t: real, c: real, memoryHeld: bool, k: nat, n: int, traffic: nat)
    requires Timed(d, t, c, memoryHeld) && n >= 1 && (traffic > 0 ==> memoryHeld)
    ensures d.run(k, n, traffic) == Some(LaunchMs(t, c, n, traffic)) && (traffic > 0 ==> c >= 0.0)
  {
    if CostLinear(d, t, c) {
      CostLaunch(d, t, c, k, n, traffic);
    } else {
      assert ExactAt(d, t, k);
      NothingMoved(t, c, n);
    }
  }

  lemma TimedMeans(d: Device, t: real, c: real)
    ensures CostLinear(d, t, c) ==> t > 0.0 && c >= 0.0 && Linear(d, t) && forall held :: Timed(d, t, c, held)
    ensures Linear(d, t) ==> t > 0.0 && Timed(d, t, c, false)
  {
    hide CostExactAt;
    if CostLinear(d, t, c) {
      CostLinearIsLinear(d, t, c);
    }
  }

  /** The turn of a launch without a block, in both ways of putting it. */
  lemma LessonIsLaunch(base: int, targetMs: nat, truth: real)
    requires 1 <= base <= LOOP_MAX
    ensures AfterLaunch(base, targetMs, truth) == AfterLesson(base, Teaches(base, targetMs), truth)
    ensures AfterLaunch(base, 0, truth) == base == AfterLesson(base, false, truth)
  {
  }

  /** The count after a launch that has corrected it, or has not. */
  function AfterLesson(base: int, taught: bool, truth: real): (r: int)
    requires 1 <= base <= LOOP_MAX
    ensures 1 <= r <= LOOP_MAX
  {
    if taught then CorrectedTowards(base, truth) else base
  }

  lemma AfterLessonIs(base: int, taught: bool, truth: real)
    requires 1 <= base <= LOOP_MAX
    ensures AfterLesson(base, taught, truth) == if taught then CorrectedTowards(base, truth) else base
  {
  }

  /** What traffic costs beyond half of the budget. */
  function Excess(c: real, targetMs: nat, traffic: nat): real {
    MaxReal(0.0, c * Mib(traffic) - 0.5 * targetMs as real)
  }

  /** In the deadband, and with the traffic's cost in use, a launch's busy time keeps its budget: to
      within the deadband of the ALU loop's part and one iteration, but for what its traffic costs
      beyond half of it. */
  lemma BusyKeepsBudget(t: real, c: real, base: int, targetMs: nat, traffic: nat)
    requires t > 0.0 && 1 <= base <= LOOP_MAX && InDeadband(base, PERIOD_MS / t) && c >= 0.0
    ensures var loops := LaunchLoops(base, targetMs, CostMs(c, targetMs, traffic));
            var alu := targetMs as real - CostMs(c, targetMs, traffic);
            AbsReal(LaunchMs(t, c, loops, traffic) - targetMs as real - Excess(c, targetMs, traffic)) <= 0.053 * alu + t
  {
    hide InDeadband, Truncate, Scaled, LaunchMs, CostMs, Excess;
    var cost := CostMs(c, targetMs, traffic);
    var alu, loops := targetMs as real - cost, LaunchLoops(base, targetMs, cost);
    LaunchIs(t, c, loops, targetMs, traffic);
    var spent := t * loops as real;
    AluKeepsShare(t, base, alu, Scaled(base, alu), loops as real);
    assert LaunchMs(t, c, loops, traffic) - targetMs as real - Excess(c, targetMs, traffic) == spent - alu;
  }

  lemma LaunchIs(t: real, c: real, loops: int, targetMs: nat, traffic: nat)
    requires c >= 0.0
    ensures LaunchMs(t, c, loops, traffic)
            == t * loops as real + CostMs(c, targetMs, traffic) + Excess(c, targetMs, traffic)
  {
    NotNegative(c, Mib(traffic));
  }

  lemma AluKeepsShare(t: real, base: int, alu: real, x: real, loops: real)
    requires t > 0.0 && 1 <= base && InDeadband(base, PERIOD_MS / t) && alu >= 0.0
    requires x == Scaled(base, alu) && loops == Truncate(MaxReal(x, 1.0)) as real
    ensures AbsReal(t * loops - alu) <= 0.053 * alu + t
  {
    var q, ba, tx := PERIOD_MS / t / base as real, base as real * alu, t * x;
    hide InDeadband, Truncate;
    DeadbandRatio(t, base);
    AluShare(t, base, alu, q, x);
    NotNegative(base as real, alu);
    assert x == ba / PERIOD_MS >= 0.0;
    hide Scaled;
    WholeIterations(x);
    NotNegative(t, x);
    ShareOfIterations(t, tx, x, q, alu, loops);
  }

  lemma DeadbandRatio(t: real, base: int)
    requires t > 0.0 && base >= 1 && InDeadband(base, PERIOD_MS / t)
    ensures 0.95 < PERIOD_MS / t / base as real < 1.05
  {
  }

  /** Of all the time an ALU loop is given, it takes the part that its count is right for. */
  lemma AluShare(t: real, base: int, alu: real, q: real, x: real)
    requires t > 0.0 && base >= 1 && q == PERIOD_MS / t / base as real && x == Scaled(base, alu)
    ensures t * x * q == alu
  {
    var b := base as real;
    assert q * b == PERIOD_MS / t;
    assert q * b * t == PERIOD_MS;
    assert x * PERIOD_MS == b * alu;
    assert t * x * q * PERIOD_MS == t * q * (b * alu) == q * b * t * alu;
  }

  lemma WholeIterations(x: real)
    requires x >= 0.0
    ensures var loops := Truncate(MaxReal(x, 1.0)) as real; x - 1.0 < loops <= x + 1.0
  {
  }

  lemma ShareOfIterations(t: real, tx: real, x: real, q: real, alu: real, loops: real)
    requires t > 0.0 && tx == t * x && tx * q == alu && tx >= 0.0 && 0.95 < q < 1.05 && x - 1.0 < loops <= x + 1.0
    ensures AbsReal(t * loops - alu) <= 0.053 * alu + t
  {
    var spent := t * loops;
    NotNegative(tx, q - 0.95);
    NotNegative(tx, 1.05 - q);
    NotNegative(t, loops - (x - 1.0));
    NotNegative(t, x + 1.0 - loops);
    assert t * (loops - (x - 1.0)) == spent - tx + t;
    assert t * (x + 1.0 - loops) == tx + t - spent;
    assert tx * (q - 0.95) == alu - 0.95 * tx && tx * (1.05 - q) == 1.05 * tx - alu;
  }

  /** Every cost put to use since the first `from` samples is `c`. */
  ghost predicate CostsAre(samples: seq<Sample>, from: nat, c: real)
    requires AllMoved(samples)
  {
    forall k :: from < k <= |samples| ==> Published(samples[..k]) == c
  }

  lemma CostsBefore(before: seq<Sample>, samples: seq<Sample>, from: nat, c: real)
    requires AllMoved(samples) && before <= samples && from <= |before| && CostsAre(samples, from, c)
    ensures AllMoved(before) && CostsAre(before, from, c)
    ensures before != samples ==> Published(samples) == c
  {
    hide Published;
    forall k | from < k <= |before|
      ensures Published(before[..k]) == c
    {
      assert before[..k] == samples[..k];
    }
    assert samples[..|samples|] == samples;
  }

  /** The samples are on a line of this cost. */
  ghost predicate Follows(samples: seq<Sample>, c: real) {
    exists overhead :: OnLine(samples, c, overhead)
  }

  /** If there have been more than `from` samples, the first of the others found enough to tell. */
  ghost predicate TellsFrom(samples: seq<Sample>, from: nat) {
    |samples| <= from || EverTelling(samples[..from + 1])
  }

  lemma EverTellingOn(samples: seq<Sample>, m: nat, n: nat)
    requires m <= n <= |samples| && EverTelling(samples[..m])
    ensures EverTelling(samples[..n])
  {
    hide Telling;
    var k :| 0 <= k <= m && Telling(samples[..m][..k]);
    assert samples[..m][..k] == samples[..n][..k];
  }

  /** On a line, the costs put to use are the line's if and only if there is none, or the samples tell
      from there on. */
  lemma CostsAreExactly(samples: seq<Sample>, from: nat, c: real)
    requires AllMoved(samples) && Follows(samples, c)
    ensures CostsAre(samples, from, c) <==> c == 0.0 || TellsFrom(samples, from)
  {
    hide Published, EverTelling, OnLine;
    var overhead :| OnLine(samples, c, overhead);
    forall k | from < k <= |samples|
      ensures Published(samples[..k]) == if EverTelling(samples[..k]) then c else 0.0
      ensures EverTelling(samples[..from + 1]) ==> EverTelling(samples[..k])
    {
      FirstOnLine(samples, k, c, overhead);
      CostInUse(samples[..k], c, overhead);
      if EverTelling(samples[..from + 1]) {
        EverTellingOn(samples, from + 1, k);
      }
    }
  }

  /** A count and a cost that are exact, with all samples on the line they make. */
  ghost predicate Exact(base: int, t: real, samples: seq<Sample>, c: real)
    requires AllMoved(samples)
  {
    t > 0.0 && c >= 0.0 && base as real * t == 100.0 && OnLine(samples, c, 0.0) && Published(samples) == c
  }

  /** What is learned with an exact count is the line again. */
  lemma ExactSample(t: real, c: real, base: int, n: int, traffic: nat)
    requires base >= 1 && base as real * t == 100.0
    ensures Residual(LaunchMs(t, c, n, traffic), AluMs(n, base)) == c * Mib(traffic)
  {
    var b := base as real;
    assert b * t == PERIOD_MS;
    assert n as real * PERIOD_MS == t * n as real * b;
    assert AluMs(n, base) == t * n as real;
  }

  lemma ExactNext(base: int, t: real, samples: seq<Sample>, c: real, s: Sample)
    requires AllMoved(samples) && Exact(base, t, samples, c) && s.mib > 0.0 && s.residualMs == c * s.mib
    ensures AllMoved(samples + [s]) && Exact(base, t, samples + [s], c)
  {
    var all := samples + [s];
    hide Published;
    assert all[..|samples|] == samples;
    assert OnLine(all, c, 0.0) && AllMoved(all);
    CostStaysOnce(all, c, 0.0);
  }

  lemma ExactMeans(base: int, t: real, samples: seq<Sample>, c: real)
    requires AllMoved(samples)
    ensures Exact(base, t, samples, c) ==> t > 0.0 && c >= 0.0 && Published(samples) == c
  {
    hide Published;
  }

  lemma ExactIsKept(base: int, t: real, taught: bool)
    requires t > 0.0 && 1 <= base <= LOOP_MAX && base as real * t == 100.0
    ensures AfterLesson(base, taught, PERIOD_MS / t) == base
  {
    assert PERIOD_MS / t == base as real;
    DeadbandKeeps(base, base as real);
  }

  // ----- The worker

  class GpuWorkerContext {
    const device: Device
    const memoryBytes: nat
    ghost const start: Phase
    var baseLoopCount: int
    var calibrated: bool
    var memoryHeld: bool
    var memoryFailed: bool
    var trafficBytesPerSecond: real
    var memMsPerMib: real
    var memCostFit: Fit
    /** Everything done with the device, in order. */
    var log: seq<Event>
    ghost var samples: seq<Sample>

    /** The counters are in range, the cost is the one the launches so far have published, and all
        that was done with the device was allowed. */
    ghost predicate Sane()
      reads this
    {
      && 1 <= baseLoopCount <= LOOP_MAX
      && trafficBytesPerSecond >= 0.0 && (device.bandwidth.Some? ==> device.bandwidth.value >= 0.0)
      && (memoryHeld || trafficBytesPerSecond > 0.0 ==> RateIs(device.bandwidth, trafficBytesPerSecond))
      && AllMoved(samples) && memCostFit == FitOf(samples) && memMsPerMib == Published(samples)
      && Accepted(start, log)
      && PhaseAfter(start, log).held == memoryHeld && PhaseAfter(start, log).calibrated == calibrated
      && PhaseAfter(start, log).block == (memoryBytes != 0)
      && (memoryBytes == 0 ==> !memoryHeld && !memoryFailed)
    }

    ghost predicate Ok()
      reads this
    {
      Sane() && PhaseAfter(start, log).refused == memoryFailed
    }

    ghost function Now(): Phase
      reads this
    {
      PhaseAfter(start, log)
    }

    constructor (device: Device, memoryBytes: nat)
      requires device.bandwidth.Some? ==> device.bandwidth.value >= 0.0
      ensures Ok() && log == [] && Now() == NEW_DEVICE.(block := memoryBytes != 0)
      ensures this.device == device && this.memoryBytes == memoryBytes
    {
      this.device, this.memoryBytes := device, memoryBytes;
      start := NEW_DEVICE.(block := memoryBytes != 0);
      baseLoopCount, calibrated, memoryHeld, memoryFailed := 1, false, false, false;
      trafficBytesPerSecond, memMsPerMib, memCostFit, log, samples := 0.0, 0.0, NoFit, [], [];
    }

    // --- Calibration

    method TimeKernelMs(loopCount: int) returns (elapsed: Option<real>)
      requires Allowed(Now(), Trial(true)) && Accepted(start, log)
      modifies `log
      ensures elapsed == device.run(|old(log)|, loopCount, 0)
      ensures log == old(log) + [Trial(elapsed.Some?)] && Accepted(start, log) && TicksOf(log) == old(TicksOf(log))
      ensures Now() == old(Now()).(trialFailed := elapsed.None?)
    {
      elapsed := device.run(|log|, loopCount, 0);
      AcceptedNext(start, log, Trial(elapsed.Some?));
      log := log + [Trial(elapsed.Some?)];
    }

    /** Time a count three times and take the middle one. */
    method MedianKernelMs(loopCount: int) returns (elapsed: Option<real>)
      requires Allowed(Now(), Trial(true)) && Accepted(start, log)
      modifies `log
      ensures Accepted(start, log) && Now() == old(Now()).(trialFailed := elapsed.None?)
      ensures old(log) <= log && |log| <= |old(log)| + 3 && TicksOf(log) == old(TicksOf(log))
      ensures var k := |old(log)|;
              var a, b := device.run(k, loopCount, 0), device.run(k + 1, loopCount, 0);
              var c := device.run(k + 2, loopCount, 0);
              && (elapsed.Some? <==> a.Some? && b.Some? && c.Some?)
              && (elapsed.Some? ==> elapsed.value == Median(a.value, b.value, c.value))
    {
      hide Accepted, PhaseAfter, TicksOf, Median;
      var a := TimeKernelMs(loopCount);
      if a.None? {
        return None;
      }
      var b := TimeKernelMs(loopCount);
      if b.None? {
        return None;
      }
      var c := TimeKernelMs(loopCount);
      if c.None? {
        return None;
      }
      return Some(Median(a.value, b.value, c.value));
    }

    /** What the calibration comes to on a device that is linear most of the time: the count that
        fills a period, or one whose launch is within the tolerance of it. */
    ghost predicate Settled(t: real, count: int)
    {
      && t > 0.0
      && (count == ClampCount(PERIOD_MS / t)
          || AbsReal(t * count as real - 100.0) <= 3.0)
    }

    /** What a trial comes to on such devices. */
    ghost predicate TrialTimed(t: real, count: int, elapsed: Option<real>) {
      && (Linear(device, t) ==> elapsed == Some(t * count as real))
      && (MostlyLinear(device, t) ==> elapsed.Some?)
    }

    lemma TrialTimedAt(t: real, k: nat, count: int)
      requires count >= 1
      ensures TrialTimed(t, count, device.run(k, count, 0))
    {
      assert Linear(device, t) ==> ExactAt(device, t, k);
    }

    /** Quadruple the count for as long as its launch stays below 5 ms. That takes eleven trials at most. */
    method Grow(ghost t: real) returns (count: int, elapsed: Option<real>)
      requires Allowed(Now(), Trial(true)) && Accepted(start, log)
      modifies `log
      ensures Accepted(start, log) && Now() == old(Now()).(trialFailed := elapsed.None?)
      ensures old(log) <= log && |log| <= |old(log)| + 11 && TicksOf(log) == old(TicksOf(log))
      ensures 1 <= count <= LOOP_MAX && (elapsed.Some? ==> elapsed.value >= 5.0 || count == 1_000_000_000)
      ensures TrialTimed(t, count, elapsed)
    {
      hide Accepted, PhaseAfter, TicksOf, Grown, TrialTimed;
      count := CALIBRATION_START;
      GrownNext(0);
      while true
        invariant Allowed(Now(), Trial(true)) && Accepted(start, log)
        invariant 1 <= count <= LOOP_MAX && Now() == old(Now())
        invariant old(log) <= log && TicksOf(log) == old(TicksOf(log))
        invariant |log| <= |old(log)| + 10 && count == Grown(|log| - |old(log)|)
        decreases LOOP_MAX - count
      {
        GrownNext(|log| - |old(log)|);
        TrialTimedAt(t, |log|, count);
        elapsed := TimeKernelMs(count);
        if elapsed.None? || elapsed.value >= CALIBRATION_MIN_SAMPLE_MS || count >= LOOP_MAX {
          return;
        }
        count := Min(count * 4, LOOP_MAX);
      }
    }

    /** What a number of rounds of refinement have come to. */
    ghost predicate Refined(t: real, round: nat, count: int, elapsedMs: real) {
      && (Linear(device, t) ==> elapsedMs == t * count as real && (round > 0 ==> count == ClampCount(PERIOD_MS / t)))
      && (MostlyLinear(device, t) ==> (round > 0 ==> elapsedMs == t * count as real)
                                      && (round > 1 ==> count == ClampCount(PERIOD_MS / t)))
    }

    /** What the calibration should come to. */
    ghost predicate Outcome(t: real, count: int) {
      && (Linear(device, t) ==> count == ClampCount(PERIOD_MS / t))
      && (MostlyLinear(device, t) ==> Settled(t, count))
    }

    lemma GrownIsRefined(t: real, count: int, elapsed: Option<real>)
      requires TrialTimed(t, count, elapsed)
      ensures if elapsed.Some? then Refined(t, 0, count, elapsed.value) else !MostlyLinear(device, t)
    {
    }

    lemma RefinedIsSettled(t: real, round: nat, count: int, elapsedMs: real)
      requires Refined(t, round, count, elapsedMs) && round >= 1
      ensures round >= 2 || AbsReal(elapsedMs - PERIOD_MS) <= PERIOD_MS * CALIBRATION_TOLERANCE ==> Outcome(t, count)
    {
    }

    lemma RefinedNext(t: real, round: nat, count: int, elapsedMs: real, next: int, nextMs: real)
      requires Refined(t, round, count, elapsedMs) && count >= 1
      requires next == Extrapolate(count, elapsedMs, PERIOD_MS)
      requires MostlyLinear(device, t) ==> nextMs == t * next as real
      ensures Refined(t, round + 1, next, nextMs)
    {
      hide Extrapolate, ClampCount, MostlyLinear;
      if Linear(device, t) {
        LinearIsMostly(device, t);
      }
      if t > 0.0 {
        ExtrapolateLinear(count, t);
      }
      assert MostlyLinear(device, t) ==> t > 0.0 by { MostlyLinearTakesTime(device, t); }
    }

    /** One round of refinement: extrapolate, and time that. */
    method Refine(count: int, elapsedMs: real, ghost t: real) returns (next: int, elapsed: Option<real>)
      requires Allowed(Now(), Trial(true)) && Accepted(start, log)
      modifies `log
      ensures Accepted(start, log) && Now() == old(Now()).(trialFailed := elapsed.None?)
      ensures old(log) <= log && |log| <= |old(log)| + 3 && TicksOf(log) == old(TicksOf(log))
      ensures next == Extrapolate(count, elapsedMs, PERIOD_MS)
      ensures MostlyLinear(device, t) ==> elapsed == Some(t * next as real)
    {
      hide Accepted, PhaseAfter, TicksOf, ExactAt, Extrapolate, Median;
      ghost var k := |log|;
      next := Extrapolate(count, elapsedMs, PERIOD_MS);
      elapsed := MedianKernelMs(next);
      if MostlyLinear(device, t) {
        TwoOfThreeExact(device, t, k);
        MedianExact(device, t, k, next);
      }
    }

    /** Grow, then refine until the median is within the tolerance. */
    method Search(ghost t: real) returns (found: Option<int>)
      requires Allowed(Now(), Trial(true)) && Accepted(start, log)
      modifies `log
      ensures Accepted(start, log) && Now() == old(Now()).(trialFailed := found.None?)
      ensures old(log) <= log && |log| <= |old(log)| + 20 && TicksOf(log) == old(TicksOf(log))
      ensures MostlyLinear(device, t) ==> found.Some?
      ensures found.Some? ==> 1 <= found.value <= LOOP_MAX && Outcome(t, found.value)
    {
      hide Accepted, PhaseAfter, TicksOf, Linear, MostlyLinear, Extrapolate, ClampCount, TrialTimed, Refined, Outcome;
      var count, elapsed := Grow(t);
      GrownIsRefined(t, count, elapsed);
      if elapsed.None? {
        return None;
      }
      for round := 0 to CALIBRATION_REFINE_ROUNDS
        invariant Accepted(start, log) && Allowed(Now(), Trial(true)) && Now() == old(Now())
        invariant old(log) <= log && |log| <= |old(log)| + 11 + 3 * round && TicksOf(log) == old(TicksOf(log))
        invariant 1 <= count <= LOOP_MAX && elapsed.Some?
        invariant Refined(t, round, count, elapsed.value)
        invariant round >= 2 ==> Outcome(t, count)
      {
        var before := elapsed.value;
        var next;
        next, elapsed := Refine(count, before, t);
        if elapsed.None? {
          return None;
        }
        RefinedNext(t, round, count, before, next, elapsed.value);
        count := next;
        RefinedIsSettled(t, round + 1, count, elapsed.value);
        if AbsReal(elapsed.value - PERIOD_MS) <= PERIOD_MS * CALIBRATION_TOLERANCE {
          break;
        }
      }
      return Some(count);
    }

    /** The whole calibration. It succeeds just when no trial launch fails. On a device that takes any
        `t` ms per iteration the count is exactly the one that fills the period, as near as a whole
        number within the bounds can; with an occasional hiccup it is still that or within the
        tolerance. */
    method CalibrateBaseLoopCount(ghost t: real) returns (ok: bool)
      requires Ok() && Allowed(Now(), Trial(true))
      modifies `log, `baseLoopCount, `calibrated
      ensures Ok() && ok == calibrated && (!ok ==> baseLoopCount == old(baseLoopCount))
      ensures Now() == old(Now()).(calibrated := ok, trialFailed := !ok, launchDue := !ok && old(Now().launchDue))
      ensures old(log) <= log && |log| <= |old(log)| + 22 && TicksOf(log) == old(TicksOf(log))
      ensures Linear(device, t) || MostlyLinear(device, t) ==> ok
      ensures ok ==> Outcome(t, baseLoopCount)
    {
      hide Accepted, PhaseAfter, TicksOf, Linear, MostlyLinear, Published, FitOf, Outcome;
      TrialSucceeds(device, t, |log|, 1);
      var warm := TimeKernelMs(1);
      if warm.None? {
        return false;
      }
      var found := Search(t);
      if found.None? {
        return false;
      }
      AcceptedNext(start, log, Calibrated);
      log := log + [Calibrated];
      ok, baseLoopCount, calibrated := true, Max(1, found.value), true;
    }

    // --- Memory

    /** Bring the block into line: gone from a shared or abandoned device, otherwise held, if it has not
        been refused before. */
    method SyncMemory(sharing: bool)
      requires Sane() && if sharing then !Now().refused else Now().refused == memoryFailed
      requires if Now().dead then sharing else Running(Now()) && Now().sharing == sharing
      requires !Now().dead ==>
                 Now().memoryDue
                 == (memoryBytes != 0 && if sharing then memoryHeld else !memoryHeld && !memoryFailed)
      modifies `log, `memoryHeld, `memoryFailed, `trafficBytesPerSecond
      ensures Ok() && old(log) <= log && TicksOf(log) == old(TicksOf(log))
      ensures Now() == old(Now()).(held := memoryHeld, refused := memoryFailed, memoryDue := Now().memoryDue)
      ensures !Now().dead ==> !Now().memoryDue
      ensures sharing && memoryBytes != 0 ==> !memoryHeld && !memoryFailed
      ensures !sharing && memoryBytes != 0 && !old(memoryHeld) && !old(memoryFailed) ==>
                memoryHeld == device.allocate(|old(log)|) == !memoryFailed
      ensures !sharing && (old(memoryHeld) || old(memoryFailed)) ==> unchanged(this)
      ensures memoryHeld ==> RateIs(device.bandwidth, trafficBytesPerSecond)
    {
      hide Accepted, PhaseAfter, TicksOf, FitOf, Published, AllMoved;
      if memoryBytes == 0 {
        return;
      }
      if sharing {
        if memoryHeld {
          AcceptedNext(start, log, Release);
          log := log + [Release];
          memoryHeld := false;
        }
        memoryFailed := false;
        return;
      }
      if memoryHeld || memoryFailed {
        return;
      }
      memoryHeld := device.allocate(|log|);
      AcceptedNext(start, log, Allocate(memoryHeld));
      log := log + [Allocate(memoryHeld)];
      if memoryHeld && trafficBytesPerSecond <= 0.0 {
        trafficBytesPerSecond := match device.bandwidth
          case Some(bandwidth) => bandwidth * TRAFFIC_BANDWIDTH_SHARE
          case None => TRAFFIC_MIB_PER_SECOND * MIB;
      }
      if !memoryHeld {
        memoryFailed := true;
      }
    }

    // --- Learning from a launch

    /** One more sample for the fit; the cost in use follows if the fit is good enough. */
    method UpdateMemCost(mib: real, residualMs: real)
      requires Ok() && mib > 0.0
      modifies `memCostFit, `memMsPerMib, `samples
      ensures Ok() && samples == old(samples) + [Sample(mib, residualMs)]
      ensures Telling(samples) ==> BestSlope(samples, memMsPerMib)
      ensures !Telling(samples) ==> memMsPerMib == old(memMsPerMib)
      ensures forall cost, overhead :: OnLine(samples, cost, overhead) ==>
                memMsPerMib == if EverTelling(samples) then cost else 0.0
    {
      hide Accepted, PhaseAfter, TicksOf, FitOf, Published, AllMoved, Add, Slope, Publishes;
      hide Telling, BestSlope, EverTelling, OnLine;
      var s := Sample(mib, residualMs);
      PublishNext(samples, s);
      memCostFit := Add(memCostFit, s);
      samples := samples + [s];
      if Publishes(memCostFit) {
        memMsPerMib := Slope(memCostFit);
      }
    }

    /** The correction after a launch whose ALU loop came out at a different time. */
    method AdaptBaseLoopCount(aluTargetMs: real, aluElapsedMs: real)
      requires Ok()
      modifies `baseLoopCount
      ensures Ok() && baseLoopCount == Corrected(old(baseLoopCount), aluTargetMs, aluElapsedMs)
    {
      hide Accepted, PhaseAfter, FitOf, Published, AllMoved, ClampCount, Smoothed;
      if aluTargetMs < ADAPT_MIN_BUSY_MS || aluElapsedMs <= 0.0 {
        return;
      }
      var ratio := aluTargetMs / aluElapsedMs;
      if AbsReal(ratio - 1.0) < ADAPT_DEADBAND {
        return;
      }
      baseLoopCount := ClampCount(Smoothed(baseLoopCount, ratio));
    }

    // --- The loop

    /** Bytes that a launch of so much busy time should move, scaled by the fluctuating factor. */
    function Traffic(targetMs: nat, factor: real): (r: nat)
      requires trafficBytesPerSecond >= 0.0 && factor >= 0.0
      reads `memoryHeld, `trafficBytesPerSecond
      ensures if memoryHeld then r == BytesAt(trafficBytesPerSecond, targetMs, factor) else r == 0
    {
      if !memoryHeld then 0 else BytesAt(trafficBytesPerSecond, targetMs, factor)
    }

    /** What a successful launch teaches: the traffic's cost, from what exceeds the ALU loop's share of
        its time, and the loop count, from what is left after that cost. */
    method Learn(loopCount: int, traffic: nat, elapsedMs: real, ghost t: real, ghost c: real)
      requires Ok() && loopCount >= 1
      modifies `baseLoopCount, `memCostFit, `memMsPerMib, `samples
      ensures Ok()
      ensures var aluMs := AluMs(loopCount, old(baseLoopCount));
              && samples == old(samples)
                            + (if traffic != 0 then [Sample(Mib(traffic), Residual(elapsedMs, aluMs))] else [])
              && baseLoopCount == Corrected(old(baseLoopCount), aluMs, AluElapsed(elapsedMs, memMsPerMib, Mib(traffic)))
      ensures t > 0.0 && elapsedMs == LaunchMs(t, c, loopCount, traffic)
              && (traffic == 0 || memMsPerMib == c >= 0.0) ==>
                baseLoopCount == AfterLesson(old(baseLoopCount),
                                             AluMs(loopCount, old(baseLoopCount)) >= ADAPT_MIN_BUSY_MS,
                                             PERIOD_MS / t)
      ensures elapsedMs == LaunchMs(t, c, loopCount, traffic) && Exact(old(baseLoopCount), t, old(samples), c) ==>
                baseLoopCount == old(baseLoopCount) && Exact(baseLoopCount, t, samples, c)
    {
      hide Accepted, PhaseAfter, TicksOf, FitOf, Published, AllMoved, Corrected, Mib, AluMs, Residual, AluElapsed,
           AfterLesson, LaunchMs, OnLine, EverTelling, Telling, BestSlope;
      ghost var base := baseLoopCount;
      var aluMs := AluMs(loopCount, baseLoopCount);
      if elapsedMs == LaunchMs(t, c, loopCount, traffic) && Exact(base, t, samples, c) {
        ExactSample(t, c, base, loopCount, traffic);
        ExactIsKept(base, t, aluMs >= ADAPT_MIN_BUSY_MS);
        if traffic != 0 {
          ExactNext(base, t, samples, c, Sample(Mib(traffic), Residual(elapsedMs, aluMs)));
        }
      }
      hide Exact;
      if traffic != 0 {
        UpdateMemCost(Mib(traffic), Residual(elapsedMs, aluMs));
      }
      ExactMeans(base, t, samples, c);
      AdaptBaseLoopCount(aluMs, AluElapsed(elapsedMs, memMsPerMib, Mib(traffic)));
      if t > 0.0 && (traffic == 0 || memMsPerMib == c >= 0.0) {
        CostlyLaunch(t, c, base, loopCount, traffic, memMsPerMib);
        AfterLessonIs(base, AluMs(loopCount, base) >= ADAPT_MIN_BUSY_MS, PERIOD_MS / t);
      }
    }

    /** One launch with its traffic, its ALU loop cut by what the traffic should cost. After a
        successful one, learn from the time it took: the traffic's cost from what exceeds the ALU
        loop's share, the loop count from what is left after that cost. */
    method LaunchOnce(targetMs: nat, factor: real, ghost t: real, ghost c: real) returns (ok: bool, ghost taught: bool)
      requires Ok() && Now().launchDue && !Now().memoryDue && Running(Now()) && calibrated
      requires !(Now().sharing && memoryHeld)
      requires 1 <= targetMs <= 100 && factor >= 0.0
      modifies `log, `baseLoopCount, `memCostFit, `memMsPerMib, `samples
      ensures Ok() && Now() == old(Now()).(failures := if ok then 0 else old(Now().failures) + 1, launchDue := false)
      ensures TicksOf(log) == old(TicksOf(log))
      ensures var traffic := old(Traffic(targetMs, factor));
              var loopCount := old(LaunchLoops(baseLoopCount, targetMs, CostMs(memMsPerMib, targetMs, traffic)));
              var elapsed := device.run(|old(log)|, loopCount, traffic);
              var aluMs := AluMs(loopCount, old(baseLoopCount));
              && ok == elapsed.Some?
              && log == old(log) + [Launch(loopCount, traffic, ok)]
              && samples == old(samples)
                            + (if ok && traffic != 0
                               then [Sample(Mib(traffic), Residual(elapsed.value, aluMs))] else [])
              && baseLoopCount == if !ok then old(baseLoopCount)
                                  else Corrected(old(baseLoopCount), aluMs,
                                                 AluElapsed(elapsed.value, memMsPerMib, Mib(traffic)))
      ensures !memoryHeld ==> samples == old(samples) && (taught <==> Teaches(old(baseLoopCount), targetMs))
      ensures targetMs >= 40 ==> taught
      ensures Timed(device, t, c, memoryHeld) ==>
                && ok
                && (samples == old(samples) || memMsPerMib == c ==>
                      baseLoopCount == AfterLesson(old(baseLoopCount), taught, PERIOD_MS / t))
                && (Exact(old(baseLoopCount), t, old(samples), c) ==>
                      baseLoopCount == old(baseLoopCount) && Exact(baseLoopCount, t, samples, c))
    {
      hide Accepted, PhaseAfter, TicksOf, FitOf, Published, AllMoved, LaunchLoops, Corrected, Mib, AluMs, Residual,
           AluElapsed, AfterLesson, LaunchMs, CostMs, CostLinear, Linear, Exact;
      var traffic := Traffic(targetMs, factor);
      var memMs := CostMs(memMsPerMib, targetMs, traffic);
      NoCost(memMsPerMib, targetMs);
      var loopCount := LaunchLoops(baseLoopCount, targetMs, memMs);
      LaunchLoopsBounds(baseLoopCount, targetMs, memMs);
      taught := AluMs(loopCount, baseLoopCount) >= ADAPT_MIN_BUSY_MS;
      if targetMs >= 40 {
        LongLaunchTeaches(baseLoopCount, targetMs, memMs);
      }
      if Timed(device, t, c, memoryHeld) {
        TimeIs(device, t, c, memoryHeld, |log|, loopCount, traffic);
      }
      var elapsed := device.run(|log|, loopCount, traffic);
      ok := elapsed.Some?;
      AcceptedNext(start, log, Launch(loopCount, traffic, ok));
      log := log + [Launch(loopCount, traffic, ok)];
      if ok {
        Learn(loopCount, traffic, elapsed.value, t, c);
      }
    }

    /** One turn of the worker's thread. On a device that takes `t` ms per iteration (and `c` ms per MiB),
        a turn calibrates the kernel, corrects the count, or leaves it as it is. */
    method Turn(input: TickInput, failures: nat, ghost t: real, ghost c: real)
      returns (gaveUp: bool, next: nat, ghost taught: bool)
      requires Ok() && Idle(Now()) && failures == Now().failures && input.factor >= 0.0
      modifies this
      ensures Ok() && old(log) <= log && TicksOf(log) == old(TicksOf(log)) + [(input.others, input.load)]
      ensures gaveUp == Now().dead && (gaveUp ==> !memoryHeld && !Now().held)
      ensures !gaveUp ==> Idle(Now()) && next == Now().failures
      ensures old(samples) <= samples && (old(calibrated) ==> calibrated)
      ensures t > 0.0 && Linear(device, t) && memoryBytes == 0 && old(calibrated) ==>
                !gaveUp && baseLoopCount == AfterLaunch(old(baseLoopCount), Budget(input), PERIOD_MS / t)
      ensures CostLinear(device, t, c) ==> !gaveUp && calibrated == (old(calibrated) || Budget(input) > 0)
      ensures CostLinear(device, t, c) && old(calibrated) ==>
                && (samples == old(samples) || memMsPerMib == c ==>
                      baseLoopCount == AfterLesson(old(baseLoopCount), taught, PERIOD_MS / t))
                && (Budget(input) >= 40 ==> taught)
                && (Exact(old(baseLoopCount), t, old(samples), c) ==>
                      baseLoopCount == old(baseLoopCount) && Exact(baseLoopCount, t, samples, c))
      ensures CostLinear(device, t, c) && !old(calibrated) ==>
                && samples == old(samples) && !taught
                && baseLoopCount == if calibrated then ClampCount(PERIOD_MS / t) else old(baseLoopCount)
      ensures !gaveUp && old(memoryHeld && calibrated) && input.others < 0 ==>
                && memoryHeld && trafficBytesPerSecond == old(trafficBytesPerSecond)
                && Carried(log, old(BytesMoved(log)), trafficBytesPerSecond, [input], 1)
    {
      hide Accepted, PhaseAfter, TicksOf, FitOf, Published, AllMoved, Follow, Linear, CostLinear, Timed, Teaches,
           AfterLaunch, AfterLesson, Exact, BytesMoved, BytesOf, BytesAt;
      taught, next, gaveUp := false, failures, false;
      TimedMeans(device, t, c);
      LessonIsLaunch(baseLoopCount, Budget(input), if t > 0.0 then PERIOD_MS / t else 0.0);
      BytesOfNone(trafficBytesPerSecond, [input]);
      BytesOfNext(trafficBytesPerSecond, [input], 0);
      BytesMovedNext(log, Tick(input.others, input.load));
      BeginTick(input);
      var targetMs := TargetMs(input.load, input.others);
      if targetMs > 0 && !calibrated {
        var ok := CalibrateBaseLoopCount(t);
        if !ok {
          GiveDeviceUp();
          gaveUp := true;
        }
      } else if targetMs > 0 {
        var ok;
        ghost var before := log;
        ok, taught := LaunchOnce(targetMs, input.factor, t, c);
        BytesMovedNext(before, log[|before|]);
        next := if ok then 0 else failures + 1;
        if next >= MAX_CONSECUTIVE_FAILURES {
          GiveDeviceUp();
          gaveUp := true;
        }
      }
    }

    /** The worker's thread, one input per turn, until it is stopped or gives the device up. All it
        does with the device is allowed, in any run and whatever the device answers; the ticks are
        those of the inputs, each with all its work done when the thread is stopped; and when it
        gives up, it holds nothing. On a calibrated device that takes `t` ms per iteration, without
        a block, the loop count ends where the launches long enough to teach have brought it. With
        one, and calibrated or not, it has been corrected at least once in every tick of 40 ms, as
        long as the traffic's cost in use is the true one; that it is if the samples keep to the
        device's line, and have told its cost from the first new one on. With an exact count they do,
        and count and cost stay what they are. As long as the block is held and nobody else is found on
        the device, the launches move the bytes that the rate, the budgets and the factors come to. */
    method Loop(inputs: seq<TickInput>, ghost t: real, ghost c: real) returns (gaveUp: bool, ghost lessons: nat)
      requires Ok() && Idle(Now()) && Now().failures == 0
      requires forall i :: 0 <= i < |inputs| ==> inputs[i].factor >= 0.0
      modifies this
      ensures Ok() && Accepted(start, log) && old(log) <= log
      ensures gaveUp == Now().dead && (gaveUp ==> !memoryHeld && !Now().held)
      ensures !gaveUp ==> Idle(Now()) && TicksOf(log) == old(TicksOf(log)) + TicksOfInputs(inputs)
      ensures gaveUp ==> exists n :: 0 < n <= |inputs| && TicksOf(log) == old(TicksOf(log)) + TicksOfInputs(inputs[..n])
      ensures t > 0.0 && Linear(device, t) && memoryBytes == 0 && old(calibrated) ==>
                !gaveUp && baseLoopCount == CountAfter(old(baseLoopCount), inputs, PERIOD_MS / t)
      ensures CostLinear(device, t, c) ==> !gaveUp
      ensures CostLinear(device, t, c) && calibrated && CostsAre(samples, |old(samples)|, c) ==>
                var first := if old(calibrated) then old(baseLoopCount) else ClampCount(PERIOD_MS / t);
                CorrectedFrom(first, PERIOD_MS / t, baseLoopCount, lessons, old(calibrated), inputs)
      ensures CostLinear(device, t, c) && calibrated && Follows(samples, c) && TellsFrom(samples, |old(samples)|) ==>
                var first := if old(calibrated) then old(baseLoopCount) else ClampCount(PERIOD_MS / t);
                CorrectedFrom(first, PERIOD_MS / t, baseLoopCount, lessons, old(calibrated), inputs)
      ensures CostLinear(device, t, c) && old(calibrated) && Exact(old(baseLoopCount), t, old(samples), c) ==>
                baseLoopCount == old(baseLoopCount) && memMsPerMib == c && Exact(baseLoopCount, t, samples, c)
      ensures CostLinear(device, t, c) && !calibrated ==> LongTicks(inputs, 1) == 0
      ensures !gaveUp && old(memoryHeld && calibrated) && Undisturbed(inputs) ==>
                && memoryHeld && RateIs(device.bandwidth, trafficBytesPerSecond)
                && Carried(log, old(BytesMoved(log)), trafficBytesPerSecond, inputs, |inputs|)
    {
      hide Accepted, PhaseAfter, TicksOf, TicksOfInputs, FitOf, Published, AllMoved, Follow, Linear, CostLinear,
           CostsAre, CountAfter, AfterLaunch, AfterLesson, LongTicks, CorrectedFrom, Exact, Follows, TellsFrom,
           Undisturbed, Carried;
      ghost var bare := t > 0.0 && Linear(device, t) && memoryBytes == 0 && calibrated;
      ghost var costly := CostLinear(device, t, c);
      ghost var truth := if t > 0.0 then PERIOD_MS / t else 0.0;
      ghost var first := if calibrated then baseLoopCount else ClampCount(truth);
      ghost var early := calibrated;
      ghost var alone := memoryHeld && calibrated && Undisturbed(inputs);
      ghost var rate := trafficBytesPerSecond;
      ghost var exact := costly && calibrated && Exact(baseLoopCount, t, samples, c);
      TimedMeans(device, t, c);
      NothingYet(baseLoopCount, first, truth, early);
      var failures := 0;
      var i := 0;
      lessons := 0;
      gaveUp := false;
      TicksOfNone();
      assert inputs[..0] == [];
      NothingCarried(log, rate, inputs);
      while i < |inputs|
        invariant i <= |inputs|
        invariant Ok() && Idle(Now()) && failures == Now().failures && old(log) <= log && old(samples) <= samples
        invariant TicksOf(log) == old(TicksOf(log)) + TicksOfInputs(inputs[..i])
        invariant bare ==> calibrated && baseLoopCount == CountAfter(old(baseLoopCount), inputs[..i], truth)
        invariant early ==> calibrated
        invariant exact ==> baseLoopCount == old(baseLoopCount) && Exact(baseLoopCount, t, samples, c)
        invariant costly && calibrated && CostsAre(samples, |old(samples)|, c) ==>
          CorrectedFrom(first, truth, baseLoopCount, lessons, early, inputs[..i])
        invariant alone ==> memoryHeld && trafficBytesPerSecond == rate
        invariant alone ==> Carried(log, old(BytesMoved(log)), rate, inputs, i)
        invariant costly && !calibrated ==>
          samples == old(samples) && lessons == 0 && LongTicks(inputs[..i], 1) == 0
      {
        var input := inputs[i];
        i := i + 1;
        TicksOfNext(inputs, i - 1);
        LongTicksNext(inputs, i - 1, 1);
        CountAfterNext(old(baseLoopCount), inputs, i - 1, truth);
        ghost var before, wasCalibrated, count := samples, calibrated, baseLoopCount;
        ghost var taught, earlier := false, log;
        OthersAt(inputs, i - 1);
        gaveUp, failures, taught := Turn(input, failures, t, c);
        if gaveUp {
          return;
        }
        if alone {
          CarriedNext(earlier, log, old(BytesMoved(log)), rate, inputs, i - 1);
        }
        if costly && calibrated && CostsAre(samples, |old(samples)|, c) {
          CostsBefore(before, samples, |old(samples)|, c);
          if wasCalibrated {
            CorrectedNext(first, truth, count, baseLoopCount, lessons, early, inputs, i - 1, taught);
          } else {
            CorrectedFirst(first, truth, inputs, i - 1);
          }
        }
        lessons := lessons + if taught then 1 else 0;
      }
      assert inputs[..i] == inputs;
      ExactMeans(baseLoopCount, t, samples, c);
      if Follows(samples, c) {
        CostsAreExactly(samples, |old(samples)|, c);
      }
    }

    /** A tick's start: see who else is there, and free or get the block. */
    method BeginTick(input: TickInput)
      requires Ok() && Idle(Now())
      modifies `log, `memoryHeld, `memoryFailed, `trafficBytesPerSecond
      ensures Ok() && Running(Now()) && !Now().memoryDue && !(Now().sharing && memoryHeld)
      ensures Now().launchDue == (TargetMs(input.load, input.others) > 0)
      ensures Now().failures == old(Now().failures) && Now().dead == old(Now().dead)
      ensures old(log) <= log && TicksOf(log) == old(TicksOf(log)) + [(input.others, input.load)]
      ensures old(memoryHeld) && input.others < 0 ==>
                && memoryHeld && trafficBytesPerSecond == old(trafficBytesPerSecond)
                && log == old(log) + [Tick(input.others, input.load)]
    {
      hide Accepted, PhaseAfter, TicksOf, FitOf, Published, AllMoved;
      AcceptedNext(start, log, Tick(input.others, input.load));
      log := log + [Tick(input.others, input.load)];
      SyncMemory(input.others >= 0);
    }

    method GiveDeviceUp()
      requires Ok() && !Now().dead && (Now().trialFailed || Now().failures == 50)
      modifies `log, `memoryHeld, `memoryFailed, `trafficBytesPerSecond
      ensures Ok() && Now().dead && !memoryHeld && old(log) <= log && TicksOf(log) == old(TicksOf(log))
    {
      hide Accepted, PhaseAfter, TicksOf, FitOf, Published, AllMoved;
      AcceptedNext(start, log, GiveUp);
      log := log + [GiveUp];
      SyncMemory(true);
    }
  }

  lemma PublishNext(samples: seq<Sample>, s: Sample)
    requires AllMoved(samples) && s.mib > 0.0
    ensures AllMoved(samples + [s]) && FitOf(samples + [s]) == Add(FitOf(samples), s)
    ensures Sound(FitOf(samples + [s])) && FitOf(samples + [s]) != NoFit && FitOf(samples + [s]).w > 0.0
    ensures Publishes(FitOf(samples + [s])) ==> VarX(FitOf(samples + [s])) > 0.0
    ensures Published(samples + [s])
            == if Publishes(FitOf(samples + [s])) then Slope(FitOf(samples + [s])) else Published(samples)
    ensures Telling(samples + [s]) ==> BestSlope(samples + [s], Published(samples + [s]))
    ensures !Telling(samples + [s]) ==> Published(samples + [s]) == Published(samples)
    ensures forall cost, overhead :: OnLine(samples + [s], cost, overhead) ==>
              Published(samples + [s]) == if EverTelling(samples + [s]) then cost else 0.0
  {
    hide Telling, BestSlope, EverTelling, OnLine;
    var all := samples + [s];
    assert all[..|samples|] == samples;
    FitIsSound(all);
    PublishesPositiveVariance(FitOf(all));
    PublishedIsBest(all);
    CostInUseOnAnyLine(all);
  }
}
