/** The memory manager's hand-over between the scheduler and its background allocations
    (`memory::MemoryResourceManagerDefault`), as a machine of interleaved steps. */
module HandOver {
  import opened Prelude
  import opened BlockAllocator

  const FOUR_KIB: nat := 4096
  const THRESHOLD_BYTES: nat := 0x200_0000
  const INTERVAL_SECONDS: int := 45
  const SECOND_NS: int := 1_000_000_000
  const MINIMUM_RATIO: real := 0.5

  // ----- One allocate-and-fill

  /** Where a run of `AllocateAndFill` is: before the allocation, before chunk `k` of the fill, or
      through with it, having filled all of the block or not. */
  datatype Progress = Allocating | Filling(k: nat) | Through(complete: bool)

  datatype Job = Job(byteCount: nat, seed: bv8, at: Progress)

  /** What the surroundings contribute to a step: whether memory is available, and what is in it,
      and whether a stop has been requested. */
  datatype Luck = Luck(available: bool, junk: nat -> bv8, stop: bool)

  /** The allocator's block, if it has one. */
  type Block = Option<seq<bv8>>

  function ChunkWritten(bytes: seq<bv8>, seed: bv8, k: nat): seq<bv8> {
    seq(|bytes|, i requires 0 <= i < |bytes| =>
      if k * CHUNK_BYTES <= i < (k + 1) * CHUNK_BYTES then Pattern(seed, i) else bytes[i])
  }

  /** One step of a job; each step of one that is not through touches the allocator. */
  function Work(job: Job, block: Block, luck: Luck): (Job, Block) {
    match job.at
    case Allocating =>
      if luck.available then (job.(at := Filling(0)), Some(seq(job.byteCount, luck.junk)))
      else (job.(at := Through(false)), None)
    case Filling(k) =>
      if block.None? then (job.(at := Through(false)), block)
      else if k * CHUNK_BYTES >= |block.value| then (job.(at := Through(true)), block)
      else if luck.stop then (job.(at := Through(false)), block)
      else (job.(at := Filling(k + 1)), Some(ChunkWritten(block.value, job.seed, k)))
    case Through(_) => (job, block)
  }

  /** What a job has made of the block so far. */
  ghost predicate InStep(job: Job, block: Block) {
    match job.at
    case Allocating => true
    case Filling(k) =>
      && block.Some? && |block.value| == job.byteCount
      && FilledTo(block.value, job.seed, Min(k * CHUNK_BYTES, job.byteCount))
    case Through(complete) =>
      complete ==> block.Some? && |block.value| == job.byteCount && FilledTo(block.value, job.seed, job.byteCount)
  }

  lemma ChunkFills(bytes: seq<bv8>, seed: bv8, k: nat)
    ensures |ChunkWritten(bytes, seed, k)| == |bytes|
    ensures FilledTo(bytes, seed, Min(k * CHUNK_BYTES, |bytes|)) ==>
              FilledTo(ChunkWritten(bytes, seed, k), seed, Min((k + 1) * CHUNK_BYTES, |bytes|))
    ensures FilledTo(bytes, seed, 0)
  {
    hide Pattern;
  }

  lemma WorkInStep(job: Job, block: Block, luck: Luck)
    requires InStep(job, block)
    ensures var (job', block') := Work(job, block, luck);
            InStep(job', block') && job'.byteCount == job.byteCount && job'.seed == job.seed
  {
    hide ChunkWritten, FilledTo;
    if job.at.Allocating? {
      ChunkFills(seq(job.byteCount, luck.junk), job.seed, 0);
    } else if job.at.Filling? && block.Some? {
      ChunkFills(block.value, job.seed, job.at.k);
    }
  }

  /** A step that is neither refused its memory nor asked to stop does not break the job off. */
  lemma WorkGoesOn(job: Job, block: Block, luck: Luck)
    requires InStep(job, block) && job.at != Through(false) && luck.available && !luck.stop
    ensures Work(job, block, luck).0.at != Through(false)
  {
    hide ChunkWritten, Pattern, FilledTo;
  }

  // ----- The machine

  /** A background thread: its job, and whether it has stored the "done" flag, its very last action. */
  datatype Thread = Thread(job: Job, stored: bool)

  /** The main thread is between ticks, or filling a block itself. */
  datatype Main = Between | Inline(job: Job, time: int)

  datatype Scheduled = Scheduled(time: int, byteCount: nat)

  datatype State = State(
    main: Main,
    spawned: nat,
    threads: map<nat, Thread>,  // those spawned and not yet joined
    handle: Option<nat>,        // the one in bg_alloc_thread_, if joinable
    done: bool,
    block: Block,
    schedules: seq<Scheduled>)  // all so far; the last one's time is last_scheduling_

  datatype Action =
    | Tick(time: int, ratio: real, seed: bv8)
    | MainStep(luck: Luck)  // an inline fill is never stopped
    | ThreadStep(id: nat, luck: Luck)

  const Initially := State(Between, 0, map[], None, false, None, [])

  function Share(memoryBytes: nat, ratio: real): real {
    ratio * memoryBytes as real
  }

  /** A size in the configured bounds, in whole units of 4 KiB. */
  function ByteCount(memoryBytes: nat, ratio: real): int {
    Truncate(Share(memoryBytes, ratio)) / FOUR_KIB * FOUR_KIB
  }

  /** std::chrono::duration_cast to whole seconds, which truncates */
  function WholeSeconds(ns: int): int {
    if ns >= 0 then ns / SECOND_NS else -(-ns / SECOND_NS)
  }

  predicate WillSchedule(s: State, time: int) {
    s.schedules == [] || WholeSeconds(time - s.schedules[|s.schedules| - 1].time) > INTERVAL_SECONDS
  }

  /** Join a thread that is done; false while one is in flight. */
  function Reap(s: State): (State, bool) {
    match s.handle
    case None => (s, true)
    case Some(id) => if !s.done then (s, false) else (s.(threads := s.threads - {id}, handle := None), true)
  }

  /** The state once a background thread has been given a job. */
  function Spawned(s: State, job: Job, time: int): State {
    s.(spawned := s.spawned + 1, threads := s.threads[s.spawned := Thread(job, false)], handle := Some(s.spawned),
       done := false, schedules := s.schedules + [Scheduled(time, job.byteCount)])
  }

  function TickStep(s: State, memoryBytes: nat, time: int, ratio: real, seed: bv8): State
    requires MINIMUM_RATIO <= ratio < 1.0
  {
    var (r, reaped) := Reap(s);
    if s.main != Between then s
    else if !reaped || !WillSchedule(r, time) then r
    else
      RatioPositive(memoryBytes, ratio);
      var job := Job(ByteCount(memoryBytes, ratio), seed, Allocating);
      if job.byteCount >= THRESHOLD_BYTES then Spawned(r, job, time) else r.(main := Inline(job, time))
  }

  function InlineStep(s: State, luck: Luck): State {
    if s.main == Between then s
    else if s.main.job.at.Through? then
      s.(main := Between, schedules := s.schedules + [Scheduled(s.main.time, s.main.job.byteCount)])
    else
      var (job, block) := Work(s.main.job, s.block, luck.(stop := false));
      s.(main := s.main.(job := job), block := block)
  }

  function BackgroundStep(s: State, id: nat, luck: Luck): State {
    if id !in s.threads || s.threads[id].stored then s
    else if s.threads[id].job.at.Through? then
      s.(threads := s.threads[id := s.threads[id].(stored := true)], done := true)
    else
      var (job, block) := Work(s.threads[id].job, s.block, luck);
      s.(threads := s.threads[id := Thread(job, false)], block := block)
  }

  function Step(s: State, memoryBytes: nat, a: Action): State
    requires a.Tick? ==> MINIMUM_RATIO <= a.ratio < 1.0
  {
    match a
    case Tick(time, ratio, seed) => TickStep(s, memoryBytes, time, ratio, seed)
    case MainStep(luck) => InlineStep(s, luck)
    case ThreadStep(id, luck) => BackgroundStep(s, id, luck)
  }

  lemma RatioPositive(memoryBytes: nat, ratio: real)
    requires MINIMUM_RATIO <= ratio < 1.0
    ensures 0 <= ByteCount(memoryBytes, ratio) <= memoryBytes
    ensures ByteCount(memoryBytes, ratio) % FOUR_KIB == 0
    ensures ByteCount(memoryBytes, ratio) > memoryBytes / 2 - FOUR_KIB
  {
    hide Share, Truncate;
    ShareBounds(memoryBytes, ratio);
    TruncateBounds(Share(memoryBytes, ratio), memoryBytes);
  }

  /** A size is the largest multiple of 4 KiB that the ratio allows. */
  lemma SizeFollowsRatio(memoryBytes: nat, ratio: real)
    requires 0.5 <= ratio < 1.0
    ensures var n := ByteCount(memoryBytes, ratio);
            n % 4096 == 0 && n as real <= ratio * memoryBytes as real < n as real + 4096.0
  {
    ShareBounds(memoryBytes, ratio);
    assert Share(memoryBytes, ratio) == ratio * memoryBytes as real;
    hide Share;
    WholeUnits(Truncate(Share(memoryBytes, ratio)), Share(memoryBytes, ratio));
  }

  lemma WholeUnits(whole: nat, x: real)
    requires whole as real <= x < whole as real + 1.0
    ensures var n := whole / FOUR_KIB * FOUR_KIB;
            n % 4096 == 0 && n as real <= x < n as real + 4096.0
  {
    assert whole / FOUR_KIB * FOUR_KIB <= whole < whole / FOUR_KIB * FOUR_KIB + 4096;
  }

  lemma ShareBounds(memoryBytes: nat, ratio: real)
    requires MINIMUM_RATIO <= ratio < 1.0
    ensures memoryBytes as real / 2.0 <= Share(memoryBytes, ratio) <= memoryBytes as real
  {
    Between01(memoryBytes as real, ratio);
  }

  lemma Between01(m: real, ratio: real)
    requires m >= 0.0 && 0.5 <= ratio < 1.0
    ensures m / 2.0 <= ratio * m <= m
  {
  }

  lemma TruncateBounds(x: real, m: nat)
    requires m as real / 2.0 <= x <= m as real
    ensures m / 2 <= Truncate(x) <= m
  {
  }

  /** A schedule is due at first, and 46 seconds after the last one or later. */
  predicate Due(schedules: seq<Scheduled>, time: int) {
    schedules == [] || time - schedules[|schedules| - 1].time >= 46_000_000_000
  }

  lemma WillScheduleDue(s: State, time: int)
    ensures WillSchedule(s, time) <==> Due(s.schedules, time)
  {
  }

  /** What a tick of an idle main thread does: nothing while a fill is in flight, and nothing but join
      before a schedule is due. When it is, 32 MiB or more go to a new background thread, and less is
      begun at once. */
  lemma TickSchedules(s: State, memoryBytes: nat, time: int, ratio: real, seed: bv8)
    requires 0.5 <= ratio < 1.0 && s.main == Between
    ensures var after, n := TickStep(s, memoryBytes, time, ratio, seed), ByteCount(memoryBytes, ratio);
            && (s.handle.Some? && !s.done ==> after == s)
            && (s.handle == None || s.done ==>
                  && (!Due(s.schedules, time) ==>
                        after.schedules == s.schedules && after.main == Between && after.handle == None)
                  && (Due(s.schedules, time) && n >= 33_554_432 ==>
                        && after.main == Between && !after.done && after.handle == Some(s.spawned)
                        && s.spawned in after.threads
                        && after.threads[s.spawned] == Thread(Job(n, seed, Allocating), false)
                        && after.schedules == s.schedules + [Scheduled(time, n)])
                  && (Due(s.schedules, time) && 0 <= n < 33_554_432 ==>
                        && after.main == Inline(Job(n, seed, Allocating), time) && after.handle == None
                        && after.schedules == s.schedules))
            && after.block == s.block
  {
    hide ByteCount, WholeSeconds;
    RatioPositive(memoryBytes, ratio);
    WillScheduleDue(s, time);
    WillScheduleDue(Reap(s).0, time);
  }

  // ----- Every interleaving

  function Run(memoryBytes: nat, actions: seq<Action>): State
    requires forall i :: 0 <= i < |actions| && actions[i].Tick? ==> MINIMUM_RATIO <= actions[i].ratio < 1.0
  {
    if actions == [] then Initially
    else Step(Run(memoryBytes, actions[..|actions| - 1]), memoryBytes, actions[|actions| - 1])
  }

  /** Who may be inside `AllocateAndFill`, and so touch the allocator. */
  datatype Actor = MainThread | Background(id: nat)

  predicate Inside(s: State, a: Actor) {
    match a
    case MainThread => s.main.Inline? && !s.main.job.at.Through?
    case Background(id) => id in s.threads && !s.threads[id].job.at.Through?
  }

  /** At most one background thread, and it is the one the manager holds; it runs only while the
      main thread is not filling a block itself; the "done" flag tells exactly whether it has come
      to its end; and whoever fills the block has it filled as far as it has come. */
  ghost predicate Owned(s: State) {
    && (match s.handle
        case None => s.threads == map[]
        case Some(id) =>
          && s.threads.Keys == {id} && id < s.spawned
          && s.main == Between
          && (s.done <==> s.threads[id].stored)
          && (s.threads[id].stored ==> s.threads[id].job.at.Through?)
          && InStep(s.threads[id].job, s.block))
    && (s.main.Inline? ==> InStep(s.main.job, s.block))
  }

  ghost predicate SizeOk(byteCount: nat, memoryBytes: nat) {
    byteCount % FOUR_KIB == 0 && memoryBytes / 2 - FOUR_KIB < byteCount <= memoryBytes
  }

  /** All sizes are 4 KiB multiples within the limit and above half of it (but for the alignment),
      and schedules are at least 46 whole seconds apart. */
  ghost predicate Spaced(s: State, memoryBytes: nat) {
    && (forall i :: 0 <= i < |s.schedules| ==> SizeOk(s.schedules[i].byteCount, memoryBytes))
    && (forall i :: 0 < i < |s.schedules| ==> s.schedules[i].time - s.schedules[i - 1].time >= 46_000_000_000)
    && (s.main.Inline? ==> SizeOk(s.main.job.byteCount, memoryBytes) && WillSchedule(s, s.main.time))
  }

  lemma StepOwned(s: State, memoryBytes: nat, a: Action)
    requires Owned(s) && (a.Tick? ==> MINIMUM_RATIO <= a.ratio < 1.0)
    ensures Owned(Step(s, memoryBytes, a))
  {
    hide InStep, Work;
    match a
    case Tick(time, ratio, seed) =>
      RatioPositive(memoryBytes, ratio);
      NothingDoneYet(seed, s.block);
    case MainStep(luck) =>
      if s.main.Inline? {
        WorkInStep(s.main.job, s.block, luck.(stop := false));
      }
    case ThreadStep(id, luck) =>
      if id in s.threads {
        WorkInStep(s.threads[id].job, s.block, luck);
      }
  }

  lemma NothingDoneYet(seed: bv8, block: Block)
    ensures forall byteCount: nat :: InStep(Job(byteCount, seed, Allocating), block)
  {
  }

  /** More than 45 whole seconds are 46. */
  lemma WillScheduleApart(s: State, time: int)
    requires s.schedules != [] && WillSchedule(s, time)
    ensures time - s.schedules[|s.schedules| - 1].time >= 46_000_000_000
  {
  }

  lemma TickSpaced(s: State, memoryBytes: nat, time: int, ratio: real, seed: bv8)
    requires Spaced(s, memoryBytes) && MINIMUM_RATIO <= ratio < 1.0
    ensures Spaced(TickStep(s, memoryBytes, time, ratio, seed), memoryBytes)
  {
    hide ByteCount, WillSchedule;
    RatioPositive(memoryBytes, ratio);
    var r := Reap(s).0;
    assert r.schedules == s.schedules && r.main == s.main;
    if r.schedules != [] && WillSchedule(r, time) {
      WillScheduleApart(r, time);
    }
    WillScheduleNext(r, time);
  }

  /** Whether it is time depends on the schedules alone. */
  lemma WillScheduleNext(s: State, time: int)
    ensures forall main :: WillSchedule(s, time) == WillSchedule(s.(main := main), time)
  {
  }

  lemma InlineSpaced(s: State, memoryBytes: nat, luck: Luck)
    requires Spaced(s, memoryBytes)
    ensures Spaced(InlineStep(s, luck), memoryBytes)
  {
    hide Work, WholeSeconds;
    if s.main.Inline? {
      WorkKeepsSize(s.main.job, s.block, luck.(stop := false));
      if s.schedules != [] {
        WillScheduleApart(s, s.main.time);
      }
    }
  }

  lemma StepSpaced(s: State, memoryBytes: nat, a: Action)
    requires Owned(s) && Spaced(s, memoryBytes) && (a.Tick? ==> MINIMUM_RATIO <= a.ratio < 1.0)
    ensures Spaced(Step(s, memoryBytes, a), memoryBytes)
  {
    hide TickStep, InlineStep, Owned, WholeSeconds;
    match a
    case Tick(time, ratio, seed) => TickSpaced(s, memoryBytes, time, ratio, seed);
    case MainStep(luck) => InlineSpaced(s, memoryBytes, luck);
    case ThreadStep(id, luck) =>
  }

  lemma WorkKeepsSize(job: Job, block: Block, luck: Luck)
    ensures Work(job, block, luck).0.byteCount == job.byteCount
  {
  }

  /** What every interleaving of ticks and steps keeps. */
  lemma {:induction false} EveryInterleaving(memoryBytes: nat, actions: seq<Action>)
    requires forall i :: 0 <= i < |actions| && actions[i].Tick? ==> MINIMUM_RATIO <= actions[i].ratio < 1.0
    ensures Owned(Run(memoryBytes, actions)) && Spaced(Run(memoryBytes, actions), memoryBytes)
  {
    if actions != [] {
      var before, a := actions[..|actions| - 1], actions[|actions| - 1];
      EveryInterleaving(memoryBytes, before);
      StepOwned(Run(memoryBytes, before), memoryBytes, a);
      StepSpaced(Run(memoryBytes, before), memoryBytes, a);
    }
  }

  /** Mutual exclusion: in every interleaving, no two threads are ever inside `AllocateAndFill`, and
      there is never more than one background thread. */
  lemma OneOwner(memoryBytes: nat, actions: seq<Action>, a: Actor, b: Actor)
    requires forall i :: 0 <= i < |actions| && actions[i].Tick? ==> MINIMUM_RATIO <= actions[i].ratio < 1.0
    requires Inside(Run(memoryBytes, actions), a) && Inside(Run(memoryBytes, actions), b)
    ensures a == b && |Run(memoryBytes, actions).threads| <= 1
  {
    EveryInterleaving(memoryBytes, actions);
    var s := Run(memoryBytes, actions);
    if s.handle.Some? {
      assert |s.threads.Keys| == 1;
    }
  }

  predicate Working(s: State, a: Actor) {
    match a
    case MainThread => s.main.Inline?
    case Background(id) => id in s.threads
  }

  function JobOf(s: State, a: Actor): Job
    requires Working(s, a)
  {
    match a
    case MainThread => s.main.job
    case Background(id) => s.threads[id].job
  }

  /** A fill that was neither stopped nor refused its memory has written the seed's pattern to every
      byte of a block of the size asked for, whatever else went on meanwhile. */
  lemma CompleteFill(memoryBytes: nat, actions: seq<Action>, a: Actor)
    requires forall i :: 0 <= i < |actions| && actions[i].Tick? ==> MINIMUM_RATIO <= actions[i].ratio < 1.0
    requires var s := Run(memoryBytes, actions); Working(s, a) && JobOf(s, a).at == Through(true)
    ensures var s := Run(memoryBytes, actions);
            var job := JobOf(s, a);
            s.block.Some? && |s.block.value| == job.byteCount
            && forall i :: 0 <= i < job.byteCount ==> s.block.value[i] == Pattern(job.seed, i)
  {
    hide Pattern;
    EveryInterleaving(memoryBytes, actions);
  }

  /** None of an actor's own steps has been refused memory, or, in the background, asked to stop. */
  ghost predicate Unhindered(actions: seq<Action>, a: Actor) {
    forall i :: 0 <= i < |actions| ==>
      match actions[i]
      case Tick(_, _, _) => true
      case MainStep(luck) => a.MainThread? ==> luck.available
      case ThreadStep(id, luck) => a == Background(id) ==> luck.available && !luck.stop
  }

  /** Its job is never broken off then, whatever the other thread does meanwhile. */
  lemma {:induction false} UnhinderedGoesOn(memoryBytes: nat, actions: seq<Action>, a: Actor)
    requires forall i :: 0 <= i < |actions| && actions[i].Tick? ==> MINIMUM_RATIO <= actions[i].ratio < 1.0
    requires Unhindered(actions, a)
    ensures var s := Run(memoryBytes, actions); Working(s, a) ==> JobOf(s, a).at != Through(false)
  {
    if actions != [] {
      var before, action := actions[..|actions| - 1], actions[|actions| - 1];
      UnhinderedGoesOn(memoryBytes, before, a);
      EveryInterleaving(memoryBytes, before);
      StepGoesOn(Run(memoryBytes, before), memoryBytes, action, a);
    }
  }

  lemma StepGoesOn(s: State, memoryBytes: nat, action: Action, a: Actor)
    requires Owned(s) && (action.Tick? ==> MINIMUM_RATIO <= action.ratio < 1.0) && Unhindered([action], a)
    requires Working(s, a) ==> JobOf(s, a).at != Through(false)
    ensures var next := Step(s, memoryBytes, action); Working(next, a) ==> JobOf(next, a).at != Through(false)
  {
    hide InStep, Work, ByteCount;
    assert [action][0] == action;
    if action.MainStep? && s.main.Inline? && a.MainThread? {
      WorkGoesOn(s.main.job, s.block, action.luck.(stop := false));
    } else if action.ThreadStep? && action.id in s.threads && a == Background(action.id) {
      WorkGoesOn(s.threads[action.id].job, s.block, action.luck);
    }
  }

  /** So a job neither refused its memory nor stopped, once it is through, has written the seed's
      pattern to every byte of a block of the size asked for. */
  lemma UnhinderedFill(memoryBytes: nat, actions: seq<Action>, a: Actor)
    requires forall i :: 0 <= i < |actions| && actions[i].Tick? ==> MINIMUM_RATIO <= actions[i].ratio < 1.0
    requires Unhindered(actions, a)
    requires var s := Run(memoryBytes, actions); Working(s, a) && JobOf(s, a).at.Through?
    ensures var s := Run(memoryBytes, actions);
            var job := JobOf(s, a);
            s.block.Some? && |s.block.value| == job.byteCount
            && forall i :: 0 <= i < job.byteCount ==> s.block.value[i] == Pattern(job.seed, i)
  {
    hide Pattern, Run;
    UnhinderedGoesOn(memoryBytes, actions, a);
    CompleteFill(memoryBytes, actions, a);
  }
}
