/** The memory manager itself (`memory::MemoryResourceManagerDefault`): its methods, and its
    background thread step by step, run the hand-over machine. */
module MemoryManager {
  import opened Prelude
  import opened BlockAllocator
  import opened HandOver

  ghost predicate RatiosOk(actions: seq<Action>) {
    forall i :: 0 <= i < |actions| && actions[i].Tick? ==> MINIMUM_RATIO <= actions[i].ratio < 1.0
  }

  lemma RunNext(memoryBytes: nat, actions: seq<Action>, a: Action)
    requires RatiosOk(actions) && (a.Tick? ==> MINIMUM_RATIO <= a.ratio < 1.0)
    ensures RatiosOk(actions + [a])
    ensures Run(memoryBytes, actions + [a]) == Step(Run(memoryBytes, actions), memoryBytes, a)
  {
  }

  ghost predicate OnlyMainSteps(actions: seq<Action>) {
    forall i :: 0 <= i < |actions| ==> actions[i].MainStep?
  }

  /** A block with the pattern in every byte. */
  function Whole(seed: bv8, n: nat): seq<bv8> {
    seq(n, i requires 0 <= i < n => Pattern(seed, i))
  }

  lemma FilledIsWhole(bytes: seq<bv8>, seed: bv8)
    requires FilledTo(bytes, seed, |bytes|)
    ensures bytes == Whole(seed, |bytes|)
  {
  }

  /** The main thread, left to itself, takes an inline fill to its end. */
  lemma {:induction false} InlineFillEnds(memoryBytes: nat, actions: seq<Action>) returns (more: seq<Action>)
    requires RatiosOk(actions)
    requires var s := Run(memoryBytes, actions);
             Owned(s) && s.main.Inline? && s.main.job.at.Filling?
    ensures OnlyMainSteps(more) && RatiosOk(actions + more)
    ensures var s := Run(memoryBytes, actions);
            var n, seed := s.main.job.byteCount, s.main.job.seed;
            Run(memoryBytes, actions + more)
            == s.(main := Between, block := Some(Whole(seed, n)),
                  schedules := s.schedules + [Scheduled(s.main.time, n)])
    decreases var s := Run(memoryBytes, actions);
              if s.main.Inline? && s.main.job.at.Filling?
              then Max(s.main.job.byteCount - s.main.job.at.k * CHUNK_BYTES, 0) else 0
  {
    hide Pattern, ChunkWritten, FilledTo, Run, Owned;
    var s := Run(memoryBytes, actions);
    InlineInStep(s);
    var job := s.main.job;
    var step := MainStep(Luck(true, i => 0, false));
    RunNext(memoryBytes, actions, step);
    StepOwned(s, memoryBytes, step);
    var next := actions + [step];
    if job.at.k * CHUNK_BYTES >= job.byteCount {
      FilledIsWhole(s.block.value, job.seed);
      RunNext(memoryBytes, next, step);
      more := [step, step];
      assert actions + more == next + [step];
    } else {
      var rest := InlineFillEnds(memoryBytes, next);
      more := [step] + rest;
      assert actions + more == next + rest;
    }
  }

  lemma InlineInStep(s: State)
    requires Owned(s) && s.main.Inline?
    ensures InStep(s.main.job, s.block)
  {
  }

  /** The same from before the allocation. */
  lemma InlineEnds(memoryBytes: nat, actions: seq<Action>, luck: Luck) returns (more: seq<Action>)
    requires RatiosOk(actions)
    requires var s := Run(memoryBytes, actions);
             Owned(s) && s.main.Inline? && s.main.job.at.Allocating?
    ensures OnlyMainSteps(more) && RatiosOk(actions + more)
    ensures var s := Run(memoryBytes, actions);
            var n, seed := s.main.job.byteCount, s.main.job.seed;
            Run(memoryBytes, actions + more)
            == s.(main := Between, block := if luck.available then Some(Whole(seed, n)) else None,
                  schedules := s.schedules + [Scheduled(s.main.time, n)])
  {
    hide Pattern, ChunkWritten, FilledTo, Run, Owned;
    var s := Run(memoryBytes, actions);
    var step := MainStep(luck);
    RunNext(memoryBytes, actions, step);
    StepOwned(s, memoryBytes, step);
    var next := actions + [step];
    if luck.available {
      var rest := InlineFillEnds(memoryBytes, next);
      more := [step] + rest;
      assert actions + more == next + rest;
    } else {
      RunNext(memoryBytes, next, step);
      more := [step, step];
      assert actions + more == next + [step];
    }
  }

  lemma OneThreadSteps(s: State, id: nat, job: Job, luck: Luck)
    requires s.threads == map[id := Thread(job, false)]
    ensures var (next, block) := Work(job, s.block, luck);
            HandOver.BackgroundStep(s, id, luck)
            == if job.at.Through? then s.(threads := map[id := Thread(job, true)], done := true)
               else s.(threads := map[id := Thread(next, false)], block := block)
  {
    hide Work;
  }

  class MemoryResourceManagerDefault {
    const memoryBytes: nat
    const allocator: Allocator
    /** The job of the background thread, while it is joinable. */
    var bgAllocThread: Option<Job>
    var bgAllocDone: bool
    var hasScheduled: bool
    var scheduledAllocations: nat
    var lastScheduling: int
    /** All schedules and steps so far, and how many of them were threads spawned. */
    ghost var actions: seq<Action>
    ghost var schedules: seq<Scheduled>
    ghost var spawned: nat

    ghost function BlockOf(): Block
      reads allocator, allocator.block
    {
      if allocator.block == null then None else Some(allocator.block[..])
    }

    /** The manager as a state of the machine, between calls. */
    ghost function Abstract(): State
      reads this, allocator, allocator.block
    {
      var threads := if bgAllocThread.None? || spawned == 0 then map[]
                     else map[(spawned - 1) as nat := Thread(bgAllocThread.value, bgAllocDone)];
      var handle := if bgAllocThread.None? || spawned == 0 then None else Some((spawned - 1) as nat);
      State(Between, spawned, threads, handle, bgAllocDone, BlockOf(), schedules)
    }

    /** It has got here by a run of the machine, so all that every run keeps holds of it. */
    ghost predicate Valid()
      reads this, allocator, allocator.block
    {
      Books() && Abstract() == Run(memoryBytes, actions)
    }

    constructor (memoryBytes: nat)
      ensures Valid() && actions == [] && this.memoryBytes == memoryBytes && fresh(allocator)
    {
      this.memoryBytes := memoryBytes;
      allocator := new Allocator();
      bgAllocThread, bgAllocDone, hasScheduled, scheduledAllocations, lastScheduling := None, false, false, 0, 0;
      actions, schedules, spawned := [], [], 0;
    }

    predicate InFlight()
      reads this
    {
      bgAllocThread.Some? && !bgAllocDone
    }

    /** Join a background thread that is done; false while one is in flight. */
    method ReapBackgroundThread() returns (reaped: bool)
      requires bgAllocThread.Some? ==> spawned > 0
      modifies `bgAllocThread
      ensures reaped == !old(InFlight()) && (reaped ==> bgAllocThread == None)
      ensures (Abstract(), reaped) == Reap(old(Abstract()))
    {
      if bgAllocThread.None? {
        return true;
      }
      if !bgAllocDone {
        return false;
      }
      bgAllocThread := None;
      return true;
    }

    /** Allocate and fill on the main thread, where nothing asks for a stop. */
    method AllocateAndFill(byteCount: nat, seed: bv8, available: bool)
      requires allocator.Valid()
      modifies allocator
      ensures allocator.Valid() && (allocator.block != null ==> fresh(allocator.block))
      ensures BlockOf() == if available then Some(Whole(seed, byteCount)) else None
    {
      hide Pattern;
      var ok := allocator.AllocateBlock(byteCount, available);
      if ok {
        var written := allocator.Fill(seed, _ => false);
        FilledIsWhole(allocator.block[..], seed);
      }
    }

    /** The books agree with each other, whatever the thread and the block are at. */
    ghost predicate Books()
      reads this, allocator
    {
      && allocator.Valid() && RatiosOk(actions)
      && (bgAllocThread.Some? ==> spawned > 0)
      && (hasScheduled <==> schedules != []) && scheduledAllocations == |schedules|
      && (hasScheduled ==> lastScheduling == schedules[|schedules| - 1].time)
    }

    method WillSchedule(time: int) returns (will: bool)
      requires Books()
      ensures will == HandOver.WillSchedule(Abstract(), time)
    {
      return !hasScheduled || WholeSeconds(time - lastScheduling) > INTERVAL_SECONDS;
    }

    method NoteSchedule(time: int, ghost byteCount: nat)
      requires Books()
      modifies `hasScheduled, `scheduledAllocations, `lastScheduling, `schedules
      ensures Books() && schedules == old(schedules) + [Scheduled(time, byteCount)]
    {
      hasScheduled := true;
      scheduledAllocations := scheduledAllocations + 1;
      lastScheduling := time;
      schedules := schedules + [Scheduled(time, byteCount)];
    }

    /** Hand the block over to a new background thread. */
    method Spawn(time: int, byteCount: nat, seed: bv8)
      requires Books() && bgAllocThread == None
      requires Run(memoryBytes, actions) == Spawned(Abstract(), Job(byteCount, seed, Allocating), time)
      modifies this
      ensures Valid() && InFlight() && actions == old(actions) && scheduledAllocations == old(scheduledAllocations) + 1
      ensures bgAllocThread == Some(Job(byteCount, seed, Allocating)) && hasScheduled && lastScheduling == time
    {
      hide Run, RatiosOk;
      bgAllocDone := false;
      bgAllocThread := Some(Job(byteCount, seed, Allocating));
      spawned := spawned + 1;
      NoteSchedule(time, byteCount);
    }

    /** Allocate and fill the block at once. */
    method FillInline(time: int, byteCount: nat, seed: bv8, available: bool) returns (ghost more: seq<Action>)
      requires Books() && bgAllocThread == None
      requires Run(memoryBytes, actions) == Abstract().(main := Inline(Job(byteCount, seed, Allocating), time))
      requires Owned(Run(memoryBytes, actions))
      modifies this, allocator
      ensures Valid() && bgAllocThread == None && scheduledAllocations == old(scheduledAllocations) + 1
      ensures hasScheduled && lastScheduling == time
      ensures OnlyMainSteps(more) && actions == old(actions) + more
      ensures BlockOf() == if available then Some(Whole(seed, byteCount)) else None
    {
      hide Run, RatiosOk, Owned, Whole, OnlyMainSteps;
      more := InlineEnds(memoryBytes, actions, Luck(available, (_: nat) => 0, false));
      AllocateAndFill(byteCount, seed, available);
      actions := actions + more;
      NoteSchedule(time, byteCount);
    }

    /** The scheduling tick of the main thread. It is a tick of the machine, followed, for a small
        block, by the inline fill; as long as a background fill has not ended, it does nothing at all. */
    method Schedule(time: int, ratio: real, seed: bv8, available: bool) returns (ghost more: seq<Action>)
      requires Valid() && 0.5 <= ratio < 1.0
      modifies this, allocator
      ensures Valid()
      ensures actions == old(actions) + [Tick(time, ratio, seed)] + more && OnlyMainSteps(more)
      ensures old(InFlight()) ==> unchanged(allocator) && Abstract() == old(Abstract())
      ensures var due := !old(InFlight()) && (!old(hasScheduled) || time - old(lastScheduling) >= 46_000_000_000);
              var n := ByteCount(memoryBytes, ratio);
              && scheduledAllocations == old(scheduledAllocations) + (if due then 1 else 0)
              && (due ==> hasScheduled && lastScheduling == time && (InFlight() <==> n >= 33_554_432))
              && (due && n >= 33_554_432 ==> bgAllocThread == Some(Job(n, seed, Allocating)))
      ensures scheduledAllocations > old(scheduledAllocations) && !InFlight() ==>
                var n := ByteCount(memoryBytes, ratio);
                n >= 0 && BlockOf() == if available then Some(Whole(seed, n)) else None
    {
      hide Run, ByteCount, RatiosOk, InlineStep, HandOver.BackgroundStep, Owned, Spaced, Whole, OnlyMainSteps;
      hide HandOver.WillSchedule, Allocator.Valid;
      NoSteps();
      more := [];
      ghost var was := Abstract();
      EveryRun(memoryBytes, actions);
      RunNext(memoryBytes, actions, Tick(time, ratio, seed));
      StepOwned(was, memoryBytes, Tick(time, ratio, seed));
      RatioPositive(memoryBytes, ratio);
      actions := actions + [Tick(time, ratio, seed)];
      var reaped := ReapBackgroundThread();
      if !reaped {
        return;
      }
      WillScheduleDue(Abstract(), time);
      var will := WillSchedule(time);
      if !will {
        return;
      }
      var byteCount := ByteCount(memoryBytes, ratio);
      if byteCount >= THRESHOLD_BYTES {
        Spawn(time, byteCount, seed);
      } else {
        more := FillInline(time, byteCount, seed, available);
      }
    }

    lemma ThreadInStep()
      requires Valid() && InFlight()
      ensures InStep(bgAllocThread.value, BlockOf())
    {
      hide InStep;
      EveryRun(memoryBytes, actions);
    }

    /** The background thread's allocation. */
    method AllocateStep(available: bool) returns (ghost junk: nat -> bv8)
      requires allocator.Valid() && bgAllocThread.Some? && bgAllocThread.value.at.Allocating?
      modifies `bgAllocThread, allocator
      ensures allocator.Valid() && bgAllocThread.Some? && (allocator.block != null ==> fresh(allocator.block))
      ensures forall stop :: (bgAllocThread.value, BlockOf())
                             == Work(old(bgAllocThread.value), old(BlockOf()), Luck(available, junk, stop))
    {
      var job := bgAllocThread.value;
      junk := (_: nat) => 0;
      var ok := allocator.AllocateBlock(job.byteCount, available);
      if ok {
        ghost var contents := allocator.block[..];
        junk := (i: nat) => if i < |contents| then contents[i] else 0;
        assert contents == seq(job.byteCount, junk);
      }
      bgAllocThread := Some(job.(at := if ok then Filling(0) else Through(false)));
    }

    /** Its next chunk. */
    method FillStep(stop: bool)
      requires allocator.Valid() && bgAllocThread.Some? && bgAllocThread.value.at.Filling?
      requires InStep(bgAllocThread.value, BlockOf())
      modifies `bgAllocThread, allocator.block
      ensures allocator.Valid() && bgAllocThread.Some?
      ensures forall luck: Luck :: luck.stop == stop ==>
                (bgAllocThread.value, BlockOf()) == Work(old(bgAllocThread.value), old(BlockOf()), luck)
    {
      hide Pattern, ChunkWritten;
      var job := bgAllocThread.value;
      var k := job.at.k;
      var begin := k * CHUNK_BYTES;
      if begin >= allocator.size {
        bgAllocThread := Some(job.(at := Through(true)));
        return;
      }
      if stop {
        bgAllocThread := Some(job.(at := Through(false)));
        return;
      }
      var end := Min(allocator.size, begin + CHUNK_BYTES);
      ghost var bytes := allocator.block[..];
      allocator.FillChunk(job.seed, begin, end);
      ChunkIs(bytes, allocator.block[..], job.seed, k);
      bgAllocThread := Some(job.(at := Filling(k + 1)));
    }

    /** One step of the background thread: the allocation, a chunk of the fill, or the "done" flag,
        its very last action. */
    method BackgroundStep(available: bool, stop: bool) returns (ghost luck: Luck)
      requires Valid() && InFlight()
      modifies `bgAllocThread, `bgAllocDone, `actions, allocator, allocator.block
      ensures Valid() && luck.available == available && luck.stop == stop
      ensures actions == old(actions) + [ThreadStep(spawned - 1, luck)]
    {
      hide Run, RatiosOk, TickStep, InlineStep, Work, InStep, Allocator.Valid, HandOver.BackgroundStep;
      ThreadInStep();
      ghost var was, job := Abstract(), bgAllocThread.value;
      ghost var junk: nat -> bv8 := (_: nat) => 0;
      if bgAllocThread.value.at.Allocating? {
        junk := AllocateStep(available);
      } else if bgAllocThread.value.at.Filling? {
        FillStep(stop);
      } else {
        bgAllocDone := true;
      }
      luck := Luck(available, junk, stop);
      OneThreadSteps(was, spawned - 1, job, luck);
      RunNext(memoryBytes, actions, ThreadStep(spawned - 1, luck));
      actions := actions + [ThreadStep(spawned - 1, luck)];
    }
  }

  lemma NoSteps()
    ensures OnlyMainSteps([])
  {
  }

  lemma EveryRun(memoryBytes: nat, actions: seq<Action>)
    requires RatiosOk(actions)
    ensures Owned(Run(memoryBytes, actions)) && Spaced(Run(memoryBytes, actions), memoryBytes)
  {
    EveryInterleaving(memoryBytes, actions);
  }

  lemma ChunkIs(before: seq<bv8>, after: seq<bv8>, seed: bv8, k: nat)
    requires |before| == |after| && k * CHUNK_BYTES <= |before|
    requires FilledTo(before, seed, k * CHUNK_BYTES)
    requires var end := Min(|before|, (k + 1) * CHUNK_BYTES);
             FilledTo(after, seed, end) && after[end..] == before[end..]
    ensures after == ChunkWritten(before, seed, k)
  {
  }
}
