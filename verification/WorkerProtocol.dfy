/** What it means, in the events themselves, that all a worker does with its device is allowed. */
module WorkerProtocol {
  import opened GpuWorker

  /** A device that nothing has been done with, or asked for. */
  predicate Fresh(p: Phase) {
    && !p.held && !p.refused && !p.sharing && !p.calibrated && !p.trialFailed && p.failures == 0 && !p.dead
    && p.ticks == 0 && !p.memoryDue && !p.launchDue
  }

  /** What an event changes of a phase. */
  ghost predicate Changed(p: Phase, e: Event, after: Phase) {
    && after.held == (if e.Allocate? then e.ok else p.held && e != Release)
    && after.sharing == (if e.Tick? then e.others >= 0 else p.sharing)
    && after.calibrated == (p.calibrated || e == Calibrated)
    && after.trialFailed == (if e.Trial? then !e.ok else p.trialFailed)
    && after.dead == (p.dead || e == GiveUp)
    && after.failures == (if e.Launch? then if e.ok then 0 else p.failures + 1 else p.failures)
    && after.block == p.block && after.ticks == p.ticks + (if e.Tick? then 1 else 0)
    && after.launchDue == (if e.Tick? then TargetMs(e.load, e.others) > 0
                           else p.launchDue && !e.Launch? && e != Calibrated)
    && after.memoryDue == (if e.Tick? then p.block && if e.others >= 0 then p.held else !p.held && !after.refused
                           else p.memoryDue && !e.Allocate? && e != Release)
    && after.refused == (if e.Allocate? then !e.ok else p.refused && e != GiveUp && !(e.Tick? && e.others >= 0))
  }

  lemma Changes(p: Phase, e: Event)
    ensures Changed(p, e, Follow(p, e))
  {
    hide TargetMs;
  }

  lemma LastEvent(start: Phase, log: seq<Event>)
    requires log != []
    ensures log == log[..|log| - 1] + [log[|log| - 1]]
    ensures Changed(PhaseAfter(start, log[..|log| - 1]), log[|log| - 1], PhaseAfter(start, log))
  {
    hide Follow, Changed;
    Changes(PhaseAfter(start, log[..|log| - 1]), log[|log| - 1]);
  }

  lemma NothingYet(start: Phase)
    ensures PhaseAfter(start, []) == start && Launches([]) == []
    ensures !Shared([]) && !Taken([]) && !Owed([]) && !Ticked([])
  {
  }

  lemma {:induction false} AllowedAt(start: Phase, log: seq<Event>, k: nat)
    requires Accepted(start, log) && k <= |log|
    ensures Accepted(start, log[..k])
    ensures k < |log| ==> Allowed(PhaseAfter(start, log[..k]), log[k])
  {
    hide Allowed, PhaseAfter;
    if k < |log| {
      var before := log[..|log| - 1];
      AllowedAt(start, before, k);
      assert before[..k] == log[..k];
      assert k == |log| - 1 ==> log[..k] == before;
    } else {
      assert log[..k] == log;
    }
  }

  // ----- The block

  /** A block was taken, and has not been released since. */
  ghost predicate Taken(log: seq<Event>) {
    exists j :: 0 <= j < |log| && log[j] == Allocate(true) && Release !in log[j..]
  }

  lemma TakenNext(log: seq<Event>, e: Event)
    ensures Taken(log + [e]) <==> e == Allocate(true) || (e != Release && Taken(log))
  {
    var all := log + [e];
    assert all[|log|..] == [e];
    forall j | 0 <= j < |log|
      ensures all[j..] == log[j..] + [e]
    {
    }
    if e == Allocate(true) {
      assert all[|log|] == e && Release !in all[|log|..];
    } else if e != Release && Taken(log) {
      var j :| 0 <= j < |log| && log[j] == Allocate(true) && Release !in log[j..];
      assert all[j] == Allocate(true) && Release !in all[j..];
    }
  }

  lemma {:induction false} HeldMeans(start: Phase, log: seq<Event>)
    requires Fresh(start) && Accepted(start, log)
    ensures PhaseAfter(start, log).held <==> Taken(log)
  {
    hide PhaseAfter, Taken;
    if log == [] {
      NothingYet(start);
    } else {
      var before, e := log[..|log| - 1], log[|log| - 1];
      HeldMeans(start, before);
      LastEvent(start, log);
      TakenNext(before, e);
    }
  }

  /** A launch with traffic finds a block taken and not released. */
  lemma TrafficNeedsBlock(start: Phase, log: seq<Event>, k: nat)
    requires Fresh(start) && Accepted(start, log) && k < |log| && log[k].Launch? && log[k].traffic > 0
    ensures Taken(log[..k])
  {
    AllowedAt(start, log, k);
    HeldMeans(start, log[..k]);
  }

  /** Nothing is taken twice without being released, and nothing released that was not taken. */
  lemma TakenOnce(start: Phase, log: seq<Event>, k: nat)
    requires Fresh(start) && Accepted(start, log) && k < |log|
    ensures log[k].Allocate? ==> !Taken(log[..k])
    ensures log[k] == Release ==> Taken(log[..k])
  {
    AllowedAt(start, log, k);
    HeldMeans(start, log[..k]);
  }

  // ----- Sharing

  /** The last tick of a log found the device shared. */
  ghost predicate Shared(log: seq<Event>) {
    exists j :: 0 <= j < |log| && log[j].Tick? && log[j].others >= 0 && forall i :: j < i < |log| ==> !log[i].Tick?
  }

  lemma SharedNext(log: seq<Event>, e: Event)
    ensures Shared(log + [e]) <==> if e.Tick? then e.others >= 0 else Shared(log)
  {
    var all := log + [e];
    if e.Tick? && e.others >= 0 {
      assert all[|log|].Tick?;
    }
    if !e.Tick? && Shared(log) {
      var j :| 0 <= j < |log| && log[j].Tick? && log[j].others >= 0 && forall i :: j < i < |log| ==> !log[i].Tick?;
      assert all[j].Tick?;
    }
    if !e.Tick? && Shared(all) {
      var j :| 0 <= j < |all| && all[j].Tick? && all[j].others >= 0 && forall i :: j < i < |all| ==> !all[i].Tick?;
      assert log[j].Tick? && forall i :: j < i < |log| ==> log[i] == all[i];
    }
    assert all[|log|] == e;
  }

  lemma {:induction false} SharingMeans(start: Phase, log: seq<Event>)
    requires Fresh(start)
    ensures PhaseAfter(start, log).sharing <==> Shared(log)
  {
    hide PhaseAfter, Shared;
    if log == [] {
      NothingYet(start);
    } else {
      var before, e := log[..|log| - 1], log[|log| - 1];
      SharingMeans(start, before);
      LastEvent(start, log);
      SharedNext(before, e);
    }
  }

  /** Nothing is taken on a shared device, and no launch finds one with a block. */
  lemma SharedIsLeftAlone(start: Phase, log: seq<Event>, k: nat)
    requires Fresh(start) && Accepted(start, log) && k < |log| && Shared(log[..k])
    ensures !log[k].Allocate?
    ensures log[k].Launch? ==> log[k].traffic == 0 && !Taken(log[..k])
  {
    AllowedAt(start, log, k);
    SharingMeans(start, log[..k]);
    HeldMeans(start, log[..k]);
  }

  // ----- Refusals

  /** A tick between two places of a log found the device shared. */
  ghost predicate SharedBetween(log: seq<Event>, i: nat, k: nat) {
    exists j :: i < j < k <= |log| && log[j].Tick? && log[j].others >= 0
  }

  lemma {:induction false} StaysRefused(start: Phase, log: seq<Event>, i: nat)
    requires Fresh(start) && Accepted(start, log) && i < |log| && log[i] == Allocate(false)
    ensures PhaseAfter(start, log).dead || PhaseAfter(start, log).refused || SharedBetween(log, i, |log|)
  {
    hide PhaseAfter;
    var before, e := log[..|log| - 1], log[|log| - 1];
    LastEvent(start, log);
    if i < |before| {
      StaysRefused(start, before, i);
      if SharedBetween(before, i, |before|) {
        var j :| i < j < |before| && before[j].Tick? && before[j].others >= 0;
        assert log[j].Tick? && log[j].others >= 0;
      } else if e.Tick? && e.others >= 0 {
        assert log[|before|] == e;
      }
    }
  }

  /** After a refusal, the device is not asked again before it has been shared. */
  lemma NotAskedAgain(start: Phase, log: seq<Event>, i: nat, k: nat)
    requires Fresh(start) && Accepted(start, log) && i < k < |log| && log[i] == Allocate(false) && log[k].Allocate?
    ensures SharedBetween(log, i, k)
  {
    AllowedAt(start, log, k);
    StaysRefused(start, log[..k], i);
    var j :| i < j < k && log[..k][j].Tick? && log[..k][j].others >= 0;
    assert log[j].Tick?;
  }

  // ----- The work of a tick

  /** The last tick of a log has left a budget, and neither launch nor calibration has answered it yet. */
  ghost predicate Owed(log: seq<Event>) {
    exists j :: 0 <= j < |log| && log[j].Tick? && TargetMs(log[j].load, log[j].others) > 0
                && forall i :: j < i < |log| ==> !log[i].Tick? && !log[i].Launch? && log[i] != Calibrated
  }

  lemma OwedNext(log: seq<Event>, e: Event)
    ensures Owed(log + [e]) <==> if e.Tick? then TargetMs(e.load, e.others) > 0
                                 else !e.Launch? && e != Calibrated && Owed(log)
  {
    hide TargetMs;
    var all := log + [e];
    assert all[|log|] == e;
    if Owed(log) {
      var j :| 0 <= j < |log| && log[j].Tick? && TargetMs(log[j].load, log[j].others) > 0
               && forall i :: j < i < |log| ==> !log[i].Tick? && !log[i].Launch? && log[i] != Calibrated;
      assert all[j].Tick?;
    }
    if Owed(all) {
      var j :| 0 <= j < |all| && all[j].Tick? && TargetMs(all[j].load, all[j].others) > 0
               && forall i :: j < i < |all| ==> !all[i].Tick? && !all[i].Launch? && all[i] != Calibrated;
      assert j < |log| ==> log[j].Tick? && forall i :: j < i < |log| ==> log[i] == all[i];
    }
  }

  ghost predicate Ticked(log: seq<Event>) {
    exists e: Event :: e in log && e.Tick?
  }

  lemma TickedNext(log: seq<Event>, e: Event)
    ensures Ticked(log + [e]) <==> Ticked(log) || e.Tick?
  {
    if Ticked(log) {
      var t: Event :| t in log && t.Tick?;
      assert t in log + [e];
    }
    if e.Tick? {
      assert e in log + [e];
    }
  }

  lemma {:induction false} LaunchDueMeans(start: Phase, log: seq<Event>)
    requires Fresh(start)
    ensures PhaseAfter(start, log).launchDue <==> Owed(log)
    ensures PhaseAfter(start, log).ticks > 0 <==> Ticked(log)
  {
    hide PhaseAfter, Owed, Ticked, TargetMs;
    if log == [] {
      NothingYet(start);
    } else {
      TickedNext(log[..|log| - 1], log[|log| - 1]);
      LaunchDueMeans(start, log[..|log| - 1]);
      LastEvent(start, log);
      OwedNext(log[..|log| - 1], log[|log| - 1]);
    }
  }

  lemma {:induction false} MemoryDueMeans(start: Phase, log: seq<Event>)
    requires Fresh(start) && Accepted(start, log)
    ensures var p := PhaseAfter(start, log);
            && p.block == start.block && (p.held || p.memoryDue ==> p.block)
            && (p.sharing && p.held && !p.dead ==> p.memoryDue)
            && (p.block && !p.sharing && Ticked(log) && !p.dead ==> p.held || p.refused || p.memoryDue)
            && (p.refused ==> Allocate(false) in log)
  {
    hide PhaseAfter, TargetMs, Ticked;
    if log == [] {
      NothingYet(start);
    } else {
      TickedNext(log[..|log| - 1], log[|log| - 1]);
      MemoryDueMeans(start, log[..|log| - 1]);
      LastEvent(start, log);
    }
  }

  /** A launch answers a tick that has left a budget and has not been answered before. By the next
      tick it has been, the block is gone if the device was found shared, and otherwise it is held if
      there is one and it was never refused. */
  lemma WorkOfTick(start: Phase, log: seq<Event>, k: nat)
    requires Fresh(start) && Accepted(start, log) && k < |log|
    ensures log[k].Launch? ==> Owed(log[..k])
    ensures log[k].Tick? ==> !Owed(log[..k]) && (Shared(log[..k]) ==> !Taken(log[..k]))
    ensures log[k].Tick? && start.block && Ticked(log[..k]) && !Shared(log[..k]) && Allocate(false) !in log[..k] ==>
              Taken(log[..k])
  {
    hide Owed, Shared, Taken, Ticked;
    AllowedAt(start, log, k);
    LaunchDueMeans(start, log[..k]);
    SharingMeans(start, log[..k]);
    HeldMeans(start, log[..k]);
    MemoryDueMeans(start, log[..k]);
  }

  // ----- Calibration and failures

  lemma {:induction false} CalibratedMeans(start: Phase, log: seq<Event>)
    requires Fresh(start)
    ensures PhaseAfter(start, log).calibrated <==> Calibrated in log
  {
    hide PhaseAfter;
    if log == [] {
      NothingYet(start);
    } else {
      CalibratedMeans(start, log[..|log| - 1]);
      LastEvent(start, log);
    }
  }

  /** No launch comes before the kernel is calibrated, and no trial afterwards; nor, once there have been
      ticks, without one that leaves a budget. */
  lemma CalibratedFirst(start: Phase, log: seq<Event>, k: nat)
    requires Fresh(start) && Accepted(start, log) && k < |log|
    ensures log[k].Launch? ==> Calibrated in log[..k]
    ensures log[k].Trial? || log[k] == Calibrated ==> Calibrated !in log[..k]
    ensures log[k].Trial? && Ticked(log[..k]) ==> Owed(log[..k])
  {
    hide Owed, Ticked;
    LaunchDueMeans(start, log[..k]);
    AllowedAt(start, log, k);
    CalibratedMeans(start, log[..k]);
  }

  /** Which launches of a log have succeeded. */
  function Launches(log: seq<Event>): seq<bool> {
    if log == [] then []
    else
      var before := Launches(log[..|log| - 1]);
      match log[|log| - 1]
      case Launch(_, _, ok) => before + [ok]
      case _ => before
  }

  /** The last `n` have failed, and the one before them has not. */
  ghost predicate FailedInARow(launches: seq<bool>, n: nat) {
    && n <= |launches| && (forall i :: |launches| - n <= i < |launches| ==> !launches[i])
    && (n < |launches| ==> launches[|launches| - n - 1])
  }

  lemma {:induction false} FailuresMean(start: Phase, log: seq<Event>)
    requires Fresh(start)
    ensures FailedInARow(Launches(log), PhaseAfter(start, log).failures)
  {
    hide PhaseAfter;
    if log == [] {
      NothingYet(start);
    } else {
      FailuresMean(start, log[..|log| - 1]);
      LastEvent(start, log);
    }
  }

  lemma {:induction false} TrialFailedMeans(start: Phase, log: seq<Event>)
    requires Fresh(start) && Accepted(start, log)
    ensures PhaseAfter(start, log).trialFailed ==> Trial(false) in log
    ensures PhaseAfter(start, log).dead <==> GiveUp in log
    ensures !PhaseAfter(start, log).dead && Trial(false) in log ==> PhaseAfter(start, log).trialFailed
  {
    hide PhaseAfter;
    if log == [] {
      NothingYet(start);
    } else {
      TrialFailedMeans(start, log[..|log| - 1]);
      LastEvent(start, log);
    }
  }

  /** The device is given up only after a failed trial or exactly fifty failed launches in a row; and
      after either, nothing but that is done with it, and releasing the block. */
  lemma GivenUpExactly(start: Phase, log: seq<Event>, k: nat)
    requires Fresh(start) && Accepted(start, log) && k < |log|
    ensures var failed := Trial(false) in log[..k] || FailedInARow(Launches(log[..k]), 50);
            && (log[k] == GiveUp ==> failed && GiveUp !in log[..k])
            && (failed || GiveUp in log[..k] ==> log[k] == GiveUp || log[k] == Release)
  {
    hide Launches;
    AllowedAt(start, log, k);
    FailuresMean(start, log[..k]);
    TrialFailedMeans(start, log[..k]);
    if FailedInARow(Launches(log[..k]), 50) {
      OneCount(Launches(log[..k]), PhaseAfter(start, log[..k]).failures, 50);
    }
  }

  lemma OneCount(launches: seq<bool>, m: nat, n: nat)
    requires FailedInARow(launches, m) && FailedInARow(launches, n)
    ensures m == n
  {
  }
}
