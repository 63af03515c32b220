/** The contention monitor's poll: `gpu::contention::Monitor::Poll`. */
module Contention {
  import opened Prelude
  import opened ShareGates

  const UNKNOWN_WARN_POLLS: nat := 3

  datatype Verdict = Unknown | Idle | Busy

  datatype Observation = Observation(verdict: Verdict, pid: int, deviceBusy: Option<real>)

  const Nothing := Observation(Unknown, 0, None)

  /** A source's answers at one poll: from what it is handed for each device to what it fills in. At
      another poll it may answer otherwise, so the sources are an input of each. */
  type Source = seq<Observation> -> seq<Observation>

  /** One call of the change callback. */
  datatype Change = Change(device: nat, report: Option<int>, pid: int)

  // ----- Merging what the sources see

  ghost predicate FillsAll(sources: seq<Source>) {
    forall k, out: seq<Observation> :: 0 <= k < |sources| ==> |sources[k](out)| == |out|
  }

  function MergeOne(merged: Observation, seen: Observation): Observation {
    var verdict := if seen.verdict == Busy || merged.verdict == Busy then Busy
                   else if seen.verdict == Idle || merged.verdict == Idle then Idle else Unknown;
    var pid := if seen.verdict == Busy && merged.verdict != Busy then seen.pid else merged.pid;
    var busy := if seen.deviceBusy.None? then merged.deviceBusy
                else Some(MaxReal(if merged.deviceBusy.Some? then merged.deviceBusy.value else 0.0,
                                  seen.deviceBusy.value));
    Observation(verdict, pid, busy)
  }

  /** What a source is handed: the devices already known to be busy and measured. */
  function Handed(merged: seq<Observation>): seq<Observation> {
    seq(|merged|, i requires 0 <= i < |merged| =>
      if merged[i].verdict == Busy && merged[i].deviceBusy.Some? then merged[i] else Nothing)
  }

  /** What a source comes to that leaves a device as it was handed, where that names it busy, and looks
      at it otherwise. */
  function Skipping(handed: Observation, looked: Observation): Observation {
    if handed.verdict == Busy then handed else looked
  }

  /** Skipping costs nothing: a device is handed as busy just if no look at it could change what is
      known of it but the measure, and that it has. */
  lemma HandedSkips(merged: seq<Observation>, i: nat, looked: Observation)
    requires i < |merged|
    ensures |Handed(merged)| == |merged|
    ensures var after, full := MergeOne(merged[i], Skipping(Handed(merged)[i], looked)), MergeOne(merged[i], looked);
            && after.verdict == full.verdict && after.pid == full.pid
            && (after.deviceBusy.Some? <==> full.deviceBusy.Some?)
    ensures Handed(merged)[i].verdict == Busy <==> merged[i].verdict == Busy && merged[i].deviceBusy.Some?
    ensures Handed(merged)[i] in [merged[i], Observation(Unknown, 0, None)]
  {
  }

  /** What the first `k` sources come to. */
  function Merged(sources: seq<Source>, n: nat, k: nat): (r: seq<Observation>)
    requires FillsAll(sources) && k <= |sources|
    ensures |r| == n
    decreases k, 0
  {
    if k == 0 then seq(n, _ => Nothing)
    else
      var before := Merged(sources, n, k - 1);
      var seen := SeenBy(sources, n, k - 1);
      seq(n, i requires 0 <= i < n => MergeOne(before[i], seen[i]))
  }

  /** What source `k` says of the devices. */
  function SeenBy(sources: seq<Source>, n: nat, k: nat): (r: seq<Observation>)
    requires FillsAll(sources) && k < |sources|
    ensures |r| == n
    decreases k, 1
  {
    sources[k](Handed(Merged(sources, n, k)))
  }

  lemma MergedNext(sources: seq<Source>, n: nat, k: nat, i: nat)
    requires FillsAll(sources) && k < |sources| && i < n
    ensures Merged(sources, n, k + 1)[i] == MergeOne(Merged(sources, n, k)[i], SeenBy(sources, n, k)[i])
    ensures Merged(sources, n, 0)[i] == Nothing
  {
  }

  /** A device is busy if any source says so, and unseen if none says anything. */
  lemma {:induction false} VerdictIsJoin(sources: seq<Source>, n: nat, k: nat, i: nat)
    requires FillsAll(sources) && k <= |sources| && i < n
    ensures Merged(sources, n, k)[i].verdict == Busy <==>
              exists j :: 0 <= j < k && SeenBy(sources, n, j)[i].verdict == Busy
    ensures Merged(sources, n, k)[i].verdict == Unknown <==>
              forall j :: 0 <= j < k ==> SeenBy(sources, n, j)[i].verdict == Unknown
  {
    if k > 0 {
      hide Merged, SeenBy;
      VerdictIsJoin(sources, n, k - 1, i);
      MergedNext(sources, n, k - 1, i);
    }
  }

  /** What the first `k` sources measure of a device. */
  ghost function Measured(sources: seq<Source>, n: nat, k: nat, i: nat): (r: seq<Option<real>>)
    requires FillsAll(sources) && k <= |sources| && i < n
    ensures |r| == k && forall j :: 0 <= j < k ==> r[j] == SeenBy(sources, n, j)[i].deviceBusy
  {
    if k == 0 then [] else Measured(sources, n, k - 1, i) + [SeenBy(sources, n, k - 1)[i].deviceBusy]
  }

  /** There is a measurement if anyone has made one, and it is the largest of them, none counting as
      less than zero. */
  ghost predicate LargestOf(measures: seq<Option<real>>, busy: Option<real>) {
    && (busy == None <==> forall j :: 0 <= j < |measures| ==> measures[j] == None)
    && (busy.Some? ==>
          && busy.value >= 0.0
          && (forall j :: 0 <= j < |measures| && measures[j].Some? ==> measures[j].value <= busy.value)
          && (busy.value == 0.0 || busy in measures))
  }

  lemma LargestOfNext(measures: seq<Option<real>>, m: Option<real>, merged: Observation, seen: Observation)
    requires LargestOf(measures, merged.deviceBusy) && seen.deviceBusy == m
    ensures LargestOf(measures + [m], MergeOne(merged, seen).deviceBusy)
  {
    var all := measures + [m];
    assert all[|measures|] == m && forall j :: 0 <= j < |measures| ==> all[j] == measures[j];
  }

  /** The busy measure is the largest that any source has made. */
  lemma {:induction false} MeasureIsLargest(sources: seq<Source>, n: nat, k: nat, i: nat)
    requires FillsAll(sources) && k <= |sources| && i < n
    ensures LargestOf(Measured(sources, n, k, i), Merged(sources, n, k)[i].deviceBusy)
  {
    if k > 0 {
      hide Merged, SeenBy, MergeOne, LargestOf, FillsAll;
      MeasureIsLargest(sources, n, k - 1, i);
      MergedNext(sources, n, k - 1, i);
      var m := SeenBy(sources, n, k - 1)[i];
      LargestOfNext(Measured(sources, n, k - 1, i), m.deviceBusy, Merged(sources, n, k - 1)[i], m);
    }
  }

  /** Source `j` is the first to find the device busy. */
  ghost predicate FirstToSee(sources: seq<Source>, n: nat, j: nat, i: nat)
    requires FillsAll(sources) && j < |sources| && i < n
  {
    SeenBy(sources, n, j)[i].verdict == Busy && forall m :: 0 <= m < j ==> SeenBy(sources, n, m)[i].verdict != Busy
  }

  lemma MergedPid(sources: seq<Source>, n: nat, k: nat, i: nat)
    requires FillsAll(sources) && k < |sources| && i < n && Merged(sources, n, k + 1)[i].verdict == Busy
    ensures var merged, seen := Merged(sources, n, k)[i], SeenBy(sources, n, k)[i];
            && (merged.verdict != Busy ==> seen.verdict == Busy)
            && Merged(sources, n, k + 1)[i].pid == if merged.verdict == Busy then merged.pid else seen.pid
  {
  }

  /** The process named is the one that the first source to find the device busy names. */
  lemma {:induction false} FirstSourceNames(sources: seq<Source>, n: nat, k: nat, i: nat) returns (j: nat)
    requires FillsAll(sources) && k <= |sources| && i < n && Merged(sources, n, k)[i].verdict == Busy
    ensures j < k && FirstToSee(sources, n, j, i)
    ensures SeenBy(sources, n, j)[i].pid == Merged(sources, n, k)[i].pid
  {
    assert k > 0;
    hide Merged, SeenBy;
    MergedPid(sources, n, k - 1, i);
    if Merged(sources, n, k - 1)[i].verdict == Busy {
      j := FirstSourceNames(sources, n, k - 1, i);
    } else {
      VerdictIsJoin(sources, n, k - 1, i);
      j := k - 1;
      forall m | 0 <= m < j
        ensures SeenBy(sources, n, m)[i].verdict != Busy
      {
      }
    }
  }

  // ----- The share of a device

  /** Our part and the others' make up what was measured, as far as a share can; without a measure it
      is all theirs. */
  ghost predicate MakesUp(own: real, others: real, measured: Option<real>) {
    && 0.0 <= others <= 100.0 && (measured == None ==> others == 100.0)
    && (measured.Some? ==>
          && (own <= measured.value <= own + 100.0 ==> own + others == measured.value)
          && (measured.value <= own ==> others == 0.0)
          && (measured.value >= own + 100.0 ==> others == 100.0))
  }

  /** What is left of a busy device's use, in percent, when our own part is taken out. */
  function OthersShare(merged: Observation, own: real): (r: Option<real>)
    ensures r.Some? <==> merged.verdict == Busy
    ensures r.Some? ==> MakesUp(own, r.value, merged.deviceBusy)
  {
    if merged.verdict != Busy then None
    else if merged.deviceBusy.Some? then Some(Clamp(merged.deviceBusy.value - own, 0.0, 100.0))
    else Some(100.0)
  }

  /** The sighting that a share makes, if there is one. */
  function Noted(others: Option<real>, now: int): seq<Sighting> {
    if others.Some? then [Sighting(now, others.value)] else []
  }

  function ReportOf(level: Option<real>): Option<int> {
    if level.Some? then Some(Round(level.value)) else None
  }

  /** The largest of shares in 0..100 is reported as a percentage. */
  lemma LevelInRange(h: seq<Sighting>, others: Option<real>, now: int)
    requires forall k :: 0 <= k < |h| ==> 0.0 <= h[k].share <= 100.0
    requires others.Some? ==> 0.0 <= others.value <= 100.0
    ensures var all := h + Noted(others, now);
            var report := ReportOf(Largest(Recent(all, now)));
            report.Some? ==> 0 <= report.value <= 100
  {
    var all := h + Noted(others, now);
    RecentIsFrom(all, now);
    FirstPeakIsLargest(Recent(all, now));
  }

  lemma {:induction false} RecentIsFrom(h: seq<Sighting>, now: int)
    ensures forall i :: 0 <= i < |Recent(h, now)| ==> Recent(h, now)[i] in h
  {
    if h != [] {
      RecentIsFrom(h[1..], now);
    }
  }

  /** A percentage of the time since the last poll comes to the milliseconds that we were busy in it,
      which can be no less than none and no more than all. */
  ghost predicate ComesTo(own: real, last: Option<int>, now: int, busyMs: real) {
    && 0.0 <= own <= 100.0 && (last == None || now <= last.value ==> own == 0.0)
    && (last.Some? && last.value < now ==>
          var ms := (now - last.value) as real / 1_000_000.0;
          && (0.0 <= busyMs <= ms ==> own / 100.0 * ms == busyMs)
          && (busyMs <= 0.0 ==> own == 0.0)
          && (busyMs >= ms ==> own == 100.0))
  }

  lemma PercentOf(ms: real, busyMs: real)
    requires ms > 0.0
    ensures var p := 100.0 * busyMs / ms;
            p / 100.0 * ms == busyMs && (p <= 0.0 <==> busyMs <= 0.0) && (p >= 100.0 <==> busyMs >= ms)
  {
    var p := 100.0 * busyMs / ms;
    var whole := p * ms;
    assert whole == 100.0 * busyMs;
    SameSign(p, ms, whole);
    SameSign(p - 100.0, ms, whole - 100.0 * ms);
  }

  lemma SameSign(x: real, m: real, xm: real)
    requires m > 0.0 && xm == x * m
    ensures (x <= 0.0 <==> xm <= 0.0) && (x >= 0.0 <==> xm >= 0.0)
  {
    assert x > 0.0 ==> x * m > 0.0;
    assert x < 0.0 ==> -x * m > 0.0;
  }

  /** The part of the time between two polls in which our kernels ran, in percent. */
  function OwnShare(last: Option<int>, now: int, busyLast: real, busy: real): (own: real)
    ensures ComesTo(own, last, now, busy - busyLast)
  {
    if last.Some? && now > last.value
    then
      PercentOf((now - last.value) as real / 1_000_000.0, busy - busyLast);
      Clamp(100.0 * (busy - busyLast) / ((now - last.value) as real / 1_000_000.0), 0.0, 100.0)
    else 0.0
  }

  // ----- Whole runs: reports and warnings

  /** The reports made of a device. */
  function ReportsOf(changes: seq<Change>, device: nat): seq<Option<int>> {
    if changes == [] then []
    else
      var before := ReportsOf(changes[..|changes| - 1], device);
      var c := changes[|changes| - 1];
      if c.device == device then before + [c.report] else before
  }

  function LastReport(reports: seq<Option<int>>): Option<int> {
    if reports == [] then None else reports[|reports| - 1]
  }

  /** Every report is news: different from the one before, the first from "no others". */
  ghost predicate NoRepeats(reports: seq<Option<int>>) {
    forall k :: 0 <= k < |reports| ==> reports[k] != LastReport(reports[..k])
  }

  lemma ReportsAppend(changes: seq<Change>, c: Change, device: nat)
    ensures ReportsOf(changes + [c], device)
            == if c.device == device then ReportsOf(changes, device) + [c.report] else ReportsOf(changes, device)
  {
  }

  lemma NoRepeatsAppend(reports: seq<Option<int>>, r: Option<int>)
    requires NoRepeats(reports) && r != LastReport(reports)
    ensures NoRepeats(reports + [r]) && LastReport(reports + [r]) == r
  {
  }

  /** The calls of one poll: one for each device whose report has changed, in their order, naming
      the process that the merged observation names. */
  function News(before: seq<Option<int>>, after: seq<Option<int>>, merged: seq<Observation>, n: nat): seq<Change>
    requires n <= |before| && n <= |after| && n <= |merged|
  {
    if n == 0 then []
    else News(before, after, merged, n - 1)
         + if after[n - 1] == before[n - 1] then [] else [Change(n - 1, after[n - 1], merged[n - 1].pid)]
  }

  lemma {:induction false} NewsOfPrefix(before: seq<Option<int>>, after: seq<Option<int>>, later: seq<Option<int>>,
                                        merged: seq<Observation>, n: nat)
    requires n <= |before| && n <= |after| && n <= |later| && n <= |merged|
    requires forall j :: 0 <= j < n ==> after[j] == later[j]
    ensures News(before, after, merged, n) == News(before, later, merged, n)
  {
    if n > 0 {
      NewsOfPrefix(before, after, later, merged, n - 1);
    }
  }

  lemma NewsNext(before: seq<Option<int>>, after: seq<Option<int>>, later: seq<Option<int>>,
                 merged: seq<Observation>, n: nat)
    requires n < |before| == |after| == |later| <= |merged|
    requires later == after[n := later[n]] && after[n] == before[n]
    ensures News(before, later, merged, n + 1)
            == News(before, after, merged, n)
               + if later[n] == after[n] then [] else [Change(n, later[n], merged[n].pid)]
  {
    NewsOfPrefix(before, after, later, merged, n);
  }

  lemma NoNews(before: seq<Option<int>>, after: seq<Option<int>>)
    ensures forall merged :: News(before, after, merged, 0) == []
  {
  }

  /** How often a device has been warned of. */
  function WarningsOf(warnings: seq<nat>, device: nat): nat {
    if warnings == [] then 0
    else WarningsOf(warnings[..|warnings| - 1], device) + if warnings[|warnings| - 1] == device then 1 else 0
  }

  lemma WarningsAppend(warnings: seq<nat>, w: nat, device: nat)
    ensures WarningsOf(warnings + [w], device) == WarningsOf(warnings, device) + if w == device then 1 else 0
  {
  }

  /** How many of the last polls, without a break, have left the device unknown. */
  function UnknownInARow(verdicts: seq<Verdict>): nat {
    if verdicts == [] || verdicts[|verdicts| - 1] != Unknown then 0
    else 1 + UnknownInARow(verdicts[..|verdicts| - 1])
  }

  /** Whether there have ever been enough of them to warn. */
  ghost predicate EverUnseen(verdicts: seq<Verdict>) {
    exists k :: 0 <= k <= |verdicts| && UnknownInARow(verdicts[..k]) >= UNKNOWN_WARN_POLLS
  }

  /** That is, three polls in a row with no source able to tell. */
  lemma EverUnseenMeans(verdicts: seq<Verdict>)
    ensures EverUnseen(verdicts) <==>
              exists k :: 0 <= k < |verdicts| - 2 && verdicts[k] == verdicts[k + 1] == verdicts[k + 2] == Unknown
  {
    if EverUnseen(verdicts) {
      var k :| 0 <= k <= |verdicts| && UnknownInARow(verdicts[..k]) >= UNKNOWN_WARN_POLLS;
      UnknownRun(verdicts[..k]);
      assert verdicts[k - 3] == verdicts[k - 3 + 1] == verdicts[k - 3 + 2] == Unknown;
    }
    if k :| 0 <= k < |verdicts| - 2 && verdicts[k] == verdicts[k + 1] == verdicts[k + 2] == Unknown {
      UnknownRun(verdicts[..k + 3]);
    }
  }

  lemma UnknownRun(verdicts: seq<Verdict>)
    ensures var n := |verdicts|;
            UnknownInARow(verdicts) >= 3 <==>
              n >= 3 && verdicts[n - 3] == verdicts[n - 2] == verdicts[n - 1] == Unknown
  {
    var n := |verdicts|;
    if n >= 3 {
      var a, b, c := verdicts[..n - 1], verdicts[..n - 1][..n - 2], verdicts[..n - 1][..n - 2][..n - 3];
      assert UnknownInARow(verdicts) == if verdicts[n - 1] != Unknown then 0 else 1 + UnknownInARow(a);
      assert UnknownInARow(a) == if verdicts[n - 2] != Unknown then 0 else 1 + UnknownInARow(b);
      assert UnknownInARow(b) == if verdicts[n - 3] != Unknown then 0 else 1 + UnknownInARow(c);
    }
  }

  function NextUnknown(polls: nat, v: Verdict): nat {
    if v == Unknown then polls + 1 else if polls < UNKNOWN_WARN_POLLS then 0 else polls
  }

  /** The counter of a device, against all the verdicts on it. */
  ghost predicate CounterTells(polls: nat, verdicts: seq<Verdict>) {
    && (EverUnseen(verdicts) <==> polls >= UNKNOWN_WARN_POLLS)
    && (polls < UNKNOWN_WARN_POLLS ==> polls == UnknownInARow(verdicts))
  }

  lemma CounterStep(polls: nat, verdicts: seq<Verdict>, v: Verdict)
    requires CounterTells(polls, verdicts)
    ensures CounterTells(NextUnknown(polls, v), verdicts + [v])
    ensures EverUnseen(verdicts) ==> EverUnseen(verdicts + [v])
    ensures EverUnseen(verdicts + [v]) && !EverUnseen(verdicts) <==> v == Unknown && polls + 1 == UNKNOWN_WARN_POLLS
  {
    var all := verdicts + [v];
    assert all[..|verdicts|] == verdicts && all[..|all|] == all && verdicts[..|verdicts|] == verdicts;
    assert UnknownInARow(all) == if v == Unknown then 1 + UnknownInARow(verdicts) else 0;
    if EverUnseen(verdicts) {
      var k :| 0 <= k <= |verdicts| && UnknownInARow(verdicts[..k]) >= UNKNOWN_WARN_POLLS;
      assert all[..k] == verdicts[..k];
    }
    if EverUnseen(all) && UnknownInARow(all) < UNKNOWN_WARN_POLLS {
      var k :| 0 <= k <= |all| && UnknownInARow(all[..k]) >= UNKNOWN_WARN_POLLS;
      assert all[..k] == verdicts[..k];
    }
  }

  /** What is reported once the others have been seen to take a share: no less than that, and just
      that if nothing was reported before. */
  ghost predicate Reports(before: Option<int>, after: Option<int>, share: real) {
    && after.Some? && after.value >= Round(share)
    && (before == None ==> after == Some(Round(share)))
  }

  lemma ReportsNewest(h: seq<Sighting>, clock: int, before: Option<int>, others: Option<real>, now: int)
    requires (h != [] ==> clock <= now) && before == ReportOf(Largest(Recent(h, clock)))
    requires others.Some? && others.value >= 0.0
    ensures Reports(before, ReportOf(Largest(Recent(h + Noted(others, now), now))), others.value)
  {
    hide Recent, Round;
    var s := Sighting(now, others.value);
    RecentAppend(h, s, now);
    RecentEmpty();
    FirstPeakIsLargest(Recent(h, clock));
    if h != [] {
      RecentLater(h, clock, now);
    }
    LargestGrows(Recent(h, now), s);
    RoundMonotone(s.share, Largest(Recent(h + [s], now)).value);
  }

  lemma LargestGrows(h: seq<Sighting>, s: Sighting)
    ensures Largest(h + [s]).Some? && Largest(h + [s]).value >= s.share
    ensures h == [] ==> Largest(h + [s]) == Some(s.share)
  {
    FirstPeakIsLargest(h + [s]);
    assert (h + [s])[|h|] == s;
    if h == [] {
      assert h + [s] == [s] && [s][1..] == [];
    }
  }

  lemma RoundMonotone(x: real, y: real)
    requires 0.0 <= x <= y
    ensures Round(x) <= Round(y)
  {
  }

  // ----- The object

  class Monitor {
    const gates: seq<ShareGate>
    var reported: seq<Option<int>>
    var ownBusyMsLast: seq<real>
    var lastPoll: Option<int>
    var unknownPolls: seq<nat>
    /** The calls of the change callback, and the devices of the warnings logged, in order. */
    var changes: seq<Change>
    var warnings: seq<nat>
    /** Every merged verdict on each device so far. */
    ghost var verdicts: seq<seq<Verdict>>

    ghost predicate Shape()
      reads `reported, `ownBusyMsLast, `unknownPolls, `verdicts
    {
      && |reported| == |ownBusyMsLast| == |unknownPolls| == |verdicts| == |gates|
      && (forall i, j :: 0 <= i < j < |gates| ==> gates[i] != gates[j])
    }

    /** What holds of a device after every poll. Its report is the rounded maximum of the others'
        share within the thirty seconds before, in 0..100; */
    ghost predicate ReportOk(i: nat, clock: Option<int>)
      requires i < |gates| && i < |reported|
      reads `reported, gates
    {
      var gate := gates[i];
      && gate.Valid()
      && (if clock.Some? then gate.clock == clock.value else gate.history == [])
      && (forall k :: 0 <= k < |gate.history| ==> 0.0 <= gate.history[k].share <= 100.0)
      && reported[i] == ReportOf(Largest(Recent(gate.history, gate.clock)))
      && (reported[i].Some? ==> 0 <= reported[i].value <= 100)
    }

    /** it was made just when it changed; */
    ghost predicate ChangesOk(i: nat)
      requires i < |reported|
      reads `reported, `changes
    {
      NoRepeats(ReportsOf(changes, i)) && LastReport(ReportsOf(changes, i)) == reported[i]
    }

    /** and it has been warned of exactly once if it was ever unseen for three polls in a row,
        otherwise never. */
    ghost predicate WarningsOk(i: nat)
      requires i < |unknownPolls| && i < |verdicts|
      reads `unknownPolls, `verdicts, `warnings
    {
      && CounterTells(unknownPolls[i], verdicts[i])
      && WarningsOf(warnings, i) == if EverUnseen(verdicts[i]) then 1 else 0
    }

    ghost predicate DeviceOk(i: nat, clock: Option<int>)
      requires Shape() && i < |gates|
      reads this, gates
    {
      ReportOk(i, clock) && ChangesOk(i) && WarningsOk(i)
    }

    ghost predicate Valid()
      reads this, gates
    {
      Shape() && forall i :: 0 <= i < |gates| ==> DeviceOk(i, lastPoll)
    }

    constructor (gates: seq<ShareGate>)
      requires forall i, j :: 0 <= i < j < |gates| ==> gates[i] != gates[j]
      requires forall i :: 0 <= i < |gates| ==> gates[i].Valid() && gates[i].history == []
      ensures Valid() && lastPoll == None && changes == [] && warnings == []
      ensures this.gates == gates
    {
      this.gates := gates;
      reported, lastPoll, changes, warnings := seq(|gates|, _ => None), None, [], [];
      ownBusyMsLast, unknownPolls := seq(|gates|, _ => 0.0), seq(|gates|, _ => 0);
      verdicts := seq(|gates|, _ => []);
    }

    /** Sample every source once, each being handed what is already known, and merge. */
    method MergeSources(sources: seq<Source>) returns (merged: seq<Observation>)
      requires FillsAll(sources)
      ensures merged == Merged(sources, |gates|, |sources|)
    {
      merged := seq(|gates|, _ => Nothing);
      for k := 0 to |sources|
        invariant merged == Merged(sources, |gates|, k)
      {
        ghost var before := merged;
        var seen := sources[k](Handed(merged));
        for i := 0 to |gates|
          invariant |merged| == |gates|
          invariant forall j :: 0 <= j < i ==> merged[j] == MergeOne(before[j], seen[j])
          invariant forall j :: i <= j < |gates| ==> merged[j] == before[j]
        {
          var m := merged[i];
          if seen[i].verdict == Busy && m.verdict != Busy {
            m := m.(verdict := Busy, pid := seen[i].pid);
          } else if seen[i].verdict == Idle && m.verdict == Unknown {
            m := m.(verdict := Idle);
          }
          if seen[i].deviceBusy.Some? {
            var least := if m.deviceBusy.Some? then m.deviceBusy.value else 0.0;
            m := m.(deviceBusy := Some(MaxReal(least, seen[i].deviceBusy.value)));
          }
          merged := merged[i := m];
        }
      }
    }

    /** Keep count of a device's unknown polls, and warn of it once. */
    method NoteVerdict(i: nat, verdict: Verdict)
      requires Shape() && i < |gates| && WarningsOk(i)
      modifies `unknownPolls, `warnings, `verdicts
      ensures Shape() && WarningsOk(i)
      ensures verdicts == old(verdicts)[i := old(verdicts[i]) + [verdict]]
      ensures old(warnings) <= warnings
      ensures forall j :: 0 <= j < |gates| && j != i && old(WarningsOk(j)) ==> WarningsOk(j)
    {
      hide CounterTells, EverUnseen, WarningsOf;
      var polls := unknownPolls[i];
      CounterStep(polls, verdicts[i], verdict);
      forall j: nat
        ensures WarningsOf(warnings + [i], j) == WarningsOf(warnings, j) + if i == j then 1 else 0
      {
        WarningsAppend(warnings, i, j);
      }
      if verdict != Unknown {
        if polls < UNKNOWN_WARN_POLLS {
          unknownPolls := unknownPolls[i := 0];
        }
      } else {
        unknownPolls := unknownPolls[i := polls + 1];
        if polls + 1 == UNKNOWN_WARN_POLLS {
          warnings := warnings + [i];
        }
      }
      verdicts := verdicts[i := verdicts[i] + [verdict]];
    }

    /** Pass the others' share through the gate, and report the outcome if it has changed. */
    method ReportShare(i: nat, others: Option<real>, pid: int, now: int, ghost clock: Option<int>)
      requires Shape() && i < |gates| && ReportOk(i, clock) && ChangesOk(i)
      requires others.Some? ==> 0.0 <= others.value <= 100.0
      requires clock.Some? ==> clock.value <= now
      modifies `reported, `changes, gates[i]
      ensures Shape() && ReportOk(i, Some(now)) && ChangesOk(i)
      ensures gates[i].history == old(gates[i].history) + Noted(others, now)
      ensures reported == old(reported)[i := reported[i]]
      ensures changes == old(changes) + if reported[i] == old(reported[i]) then [] else [Change(i, reported[i], pid)]
      ensures others.Some? ==> Reports(old(reported[i]), reported[i], others.value)
      ensures forall j :: 0 <= j < |gates| && j != i && old(ReportOk(j, clock)) ==> ReportOk(j, clock)
      ensures forall j :: 0 <= j < |gates| && j != i && old(ReportOk(j, Some(now))) ==> ReportOk(j, Some(now))
      ensures forall j :: 0 <= j < |gates| && j != i && old(ChangesOk(j)) ==> ChangesOk(j)
    {
      hide Largest, Recent, ReportsOf, NoRepeats, LastReport, ReportOf, ShareGate.Valid, Reports;
      LevelInRange(gates[i].history, others, now);
      if others.Some? {
        ReportsNewest(gates[i].history, gates[i].clock, reported[i], others, now);
      }
      var level := gates[i].Update(others, now);
      Publish(i, ReportOf(level), pid);
    }

    /** Make a report, and have it known, if it is news. */
    method Publish(i: nat, report: Option<int>, pid: int)
      requires Shape() && i < |gates| && ChangesOk(i)
      modifies `reported, `changes
      ensures Shape() && ChangesOk(i) && reported == old(reported)[i := report]
      ensures changes == old(changes) + if report == old(reported[i]) then [] else [Change(i, report, pid)]
      ensures forall j :: 0 <= j < |gates| && j != i && old(ChangesOk(j)) ==> ChangesOk(j)
    {
      hide ReportsOf, NoRepeats, LastReport;
      if report != reported[i] {
        forall j: nat
          ensures ReportsOf(changes + [Change(i, report, pid)], j)
                  == if i == j then ReportsOf(changes, j) + [report] else ReportsOf(changes, j)
        {
          ReportsAppend(changes, Change(i, report, pid), j);
        }
        NoRepeatsAppend(ReportsOf(changes, i), report);
        reported := reported[i := report];
        changes := changes + [Change(i, report, pid)];
      }
    }

    /** What our kernels took of the devices between the last poll and this one. */
    method OwnShares(now: int, ownBusyMs: Option<seq<real>>) returns (own: seq<real>)
      requires Shape() && (ownBusyMs.Some? ==> |ownBusyMs.value| == |gates|)
      modifies `ownBusyMsLast, `lastPoll
      ensures Shape() && |own| == |gates| && lastPoll == Some(now)
      ensures ownBusyMs.Some? ==> ownBusyMsLast == ownBusyMs.value
      ensures ownBusyMs.None? ==> ownBusyMsLast == old(ownBusyMsLast)
      ensures forall i :: 0 <= i < |gates| ==>
        own[i] == if ownBusyMs.Some?
                  then OwnShare(old(lastPoll), now, old(ownBusyMsLast)[i], ownBusyMs.value[i]) else 0.0
    {
      own := seq(|gates|, _ => 0.0);
      if ownBusyMs.Some? {
        for i := 0 to |gates|
          invariant |own| == |gates| && Shape() && lastPoll == old(lastPoll)
          invariant forall j :: 0 <= j < i ==>
            own[j] == OwnShare(lastPoll, now, old(ownBusyMsLast)[j], ownBusyMs.value[j])
          invariant forall j :: 0 <= j < i ==> ownBusyMsLast[j] == ownBusyMs.value[j]
          invariant forall j :: i <= j < |gates| ==> ownBusyMsLast[j] == old(ownBusyMsLast)[j] && own[j] == 0.0
        {
          var busy := ownBusyMs.value[i];
          if lastPoll.Some? {
            var wall := (now - lastPoll.value) as real / 1_000_000.0;
            if wall > 0.0 {
              own := own[i := Clamp(100.0 * (busy - ownBusyMsLast[i]) / wall, 0.0, 100.0)];
            }
          }
          ownBusyMsLast := ownBusyMsLast[i := busy];
        }
      }
      lastPoll := Some(now);
    }

    /** Where a poll has come to: the first `n` devices have been brought up to date. */
    ghost predicate PolledTo(n: nat, clock: Option<int>, now: int)
      reads `reported, `unknownPolls, `verdicts, `changes, `warnings, gates
    {
      && |reported| == |unknownPolls| == |verdicts| == |gates|
      && (forall j :: 0 <= j < n && j < |gates| ==> ReportOk(j, Some(now)))
      && (forall j :: n <= j < |gates| ==> ReportOk(j, clock))
      && (forall j :: 0 <= j < |gates| ==> ChangesOk(j) && WarningsOk(j))
    }

    /** A device's part in a poll. */
    method PollDevice(i: nat, merged: Observation, own: real, now: int, ghost clock: Option<int>)
      requires Shape() && i < |gates| && PolledTo(i, clock, now) && (clock.Some? ==> clock.value <= now)
      modifies `reported, `changes, `unknownPolls, `warnings, `verdicts, gates[i]
      ensures Shape() && PolledTo(i + 1, clock, now)
      ensures old(warnings) <= warnings && verdicts == old(verdicts)[i := old(verdicts[i]) + [merged.verdict]]
      ensures reported == old(reported)[i := reported[i]]
      ensures changes == old(changes)
                         + if reported[i] == old(reported[i]) then [] else [Change(i, reported[i], merged.pid)]
      ensures var share := OthersShare(merged, own);
              && gates[i].history == old(gates[i].history) + Noted(share, now)
              && (share.Some? ==> Reports(old(reported[i]), reported[i], share.value))
    {
      hide Reports, Noted, ReportOk, ChangesOk, WarningsOk, OthersShare;
      NoteVerdict(i, merged.verdict);
      ReportShare(i, OthersShare(merged, own), merged.pid, now, clock);
    }

    /** A poll, with whatever the sources answer this time. Afterwards every device is reported as it
        should be, and its sightings have grown by the share that the merged observation and our
        own busy time come to. */
    method Poll(now: int, sources: seq<Source>, ownBusyMs: Option<seq<real>>)
      requires Valid() && FillsAll(sources) && (ownBusyMs.Some? ==> |ownBusyMs.value| == |gates|)
      requires lastPoll.Some? ==> lastPoll.value <= now
      modifies this, gates
      ensures Valid() && lastPoll == Some(now)
      ensures old(warnings) <= warnings
      ensures ownBusyMsLast == if ownBusyMs.Some? then ownBusyMs.value else old(ownBusyMsLast)
      ensures changes == old(changes) + News(old(reported), reported, Merged(sources, |gates|, |sources|), |gates|)
      ensures var merged := Merged(sources, |gates|, |sources|);
              forall i :: 0 <= i < |gates| ==>
                && verdicts[i] == old(verdicts[i]) + [merged[i].verdict]
                && var own := if ownBusyMs.Some?
                              then OwnShare(old(lastPoll), now, old(ownBusyMsLast)[i], ownBusyMs.value[i]) else 0.0;
                   var share := OthersShare(merged[i], own);
                   && gates[i].history == old(gates[i].history) + Noted(share, now)
                   && (merged[i].verdict == Busy ==>
                         && MakesUp(own, share.value, merged[i].deviceBusy)
                         && Reports(old(reported[i]), reported[i], share.value))
    {
      hide Reports, MakesUp, ComesTo, Noted, PolledTo, OwnShare, OthersShare, Merged, News;
      ghost var clock := lastPoll;
      ValidIsPolled(clock, now);
      var own := OwnShares(now, ownBusyMs);
      var merged := MergeSources(sources);
      PollDevices(merged, own, now, clock);
      PolledIsValid(clock, now);
    }

    /** The devices' part in a poll, one after the other. */
    method PollDevices(merged: seq<Observation>, own: seq<real>, now: int, ghost clock: Option<int>)
      requires Shape() && |merged| == |own| == |gates|
      requires PolledTo(0, clock, now) && (clock.Some? ==> clock.value <= now)
      modifies `reported, `changes, `unknownPolls, `warnings, `verdicts, gates
      ensures Shape() && PolledTo(|gates|, clock, now)
      ensures old(warnings) <= warnings
      ensures changes == old(changes) + News(old(reported), reported, merged, |gates|)
      ensures forall j :: 0 <= j < |gates| ==>
                && verdicts[j] == old(verdicts[j]) + [merged[j].verdict]
                && gates[j].history == old(gates[j].history) + Noted(OthersShare(merged[j], own[j]), now)
      ensures forall j :: 0 <= j < |gates| && merged[j].verdict == Busy ==>
                Reports(old(reported[j]), reported[j], OthersShare(merged[j], own[j]).value)
    {
      hide Reports, MakesUp, Noted, PolledTo, OthersShare, News;
      NoNews(reported, reported);
      for i := 0 to |gates|
        invariant Shape() && PolledTo(i, clock, now)
        invariant old(warnings) <= warnings
        invariant forall j :: i <= j < |gates| ==> reported[j] == old(reported)[j]
        invariant changes == old(changes) + News(old(reported), reported, merged, i)
        invariant forall j :: 0 <= j < |gates| ==>
          verdicts[j] == old(verdicts[j]) + if j < i then [merged[j].verdict] else []
        invariant forall j :: 0 <= j < |gates| ==>
          gates[j].history == old(gates[j].history) + if j < i then Noted(OthersShare(merged[j], own[j]), now) else []
        invariant forall j :: 0 <= j < i && merged[j].verdict == Busy ==>
          Reports(old(reported[j]), reported[j], OthersShare(merged[j], own[j]).value)
      {
        ghost var reports := reported;
        PollDevice(i, merged[i], own[i], now, clock);
        NewsNext(old(reported), reports, reported, merged, i);
      }
    }

    lemma ValidIsPolled(clock: Option<int>, now: int)
      requires Valid() && clock == lastPoll
      ensures PolledTo(0, clock, now)
    {
      hide ReportOk, ChangesOk, WarningsOk;
      forall j | 0 <= j < |gates|
        ensures ReportOk(j, clock) && ChangesOk(j) && WarningsOk(j)
      {
        assert DeviceOk(j, clock);
      }
    }

    lemma PolledIsValid(clock: Option<int>, now: int)
      requires Shape() && PolledTo(|gates|, clock, now) && lastPoll == Some(now)
      ensures Valid()
    {
    }

    /** What a report says of the run so far: that the others were last seen less than thirty seconds
        ago, and how much at most they have taken since then. */
    lemma ReportTells(i: nat)
      requires Valid() && lastPoll.Some? && i < |gates|
      ensures var h := gates[i].history;
              && (reported[i].Some? <==> h != [] && lastPoll.value - h[|h| - 1].at < 30_000_000_000)
              && (reported[i].Some? ==>
                    && (exists k :: 0 <= k < |h| && lastPoll.value - h[k].at < 30_000_000_000
                                    && Round(h[k].share) == reported[i].value)
                    && (forall k :: 0 <= k < |h| && lastPoll.value - h[k].at < 30_000_000_000
                                    ==> Round(h[k].share) <= reported[i].value))
    {
      hide Largest, ReportOf, Round, NoRepeats, CounterTells;
      var gate := gates[i];
      assert DeviceOk(i, lastPoll);
      ReportOfRecent(gate.history, lastPoll.value);
    }
  }

  lemma ReportOfRecent(h: seq<Sighting>, now: int)
    requires InOrder(h) && forall k :: 0 <= k < |h| ==> 0.0 <= h[k].share
    ensures var report := ReportOf(Largest(Recent(h, now)));
            && (report.Some? <==> h != [] && !Expired(h[|h| - 1], now))
            && (report.Some? ==>
                  && (exists k :: 0 <= k < |h| && !Expired(h[k], now) && Round(h[k].share) == report.value)
                  && (forall k :: 0 <= k < |h| && !Expired(h[k], now) ==> Round(h[k].share) <= report.value))
  {
    hide Largest, Recent, Round;
    LargestTells(h, now);
    if Largest(Recent(h, now)).Some? {
      var level := Largest(Recent(h, now)).value;
      forall j | 0 <= j < |h| && !Expired(h[j], now)
        ensures Round(h[j].share) <= Round(level)
      {
        RoundMonotone(h[j].share, level);
      }
    }
  }
}
