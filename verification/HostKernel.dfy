/** The host's accounting of a launch against what the kernel does with its arguments. */
module HostKernel {
  import opened Prelude
  import opened Sweep
  import opened BlockSweep
  import opened SweepRuns
  import opened SweepCoverage
  import opened BusyKernel
  import opened KernelLaunch

  /** The launch as the kernel sees it. */
  function GridOf(ws: seq<Window>, s: Cursor, l: Launch, threads: uint32): Grid
    requires Valid(ws, s)
  {
    Grid(Args(ws, s, l, threads), Max(l.loopCount, 0), threads)
  }

  /** A window that `Reset` laid out lies inside its segment. */
  lemma WindowInsideSegment(ws: seq<Window>, segmentBytes: seq<nat>, i: nat)
    requires WellFormed(ws) && Partitions(ws, segmentBytes) && i < |ws|
    ensures ws[i].segment < |segmentBytes|
    ensures ws[i].offsetWords + ws[i].words <= segmentBytes[ws[i].segment] / WORD_BYTES
  {
    var last := ws[i].offsetWords + ws[i].words - 1;
    assert ws == ws[..i] + ws[i..];
    HoldersConcat(ws[..i], ws[i..], ws[i].segment, last);
    assert Holders(ws[i..], ws[i].segment, last) > 0;
  }

  /** The arguments of a launch that moves traffic are ones the kernel can take: its window gives
      every thread a word, its 32-bit indices cannot overflow, and it lies inside its segment. The
      kernel then makes as many accesses as the host has counted if and only if the launch has an
      iteration at all. */
  lemma HostKernelAgree(ws: seq<Window>, segmentBytes: seq<nat>, s: Cursor, l: Launch, threads: uint32)
    requires Valid(ws, s) && Partitions(ws, segmentBytes) && Moves(ws, s, l, threads)
    ensures var g := GridOf(ws, s, l, threads);
            && g.Valid()
            && g.args.segment < |segmentBytes|
            && g.args.offsetWords + g.args.words <= segmentBytes[g.args.segment] / WORD_BYTES
            && (g.Total() == TouchedBy(ws, s, l, threads) <==> l.loopCount >= 1)
  {
    hide Step;
    StepEffect(ws, s, l, threads);
    WindowInsideSegment(ws, segmentBytes, WindowOf(ws, s, threads));
    var args := Args(ws, s, l, threads);
    CeilDivBounds(0, args.stride);
  }

  /** Accesses that do not lap the window visit each of its words at most once, and exactly those
      close enough behind the base. */
  lemma {:induction false} VisitsAre(args: SweepArgs, n: nat, word: nat)
    requires args.base < args.words && n <= args.words && word < args.words
    ensures Visits(args, n, word) == if AccessAt(args, word) < n then 1 else 0
  {
    if n > 0 {
      VisitsAre(args, n - 1, word);
      AccessAtInverts(args, n - 1);
      AccessWordInverts(args, word);
    }
  }

  /** A launch that does not reach the end of its window leaves memory as the sweep says, whatever
      the order its work-items run in: the words that the host's cursor moves past have been mixed
      once each, all others are as they were. */
  lemma LaunchSweepsPastCursor(ws: seq<Window>, s: Cursor, l: Launch, threads: uint32, mem: seq<bv32>,
                               schedule: seq<nat>)
    requires Valid(ws, s) && Moves(ws, s, l, threads) && l.loopCount >= 1 && !EndsWindow(ws, s, l, threads)
    requires var g := GridOf(ws, s, l, threads);
             && g.Valid() && g.args.offsetWords + g.args.words <= |mem|
             && Finished(g, Interleave(g, Start(g, mem), schedule))
    ensures var g := GridOf(ws, s, l, threads);
            var after := Interleave(g, Start(g, mem), schedule).mem;
            forall p :: 0 <= p < |mem| ==>
              after[p] == if g.args.offsetWords + g.args.base <= p < g.args.offsetWords + After(ws, s, l, threads).word
                          then Mixed(g, mem, p, p - g.args.offsetWords - g.args.base) else mem[p]
  {
    hide Step, Interleave, Mixed, CeilDiv;
    StepEffect(ws, s, l, threads);
    var g := GridOf(ws, s, l, threads);
    AnyOrderSweepsOnce(g, mem, schedule);
  }
}
