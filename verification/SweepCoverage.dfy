/** The sweep reaches the whole block, and each word only once per pass. */
module SweepCoverage {
  import opened Prelude
  import opened Sweep
  import opened BlockSweep
  import opened SweepRuns

  /** How many of the first `n` accesses of a launch go to a word of its window. */
  function Visits(args: SweepArgs, n: nat, word: nat): nat {
    if args.words == 0 || n == 0 then 0
    else Visits(args, n - 1, word) + if AccessWord(args, n - 1) == word then 1 else 0
  }

  /** The visits that a launch pays to a word of window `w`. */
  function LaunchVisits(w: Window, args: SweepArgs, touched: nat, word: nat): nat {
    if args.segment == w.segment && args.offsetWords == w.offsetWords && args.words == w.words
    then Visits(args, touched, word) else 0
  }

  /** The visits that a run pays to a word of a window. */
  function RunVisits(ws: seq<Window>, s: Cursor, launches: seq<Launch>, threads: uint32, w: Window, word: nat): nat
    requires Valid(ws, s)
    decreases |launches|
  {
    if launches == [] then 0
    else
      StepEffect(ws, s, launches[0], threads);
      LaunchVisits(w, Args(ws, s, launches[0], threads), TouchedBy(ws, s, launches[0], threads), word)
      + RunVisits(ws, After(ws, s, launches[0], threads), launches[1..], threads, w, word)
  }

  /** The launches of a run that move traffic. */
  function Moving(ws: seq<Window>, s: Cursor, launches: seq<Launch>, threads: uint32): nat
    requires Valid(ws, s)
    decreases |launches|
  {
    if launches == [] then 0
    else
      StepEffect(ws, s, launches[0], threads);
      (if Moves(ws, s, launches[0], threads) then 1 else 0)
      + Moving(ws, After(ws, s, launches[0], threads), launches[1..], threads)
  }

  /** Short of the window's end, accesses run through its words in order. */
  lemma {:induction false} VisitsInOrder(args: SweepArgs, n: nat, word: nat)
    requires args.base < args.words && args.base + n <= args.words
    ensures Visits(args, n, word) == if args.base <= word < args.base + n then 1 else 0
  {
    if n == 0 {
    } else {
      VisitsInOrder(args, n - 1, word);
      AccessWordUnwrapped(args, n - 1);
    }
  }

  lemma {:induction false} VisitsGrow(args: SweepArgs, m: nat, n: nat, word: nat)
    requires m <= n
    ensures Visits(args, m, word) <= Visits(args, n, word)
  {
    if m < n {
      VisitsGrow(args, m, n - 1, word);
    }
  }

  /** The launches needed to sweep window `i` from word `from` on. */
  function Need(ws: seq<Window>, i: nat, from: nat, threads: nat): nat
    requires i < |ws| && threads > 0
  {
    if Fits(ws, i, threads) && from < ws[i].words then CeilDiv(ws[i].words - from, threads) else 0
  }

  /** The launches needed to sweep the windows `i..end`. */
  function NeedAll(ws: seq<Window>, i: nat, end: nat, threads: nat): nat
    requires end <= |ws| && threads > 0
    decreases |ws| - i
  {
    if i >= end then 0 else Need(ws, i, 0, threads) + NeedAll(ws, i + 1, end, threads)
  }

  lemma {:induction false} NothingNeededBetween(ws: seq<Window>, i: nat, j: nat, end: nat, threads: nat)
    requires i <= j <= end <= |ws| && threads > 0
    requires forall k :: i <= k < j ==> !Fits(ws, k, threads)
    ensures NeedAll(ws, i, end, threads) == NeedAll(ws, j, end, threads)
    decreases j - i
  {
    if i < j {
      NothingNeededBetween(ws, i + 1, j, end, threads);
    }
  }

  /** The need of the windows from the cursor up to and including window `i`. */
  function NeedTo(ws: seq<Window>, s: Cursor, i: nat, threads: nat): nat
    requires Valid(ws, s) && ws != [] && i < |ws| && threads > 0
  {
    Need(ws, s.window, s.word, threads) + NeedAll(ws, s.window + 1, i + 1, threads)
  }

  /** From a cursor short of window `i`, the search for a window does not skip past it, and what
      it does skip needs nothing. */
  lemma SearchStopsBefore(ws: seq<Window>, s: Cursor, i: nat, threads: nat)
    requires Valid(ws, s) && threads > 0
    requires s.window <= i < |ws| && Fits(ws, i, threads)
    ensures SomeFits(ws, threads)
    ensures s.window <= WindowOf(ws, s, threads) <= i
    ensures WindowOf(ws, s, threads) == s.window ==> BaseOf(ws, s, threads) == s.word
    ensures WindowOf(ws, s, threads) > s.window ==> BaseOf(ws, s, threads) == 0
    ensures var p := WindowOf(ws, s, threads);
            NeedTo(ws, s, i, threads)
            == Need(ws, p, BaseOf(ws, s, threads), threads) + NeedAll(ws, p + 1, i + 1, threads)
  {
    var k := Skipped(ws, s.window, threads, 0);
    assert FitsAhead(ws, s.window, i - s.window, threads);
    var p := WindowOf(ws, s, threads);
    assert p == s.window + k;
    if k > 0 {
      assert !FitsAhead(ws, s.window, 0, threads);
      forall j | s.window < j < p
        ensures !Fits(ws, j, threads)
      {
        assert !FitsAhead(ws, s.window, j - s.window, threads);
      }
      NothingNeededBetween(ws, s.window + 1, p, i + 1, threads);
    }
  }

  /** Coverage: a word at or ahead of the cursor, in a window with room for all threads, has been
      visited once the run has moved traffic as often as the windows up to it need. */
  lemma {:induction false} WordReached(ws: seq<Window>, s: Cursor, launches: seq<Launch>, threads: uint32,
                                       i: nat, word: nat)
    requires Valid(ws, s) && threads > 0
    requires s.window <= i < |ws| && Fits(ws, i, threads) && word < ws[i].words
    requires s.window == i ==> s.word <= word
    requires Moving(ws, s, launches, threads) >= NeedTo(ws, s, i, threads)
    ensures RunVisits(ws, s, launches, threads, ws[i], word) > 0
    decreases |launches|
  {
    hide Step, WindowOf, BaseOf, TouchedBy, Visits, CeilDiv;
    SearchStopsBefore(ws, s, i, threads);
    var p, base := WindowOf(ws, s, threads), BaseOf(ws, s, threads);
    FittingWindow(ws, s, threads);
    CeilDivBounds(ws[p].words - base, threads);
    var l := launches[0];
    StepEffect(ws, s, l, threads);
    var next, args, touched := After(ws, s, l, threads), Args(ws, s, l, threads), TouchedBy(ws, s, l, threads);
    if !Moves(ws, s, l, threads) {
      WordReached(ws, next, launches[1..], threads, i, word);
    } else if p == i && word < base + touched {
      var n := Min(touched, args.words - base);
      VisitsInOrder(args, n, word);
      VisitsGrow(args, n, touched, word);
    } else if touched >= ws[p].words - base {
      assert next.window == p + 1 && next.word == 0;
      WordReached(ws, next, launches[1..], threads, i, word);
    } else {
      CeilDivDecreases(ws[p].words - base, threads, touched);
      WordReached(ws, next, launches[1..], threads, i, word);
    }
  }

  /** A launch with which its window is finished. */
  predicate EndsWindow(ws: seq<Window>, s: Cursor, l: Launch, threads: uint32)
    requires Valid(ws, s)
  {
    var a := Args(ws, s, l, threads);
    a.words > 0 && a.base + TouchedBy(ws, s, l, threads) >= a.words
  }

  predicate NoneEndsWindow(ws: seq<Window>, s: Cursor, launches: seq<Launch>, threads: uint32)
    requires Valid(ws, s)
    decreases |launches|
  {
    if launches == [] then true
    else
      StepEffect(ws, s, launches[0], threads);
      && !EndsWindow(ws, s, launches[0], threads)
      && NoneEndsWindow(ws, After(ws, s, launches[0], threads), launches[1..], threads)
  }

  lemma {:induction false} StaysInWindow(ws: seq<Window>, s: Cursor, launches: seq<Launch>, threads: uint32)
    requires Valid(ws, s) && threads > 0 && ws != [] && Fits(ws, s.window, threads)
    requires NoneEndsWindow(ws, s, launches, threads)
    ensures AfterAll(ws, s, launches, threads).window == s.window
    ensures AfterAll(ws, s, launches, threads).word >= s.word
    decreases |launches|
  {
    hide Step;
    if launches != [] {
      StepEffect(ws, s, launches[0], threads);
      SearchStopsBefore(ws, s, s.window, threads);
      StaysInWindow(ws, After(ws, s, launches[0], threads), launches[1..], threads);
    }
  }

  /** Exactly once: before the launch that ends the window, the words between the run's first and
      last position have each been visited once and all others not at all. */
  lemma {:induction false} EachWordOnce(ws: seq<Window>, s: Cursor, launches: seq<Launch>, threads: uint32, word: nat)
    requires Valid(ws, s) && threads > 0 && ws != [] && Fits(ws, s.window, threads)
    requires NoneEndsWindow(ws, s, launches, threads)
    ensures RunVisits(ws, s, launches, threads, ws[s.window], word)
            == if s.word <= word < AfterAll(ws, s, launches, threads).word then 1 else 0
    decreases |launches|
  {
    hide Step;
    if launches == [] {
    } else {
      var l := launches[0];
      StepEffect(ws, s, l, threads);
      SearchStopsBefore(ws, s, s.window, threads);
      var next, args, touched := After(ws, s, l, threads), Args(ws, s, l, threads), TouchedBy(ws, s, l, threads);
      if args.words > 0 {
        VisitsInOrder(args, touched, word);
      }
      StaysInWindow(ws, next, launches[1..], threads);
      EachWordOnce(ws, next, launches[1..], threads, word);
    }
  }

  lemma {:induction false} NeedGrows(ws: seq<Window>, i: nat, end: nat, threads: nat)
    requires end <= |ws| && threads > 0
    ensures NeedAll(ws, i, end, threads) <= NeedAll(ws, i, |ws|, threads)
    decreases |ws| - i
  {
    if i < end {
      NeedGrows(ws, i + 1, end, threads);
    }
  }

  /** A window too small for the threads is never visited. */
  lemma {:induction false} OnlyFittingVisited(ws: seq<Window>, s: Cursor, launches: seq<Launch>, threads: uint32,
                                              w: Window, word: nat)
    requires Valid(ws, s)
    requires RunVisits(ws, s, launches, threads, w, word) > 0
    ensures w.words >= threads
    decreases |launches|
  {
    hide Step, Visits;
    var l := launches[0];
    StepEffect(ws, s, l, threads);
    if LaunchVisits(w, Args(ws, s, l, threads), TouchedBy(ws, s, l, threads), word) > 0 {
      IdleVisitsNothing(Args(ws, s, l, threads), TouchedBy(ws, s, l, threads), word);
    } else {
      OnlyFittingVisited(ws, After(ws, s, l, threads), launches[1..], threads, w, word);
    }
  }

  lemma IdleVisitsNothing(args: SweepArgs, n: nat, word: nat)
    ensures args.words == 0 ==> Visits(args, n, word) == 0
  {
  }

  /** The whole block: with the windows laid out by `Reset`, a run that has moved traffic as often as
      all windows together need has visited every whole word of every segment, but for the tail of
      one that, within its last gibibyte, is shorter than the threads; and those words no run visits. */
  lemma BlockSwept(ws: seq<Window>, segmentBytes: seq<nat>, launches: seq<Launch>, threads: uint32,
                   segment: nat, word: nat)
    requires Partitions(ws, segmentBytes) && CutEveryGib(ws, segmentBytes) && threads > 0
    requires segment < |segmentBytes| && word < segmentBytes[segment] / 4
    requires Valid(ws, Cursor(0, 0, 0))
    requires Moving(ws, Cursor(0, 0, 0), launches, threads) >= NeedAll(ws, 0, |ws|, threads)
    ensures exists i: nat :: i < |ws| && Holds(ws[i], segment, word) &&
              (RunVisits(ws, Cursor(0, 0, 0), launches, threads, ws[i], word - ws[i].offsetWords) > 0
               <==> BlockWords(segmentBytes, segment, word) >= threads)
  {
    hide Step, RunVisits, Moving, BlockWords, CutEveryGib;
    var start := Cursor(0, 0, 0);
    var i := HolderExists(ws, segment, word);
    WindowIsBlock(ws, segmentBytes, i, segment, word);
    if Fits(ws, i, threads) {
      NeedGrows(ws, 0, i + 1, threads);
      WordReached(ws, start, launches, threads, i, word - ws[i].offsetWords);
    } else if RunVisits(ws, start, launches, threads, ws[i], word - ws[i].offsetWords) > 0 {
      OnlyFittingVisited(ws, start, launches, threads, ws[i], word - ws[i].offsetWords);
    }
  }

  /** A launch that is asked for an access per thread. */
  predicate Asks(l: Launch, threads: uint32) {
    l.traffic >= threads * 8
  }

  /** It does move traffic, and so do all of a run. */
  lemma {:induction false} AllMove(ws: seq<Window>, s: Cursor, launches: seq<Launch>, threads: uint32)
    requires Valid(ws, s) && threads > 0 && SomeFits(ws, threads)
    requires s.pending < threads * BYTES_PER_ACCESS && NoWrap(launches, threads)
    requires forall i :: 0 <= i < |launches| ==> Asks(launches[i], threads)
    ensures Moving(ws, s, launches, threads) == |launches|
    decreases |launches|
  {
    if launches != [] {
      var l := launches[0];
      assert NoWrap([l], threads) && Asks(l, threads);
      hide Step, TouchedBy;
      AskMoves(ws, s, l, threads);
      StepEffect(ws, s, l, threads);
      StepTraffic(ws, s, l, threads);
      AllMove(ws, After(ws, s, l, threads), launches[1..], threads);
    }
  }

  lemma AskMoves(ws: seq<Window>, s: Cursor, l: Launch, threads: uint32)
    requires Valid(ws, s) && threads > 0 && SomeFits(ws, threads)
    requires s.pending < threads * BYTES_PER_ACCESS && NoWrap([l], threads) && Asks(l, threads)
    ensures Moves(ws, s, l, threads)
  {
    assert [l][0] == l;
    var owed := s.pending + l.traffic;
    assert owed % UINT64_RANGE == owed;
    PerThreadBounds(owed, threads);
    var perThread := PerThread(owed, threads);
    assert perThread > 0;
    hide Step, PerThread, Delivered, CeilDiv;
    StepEffect(ws, s, l, threads);
    DeliveredBounds(Iterations(l.loopCount), perThread);
    MulMonotone(1, Delivered(Iterations(l.loopCount), perThread), threads);
  }

  /** So a run of as many launches as the windows need, each asked for at least an access per thread,
      sweeps the block. */
  lemma BlockSweptInTime(ws: seq<Window>, segmentBytes: seq<nat>, launches: seq<Launch>, threads: uint32,
                         segment: nat, word: nat)
    requires Partitions(ws, segmentBytes) && CutEveryGib(ws, segmentBytes) && threads > 0
    requires segment < |segmentBytes| && word < segmentBytes[segment] / 4
    requires Valid(ws, Cursor(0, 0, 0)) && NoWrap(launches, threads)
    requires |launches| >= NeedAll(ws, 0, |ws|, threads)
    requires forall i :: 0 <= i < |launches| ==> Asks(launches[i], threads)
    requires BlockWords(segmentBytes, segment, word) >= threads
    ensures exists i: nat :: i < |ws| && Holds(ws[i], segment, word) &&
              RunVisits(ws, Cursor(0, 0, 0), launches, threads, ws[i], word - ws[i].offsetWords) > 0
  {
    hide Step, RunVisits, Moving, BlockWords, CutEveryGib;
    var i := HolderExists(ws, segment, word);
    WindowIsBlock(ws, segmentBytes, i, segment, word);
    assert Fits(ws, i, threads);
    AllMove(ws, Cursor(0, 0, 0), launches, threads);
    BlockSwept(ws, segmentBytes, launches, threads, segment, word);
  }
}
