/** What whole runs of launches over a block keep: nothing of the traffic asked for is lost
    except in launches that can be told beforehand, and every word is reached. */
module SweepRuns {
  import opened Prelude
  import opened Sweep
  import opened BlockSweep

  // ----- One launch

  function After(ws: seq<Window>, s: Cursor, l: Launch, threads: uint32): Cursor
    requires Valid(ws, s)
  {
    Step(ws, s, l, threads).0
  }

  function Args(ws: seq<Window>, s: Cursor, l: Launch, threads: uint32): SweepArgs
    requires Valid(ws, s)
  {
    Step(ws, s, l, threads).1
  }

  /** A launch that moves traffic. */
  predicate Moves(ws: seq<Window>, s: Cursor, l: Launch, threads: uint32)
    requires Valid(ws, s)
  {
    Args(ws, s, l, threads).words > 0
  }

  /** The words a launch touches: what the kernel does with its arguments. */
  function Touched(args: SweepArgs, loops: nat, threads: nat): nat {
    if args.words == 0 || args.stride == 0 then 0 else Chunks(args, loops) * threads
  }

  function TouchedBy(ws: seq<Window>, s: Cursor, l: Launch, threads: uint32): nat
    requires Valid(ws, s)
  {
    Touched(Args(ws, s, l, threads), Iterations(l.loopCount), threads)
  }

  /** The window a launch works on, and the word of it that thread 0 starts from. */
  function WindowOf(ws: seq<Window>, s: Cursor, threads: nat): nat
    requires Valid(ws, s) && ws != []
  {
    Ring(s.window + Skipped(ws, s.window, threads, 0), |ws|)
  }

  function BaseOf(ws: seq<Window>, s: Cursor, threads: nat): nat
    requires Valid(ws, s) && ws != []
  {
    if Skipped(ws, s.window, threads, 0) == 0 then s.word else 0
  }

  lemma FittingWindow(ws: seq<Window>, s: Cursor, threads: nat)
    requires Valid(ws, s) && SomeFits(ws, threads)
    ensures var k := Skipped(ws, s.window, threads, 0);
            var i := WindowOf(ws, s, threads);
            k < |ws| && i < |ws| && Fits(ws, i, threads) && BaseOf(ws, s, threads) < ws[i].words
  {
    var i: nat :| i < |ws| && Fits(ws, i, threads);
    var k := if i >= s.window then i - s.window else i + |ws| - s.window;
    assert FitsAhead(ws, s.window, k, threads);
  }

  /** What a launch does, in one place: it keeps the state valid; its arguments name a window
      with a word for every thread and a base inside it; it makes equally many accesses with
      every thread, at least one and no more than are owed; and the next launch
      continues behind it, or at the start of the following window. */
  lemma StepEffect(ws: seq<Window>, s: Cursor, l: Launch, threads: uint32)
    requires Valid(ws, s)
    ensures Valid(ws, After(ws, s, l, threads))
    ensures var a := Args(ws, s, l, threads);
            0 < a.stride <= Iterations(l.loopCount) && (a.words == 0 ==> a.stride == Iterations(l.loopCount))
    ensures Moves(ws, s, l, threads) ==>
      && threads > 0 && ws != [] && SomeFits(ws, threads)
      && var i := WindowOf(ws, s, threads);
         var a := Args(ws, s, l, threads);
         var t := TouchedBy(ws, s, l, threads);
         && i < |ws| && threads <= ws[i].words <= WINDOW_MAX_BYTES / WORD_BYTES
         && a.base == BaseOf(ws, s, threads) < ws[i].words
         && a == SweepArgs(ws[i].segment, ws[i].offsetWords, ws[i].words, a.base, a.stride)
         && threads <= t && t * BYTES_PER_ACCESS <= (s.pending + l.traffic) % 0x1_0000_0000_0000_0000
         && After(ws, s, l, threads).window == (if t >= ws[i].words - a.base then Ring(i + 1, |ws|) else i)
         && After(ws, s, l, threads).word == (if t >= ws[i].words - a.base then 0 else a.base + t)
    ensures !Moves(ws, s, l, threads) && threads > 0 && SomeFits(ws, threads) ==>
      && After(ws, s, l, threads).window == WindowOf(ws, s, threads)
      && After(ws, s, l, threads).word == BaseOf(ws, s, threads)
    ensures threads > 0 && SomeFits(ws, threads) ==>
      var owed := (s.pending + l.traffic) % UINT64_RANGE;
      var perThread := PerThread(owed, threads);
      var got := if perThread == 0 then 0 else Delivered(Iterations(l.loopCount), perThread);
      && TouchedBy(ws, s, l, threads) == got * threads
      && After(ws, s, l, threads).pending == if perThread == 0 then owed else Carry(owed, got * threads, threads)
  {
    hide PerThread, Carry, CeilDiv;
    if ws != [] && threads > 0 && Skipped(ws, s.window, threads, 0) < |ws| {
      var i := WindowOf(ws, s, threads);
      assert FitsAhead(ws, s.window, Skipped(ws, s.window, threads, 0), threads);
      assert Fits(ws, i, threads);
      var owed := (s.pending + l.traffic) % UINT64_RANGE;
      var loops, perThread := Iterations(l.loopCount), PerThread(owed, threads);
      if perThread > 0 {
        StrideWithinLoops(loops, perThread);
        DeliveredBounds(loops, perThread);
        TouchedWithinOwed(owed, threads, Delivered(loops, perThread));
      }
    } else if threads > 0 && SomeFits(ws, threads) {
      FittingWindow(ws, s, threads);
    }
  }

  lemma AllSkipped(ws: seq<Window>, from: nat, threads: nat)
    requires from < |ws|
    ensures SomeFits(ws, threads) || Skipped(ws, from, threads, 0) == |ws|
  {
    var k := Skipped(ws, from, threads, 0);
    if k < |ws| {
      assert FitsAhead(ws, from, k, threads);
      assert Fits(ws, Ring(from + k, |ws|), threads);
    }
  }

  /** A launch that no window can take moves nothing and changes nothing of what is owed; the search has
      left the walk at the window before. */
  lemma NothingFits(ws: seq<Window>, s: Cursor, l: Launch, threads: uint32)
    requires Valid(ws, s) && (threads == 0 || !SomeFits(ws, threads))
    ensures Args(ws, s, l, threads) == SweepArgs(0, 0, 0, 0, if l.loopCount < 1 then 1 else l.loopCount)
    ensures var after := After(ws, s, l, threads);
            && after.pending == s.pending
            && (if threads == 0 || |ws| <= 1 then after == s
                else after.word == 0 && after.window < |ws|
                     && s.window == if after.window == |ws| - 1 then 0 else after.window + 1)
  {
    if ws != [] {
      AllSkipped(ws, s.window, threads);
    }
  }

  lemma TouchedWithinOwed(owed: nat, threads: nat, accesses: nat)
    requires threads > 0 && 0 < accesses <= PerThread(owed, threads)
    ensures threads <= accesses * threads
    ensures accesses * threads * BYTES_PER_ACCESS <= owed
  {
    var all := owed / BYTES_PER_ACCESS;
    assert all == all / threads * threads + all % threads;
    MulMonotone(1, accesses, threads);
    MulMonotone(accesses, all / threads, threads);
  }

  // ----- Traffic

  function Asked(launches: seq<Launch>): nat {
    if launches == [] then 0 else launches[0].traffic + Asked(launches[1..])
  }

  function AfterAll(ws: seq<Window>, s: Cursor, launches: seq<Launch>, threads: uint32): (r: Cursor)
    requires Valid(ws, s)
    ensures Valid(ws, r)
    decreases |launches|
  {
    if launches == [] then s
    else
      StepEffect(ws, s, launches[0], threads);
      AfterAll(ws, After(ws, s, launches[0], threads), launches[1..], threads)
  }

  /** The bytes that the launches move. */
  function Moved(ws: seq<Window>, s: Cursor, launches: seq<Launch>, threads: uint32): nat
    requires Valid(ws, s)
    decreases |launches|
  {
    if launches == [] then 0
    else
      StepEffect(ws, s, launches[0], threads);
      TouchedBy(ws, s, launches[0], threads) * 8
      + Moved(ws, After(ws, s, launches[0], threads), launches[1..], threads)
  }

  /** A launch whose stride comes out right, told from what is owed and its iterations. */
  predicate Lossless(s: Cursor, l: Launch, threads: uint32)
    requires threads > 0
  {
    Exact(Iterations(l.loopCount), PerThread(s.pending + l.traffic, threads))
  }

  predicate AllLossless(ws: seq<Window>, s: Cursor, launches: seq<Launch>, threads: uint32)
    requires Valid(ws, s) && threads > 0
    decreases |launches|
  {
    if launches == [] then true
    else
      StepEffect(ws, s, launches[0], threads);
      && Lossless(s, launches[0], threads)
      && AllLossless(ws, After(ws, s, launches[0], threads), launches[1..], threads)
  }

  /** The 64-bit sum of what is asked and what is carried does not wrap. */
  predicate NoWrap(launches: seq<Launch>, threads: uint32) {
    forall i :: 0 <= i < |launches| ==> launches[i].traffic + threads * BYTES_PER_ACCESS <= 0x1_0000_0000_0000_0000
  }

  lemma StepTraffic(ws: seq<Window>, s: Cursor, l: Launch, threads: uint32)
    requires Valid(ws, s) && threads > 0 && SomeFits(ws, threads)
    requires s.pending < threads * BYTES_PER_ACCESS && NoWrap([l], threads)
    ensures var moved := TouchedBy(ws, s, l, threads) * 8;
            var carried := After(ws, s, l, threads).pending;
            && carried < threads * 8
            && moved + carried <= s.pending + l.traffic
            && (moved + carried == s.pending + l.traffic <==> Lossless(s, l, threads))
            && (!Lossless(s, l, threads) ==> carried == threads * 8 - 1)
  {
    hide Step, TouchedBy, PerThread, Delivered, Carry, CeilDiv, Exact, Valid, SomeFits, Iterations;
    StepEffect(ws, s, l, threads);
    assert [l][0] == l;
    var owed := s.pending + l.traffic;
    assert owed % UINT64_RANGE == owed;
    OwedSplits(owed, Iterations(l.loopCount), threads);
  }

  /** What is owed is moved or carried on, or lost to the stride's rounding. */
  lemma OwedSplits(owed: nat, loops: nat, threads: nat)
    requires threads > 0 && loops > 0
    ensures var perThread := PerThread(owed, threads);
            var got := if perThread == 0 then 0 else Delivered(loops, perThread);
            var carried := if perThread == 0 then owed else Carry(owed, got * threads, threads);
            && carried < threads * BYTES_PER_ACCESS
            && got * threads * BYTES_PER_ACCESS + carried <= owed
            && (got * threads * BYTES_PER_ACCESS + carried == owed <==> Exact(loops, perThread))
            && (!Exact(loops, perThread) ==> carried == threads * BYTES_PER_ACCESS - 1)
  {
    hide PerThread, Delivered, Carry, CeilDiv;
    var perThread := PerThread(owed, threads);
    PerThreadBounds(owed, threads);
    if perThread > 0 {
      DeliveredBounds(loops, perThread);
      DeliveredExactly(loops, perThread);
      CarryExact(owed, perThread, Delivered(loops, perThread), threads);
    }
  }

  /** The carry takes the rest of what is owed just when every whole access was delivered. */
  lemma CarryExact(owed: nat, perThread: nat, got: nat, threads: nat)
    requires threads > 0 && got <= perThread
    requires perThread * threads * BYTES_PER_ACCESS <= owed < (perThread + 1) * threads * BYTES_PER_ACCESS
    ensures var moved := got * threads * BYTES_PER_ACCESS;
            var carried := Carry(owed, got * threads, threads);
            && 0 <= carried < threads * BYTES_PER_ACCESS
            && moved + carried <= owed
            && (moved + carried == owed <==> got == perThread)
            && (got < perThread ==> carried == threads * BYTES_PER_ACCESS - 1)
  {
    MulMonotone(got, perThread, threads);
    MulMonotone(got, perThread - 1, threads);
    assert (perThread - 1) * threads == perThread * threads - threads;
    assert (perThread + 1) * threads == perThread * threads + threads;
  }

  lemma PerThreadBounds(owed: nat, threads: nat)
    requires threads > 0
    ensures var p := PerThread(owed, threads);
            p * threads * BYTES_PER_ACCESS <= owed < (p + 1) * threads * BYTES_PER_ACCESS
  {
  }

  /** Conservation of traffic. What the launches move and leave pending never exceeds what was
      asked for; the two are equal if and only if every launch is lossless, and then the bytes
      moved lag the bytes asked for by less than a whole access for every thread. */
  lemma {:induction false} TrafficConserved(ws: seq<Window>, s: Cursor, launches: seq<Launch>, threads: uint32)
    requires Valid(ws, s) && threads > 0 && SomeFits(ws, threads)
    requires s.pending < threads * BYTES_PER_ACCESS && NoWrap(launches, threads)
    ensures var moved := Moved(ws, s, launches, threads);
            var carried := AfterAll(ws, s, launches, threads).pending;
            && carried < threads * BYTES_PER_ACCESS
            && moved + carried <= s.pending + Asked(launches)
            && (moved + carried == s.pending + Asked(launches) <==> AllLossless(ws, s, launches, threads))
    decreases |launches|
  {
    if launches == [] {
    } else {
      var l, rest := launches[0], launches[1..];
      assert NoWrap([l], threads);
      StepEffect(ws, s, l, threads);
      StepTraffic(ws, s, l, threads);
      TrafficConserved(ws, After(ws, s, l, threads), rest, threads);
    }
  }

  /** A launch loses nothing if the accesses per thread that it owes, less one, stay below the square
      root of its iterations. */
  lemma SmallLaunchLossless(s: Cursor, l: Launch, threads: uint32)
    requires threads > 0
    requires var a := PerThread(s.pending + l.traffic, threads);
             a == 0 || (a - 1) * (a - 1) < Iterations(l.loopCount)
    ensures Lossless(s, l, threads)
  {
    var a := PerThread(s.pending + l.traffic, threads);
    if a > 0 {
      SquareBound(Iterations(l.loopCount), a);
    }
  }

  /** Requests that can be told to lose nothing before the run. */
  predicate Modest(l: Launch, threads: uint32)
    requires threads > 0
  {
    PerThread(l.traffic, threads) * PerThread(l.traffic, threads) < Iterations(l.loopCount)
  }

  /** What is carried over makes at most one access more. */
  lemma CarryAddsOne(traffic: nat, pending: nat, threads: nat)
    requires threads > 0 && pending < threads * BYTES_PER_ACCESS
    ensures PerThread(pending + traffic, threads) <= PerThread(traffic, threads) + 1
  {
    hide PerThread;
    var p, q := PerThread(pending + traffic, threads), PerThread(traffic, threads);
    PerThreadBounds(pending + traffic, threads);
    PerThreadBounds(traffic, threads);
    assert (q + 1) * threads == q * threads + threads && (q + 2) * threads == q * threads + 2 * threads;
    MulMonotone(q + 2, p, threads);
  }

  lemma ModestLossless(s: Cursor, l: Launch, threads: uint32)
    requires threads > 0 && s.pending < threads * BYTES_PER_ACCESS && Modest(l, threads)
    ensures Lossless(s, l, threads)
  {
    hide PerThread, Lossless, Iterations;
    var a, q := PerThread(s.pending + l.traffic, threads), PerThread(l.traffic, threads);
    CarryAddsOne(l.traffic, s.pending, threads);
    if a > 0 {
      MulMonotone(a - 1, q, a - 1);
      MulMonotone(a - 1, q, q);
    }
    SmallLaunchLossless(s, l, threads);
  }

  /** The exact rate, from the requests alone: over any run of modest launches, what is moved and what
      is pending add up to what the launches have requested. */
  lemma {:induction false} ExactRate(ws: seq<Window>, s: Cursor, launches: seq<Launch>, threads: uint32)
    requires Valid(ws, s) && threads > 0 && SomeFits(ws, threads)
    requires s.pending < threads * BYTES_PER_ACCESS && NoWrap(launches, threads)
    requires forall i :: 0 <= i < |launches| ==> Modest(launches[i], threads)
    ensures AllLossless(ws, s, launches, threads)
    ensures Moved(ws, s, launches, threads) + AfterAll(ws, s, launches, threads).pending == s.pending + Asked(launches)
    decreases |launches|
  {
    hide Lossless, Modest, Step, TouchedBy;
    TrafficConserved(ws, s, launches, threads);
    if launches != [] {
      var l := launches[0];
      assert NoWrap([l], threads);
      StepEffect(ws, s, l, threads);
      StepTraffic(ws, s, l, threads);
      ModestLossless(s, l, threads);
      ExactRate(ws, After(ws, s, l, threads), launches[1..], threads);
    }
  }

  /** The accesses per thread that a request is for, once `asked` bytes have been requested before it:
      whole ones of all that has been, less whole ones of all before. */
  function Wanted(asked: nat, traffic: nat, threads: nat): int
    requires threads > 0
  {
    PerThread(asked + traffic, threads) - PerThread(asked, threads)
  }

  /** The exact condition for a run to lose nothing, from its requests alone. */
  predicate RequestsExact(asked: nat, launches: seq<Launch>, threads: uint32)
    requires threads > 0
    decreases |launches|
  {
    launches == [] ||
    (Wanted(asked, launches[0].traffic, threads) >= 0
     && Exact(Iterations(launches[0].loopCount), Wanted(asked, launches[0].traffic, threads))
     && RequestsExact(asked + launches[0].traffic, launches[1..], threads))
  }

  /** What `asked` bytes leave over when all their whole accesses have been made. */
  function LeftOver(asked: nat, threads: nat): nat
    requires threads > 0
  {
    asked % (threads * BYTES_PER_ACCESS)
  }

  lemma LeftOverIs(asked: nat, threads: nat, accesses: nat, left: nat)
    requires threads > 0 && left < threads * BYTES_PER_ACCESS
    requires asked == accesses * threads * BYTES_PER_ACCESS + left
    ensures LeftOver(asked, threads) == left && PerThread(asked, threads) == accesses
  {
    WholeAccesses(asked, threads, accesses, left);
    SameProduct(accesses, threads);
    ModUnique(asked, threads * BYTES_PER_ACCESS, accesses, left);
  }

  lemma SameProduct(accesses: nat, threads: nat)
    ensures accesses * threads * BYTES_PER_ACCESS == accesses * (threads * BYTES_PER_ACCESS)
  {
  }

  lemma WholeAccesses(asked: nat, threads: nat, accesses: nat, left: nat)
    requires threads > 0 && left < threads * BYTES_PER_ACCESS
    requires asked == accesses * threads * BYTES_PER_ACCESS + left
    ensures PerThread(asked, threads) == accesses
  {
    var words := accesses * threads;
    ModUnique(asked, BYTES_PER_ACCESS, words + left / BYTES_PER_ACCESS, left % BYTES_PER_ACCESS);
    ModUnique(words + left / BYTES_PER_ACCESS, threads, accesses, left / BYTES_PER_ACCESS);
  }

  /** What is asked for is whole accesses and what they leave over. */
  lemma LeftOverSplits(asked: nat, threads: nat)
    requires threads > 0
    ensures LeftOver(asked, threads) < threads * BYTES_PER_ACCESS
    ensures asked == PerThread(asked, threads) * threads * BYTES_PER_ACCESS + LeftOver(asked, threads)
  {
    hide PerThread, LeftOver;
    PerThreadBounds(asked, threads);
    var p := PerThread(asked, threads);
    assert (p + 1) * threads * BYTES_PER_ACCESS == p * threads * BYTES_PER_ACCESS + threads * BYTES_PER_ACCESS;
    LeftOverIs(asked, threads, p, asked - p * threads * BYTES_PER_ACCESS);
  }

  /** Owing what is left over and the next request is owing the accesses that request is for. */
  lemma OwedIsWanted(asked: nat, traffic: nat, threads: nat)
    requires threads > 0
    ensures PerThread(LeftOver(asked, threads) + traffic, threads) == Wanted(asked, traffic, threads)
    ensures LeftOver(LeftOver(asked, threads) + traffic, threads) == LeftOver(asked + traffic, threads)
  {
    hide PerThread, LeftOver;
    LeftOverSplits(asked, threads);
    LeftOverSplits(LeftOver(asked, threads) + traffic, threads);
    var before, owed := PerThread(asked, threads), PerThread(LeftOver(asked, threads) + traffic, threads);
    assert (before + owed) * threads * BYTES_PER_ACCESS
           == before * threads * BYTES_PER_ACCESS + owed * threads * BYTES_PER_ACCESS;
    LeftOverIs(asked + traffic, threads, before + owed, LeftOver(LeftOver(asked, threads) + traffic, threads));
  }

  /** A lossless launch leaves over what all requests so far do. */
  lemma LosslessLeavesOver(ws: seq<Window>, s: Cursor, l: Launch, threads: uint32)
    requires Valid(ws, s) && threads > 0 && SomeFits(ws, threads)
    requires s.pending < threads * BYTES_PER_ACCESS && NoWrap([l], threads) && Lossless(s, l, threads)
    ensures After(ws, s, l, threads).pending == LeftOver(s.pending + l.traffic, threads)
  {
    StepTraffic(ws, s, l, threads);
    StepEffect(ws, s, l, threads);
    hide Step, TouchedBy, After, PerThread, Delivered, Carry, Lossless, LeftOver;
    var owed := (s.pending + l.traffic) % UINT64_RANGE;
    var perThread := PerThread(owed, threads);
    var got := if perThread == 0 then 0 else Delivered(Iterations(l.loopCount), perThread);
    LeftOverIs(s.pending + l.traffic, threads, got, After(ws, s, l, threads).pending);
  }

  /** A run loses nothing if and only if its requests are exact; this can be told before it starts. */
  lemma {:induction false} LosslessByRequests(ws: seq<Window>, s: Cursor, asked: nat, launches: seq<Launch>,
                                              threads: uint32)
    requires Valid(ws, s) && threads > 0 && SomeFits(ws, threads)
    requires s.pending == LeftOver(asked, threads) && NoWrap(launches, threads)
    ensures AllLossless(ws, s, launches, threads) <==> RequestsExact(asked, launches, threads)
    decreases |launches|
  {
    hide Step, TouchedBy, PerThread, LeftOver, Exact;
    LeftOverSplits(asked, threads);
    if launches != [] {
      var l := launches[0];
      assert NoWrap([l], threads) by {
        assert [l][0] == l;
      }
      StepEffect(ws, s, l, threads);
      OwedIsWanted(asked, l.traffic, threads);
      if Lossless(s, l, threads) {
        LosslessLeavesOver(ws, s, l, threads);
        LosslessByRequests(ws, After(ws, s, l, threads), asked + l.traffic, launches[1..], threads);
      }
    }
  }

  /** From a fresh block on: the bytes moved and pending are those asked for if and only if the requests
      are exact. */
  lemma ExactByRequests(ws: seq<Window>, launches: seq<Launch>, threads: uint32)
    requires Valid(ws, Cursor(0, 0, 0)) && threads > 0 && SomeFits(ws, threads) && NoWrap(launches, threads)
    ensures var moved := Moved(ws, Cursor(0, 0, 0), launches, threads);
            var carried := AfterAll(ws, Cursor(0, 0, 0), launches, threads).pending;
            moved + carried == Asked(launches) <==> RequestsExact(0, launches, threads)
  {
    hide Step, AllLossless, RequestsExact, Moved;
    LeftOverIs(0, threads, 0, 0);
    TrafficConserved(ws, Cursor(0, 0, 0), launches, threads);
    LosslessByRequests(ws, Cursor(0, 0, 0), 0, launches, threads);
  }

  lemma SixInTenIterations(threads: nat, owed: nat)
    requires threads > 0 && owed == 6 * threads * BYTES_PER_ACCESS
    ensures PerThread(owed, threads) == 6 && Delivered(10, 6) == 5
    ensures Carry(owed, 5 * threads, threads) == threads * BYTES_PER_ACCESS - 1
  {
    ModUnique(6 * threads, threads, 6, 0);
  }

  /** The promise of an exact long-run rate does not hold of every launch: ten iterations that
      owe six accesses per thread make five, and what the carry cannot take is dropped. */
  lemma SixInTenIterationsLosesTraffic(ws: seq<Window>, threads: uint32)
    requires WellFormed(ws) && threads > 0 && SomeFits(ws, threads)
    ensures var l := Launch(10, 6 * threads * 8);
            var s := Cursor(0, 0, 0);
            Valid(ws, s) && TouchedBy(ws, s, l, threads) * 8
                            + After(ws, s, l, threads).pending == l.traffic - 1
  {
    var owed := 6 * threads * BYTES_PER_ACCESS;
    assert owed % UINT64_RANGE == owed;
    SixInTenIterations(threads, owed);
    hide Step, TouchedBy, PerThread, Delivered, Carry;
    StepEffect(ws, Cursor(0, 0, 0), Launch(10, owed), threads);
  }
}
