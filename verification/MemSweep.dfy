/** The walk of the device-memory block across launches: `gpu::MemSweep`. */
module BlockSweep {
  import opened Prelude
  import opened Sweep

  datatype Window = Window(segment: nat, offsetWords: nat, words: nat)

  /** Where the next launch goes, and the traffic still owed. */
  datatype Cursor = Cursor(window: nat, word: nat, pending: nat)

  datatype Launch = Launch(loopCount: int32, traffic: uint64)

  // ----- Laying the windows out

  predicate Holds(w: Window, segment: nat, word: nat) {
    w.segment == segment && w.offsetWords <= word < w.offsetWords + w.words
  }

  /** How many of the windows hold a word of a segment. */
  function Holders(ws: seq<Window>, segment: nat, word: nat): nat {
    if ws == [] then 0
    else (if Holds(ws[0], segment, word) then 1 else 0) + Holders(ws[1..], segment, word)
  }

  lemma {:induction false} HoldersConcat(a: seq<Window>, b: seq<Window>, segment: nat, word: nat)
    ensures Holders(a + b, segment, word) == Holders(a, segment, word) + Holders(b, segment, word)
  {
    if a == [] {
      assert a + b == b;
    } else {
      assert (a + b)[1..] == a[1..] + b;
      HoldersConcat(a[1..], b, segment, word);
    }
  }

  lemma HoldersNone()
    ensures forall segment: nat, word: nat :: Holders([], segment, word) == 0
  {
  }

  lemma HoldersNext(ws: seq<Window>, w: Window)
    ensures forall segment: nat, word: nat ::
              Holders(ws + [w], segment, word)
              == Holders(ws, segment, word) + if Holds(w, segment, word) then 1 else 0
  {
    forall segment: nat, word: nat
      ensures Holders(ws + [w], segment, word)
              == Holders(ws, segment, word) + if Holds(w, segment, word) then 1 else 0
    {
      HoldersConcat(ws, [w], segment, word);
    }
  }

  lemma {:induction false} HolderExists(ws: seq<Window>, segment: nat, word: nat) returns (i: nat)
    requires Holders(ws, segment, word) > 0
    ensures i < |ws| && Holds(ws[i], segment, word)
  {
    if Holds(ws[0], segment, word) {
      i := 0;
    } else {
      var j := HolderExists(ws[1..], segment, word);
      i := j + 1;
    }
  }

  ghost predicate WellFormed(ws: seq<Window>) {
    forall i :: 0 <= i < |ws| ==> 0 < ws[i].words <= WINDOW_MAX_BYTES / WORD_BYTES
  }

  /** The windows share the whole words of the segments out: every one is in exactly one
      window, and no window reaches past its segment. */
  ghost predicate Partitions(ws: seq<Window>, segmentBytes: seq<nat>) {
    forall segment: nat, word: nat ::
      Holders(ws, segment, word) ==
      if segment < |segmentBytes| && word < segmentBytes[segment] / WORD_BYTES then 1 else 0
  }

  /** Some window holds both words. */
  ghost predicate ShareWindow(ws: seq<Window>, segment: nat, a: nat, b: nat) {
    exists i: nat :: i < |ws| && Holds(ws[i], segment, a) && Holds(ws[i], segment, b)
  }

  /** The segments are cut every gibibyte and nowhere else: two words of one are in the same window
      just when they are in the same block of 2^28 words. */
  ghost predicate CutEveryGib(ws: seq<Window>, segmentBytes: seq<nat>) {
    forall segment: nat, a: nat, b: nat ::
      segment < |segmentBytes| && a < segmentBytes[segment] / 4 && b < segmentBytes[segment] / 4 ==>
        (ShareWindow(ws, segment, a, b) <==> a / 0x1000_0000 == b / 0x1000_0000)
  }

  /** The window is all before a word of a segment. */
  predicate Before(w: Window, segment: nat, word: nat) {
    w.segment < segment || (w.segment == segment && w.offsetWords + w.words <= word)
  }

  ghost predicate InOrder(ws: seq<Window>) {
    forall i, j :: 0 <= i < j < |ws| ==> Before(ws[i], ws[j].segment, ws[j].offsetWords)
  }

  /** A window that begins at a gibibyte and ends with it, or with the segment. */
  predicate WholeBlock(w: Window, segmentBytes: seq<nat>) {
    && w.segment < |segmentBytes| && w.offsetWords % 0x1000_0000 == 0 && w.words > 0
    && w.words == Min(0x1000_0000, segmentBytes[w.segment] / 4 - w.offsetWords)
  }

  ghost predicate WholeBlocks(ws: seq<Window>, segmentBytes: seq<nat>) {
    forall i :: 0 <= i < |ws| ==> WholeBlock(ws[i], segmentBytes)
  }

  /** Such a window has just the words of its block. */
  lemma WholeBlockHolds(w: Window, segmentBytes: seq<nat>, word: nat)
    requires WholeBlock(w, segmentBytes) && word < segmentBytes[w.segment] / 4
    ensures Holds(w, w.segment, word) <==> word / 0x1000_0000 == w.offsetWords / 0x1000_0000
  {
  }

  lemma CutsAreEveryGib(ws: seq<Window>, segmentBytes: seq<nat>)
    requires Partitions(ws, segmentBytes) && WholeBlocks(ws, segmentBytes)
    ensures CutEveryGib(ws, segmentBytes)
  {
    forall segment: nat, a: nat, b: nat |
      segment < |segmentBytes| && a < segmentBytes[segment] / 4 && b < segmentBytes[segment] / 4
      ensures ShareWindow(ws, segment, a, b) <==> a / 0x1000_0000 == b / 0x1000_0000
    {
      hide Holders;
      var i := HolderExists(ws, segment, a);
      hide Holds, WholeBlock;
      forall k: nat | k < |ws| && Holds(ws[k], segment, a)
        ensures Holds(ws[k], segment, b) <==> a / 0x1000_0000 == b / 0x1000_0000
      {
        HoldsIn(ws[k], segment, a);
        WholeBlockHolds(ws[k], segmentBytes, a);
        WholeBlockHolds(ws[k], segmentBytes, b);
      }
    }
  }

  lemma HoldsIn(w: Window, segment: nat, word: nat)
    requires Holds(w, segment, word)
    ensures w.segment == segment
  {
  }

  /** The same of the segments before `seg`, and of the first bytes of that one. */
  ghost predicate LaidOut(ws: seq<Window>, segmentBytes: seq<nat>, seg: nat, bytes: nat)
    requires seg < |segmentBytes|
  {
    forall segment: nat, word: nat ::
      Holders(ws, segment, word) ==
      if segment < seg && word < segmentBytes[segment] / WORD_BYTES then 1
      else if segment == seg && word < bytes / WORD_BYTES then 1 else 0
  }

  lemma LaidOutEnds(ws: seq<Window>, segmentBytes: seq<nat>, seg: nat)
    requires seg < |segmentBytes|
    ensures Partitions(ws, segmentBytes[..seg]) <==> LaidOut(ws, segmentBytes, seg, 0)
    ensures LaidOut(ws, segmentBytes, seg, segmentBytes[seg]) ==> Partitions(ws, segmentBytes[..seg + 1])
  {
    hide Holders;
  }

  lemma LaidOutNext(ws: seq<Window>, segmentBytes: seq<nat>, seg: nat, offset: nat, bytes: nat)
    requires seg < |segmentBytes| && LaidOut(ws, segmentBytes, seg, offset) && offset % WORD_BYTES == 0
    ensures var words := bytes / WORD_BYTES;
            var next := if words > 0 then ws + [Window(seg, offset / WORD_BYTES, words)] else ws;
            LaidOut(next, segmentBytes, seg, offset + bytes)
  {
    hide Holders;
    var w := Window(seg, offset / WORD_BYTES, bytes / WORD_BYTES);
    HoldersNext(ws, w);
    assert (offset + bytes) / WORD_BYTES == w.offsetWords + w.words;
  }

  lemma NextBlock(segmentBytes: seq<nat>, seg: nat, offset: nat)
    requires seg < |segmentBytes| && offset < segmentBytes[seg] && offset % WINDOW_MAX_BYTES == 0
    ensures var w := Window(seg, offset / WORD_BYTES,
                            Min(segmentBytes[seg] - offset, WINDOW_MAX_BYTES) / WORD_BYTES);
            && (w.words > 0 ==> WholeBlock(w, segmentBytes))
            && w.offsetWords + w.words <= (offset + WINDOW_MAX_BYTES) / WORD_BYTES
  {
  }

  lemma {:induction false} HeldAtLeastOnce(ws: seq<Window>, i: nat, segment: nat, word: nat)
    requires i < |ws| && Holds(ws[i], segment, word)
    ensures Holders(ws, segment, word) >= 1
  {
    if i > 0 {
      HeldAtLeastOnce(ws[1..], i - 1, segment, word);
    }
  }

  lemma HeldTwice(ws: seq<Window>, i: nat, k: nat, segment: nat, word: nat)
    requires i < k < |ws| && Holds(ws[i], segment, word) && Holds(ws[k], segment, word)
    ensures Holders(ws, segment, word) >= 2
  {
    assert ws == ws[..k] + ws[k..];
    HoldersConcat(ws[..k], ws[k..], segment, word);
    HeldAtLeastOnce(ws[..k], i, segment, word);
    HeldAtLeastOnce(ws[k..], 0, segment, word);
  }

  /** Where every word is in one window, two that hold the same word are the same. */
  lemma OneHolder(ws: seq<Window>, segmentBytes: seq<nat>, i: nat, k: nat, segment: nat, word: nat)
    requires Partitions(ws, segmentBytes) && i < |ws| && k < |ws|
    requires Holds(ws[i], segment, word) && Holds(ws[k], segment, word)
    ensures i == k
  {
    if i < k {
      HeldTwice(ws, i, k, segment, word);
    } else if k < i {
      HeldTwice(ws, k, i, segment, word);
    }
  }

  /** The words of a segment in the same block of 2^28 as one of them. */
  function BlockWords(segmentBytes: seq<nat>, segment: nat, word: nat): nat
    requires segment < |segmentBytes| && word < segmentBytes[segment] / 4
  {
    Min(0x1000_0000, segmentBytes[segment] / 4 - BlockStart(word))
  }

  function BlockStart(word: nat): (start: nat)
    ensures start <= word < start + 0x1000_0000
  {
    word / 0x1000_0000 * 0x1000_0000
  }

  lemma SameBlock(a: nat, b: nat)
    ensures a / 0x1000_0000 == b / 0x1000_0000 <==> BlockStart(a) <= b < BlockStart(a) + 0x1000_0000
  {
  }

  /** A window's words are those of its block. */
  lemma WindowIsBlock(ws: seq<Window>, segmentBytes: seq<nat>, i: nat, segment: nat, word: nat)
    requires Partitions(ws, segmentBytes) && CutEveryGib(ws, segmentBytes)
    requires segment < |segmentBytes| && word < segmentBytes[segment] / 4
    requires i < |ws| && Holds(ws[i], segment, word)
    ensures ws[i].offsetWords == BlockStart(word) && ws[i].words == BlockWords(segmentBytes, segment, word)
  {
    hide BlockStart;
    var w, start, n := ws[i], BlockStart(word), BlockWords(segmentBytes, segment, word);
    InBlockHeld(ws, segmentBytes, i, segment, word, start);
    InBlockHeld(ws, segmentBytes, i, segment, word, start + n - 1);
    if w.offsetWords < start {
      HeldAtLeastOnce(ws, i, segment, start - 1);
      InBlockHeld(ws, segmentBytes, i, segment, word, start - 1);
    }
    if w.offsetWords + w.words > start + n {
      HeldAtLeastOnce(ws, i, segment, start + n);
      InBlockHeld(ws, segmentBytes, i, segment, word, start + n);
    }
  }

  lemma InBlockHeld(ws: seq<Window>, segmentBytes: seq<nat>, i: nat, segment: nat, word: nat, other: nat)
    requires Partitions(ws, segmentBytes) && CutEveryGib(ws, segmentBytes)
    requires segment < |segmentBytes| && word < segmentBytes[segment] / 4 && other < segmentBytes[segment] / 4
    requires i < |ws| && Holds(ws[i], segment, word)
    ensures Holds(ws[i], segment, other) <==> BlockStart(word) <= other < BlockStart(word) + 0x1000_0000
  {
    hide Partitions, BlockStart, Holds;
    SameBlock(word, other);
    if ShareWindow(ws, segment, word, other) {
      var k: nat :| k < |ws| && Holds(ws[k], segment, word) && Holds(ws[k], segment, other);
      OneHolder(ws, segmentBytes, i, k, segment, word);
    }
  }

  /** Some window has room for the threads if and only if some segment does, within a gibibyte. */
  lemma SomeSegmentFits(ws: seq<Window>, segmentBytes: seq<nat>, threads: nat)
    requires Partitions(ws, segmentBytes) && CutEveryGib(ws, segmentBytes) && WellFormed(ws) && threads > 0
    ensures SomeFits(ws, threads) <==>
              threads <= 0x1000_0000 && exists k :: 0 <= k < |segmentBytes| && segmentBytes[k] / 4 >= threads
  {
    hide BlockStart;
    if SomeFits(ws, threads) {
      var i: nat :| i < |ws| && Fits(ws, i, threads);
      var w := ws[i];
      HeldAtLeastOnce(ws, i, w.segment, w.offsetWords);
      WindowIsBlock(ws, segmentBytes, i, w.segment, w.offsetWords);
      assert segmentBytes[w.segment] / 4 >= threads;
    }
    forall k: nat | k < |segmentBytes| && segmentBytes[k] / 4 >= threads && threads <= 0x1000_0000
      ensures SomeFits(ws, threads)
    {
      SegmentFits(ws, segmentBytes, threads, k);
    }
  }

  lemma SegmentFits(ws: seq<Window>, segmentBytes: seq<nat>, threads: nat, segment: nat)
    requires Partitions(ws, segmentBytes) && CutEveryGib(ws, segmentBytes)
    requires 0 < threads <= 0x1000_0000 && segment < |segmentBytes| && segmentBytes[segment] / 4 >= threads
    ensures SomeFits(ws, threads)
  {
    var i := HolderExists(ws, segment, 0);
    WindowIsBlock(ws, segmentBytes, i, segment, 0);
    assert Fits(ws, i, threads);
  }

  /** Whole blocks, in order, all of them before a word of a segment. */
  ghost predicate UpTo(ws: seq<Window>, segmentBytes: seq<nat>, seg: nat, word: nat) {
    && WholeBlocks(ws, segmentBytes) && InOrder(ws)
    && forall i :: 0 <= i < |ws| ==> Before(ws[i], seg, word)
  }

  lemma UpToNext(ws: seq<Window>, segmentBytes: seq<nat>, seg: nat, offset: nat)
    requires seg < |segmentBytes| && offset < segmentBytes[seg] && offset % WINDOW_MAX_BYTES == 0
    requires UpTo(ws, segmentBytes, seg, offset / WORD_BYTES)
    ensures var words := Min(segmentBytes[seg] - offset, WINDOW_MAX_BYTES) / WORD_BYTES;
            var next := if words > 0 then ws + [Window(seg, offset / WORD_BYTES, words)] else ws;
            UpTo(next, segmentBytes, seg, (offset + WINDOW_MAX_BYTES) / WORD_BYTES)
  {
    NextBlock(segmentBytes, seg, offset);
    hide WholeBlock;
  }

  lemma UpToEnds(ws: seq<Window>, segmentBytes: seq<nat>, seg: nat, word: nat)
    ensures UpTo(ws, segmentBytes, seg, word) ==> UpTo(ws, segmentBytes, seg + 1, 0)
  {
    hide WholeBlock;
  }

  /** The segments before `seg` are laid out, and that one up to an offset. */
  ghost predicate Laid(ws: seq<Window>, segmentBytes: seq<nat>, seg: nat, offset: nat)
    requires seg < |segmentBytes|
  {
    && offset % WINDOW_MAX_BYTES == 0 && UpTo(ws, segmentBytes, seg, offset / WORD_BYTES)
    && LaidOut(ws, segmentBytes, seg, Min(offset, segmentBytes[seg]))
  }

  /** All the segments before `seg` are. */
  ghost predicate LaidBefore(ws: seq<Window>, segmentBytes: seq<nat>, seg: nat)
    requires seg <= |segmentBytes|
  {
    Partitions(ws, segmentBytes[..seg]) && UpTo(ws, segmentBytes, seg, 0)
  }

  function WithBlock(ws: seq<Window>, seg: nat, offset: nat, words: nat): seq<Window> {
    if words > 0 then ws + [Window(seg, offset / WORD_BYTES, words)] else ws
  }

  lemma LaidNext(ws: seq<Window>, segmentBytes: seq<nat>, seg: nat, offset: nat)
    requires seg < |segmentBytes| && offset < segmentBytes[seg] && Laid(ws, segmentBytes, seg, offset)
    ensures var words := Min(segmentBytes[seg] - offset, WINDOW_MAX_BYTES) / WORD_BYTES;
            Laid(WithBlock(ws, seg, offset, words), segmentBytes, seg, offset + WINDOW_MAX_BYTES)
  {
    hide LaidOut, UpTo;
    WordAligned(offset);
    var bytes := Min(segmentBytes[seg] - offset, WINDOW_MAX_BYTES);
    assert Min(offset, segmentBytes[seg]) == offset;
    assert Min(offset + WINDOW_MAX_BYTES, segmentBytes[seg]) == offset + bytes;
    LaidOutNext(ws, segmentBytes, seg, offset, bytes);
    UpToNext(ws, segmentBytes, seg, offset);
  }

  lemma WordAligned(offset: nat)
    requires offset % WINDOW_MAX_BYTES == 0
    ensures offset % WORD_BYTES == 0 && (offset + WINDOW_MAX_BYTES) % WINDOW_MAX_BYTES == 0
  {
  }

  lemma LaidEnds(ws: seq<Window>, segmentBytes: seq<nat>, seg: nat, offset: nat)
    requires seg < |segmentBytes|
    ensures LaidBefore(ws, segmentBytes, seg) ==> Laid(ws, segmentBytes, seg, 0)
    ensures offset >= segmentBytes[seg] && Laid(ws, segmentBytes, seg, offset) ==>
              LaidBefore(ws, segmentBytes, seg + 1)
  {
    LaidOutEnds(ws, segmentBytes, seg);
    UpToEnds(ws, segmentBytes, seg, offset / WORD_BYTES);
    hide LaidOut, UpTo, Partitions;
  }

  lemma NothingLaid(segmentBytes: seq<nat>)
    ensures LaidBefore([], segmentBytes, 0)
  {
    HoldersNone();
  }

  lemma AllLaid(ws: seq<Window>, segmentBytes: seq<nat>)
    requires LaidBefore(ws, segmentBytes, |segmentBytes|)
    ensures WellFormed(ws) && Partitions(ws, segmentBytes)
    ensures CutEveryGib(ws, segmentBytes) && InOrder(ws)
  {
    assert segmentBytes[..|segmentBytes|] == segmentBytes;
    CutsAreEveryGib(ws, segmentBytes);
  }

  // ----- One launch

  predicate Fits(ws: seq<Window>, i: nat, threads: nat)
    requires i < |ws|
  {
    ws[i].words >= threads
  }

  predicate SomeFits(ws: seq<Window>, threads: nat) {
    exists i: nat :: i < |ws| && Fits(ws, i, threads)
  }

  /** Index `i` of a ring of `n`, for `i` less than one turn ahead. */
  function Ring(i: nat, n: nat): nat {
    if i < n then i else i - n
  }

  lemma RingIsModulo(i: nat, n: nat)
    requires n > 0 && i < n
    ensures (i + 1) % n == Ring(i + 1, n)
  {
  }

  predicate FitsAhead(ws: seq<Window>, from: nat, k: nat, threads: nat)
    requires from < |ws| && k < |ws|
  {
    Fits(ws, Ring(from + k, |ws|), threads)
  }

  /** How many windows, counted from `k` places after `from`, cannot take the launch. */
  function Skipped(ws: seq<Window>, from: nat, threads: nat, k: nat): (r: nat)
    requires from < |ws| && k <= |ws|
    ensures k <= r <= |ws|
    ensures r < |ws| ==> FitsAhead(ws, from, r, threads)
    ensures forall j :: k <= j < r ==> !FitsAhead(ws, from, j, threads)
    decreases |ws| - k
  {
    if k == |ws| || FitsAhead(ws, from, k, threads) then k else Skipped(ws, from, threads, k + 1)
  }

  ghost predicate Valid(ws: seq<Window>, s: Cursor) {
    && WellFormed(ws)
    && (ws != [] ==> s.window < |ws| && s.word < ws[s.window].words)
    && s.pending < UINT64_RANGE
  }

  function Iterations(loopCount: int32): nat {
    Max(loopCount, 1)
  }

  /** Traffic in accesses per thread, rounded down. */
  function PerThread(owed: nat, threads: nat): nat
    requires threads > 0
  {
    owed / BYTES_PER_ACCESS / threads
  }

  /** How long a chunk is in a launch that should make `perThread` accesses. */
  function Stride(loops: nat, perThread: nat): nat
    requires loops > 0 && perThread > 0
  {
    CeilDiv(loops, Min(perThread, loops))
  }

  /** The accesses per thread that this stride leads to. */
  function Delivered(loops: nat, perThread: nat): nat
    requires loops > 0 && perThread > 0
  {
    StrideWithinLoops(loops, perThread);
    CeilDiv(loops, Stride(loops, perThread))
  }

  /** The traffic still owed after a launch has touched a number of words: the rest, but never
      a whole access for every thread. */
  function Carry(owed: nat, touched: nat, threads: nat): (r: nat)
    requires threads > 0
    ensures r < threads * BYTES_PER_ACCESS
  {
    Min(owed - Min(owed, touched * BYTES_PER_ACCESS), threads * BYTES_PER_ACCESS - 1)
  }

  /** The same when the cursor's own window has a word for every thread. */
  function StepAt(ws: seq<Window>, s: Cursor, l: Launch, threads: uint32): (Cursor, SweepArgs)
    requires s.window < |ws| && s.word < ws[s.window].words && threads > 0
  {
    var loops := Iterations(l.loopCount);
    var owed := (s.pending + l.traffic) % UINT64_RANGE;
    var perThread := PerThread(owed, threads);
    if perThread == 0 then (s.(pending := owed), SweepArgs(0, 0, 0, 0, loops))
    else
      var w := ws[s.window];
      var args := SweepArgs(w.segment, w.offsetWords, w.words, s.word, Stride(loops, perThread));
      var touched := Delivered(loops, perThread) * threads;
      var left := Carry(owed, touched, threads);
      if touched >= w.words - s.word then (Cursor(Ring(s.window + 1, |ws|), 0, left), args)
      else (Cursor(s.window, s.word + touched, left), args)
  }

  /** The state after a launch and the launch's arguments. */
  function Step(ws: seq<Window>, s: Cursor, l: Launch, threads: uint32): (Cursor, SweepArgs)
    requires Valid(ws, s)
  {
    var loops := Iterations(l.loopCount);
    var idle := SweepArgs(0, 0, 0, 0, loops);
    if ws == [] || threads == 0 then (s, idle)
    else
      var k := Skipped(ws, s.window, threads, 0);
      if k == |ws| then
        (Cursor(Ring(s.window + |ws| - 1, |ws|), if |ws| == 1 then s.word else 0, s.pending), idle)
      else
        StepAt(ws, Cursor(Ring(s.window + k, |ws|), if k == 0 then s.word else 0, s.pending), l, threads)
  }

  lemma StrideWithinLoops(loops: nat, perThread: nat)
    requires loops > 0 && perThread > 0
    ensures 0 < Stride(loops, perThread) <= loops
  {
    var a := Min(perThread, loops);
    CeilDivBounds(loops, a);
    MulMonotone(1, a, loops);
    CeilDivLeast(loops, a, loops);
  }

  /** The stride never makes a launch deliver more than it should. */
  lemma DeliveredBounds(loops: nat, perThread: nat)
    requires loops > 0 && perThread > 0
    ensures 0 < Delivered(loops, perThread) <= Min(perThread, loops)
  {
    var a := Min(perThread, loops);
    var stride := Stride(loops, perThread);
    StrideWithinLoops(loops, perThread);
    CeilDivBounds(loops, a);
    CeilDivBounds(loops, stride);
    CeilDivLeast(loops, stride, a);
  }

  /** No even stride that asks for no more comes nearer. */
  lemma StrideIsBest(loops: nat, perThread: nat, stride: nat)
    requires loops > 0 && perThread > 0 && stride > 0 && CeilDiv(loops, stride) <= perThread
    ensures CeilDiv(loops, stride) <= Delivered(loops, perThread)
  {
    var a := Min(perThread, loops);
    var best := Stride(loops, perThread);
    StrideWithinLoops(loops, perThread);
    assert best == CeilDiv(loops, a) && Delivered(loops, perThread) == CeilDiv(loops, best);
    hide CeilDiv, Stride, Delivered;
    CeilDivAtMost(loops, stride);
    CeilDivSwaps(loops, stride, a);
    CeilDivFalls(loops, best, stride);
  }

  lemma CeilDivAtMost(n: nat, d: nat)
    requires d > 0
    ensures CeilDiv(n, d) <= n
  {
    MulMonotone(1, d, n);
    CeilDivLeast(n, d, n);
  }

  /** If `d` goes into `n` at most `q` times, then `q` does at most `d` times. */
  lemma CeilDivSwaps(n: nat, d: nat, q: nat)
    requires d > 0 && q > 0 && CeilDiv(n, d) <= q
    ensures CeilDiv(n, q) <= d
  {
    CeilDivBounds(n, d);
    hide CeilDiv;
    MulMonotone(CeilDiv(n, d), q, d);
    CeilDivLeast(n, q, d);
  }

  lemma CeilDivFalls(n: nat, d: nat, e: nat)
    requires 0 < d <= e
    ensures CeilDiv(n, e) <= CeilDiv(n, d)
  {
    CeilDivBounds(n, d);
    hide CeilDiv;
    MulMonotone(d, e, CeilDiv(n, d));
    CeilDivLeast(n, e, CeilDiv(n, d));
  }

  /** Exactly when the stride's rounding, and the bound of one access per iteration, lose
      nothing. */
  predicate Exact(loops: nat, perThread: nat)
    requires loops > 0
  {
    perThread > 0 ==> (perThread - 1) * CeilDiv(loops, perThread) < loops
  }

  lemma DeliveredExactly(loops: nat, perThread: nat)
    requires loops > 0 && perThread > 0
    ensures Delivered(loops, perThread) == perThread <==> Exact(loops, perThread)
  {
    var a := perThread;
    StrideWithinLoops(loops, a);
    DeliveredBounds(loops, a);
    if a <= loops {
      var stride := CeilDiv(loops, a);
      CeilDivBounds(loops, a);
      if Exact(loops, a) {
        CeilDivUnique(loops, stride, a);
      } else {
        CeilDivLeast(loops, stride, a - 1);
      }
    } else {
      CeilDivUnique(loops, a, 1);
    }
  }

  /** Few accesses against many iterations: no loss. */
  lemma SquareBound(loops: nat, perThread: nat)
    requires loops > 0 && perThread > 0
    requires (perThread - 1) * (perThread - 1) < loops
    ensures Exact(loops, perThread)
  {
    hide Exact;
    OneAboveRoot(loops, perThread - 1);
  }

  lemma OneAboveRoot(loops: nat, b: nat)
    requires loops > 0 && b * b < loops
    ensures Exact(loops, b + 1)
  {
    var c := CeilDiv(loops, b + 1);
    CeilDivBounds(loops, b + 1);
    hide CeilDiv;
    var bc, bb := b * c, b * b;
    assert (c - 1) * (b + 1) == bc + c - b - 1;
    BelowLoops(loops, b, c, bc, bb);
  }

  /** A count above `b` leaves less than the iterations; one up to `b` makes no more than its square. */
  lemma BelowLoops(loops: nat, b: nat, c: nat, bc: nat, bb: nat)
    requires bc == b * c && bb == b * b && bb < loops && bc + c <= loops + b
    ensures bc < loops
  {
    if c <= b {
      MulMonotone(c, b, b);
    }
  }

  // ----- The object

  class MemSweep {
    var windows: seq<Window>
    var window: nat
    var cursor: nat
    var pendingBytes: nat

    function State(): Cursor
      reads this
    {
      Cursor(window, cursor, pendingBytes)
    }

    ghost predicate Ok()
      reads this
    {
      Valid(windows, State())
    }

    constructor ()
      ensures Ok() && windows == [] && State() == Cursor(0, 0, 0)
    {
      windows, window, cursor, pendingBytes := [], 0, 0, 0;
    }

    method Clear()
      modifies this
      ensures Ok() && windows == [] && State() == Cursor(0, 0, 0)
    {
      windows, window, cursor, pendingBytes := [], 0, 0, 0;
    }

    /** Cut the segments of a new block into windows, and start from the first. */
    method Reset(segmentBytes: seq<nat>)
      modifies this
      ensures Ok() && State() == Cursor(0, 0, 0)
      ensures Partitions(windows, segmentBytes)
      ensures CutEveryGib(windows, segmentBytes) && InOrder(windows)
    {
      Clear();
      hide Laid, LaidBefore, WellFormed, Partitions, CutEveryGib, InOrder;
      NothingLaid(segmentBytes);
      for seg := 0 to |segmentBytes|
        invariant State() == Cursor(0, 0, 0) && LaidBefore(windows, segmentBytes, seg)
      {
        var offset := 0;
        LaidEnds(windows, segmentBytes, seg, 0);
        while offset < segmentBytes[seg]
          invariant State() == Cursor(0, 0, 0) && Laid(windows, segmentBytes, seg, offset)
          decreases segmentBytes[seg] - offset
        {
          var bytes := Min(segmentBytes[seg] - offset, WINDOW_MAX_BYTES);
          var words := bytes / WORD_BYTES;
          LaidNext(windows, segmentBytes, seg, offset);
          if words > 0 {
            windows := windows + [Window(seg, offset / WORD_BYTES, words)];
          }
          offset := offset + WINDOW_MAX_BYTES;
        }
        LaidEnds(windows, segmentBytes, seg, offset);
      }
      AllLaid(windows, segmentBytes);
    }

    /** Go on from the current window to the next one that has a word for every thread. */
    method FindWindow(threads: uint32) returns (found: bool)
      requires Ok() && windows != []
      modifies `window, `cursor
      ensures Ok()
      ensures var n, was := |windows|, old(State());
              var k := Skipped(windows, was.window, threads, 0);
              && found == (k < n)
              && window == Ring(was.window + if found then k else n - 1, n)
              && cursor == (if (if found then k > 0 else n > 1) then 0 else was.word)
              && (found ==> Fits(windows, window, threads))
    {
      hide Skipped;
      ghost var was := State();
      ghost var skipped := Skipped(windows, window, threads, 0);
      var tries := 0;
      while windows[window].words < threads
        invariant tries <= skipped && tries < |windows|
        invariant window == Ring(was.window + tries, |windows|)
        invariant cursor == if tries == 0 then was.word else 0
        invariant Ok()
        decreases skipped - tries
      {
        assert !FitsAhead(windows, was.window, tries, threads);
        tries := tries + 1;
        if tries == |windows| {
          return false;
        }
        RingIsModulo(window, |windows|);
        window := (window + 1) % |windows|;
        cursor := 0;
      }
      assert FitsAhead(windows, was.window, tries, threads);
      found := true;
    }

    /** The launch's part of the current window, and where the next one starts. */
    method Take(loopCount: int32, trafficBytes: uint64, threads: uint32) returns (args: SweepArgs)
      requires Ok() && windows != [] && threads > 0
      modifies `window, `cursor, `pendingBytes
      ensures Ok()
      ensures (State(), args) == StepAt(windows, old(State()), Launch(loopCount, trafficBytes), threads)
    {
      hide PerThread, Stride, Delivered, Carry, CeilDiv;
      var loops := Max(loopCount, 1);
      args := SweepArgs(0, 0, 0, 0, loops);
      pendingBytes := (pendingBytes + trafficBytes) % UINT64_RANGE;
      var perThread := PerThread(pendingBytes, threads);
      if perThread == 0 {
        return;
      }
      var w := windows[window];
      args := SweepArgs(w.segment, w.offsetWords, w.words, cursor, Stride(loops, perThread));
      var touched := Delivered(loops, perThread) * threads;
      DeliveredBounds(loops, perThread);
      MulMonotone(1, Delivered(loops, perThread), threads);
      pendingBytes := Carry(pendingBytes, touched, threads);
      if touched >= w.words - cursor {
        RingIsModulo(window, |windows|);
        window := (window + 1) % |windows|;
        cursor := 0;
      } else {
        cursor := cursor + touched;
      }
    }

    /** What a launch of `loopCount` iterations on `threads` threads is called with in order to move
        about `trafficBytes`, and the state that the next one finds. */
    method Next(loopCount: int32, trafficBytes: uint64, threads: uint32) returns (args: SweepArgs)
      requires Ok()
      modifies this
      ensures Ok() && windows == old(windows)
      ensures (State(), args) == Step(old(windows), old(State()), Launch(loopCount, trafficBytes), threads)
    {
      hide StepAt, Skipped;
      args := SweepArgs(0, 0, 0, 0, Max(loopCount, 1));
      if windows == [] || threads == 0 {
        return;
      }
      var found := FindWindow(threads);
      if found {
        args := Take(loopCount, trafficBytes, threads);
      }
    }
  }
}
