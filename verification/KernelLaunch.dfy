/** A launch of the busy kernel: its work-items in any interleaving, and what the host's
    accounting has to say about it. */
module KernelLaunch {
  import opened Prelude
  import opened Sweep
  import opened BusyKernel

  /** A launch: the same arguments for `threads` work-items. */
  datatype Grid = Grid(args: SweepArgs, loops: nat, threads: uint32) {

    function ItemOf(tid: uint32): Item {
      Item(args, loops, tid, threads)
    }

    /** The accesses of each work-item. */
    function Rounds(): nat
      requires args.stride > 0
    {
      CeilDiv(loops, args.stride)
    }

    /** The accesses of all of them. */
    function Total(): nat
      requires args.stride > 0
    {
      Rounds() * threads
    }

    /** A launch with traffic that fits its window. */
    ghost predicate Valid() {
      && 0 < threads <= args.words <= 0x8000_0000
      && args.base < args.words && 0 < args.stride
    }
  }

  /** The access that goes to a word of the window, counted around the window from the base. */
  function AccessAt(args: SweepArgs, word: nat): nat
    requires args.base < args.words && word < args.words
  {
    if word >= args.base then word - args.base else word + args.words - args.base
  }

  lemma AccessAtInverts(args: SweepArgs, j: nat)
    requires args.base < args.words && j < args.words
    ensures AccessWord(args, j) < args.words && AccessAt(args, AccessWord(args, j)) == j
  {
    AccessWordUnwrapped(args, j);
  }

  lemma AccessWordInverts(args: SweepArgs, word: nat)
    requires args.base < args.words && word < args.words
    ensures AccessAt(args, word) < args.words && AccessWord(args, AccessAt(args, word)) == word
  {
    AccessWordUnwrapped(args, AccessAt(args, word));
  }

  /** No two of the first `n` accesses go to the same word if and only if they fit in the window. */
  lemma CollisionFree(args: SweepArgs, n: nat)
    requires args.base < args.words
    ensures (forall i: nat, j: nat :: i < j < n ==> AccessWord(args, i) != AccessWord(args, j)) <==> n <= args.words
  {
    if n <= args.words {
      forall i: nat, j: nat | i < j < n
        ensures AccessWord(args, i) != AccessWord(args, j)
      {
        AccessAtInverts(args, i);
        AccessAtInverts(args, j);
      }
    } else {
      AccessWordUnwrapped(args, 0);
      AccessWordUnwrapped(args, args.words);
    }
  }

  /** Within a chunk of any launch, no two threads are at the same word. */
  lemma ChunkCollisionFree(g: Grid, k: nat, s: uint32, t: uint32)
    requires g.Valid() && s < t < g.threads
    ensures g.ItemOf(s).Slot(k) != g.ItemOf(t).Slot(k)
  {
    var shifted := g.args.(base := AccessWord(g.args, k * g.threads));
    AccessWordShift(g.args, k * g.threads, s);
    AccessWordShift(g.args, k * g.threads, t);
    CollisionFree(shifted, g.threads);
    assert AccessWord(shifted, s) != AccessWord(shifted, t);
  }

  lemma AccessWordShift(args: SweepArgs, shift: nat, j: nat)
    requires args.words > 0
    ensures AccessWord(args, j + shift) == AccessWord(args.(base := AccessWord(args, shift)), j)
  {
    var w, n := args.words, args.base + shift;
    var q, m := n / w, n % w + j;
    assert n == q * w + n % w;
    assert (q + m / w) * w == q * w + m / w * w;
    ModUnique(n + j, w, q + m / w, m % w);
  }

  // ----- Where the accesses go

  /** Where a work-item's `k`-th access goes, as a word of the window. */
  function AccessOf(g: Grid, t: uint32, k: nat): (word: nat)
    requires g.Valid()
    ensures word < g.args.words
  {
    g.ItemOf(t).Slot(k)
  }

  predicate InWindow(g: Grid, p: nat) {
    g.args.offsetWords <= p < g.args.offsetWords + g.args.words
  }

  /** Where a work-item's `k`-th access goes in memory. */
  function Place(g: Grid, t: uint32, k: nat): (p: nat)
    requires g.Valid()
    ensures InWindow(g, p)
  {
    g.args.offsetWords + AccessOf(g, t, k)
  }

  // ----- Who comes to which word

  lemma AccessAtModulo(args: SweepArgs, j: nat)
    requires args.base < args.words
    ensures AccessWord(args, j) < args.words && AccessAt(args, AccessWord(args, j)) == j % args.words
  {
    AccessWordLaps(args, j);
    AccessAtInverts(args, j % args.words);
  }

  /** A whole lap of the window makes no difference. */
  lemma AccessWordLaps(args: SweepArgs, j: nat)
    requires args.words > 0
    ensures AccessWord(args, j) == AccessWord(args, j % args.words)
  {
    hide AccessWord;
    var w := args.words;
    assert j == j / w * w + j % w;
    LapsAdd(args, j % w, j / w);
  }

  lemma LapsAdd(args: SweepArgs, j: nat, laps: nat)
    requires args.words > 0
    ensures AccessWord(args, j + laps * args.words) == AccessWord(args, j)
  {
    var w, n := args.words, args.base + j;
    assert n == n / w * w + n % w;
    assert (n / w + laps) * w == n / w * w + laps * w;
    ModUnique(n + laps * w, w, n / w + laps, n % w);
  }

  /** The work-item whose turn it is at a word, counting around the window from the base. */
  function Owner(g: Grid, word: nat): (t: nat)
    requires g.Valid() && word < g.args.words
    ensures t < g.threads
  {
    AccessAt(g.args, word) % g.threads
  }

  /** The launch does not lap its window, or laps it in step. */
  predicate InStep(g: Grid)
    requires g.Valid()
  {
    g.Total() <= g.args.words || g.args.words % g.threads == 0
  }

  ghost predicate NeverShare(g: Grid)
    requires g.Valid()
  {
    forall s: nat, t: nat, k: nat, l: nat ::
      s < t < g.threads && k < g.Rounds() && l < g.Rounds() ==> AccessOf(g, s, k) != AccessOf(g, t, l)
  }

  lemma ModuloOfMultiple(j: nat, w: nat, d: nat)
    requires d > 0 && w > 0 && w % d == 0
    ensures j % w % d == j % d
  {
    ModuloByParts(j, d, j / w, w / d, j % w, j % w / d, j % w % d);
  }

  lemma ModuloByParts(j: nat, d: nat, laps: nat, m: nat, r: nat, q: nat, rest: nat)
    requires d > 0 && j == laps * (m * d) + r && r == q * d + rest && rest < d
    ensures j % d == rest
  {
    assert laps * (m * d) == laps * m * d;
    assert (laps * m + q) * d == laps * m * d + q * d;
    ModUnique(j, d, laps * m + q, rest);
  }

  /** In such a launch, a work-item only comes to words whose turn is its own. */
  lemma ComesToOwnWords(g: Grid, t: nat, k: nat)
    requires g.Valid() && InStep(g) && t < g.threads && k < g.Rounds()
    ensures Owner(g, AccessOf(g, t, k)) == t
  {
    hide Grid.Rounds, AccessWord, AccessAt;
    var j, w, d := t + k * g.threads, g.args.words, g.threads;
    AccessAtModulo(g.args, j);
    ModUnique(j, d, k, t);
    if w % d == 0 {
      ModuloOfMultiple(j, w, d);
    } else {
      MulMonotone(k + 1, g.Rounds(), d);
      assert (k + 1) * d == k * d + d;
      ModUnique(j, w, 0, j);
    }
  }

  /** No word is ever come to by two work-items if and only if the launch does not lap its window or
      the number of threads divides the window's words. */
  lemma NeverShareExactly(g: Grid)
    requires g.Valid()
    ensures NeverShare(g) <==> InStep(g)
  {
    hide Grid.Rounds, AccessOf, Owner;
    if InStep(g) {
      forall s: nat, t: nat, k: nat, l: nat | s < t < g.threads && k < g.Rounds() && l < g.Rounds()
        ensures AccessOf(g, s, k) != AccessOf(g, t, l)
      {
        ComesToOwnWords(g, s, k);
        ComesToOwnWords(g, t, l);
      }
    } else {
      var k, t := g.args.words / g.threads, g.args.words % g.threads;
      LapMeets(g, k, t);
      assert AccessOf(g, 0, 0) == AccessOf(g, t, k);
    }
  }

  /** Out of step, the first word of the second lap is another work-item's than that of the first. */
  lemma LapMeets(g: Grid, k: nat, t: nat)
    requires g.Valid() && !InStep(g) && k == g.args.words / g.threads && t == g.args.words % g.threads
    ensures 0 < t < g.threads && 0 < k < g.Rounds() && AccessOf(g, 0, 0) == AccessOf(g, t, k)
  {
    hide Grid.Rounds, AccessWord;
    var w, d := g.args.words, g.threads;
    assert w == w / d * d + w % d;
    QuotientBelow(w, d, g.Rounds());
    QuotientBelow(0, d, g.Rounds());
    LapsAdd(g.args, 0, 1);
    MulMonotone(w / d, 0, d);
  }

  lemma QuotientBelow(j: nat, d: nat, q: nat)
    requires d > 0
    ensures j / d < q <==> j < q * d
  {
    assert j == j / d * d + j % d;
    MulMonotone(j / d + 1, q, d);
    MulMonotone(q, j / d, d);
    assert (j / d + 1) * d == j / d * d + d;
  }

  // ----- Interleavings

  /** How far a work-item is: the accesses it has finished, and the word it has read for the next
      one, if it has. */
  datatype Progress = Progress(done: nat, loaded: Option<bv32>)

  datatype Machine = Machine(mem: seq<bv32>, items: seq<Progress>)

  ghost predicate Fits(g: Grid, st: Machine) {
    && g.Valid()
    && |st.items| == g.threads
    && g.args.offsetWords + g.args.words <= |st.mem|
    && forall t :: 0 <= t < |st.items| ==> st.items[t].done <= g.Rounds()
  }

  /** One work-item's next load, or its next ALU chunk and store. */
  function StepItem(g: Grid, st: Machine, t: nat): (r: Machine)
    requires Fits(g, st)
    ensures Fits(g, r) && |r.mem| == |st.mem|
  {
    if t >= g.threads || st.items[t].done == g.Rounds() then st
    else
      var Progress(k, loaded) := st.items[t];
      var p := Place(g, t, k);
      match loaded
      case None => st.(items := st.items[t := Progress(k, Some(st.mem[p]))])
      case Some(w) => Machine(st.mem[p := Xor(w, g.ItemOf(t).Mix(k))], st.items[t := Progress(k + 1, None)])
  }

  function Interleave(g: Grid, st: Machine, schedule: seq<nat>): (r: Machine)
    requires Fits(g, st)
    ensures Fits(g, r) && |r.mem| == |st.mem|
    decreases |schedule|
  {
    if schedule == [] then st else Interleave(g, StepItem(g, st, schedule[0]), schedule[1..])
  }

  function Start(g: Grid, mem: seq<bv32>): Machine {
    Machine(mem, seq(g.threads, t => Progress(0, None)))
  }

  ghost predicate Finished(g: Grid, st: Machine)
    requires Fits(g, st)
  {
    forall t :: 0 <= t < g.threads ==> st.items[t].done == g.Rounds()
  }

  /** What a work-item alone would have made of a word by its first `k` accesses. */
  function Alone(g: Grid, mem: seq<bv32>, t: uint32, k: nat, p: nat): bv32
    requires g.Valid() && g.args.offsetWords + g.args.words <= |mem| && p < |mem|
  {
    PlainSweep(mem, g.ItemOf(t), k)[p]
  }

  lemma AloneNext(g: Grid, mem: seq<bv32>, t: uint32, k: nat, p: nat)
    requires g.Valid() && g.args.offsetWords + g.args.words <= |mem| && p < |mem|
    ensures Alone(g, mem, t, 0, p) == mem[p]
    ensures Alone(g, mem, t, k + 1, p)
            == if p == Place(g, t, k) then Xor(Alone(g, mem, t, k, p), g.ItemOf(t).Mix(k)) else Alone(g, mem, t, k, p)
  {
    hide Item.Slot, Item.Mix, Xor;
  }

  function OwnerAt(g: Grid, p: nat): (t: nat)
    requires g.Valid() && InWindow(g, p)
    ensures t < g.threads
  {
    Owner(g, p - g.args.offsetWords)
  }

  /** What a word should hold when the work-items have come as far as `items`: what its owner alone
      would have made of it. */
  function Expected(g: Grid, mem: seq<bv32>, items: seq<Progress>, p: nat): bv32
    requires g.Valid() && g.args.offsetWords + g.args.words <= |mem| && p < |mem| && |items| == g.threads
  {
    if InWindow(g, p) then Alone(g, mem, OwnerAt(g, p), items[OwnerAt(g, p)].done, p) else mem[p]
  }

  /** What a word should hold after the launch. */
  function Swept(g: Grid, mem: seq<bv32>, p: nat): bv32
    requires g.Valid() && g.args.offsetWords + g.args.words <= |mem| && p < |mem|
  {
    if InWindow(g, p) then Alone(g, mem, OwnerAt(g, p), g.Rounds(), p) else mem[p]
  }

  /** What a work-item has read ahead is what it alone would have read. */
  predicate Loaded(g: Grid, mem: seq<bv32>, item: Progress, t: uint32)
    requires g.Valid() && g.args.offsetWords + g.args.words <= |mem| && item.loaded.Some?
  {
    item.done < g.Rounds() && item.loaded.value == Alone(g, mem, t, item.done, Place(g, t, item.done))
  }

  ghost predicate Consistent(g: Grid, mem: seq<bv32>, st: Machine)
    requires Fits(g, st)
  {
    && |st.mem| == |mem|
    && (forall p :: 0 <= p < |mem| ==> st.mem[p] == Expected(g, mem, st.items, p))
    && (forall t :: 0 <= t < g.threads && st.items[t].loaded.Some? ==> Loaded(g, mem, st.items[t], t))
  }

  /** A store changes its own word as the work-item alone would have, and no other. */
  lemma StoreExpected(g: Grid, mem: seq<bv32>, items: seq<Progress>, t: nat, next: Progress, p: nat)
    requires g.Valid() && InStep(g) && g.args.offsetWords + g.args.words <= |mem|
    requires |items| == g.threads && t < g.threads
    requires items[t].done < g.Rounds() && next.done == items[t].done + 1 && p < |mem|
    ensures var at := Place(g, t, items[t].done);
            Expected(g, mem, items[t := next], p)
            == if p == at then Xor(Alone(g, mem, t, items[t].done, p), g.ItemOf(t).Mix(items[t].done))
               else Expected(g, mem, items, p)
  {
    hide Grid.Rounds, Item.Mix, Xor, Alone, Owner, AccessOf;
    ComesToOwnWords(g, t, items[t].done);
    AloneNext(g, mem, t, items[t].done, p);
  }

  lemma LoadExpected(g: Grid, mem: seq<bv32>, items: seq<Progress>, t: nat)
    requires g.Valid() && InStep(g) && g.args.offsetWords + g.args.words <= |mem|
    requires |items| == g.threads && t < g.threads
    requires items[t].done < g.Rounds()
    ensures var at := Place(g, t, items[t].done);
            Expected(g, mem, items, at) == Alone(g, mem, t, items[t].done, at)
  {
    hide Grid.Rounds, Alone, Owner, AccessOf;
    ComesToOwnWords(g, t, items[t].done);
  }

  lemma ExpectedByDone(g: Grid, mem: seq<bv32>, items: seq<Progress>, t: nat, next: Progress, p: nat)
    requires g.Valid() && g.args.offsetWords + g.args.words <= |mem|
    requires |items| == g.threads && t < g.threads && p < |mem|
    requires next.done == items[t].done
    ensures Expected(g, mem, items[t := next], p) == Expected(g, mem, items, p)
  {
    hide Alone, OwnerAt;
  }

  lemma StepConsistent(g: Grid, mem: seq<bv32>, st: Machine, t: nat)
    requires Fits(g, st) && InStep(g) && Consistent(g, mem, st)
    ensures Consistent(g, mem, StepItem(g, st, t))
  {
    hide Grid.Rounds, InStep, Item.Mix, Xor, Alone, Place, Expected;
    if t < g.threads && st.items[t].done < g.Rounds() {
      LoadExpected(g, mem, st.items, t);
      var next := StepItem(g, st, t);
      forall p | 0 <= p < |mem|
        ensures next.mem[p] == Expected(g, mem, next.items, p)
      {
        if st.items[t].loaded.Some? {
          StoreExpected(g, mem, st.items, t, next.items[t], p);
        } else {
          ExpectedByDone(g, mem, st.items, t, next.items[t], p);
        }
      }
    }
  }

  lemma {:induction false} InterleaveConsistent(g: Grid, mem: seq<bv32>, st: Machine, schedule: seq<nat>)
    requires Fits(g, st) && InStep(g) && Consistent(g, mem, st)
    ensures Consistent(g, mem, Interleave(g, st, schedule))
    decreases |schedule|
  {
    hide StepItem, Consistent, InStep;
    if schedule != [] {
      StepConsistent(g, mem, st, schedule[0]);
      InterleaveConsistent(g, mem, StepItem(g, st, schedule[0]), schedule[1..]);
    }
  }

  lemma StartConsistent(g: Grid, mem: seq<bv32>)
    requires g.Valid() && g.args.offsetWords + g.args.words <= |mem|
    ensures Fits(g, Start(g, mem)) && Consistent(g, mem, Start(g, mem))
  {
    hide Alone, OwnerAt;
    forall p | 0 <= p < |mem|
      ensures mem[p] == Expected(g, mem, Start(g, mem).items, p)
    {
      if InWindow(g, p) {
        AloneNext(g, mem, OwnerAt(g, p), 0, p);
      }
    }
  }

  /** Of a launch in which no two work-items share a word, the order in which they run does not
      matter, even if it laps its window: once all are done, each word of the window is as its owner
      alone would have left it, and nothing else has changed. */
  lemma AnyOrderSweeps(g: Grid, mem: seq<bv32>, schedule: seq<nat>)
    requires g.Valid() && g.args.offsetWords + g.args.words <= |mem| && InStep(g)
    requires Finished(g, Interleave(g, Start(g, mem), schedule))
    ensures var after := Interleave(g, Start(g, mem), schedule).mem;
            |after| == |mem| && forall p :: 0 <= p < |mem| ==> after[p] == Swept(g, mem, p)
  {
    hide Interleave, Alone, Grid.Rounds, InStep, OwnerAt;
    StartConsistent(g, mem);
    InterleaveConsistent(g, mem, Start(g, mem), schedule);
  }

  /** What a word holds once access `j` of the launch has been made: its first value mixed with that
      access's. */
  function Mixed(g: Grid, mem: seq<bv32>, p: nat, j: nat): bv32
    requires p < |mem| && g.threads > 0
  {
    Xor(mem[p], g.ItemOf(j % g.threads).Mix(j / g.threads))
  }

  /** The access of its owner at which a word has its turn for the first time. */
  function TurnAt(g: Grid, p: nat): nat
    requires g.Valid() && InWindow(g, p)
  {
    AccessAt(g.args, p - g.args.offsetWords) / g.threads
  }

  lemma MixedAtTurn(g: Grid, mem: seq<bv32>, p: nat)
    requires g.Valid() && InWindow(g, p) && p < |mem|
    ensures Mixed(g, mem, p, AccessAt(g.args, p - g.args.offsetWords))
            == Xor(mem[p], g.ItemOf(OwnerAt(g, p)).Mix(TurnAt(g, p)))
  {
    hide Item.Mix, Xor;
  }

  lemma TurnIs(g: Grid, k: nat, p: nat)
    requires g.Valid() && InWindow(g, p) && (k + 1) * g.threads <= g.args.words
    ensures p == Place(g, OwnerAt(g, p), k) <==> TurnAt(g, p) == k
  {
    hide AccessWord, AccessAt;
    var word, d, kd := p - g.args.offsetWords, g.threads, k * g.threads;
    var j, t := AccessAt(g.args, word), OwnerAt(g, p);
    assert (k + 1) * d == kd + d;
    AccessAtInverts(g.args, t + kd);
    AccessWordInverts(g.args, word);
    QuotientIs(j, d, k, kd);
    assert Place(g, t, k) == g.args.offsetWords + AccessWord(g.args, t + kd);
  }

  lemma QuotientIs(j: nat, d: nat, k: nat, kd: nat)
    requires d > 0 && kd == k * d
    ensures j / d == k <==> j == kd + j % d
  {
    if j == kd + j % d {
      ModUnique(j, d, k, j % d);
    }
  }

  /** As long as its owner has not gone round the window, a word is mixed once. */
  lemma {:induction false} AloneOnce(g: Grid, mem: seq<bv32>, k: nat, p: nat)
    requires g.Valid() && g.args.offsetWords + g.args.words <= |mem| && InWindow(g, p) && p < |mem|
    requires k * g.threads <= g.args.words
    ensures Alone(g, mem, OwnerAt(g, p), k, p)
            == if TurnAt(g, p) < k then Mixed(g, mem, p, AccessAt(g.args, p - g.args.offsetWords)) else mem[p]
  {
    hide Alone, AccessAt, Item.Mix, Xor, Mixed, Place, OwnerAt, TurnAt;
    AloneNext(g, mem, OwnerAt(g, p), Max(k - 1, 0), p);
    if k > 0 {
      MulMonotone(k - 1, k, g.threads);
      AloneOnce(g, mem, k - 1, p);
      TurnIs(g, k - 1, p);
      MixedAtTurn(g, mem, p);
    }
  }

  /** Of a launch that does not lap its window, each word of the run from the base on is mixed exactly
      once, with its own access's value. */
  lemma AnyOrderSweepsOnce(g: Grid, mem: seq<bv32>, schedule: seq<nat>)
    requires g.Valid() && g.args.offsetWords + g.args.words <= |mem| && g.Total() <= g.args.words
    requires Finished(g, Interleave(g, Start(g, mem), schedule))
    ensures var after := Interleave(g, Start(g, mem), schedule).mem;
            forall p :: 0 <= p < |mem| ==>
              after[p] == if InWindow(g, p) && AccessAt(g.args, p - g.args.offsetWords) < g.Total()
                          then Mixed(g, mem, p, AccessAt(g.args, p - g.args.offsetWords)) else mem[p]
  {
    hide Interleave, Mixed, Alone, Grid.Rounds, AccessAt, OwnerAt;
    AnyOrderSweeps(g, mem, schedule);
    forall p | 0 <= p < |mem| && InWindow(g, p)
      ensures Swept(g, mem, p)
              == if AccessAt(g.args, p - g.args.offsetWords) < g.Total()
                 then Mixed(g, mem, p, AccessAt(g.args, p - g.args.offsetWords)) else mem[p]
    {
      AloneOnce(g, mem, g.Rounds(), p);
      QuotientBelow(AccessAt(g.args, p - g.args.offsetWords), g.threads, g.Rounds());
    }
  }

  // ----- A launch that laps its window out of step

  /** Two threads, three words, and two accesses a thread: both threads come to word 0. */
  predicate Lapping(g: Grid) {
    g.args == SweepArgs(0, 0, 3, 0, 1) && g.loops == 2 && g.threads == 2
  }

  const ONE_AFTER_THE_OTHER: seq<nat> := [0, 0, 0, 0, 1, 1, 1, 1]

  /** Thread 1 reads word 0 before thread 0 has written it back. */
  const CROSSED: seq<nat> := [0, 1, 1, 1, 0, 1, 0, 0]

  lemma LappingRounds(g: Grid)
    requires Lapping(g)
    ensures g.Valid() && g.Rounds() == 2 && g.Total() == 4 && !InStep(g)
  {
    CeilDivUnique(2, 1, 2);
    hide Grid.Rounds;
  }

  lemma LappingPlace(g: Grid, t: uint32, k: nat)
    requires Lapping(g) && g.Valid() && t < 2 && k < 2
    ensures Place(g, t, k) == if t + 2 * k == 3 then 0 else t + 2 * k
  {
    hide AccessWord;
    assert Place(g, t, k) == AccessWord(g.args, t + k * g.threads);
    AccessWordUnwrapped(g.args, t + 2 * k);
  }

  /** The word that thread `t` of such a launch comes to. */
  function LapWord(t: nat, k: nat): (word: nat)
    requires t < 2 && k < 2
    ensures word < 3
  {
    if t + 2 * k == 3 then 0 else t + 2 * k
  }

  /** A thread's load or store. */
  function LapNext(g: Grid, st: Machine, t: nat): (next: Machine)
    requires Lapping(g) && Fits(g, st) && |st.mem| == 3 && t < 2 && st.items[t].done < 2
    ensures Fits(g, next) && |next.mem| == 3 && |next.items| == 2
  {
    LappingRounds(g);
    var Progress(k, loaded) := st.items[t];
    var p := LapWord(t, k);
    if loaded.None? then Machine(st.mem, st.items[t := Progress(k, Some(st.mem[p]))])
    else Machine(st.mem[p := Xor(loaded.value, g.ItemOf(t).Mix(k))], st.items[t := Progress(k + 1, None)])
  }

  lemma LapNextIs(g: Grid, st: Machine, t: nat)
    requires Lapping(g) && Fits(g, st) && |st.mem| == 3 && t < 2 && st.items[t].done < 2
    ensures StepItem(g, st, t) == LapNext(g, st, t)
  {
    LappingRounds(g);
    LappingPlace(g, t, st.items[t].done);
    hide Place, Xor, Item.Mix, Grid.Rounds;
  }

  lemma LapStep(g: Grid, st: Machine, t: nat, schedule: seq<nat>) returns (next: Machine)
    requires Lapping(g) && Fits(g, st) && |st.mem| == 3 && t < 2 && st.items[t].done < 2
    requires schedule != [] && schedule[0] == t
    ensures next == LapNext(g, st, t) && Interleave(g, st, schedule) == Interleave(g, next, schedule[1..])
  {
    hide StepItem, LapNext, Fits;
    LapNextIs(g, st, t);
    next := LapNext(g, st, t);
  }

  lemma InOrderEnds(g: Grid, mem: seq<bv32>)
    requires Lapping(g) && |mem| == 3
    ensures g.Valid() && Fits(g, Start(g, mem))
    ensures var after := Interleave(g, Start(g, mem), ONE_AFTER_THE_OTHER);
            Finished(g, after) && after.mem[0] == Xor(Xor(mem[0], g.ItemOf(0).Mix(0)), g.ItemOf(1).Mix(1))
  {
    hide Grid.Rounds, Xor, Item.Mix, StepItem;
    LappingRounds(g);
    var s: seq<nat> := ONE_AFTER_THE_OTHER;
    var st := Start(g, mem);
    st := LapStep(g, st, 0, s);
    st := LapStep(g, st, 0, s[1..]);
    st := LapStep(g, st, 0, s[2..]);
    st := LapStep(g, st, 0, s[3..]);
    st := LapStep(g, st, 1, s[4..]);
    st := LapStep(g, st, 1, s[5..]);
    st := LapStep(g, st, 1, s[6..]);
    st := LapStep(g, st, 1, s[7..]);
  }

  lemma CrossedEnds(g: Grid, mem: seq<bv32>)
    requires Lapping(g) && |mem| == 3
    ensures g.Valid() && Fits(g, Start(g, mem))
    ensures var after := Interleave(g, Start(g, mem), CROSSED);
            Finished(g, after) && after.mem[0] == Xor(mem[0], g.ItemOf(1).Mix(1))
  {
    hide Grid.Rounds, Xor, Item.Mix, StepItem;
    LappingRounds(g);
    var s: seq<nat> := CROSSED;
    var st := Start(g, mem);
    st := LapStep(g, st, 0, s);
    st := LapStep(g, st, 1, s[1..]);
    st := LapStep(g, st, 1, s[2..]);
    st := LapStep(g, st, 1, s[3..]);
    st := LapStep(g, st, 0, s[4..]);
    st := LapStep(g, st, 1, s[5..]);
    st := LapStep(g, st, 0, s[6..]);
    st := LapStep(g, st, 0, s[7..]);
  }

  lemma FirstMix(g: Grid)
    requires Lapping(g)
    ensures g.ItemOf(0).Mix(0) == 1015568748
  {
    var item := g.ItemOf(0);
    assert item.Start(1) == 1;
    assert Seed(0) == 1;
    assert Lcgs(1, 1) == Lcg(Lcgs(1, 0));
  }

  lemma Undone(a: bv32, x: bv32, y: bv32)
    requires x != 0
    ensures Xor(Xor(a, x), y) != Xor(a, y)
  {
  }

  /** Out of step the order does matter: the same launch on the same memory, run to its end in two
      orders, leaves word 0 in two ways, since the update of thread 0 is lost in one of them. */
  lemma LappingRaces(g: Grid, mem: seq<bv32>)
    requires Lapping(g) && |mem| == 3
    ensures g.Valid() && !InStep(g) && Fits(g, Start(g, mem))
    ensures var orderly := Interleave(g, Start(g, mem), ONE_AFTER_THE_OTHER);
            var crossed := Interleave(g, Start(g, mem), CROSSED);
            Finished(g, orderly) && Finished(g, crossed) && orderly.mem[0] != crossed.mem[0]
  {
    hide Interleave, Xor, Item.Mix, Grid.Rounds;
    LappingRounds(g);
    InOrderEnds(g, mem);
    CrossedEnds(g, mem);
    FirstMix(g);
    Undone(mem[0], g.ItemOf(0).Mix(0), g.ItemOf(1).Mix(1));
  }
}
