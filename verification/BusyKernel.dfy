/** The busy kernel: one work-item's loop over registers and memory, and a launch of many
    work-items in any interleaving. */
module BusyKernel {
  import opened Prelude
  import opened Sweep

  function Lcg(val: bv32): bv32 {
    val * 1664525 + 1013904223
  }

  /** The plain ALU loop of `n` iterations. */
  function Lcgs(val: bv32, n: nat): bv32 {
    if n == 0 then val else Lcg(Lcgs(val, n - 1))
  }

  /** What a work-item starts from: its number, times a constant, plus one. */
  function SeedOf(id: bv32): bv32 {
    id * 2654435761 + 1
  }

  function Seed(tid: uint32): bv32 {
    SeedOf(tid as bv32)
  }

  /** From one number to the next, seeds go up by a constant, */
  lemma SeedSteps(id: bv32)
    ensures SeedOf(0) == 1 && SeedOf(id + 1) == SeedOf(id) + 2654435761
  {
    SeedProduct(id);
  }

  lemma SeedProduct(id: bv32)
    ensures (id + 1) * 2654435761 + 1 == id * 2654435761 + 1 + 2654435761
  {
  }

  /** and so do the steps of the loop by theirs. */
  lemma LcgSteps(val: bv32)
    ensures Lcg(0) == 1013904223 && Lcg(val + 1) == Lcg(val) + 1664525
  {
    LcgProduct(val);
  }

  lemma LcgProduct(val: bv32)
    ensures (val + 1) * 1664525 + 1013904223 == val * 1664525 + 1013904223 + 1664525
  {
  }

  /** Both can be undone, since their factors have inverses in 32 bits. */
  function IdOf(seed: bv32): bv32 {
    (seed - 1) * 244002641
  }

  function LcgBefore(val: bv32): bv32 {
    (val - 1013904223) * 4276115653
  }

  lemma FactorsInvert(x: bv32)
    ensures IdOf(x * 2654435761 + 1) == x && LcgBefore(x * 1664525 + 1013904223) == x
  {
  }

  lemma Inverts(x: bv32)
    ensures IdOf(SeedOf(x)) == x && LcgBefore(Lcg(x)) == x
  {
    hide IdOf, LcgBefore;
    assert SeedOf(x) == x * 2654435761 + 1 && Lcg(x) == x * 1664525 + 1013904223;
    FactorsInvert(x);
  }

  /** So no two work-items come out at the same value, however many iterations they make. */
  lemma {:induction false} OutDistinct(a: bv32, b: bv32, n: nat)
    requires Lcgs(SeedOf(a), n) == Lcgs(SeedOf(b), n)
    ensures a == b
  {
    hide SeedOf, Lcg, IdOf, LcgBefore;
    if n == 0 {
      Inverts(a);
      Inverts(b);
    } else {
      Inverts(Lcgs(SeedOf(a), n - 1));
      Inverts(Lcgs(SeedOf(b), n - 1));
      OutDistinct(a, b, n - 1);
    }
  }

  /** A work-item's part in a launch: what the kernel is called with. */
  datatype Item = Item(args: SweepArgs, loops: nat, tid: uint32, threads: uint32) {

    /** Room for every thread in the window, and 32-bit indices that cannot overflow in it. */
    ghost predicate Valid() {
      && tid < threads
      && 0 < args.stride
      && (args.words > 0 ==> threads <= args.words <= 0x8000_0000 && args.base < args.words)
    }

    /** The item's memory accesses: every chunk ends in one, however short. */
    function Accesses(): nat
      requires Valid()
    {
      CeilDiv(loops, args.stride)
    }

    /** Where access number `k` goes, as a word of the window. */
    function Slot(k: nat): (r: nat)
      requires args.words > 0
      ensures r < args.words
    {
      AccessWord(args, tid + k * threads)
    }

    /** Iterations of the ALU loop up to access number `k`. */
    function Start(k: nat): nat {
      Min(k * args.stride, loops)
    }

    /** What access number `k` mixes into its word. */
    function Mix(k: nat): bv32 {
      Lcgs(Seed(tid), Start(k + 1))
    }

    /** `threads` words further on, around the window: a conditional subtraction is enough. */
    lemma SlotNext(k: nat)
      requires Valid() && args.words > 0
      ensures Slot(k + 1) == if Slot(k) + threads >= args.words then Slot(k) + threads - args.words
                             else Slot(k) + threads
    {
      assert tid + (k + 1) * threads == tid + k * threads + threads;
      AccessWordNext(args, tid + k * threads, threads);
    }

    lemma SlotFirst()
      requires Valid() && args.words > 0
      ensures Slot(0) == if args.base + tid >= args.words then args.base + tid - args.words else args.base + tid
    {
      AccessWordUnwrapped(args, tid);
    }

    lemma StartFirst()
      ensures Start(0) == 0
    {
    }

    lemma StartNext(k: nat)
      requires Valid() && Start(k) < loops
      ensures Start(k + 1) == Start(k) + Min(loops - Start(k), args.stride)
      ensures Start(k + 1) == loops ==> CeilDiv(loops, args.stride) == k + 1
    {
      assert (k + 1) * args.stride == k * args.stride + args.stride;
      if Start(k + 1) == loops {
        CeilDivUnique(loops, args.stride, k + 1);
      }
    }

    /** The first access mixes in what a stride's iterations have made of the seed, and the last one what
        comes out. */
    lemma MixFirstAndLast()
      requires Valid() && loops > 0
      ensures Accesses() > 0
      ensures Mix(0) == Lcgs(Seed(tid), Min(args.stride, loops))
      ensures Mix(Accesses() - 1) == Lcgs(Seed(tid), loops)
    {
      CeilDivBounds(loops, args.stride);
    }
  }

  /** How an access changes its word. */
  function Xor(word: bv32, mixed: bv32): bv32 {
    word ^ mixed
  }

  /** Mixing the same in again takes it out, and only zero leaves a word as it was. */
  lemma XorUndoes(word: bv32, mixed: bv32)
    ensures Xor(Xor(word, mixed), mixed) == word && (Xor(word, mixed) == word ==> mixed == 0)
  {
  }

  /** So different values leave different words. */
  lemma XorDistinct(word: bv32, a: bv32, b: bv32)
    requires Xor(word, a) == Xor(word, b)
    ensures a == b
  {
    assert Xor(word, Xor(word, a)) == a && Xor(word, Xor(word, b)) == b;
  }

  /** Memory after the first `k` accesses of an item that reads, changes and writes back one word
      at a time. */
  function PlainSweep(mem: seq<bv32>, item: Item, k: nat): (r: seq<bv32>)
    requires item.args.words > 0 && item.args.offsetWords + item.args.words <= |mem|
    ensures |r| == |mem|
  {
    if k == 0 then mem
    else
      var before := PlainSweep(mem, item, k - 1);
      var p := item.args.offsetWords + item.Slot(k - 1);
      before[p := Xor(before[p], item.Mix(k - 1))]
  }

  lemma PlainSweepNext(mem: seq<bv32>, item: Item, k: nat)
    requires item.args.words > 0 && item.args.offsetWords + item.args.words <= |mem|
    ensures PlainSweep(mem, item, 0) == mem
    ensures var before := PlainSweep(mem, item, k);
            var p := item.args.offsetWords + item.Slot(k);
            PlainSweep(mem, item, k + 1) == before[p := Xor(before[p], Lcgs(Seed(item.tid), item.Start(k + 1)))]
  {
  }

  lemma AccessWordNext(args: SweepArgs, j: nat, threads: nat)
    requires 0 < threads <= args.words
    ensures var next := AccessWord(args, j) + threads;
            AccessWord(args, j + threads) == if next >= args.words then next - args.words else next
  {
    var w, n := args.words, args.base + j;
    var q, r := n / w, n % w;
    assert n == q * w + r;
    if r + threads >= w {
      assert (q + 1) * w == q * w + w;
      ModUnique(n + threads, w, q + 1, r + threads - w);
    } else {
      ModUnique(n + threads, w, q, r + threads);
    }
  }

  /** Write a changed word back, go on by the number of threads, and load the next word if there is
      more to do. */
  method Access(mem: array<bv32>, memOffset: uint64, memWords: uint32, threads: uint32, idx: uint32, w: bv32,
                val: bv32, more: bool)
    returns (next: uint32, word: bv32)
    requires memOffset + memWords <= mem.Length && idx < memWords && threads <= memWords <= 0x8000_0000
    modifies mem
    ensures mem[..] == old(mem[..])[memOffset + idx := Xor(w, val)]
    ensures next == if idx + threads >= memWords then idx + threads - memWords else idx + threads
    ensures next < memWords && (more ==> word == mem[memOffset + next])
  {
    hide Xor;
    mem[memOffset + idx] := Xor(w, val);
    next := ToUint32(idx + threads);
    if next >= memWords {
      next := ToUint32(next - memWords);
    }
    word := if more then mem[memOffset + next] else w;
  }

  /** One work-item, alone. It leaves `out` as the plain loop of `loopCount` iterations would,
      whatever the chunks, and memory as if every word were read only when it is written back;
      its index is always that of the next access, so it never leaves the window. */
  method Busy(out: array<bv32>, loopCount: int32, mem: array<bv32>, memOffset: uint64, memWords: uint32,
              memBase: uint32, memStride: int32, tid: uint32, threads: uint32)
    requires out != mem && tid < out.Length && memOffset + memWords <= mem.Length
    requires tid < threads
    requires memWords > 0 ==> threads <= memWords <= 0x8000_0000 && memBase < memWords
    modifies out, mem
    ensures out[..] == old(out[..])[tid := Lcgs(Seed(tid), Max(loopCount, 0))]
    ensures loopCount > 0 && memWords > 0 ==>
              var stride := if memStride > 0 then memStride else loopCount;
              var item := Item(SweepArgs(0, memOffset, memWords, memBase, stride), loopCount, tid, threads);
              mem[..] == PlainSweep(old(mem[..]), item, item.Accesses())
    ensures loopCount <= 0 || memWords == 0 ==> mem[..] == old(mem[..])
  {
    hide Lcg, Seed, Xor, CeilDiv, Item.Slot, Item.Start, Item.Mix, ToUint32, PlainSweep;
    var val := Seed(tid);
    var chunk := if memStride > 0 then memStride else loopCount;
    ghost var item := Item(SweepArgs(0, memOffset, memWords, memBase, Max(chunk, 1)), Max(loopCount, 0), tid, threads);
    var idx := ToUint32(memBase + tid);
    if idx >= memWords {
      idx := ToUint32(idx - memWords);
    }
    if memWords > 0 {
      item.SlotFirst();
      PlainSweepNext(mem[..], item, 0);
    }
    var w := if memWords != 0 then mem[memOffset + idx] else 0;
    var i := 0;
    ghost var k := 0;
    item.StartFirst();
    while i < loopCount
      invariant i == item.Start(k) <= item.loops
      invariant if loopCount <= 0 then k == 0 else i == item.loops ==> k == CeilDiv(loopCount, item.args.stride)
      invariant val == Lcgs(Seed(tid), i)
      invariant memWords > 0 ==> idx == item.Slot(k)
      invariant memWords > 0 && i < loopCount ==> w == mem[memOffset + idx]
      invariant out[..] == old(out[..])
      invariant mem[..] == if memWords == 0 then old(mem[..]) else PlainSweep(old(mem[..]), item, k)
      decreases loopCount - i
    {
      var end := i + if loopCount - i < chunk then loopCount - i else chunk;
      item.StartNext(k);
      while i < end
        invariant i <= end
        invariant val == Lcgs(Seed(tid), i)
      {
        val := Lcg(val);
        i := i + 1;
      }
      if memWords != 0 {
        PlainSweepNext(old(mem[..]), item, k);
        item.SlotNext(k);
        idx, w := Access(mem, memOffset, memWords, threads, idx, w, val, i < loopCount);
      }
      k := k + 1;
    }
    out[tid] := val;
  }
}
