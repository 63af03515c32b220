/** What the host hands a launch of the busy kernel, and the words of the block that the
    launch is meant to touch. */
module Sweep {
  import opened Prelude

  const WORD_BYTES: nat := 4
  const BYTES_PER_ACCESS: nat := 8
  const WINDOW_MAX_BYTES: nat := 0x4000_0000

  datatype SweepArgs = SweepArgs(segment: nat, offsetWords: nat, words: nat, base: nat, stride: nat)

  /** Chunks of ALU work in a launch of `loops` iterations: one access per thread after each. */
  function Chunks(args: SweepArgs, loops: nat): nat
    requires args.stride > 0
  {
    CeilDiv(loops, args.stride)
  }

  /** Where access number `j` of a launch goes, as a word of the window; thread `tid` makes
      the accesses `tid + k * threads`. */
  function AccessWord(args: SweepArgs, j: nat): nat
    requires args.words > 0
  {
    (args.base + j) % args.words
  }

  /** Access `j` of at most one window's worth, without the division. */
  lemma AccessWordUnwrapped(args: SweepArgs, j: nat)
    requires args.base < args.words && j <= args.words
    ensures AccessWord(args, j) == if args.base + j < args.words then args.base + j
                                   else args.base + j - args.words
  {
  }

  lemma ModUnique(n: nat, d: nat, q: nat, r: nat)
    requires d > 0 && r < d && n == q * d + r
    ensures n % d == r && n / d == q
  {
    var q', r' := n / d, n % d;
    assert n == q' * d + r';
    assert (q - q') * d == q * d - q' * d == r' - r;
    MulMonotone(1, q - q', d);
    MulMonotone(1, q' - q, d);
    assert (q' - q) * d == -((q - q') * d);
  }
}
