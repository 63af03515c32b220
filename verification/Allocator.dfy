/** The block that is allocated and filled: `memory::unsafe::Allocator`. */
module BlockAllocator {
  import opened Prelude

  const CHUNK_BYTES: nat := 0x40_0000

  /** An index cut off to a byte. */
  function ByteOf(i: nat): bv8 {
    (i % 256) as bv8
  }

  /** What belongs at index `i` of a block filled from a seed. */
  function Pattern(seed: bv8, i: nat): bv8 {
    seed ^ ByteOf(i)
  }

  lemma ByteReadsBack(b: bv8)
    ensures (b as int) as bv8 == b
  {
  }

  lemma ByteIsWhole(b: bv8)
    ensures (b as int) % 256 == b as int
  {
  }

  lemma ByteOfByte(b: bv8)
    ensures ByteOf(b as int) == b
  {
    ByteReadsBack(b);
    ByteIsWhole(b);
  }

  /** Byte `b` of every 256 differs from the seed in just the bits of `b`. */
  lemma PatternTells(seed: bv8, b: bv8)
    ensures Pattern(seed, b as int) == seed ^ b
  {
    hide ByteOf;
    ByteOfByte(b);
  }

  lemma PatternRepeats(seed: bv8, i: nat)
    ensures Pattern(seed, i + 256) == Pattern(seed, i)
  {
    assert (i + 256) % 256 == i % 256;
  }

  /** So 256 bytes in a row are all different, and have every value; */
  lemma PatternDistinct(seed: bv8, a: bv8, b: bv8)
    ensures Pattern(seed, a as int) == Pattern(seed, b as int) <==> a == b
    ensures Pattern(seed, (seed ^ a) as int) == a
  {
    PatternTells(seed, a);
    PatternTells(seed, b);
    PatternTells(seed, seed ^ a);
    hide Pattern;
    XorDistinct(seed, a, b);
  }

  lemma XorDistinct(seed: bv8, a: bv8, b: bv8)
    ensures seed ^ a == seed ^ b <==> a == b
    ensures seed ^ (seed ^ a) == a
  {
  }

  /** and with another seed, every byte differs. */
  lemma SeedsDiffer(a: bv8, b: bv8, i: nat)
    ensures Pattern(a, i) == Pattern(b, i) <==> a == b
  {
  }

  ghost predicate FilledTo(bytes: seq<bv8>, seed: bv8, n: nat) {
    n <= |bytes| && forall i :: 0 <= i < n ==> bytes[i] == Pattern(seed, i)
  }

  class Allocator {
    var size: nat
    var block: array?<bv8>

    /** A size only ever goes with a block of that size. */
    ghost predicate Valid()
      reads this
    {
      if block == null then size == 0 else block.Length == size
    }

    predicate IsEmpty()
      reads this
    {
      size == 0 && block == null
    }

    constructor ()
      ensures Valid() && IsEmpty()
    {
      size, block := 0, null;
    }

    method ReleaseBlock()
      modifies this
      ensures Valid() && IsEmpty()
    {
      size, block := 0, null;
    }

    /** Replace the block. A failed allocation leaves the allocator empty, not with a size and no
        block. */
    method AllocateBlock(targetSize: nat, available: bool) returns (ok: bool)
      requires Valid()
      modifies this
      ensures Valid() && ok == available
      ensures if ok then size == targetSize && block != null && fresh(block) else IsEmpty()
    {
      ReleaseBlock();
      if !available {
        return false;
      }
      block := new bv8[targetSize];
      size := targetSize;
      ok := true;
    }

    /** Fill in chunks, asking before chunk `k` whether to stop. The pattern reaches up to the first
        chunk at which a stop was requested, or the end; the rest is as it was. */
    method Fill(seed: bv8, stop: nat -> bool) returns (ghost written: nat)
      requires Valid()
      modifies block
      ensures Valid() && written <= size
      ensures block != null ==> FilledTo(block[..], seed, written) && block[written..] == old(block[written..])
      ensures written < size ==> written % 0x40_0000 == 0 && stop(written / 0x40_0000)
      ensures forall k: nat :: k * 0x40_0000 < written ==> !stop(k)
    {
      written := 0;
      if block == null {
        return;
      }
      var begin := 0;
      var k := 0;
      while begin < size
        invariant begin == k * CHUNK_BYTES && written == Min(begin, size)
        invariant FilledTo(block[..], seed, written) && block[written..] == old(block[written..])
        invariant forall j :: 0 <= j < k ==> !stop(j)
        decreases size - begin
      {
        if stop(k) {
          return;
        }
        var end := Min(size, begin + CHUNK_BYTES);
        FillChunk(seed, begin, end);
        begin := begin + CHUNK_BYTES;
        k := k + 1;
        written := end;
      }
    }

    method FillChunk(seed: bv8, begin: nat, end: nat)
      requires Valid() && block != null && begin <= end <= size && FilledTo(block[..], seed, begin)
      modifies block
      ensures FilledTo(block[..], seed, end) && block[end..] == old(block[end..])
    {
      for i := begin to end
        invariant forall j :: 0 <= j < i ==> block[j] == Pattern(seed, j)
        invariant forall j :: i <= j < block.Length ==> block[j] == old(block[j])
      {
        block[i] := seed ^ (i % 256) as bv8;
      }
    }
  }
}
