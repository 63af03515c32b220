/** The rolling mean of the last samples: `util::RollingSampler<double>`. */
module Rolling {
  import opened Prelude

  function SumOf(s: seq<real>): real {
    if s == [] then 0.0 else SumOf(s[..|s| - 1]) + s[|s| - 1]
  }

  /** The last `capacity` values. */
  function Window(history: seq<real>, capacity: nat): seq<real> {
    if |history| <= capacity then history else history[|history| - capacity..]
  }

  lemma {:induction false} SumOfTail(s: seq<real>)
    requires s != []
    ensures SumOf(s) == s[0] + SumOf(s[1..])
  {
    if |s| > 1 {
      SumOfTail(s[..|s| - 1]);
      assert s[..|s| - 1][1..] == s[1..][..|s| - 2];
    }
  }

  lemma SumOfNext(s: seq<real>, value: real)
    ensures SumOf(s + [value]) == SumOf(s) + value
  {
    assert (s + [value])[..|s|] == s;
  }

  /** What is still in the window when the next value comes. */
  function Kept(history: seq<real>, capacity: nat): seq<real>
    requires capacity > 0
  {
    var w := Window(history, capacity);
    if |history| < capacity then w else w[1..]
  }

  lemma WindowNext(history: seq<real>, value: real, capacity: nat)
    requires capacity > 0
    ensures Window(history + [value], capacity) == Kept(history, capacity) + [value]
  {
  }

  /** One value later, the window has gained it, and lost its oldest if it was full. */
  lemma WindowMoves(history: seq<real>, value: real, capacity: nat)
    requires capacity > 0
    ensures var w := Window(history, capacity);
            && Window(history + [value], capacity) == Kept(history, capacity) + [value]
            && SumOf(Window(history + [value], capacity))
               == SumOf(w) + value - if |history| < capacity then 0.0 else w[0]
  {
    hide SumOf;
    WindowNext(history, value, capacity);
    SumOfNext(Kept(history, capacity), value);
    if |history| >= capacity {
      SumOfTail(Window(history, capacity));
    }
  }

  /** A ring buffer's values from its oldest on. */
  function FromOldest(values: seq<real>, index: nat): seq<real>
    requires index <= |values|
  {
    values[index..] + values[..index]
  }

  lemma OverwriteOldest(values: seq<real>, index: nat, value: real)
    requires index < |values|
    ensures FromOldest(values, index)[0] == values[index]
    ensures var next := if index + 1 >= |values| then 0 else index + 1;
            FromOldest(values[index := value], next) == FromOldest(values, index)[1..] + [value]
  {
  }

  class RollingSampler {
    const capacity: nat
    var index: nat
    var values: seq<real>
    var sum: real
    var meanCached: real
    /** Every value ever inserted. */
    ghost var history: seq<real>

    /** The buffer, read from its oldest value on, is the window; the sum is the window's. */
    ghost predicate Valid()
      reads this
    {
      && capacity > 0 && index < capacity
      && |values| == Min(|history|, capacity)
      && (|history| < capacity ==> index == 0)
      && index <= |values| && FromOldest(values, index) == Window(history, capacity)
      && sum == SumOf(Window(history, capacity))
      && meanCached == if history == [] then 0.0 else sum / |values| as real
    }

    constructor (size: nat)
      requires size > 0
      ensures Valid() && history == [] && capacity == size
    {
      capacity, index, values, sum, meanCached, history := size, 0, [], 0.0, 0.0, [];
    }

    /** However often the buffer has wrapped around, the mean is that of the last values inserted. */
    method InsertValue(value: real)
      requires Valid()
      modifies this
      ensures Valid() && history == old(history) + [value]
      ensures var w := Window(history, capacity); w != [] && meanCached == SumOf(w) / |w| as real
    {
      hide SumOf, Window;
      WindowMoves(history, value, capacity);
      if |values| < capacity {
        values := values + [value];
        sum := sum + value;
      } else {
        OverwriteOldest(values, index, value);
        sum := sum - values[index];
        sum := sum + value;
        values := values[index := value];
        index := index + 1;
        if index >= capacity {
          index := 0;
        }
      }
      history := history + [value];
      meanCached := sum / |values| as real;
    }

    method GetMean() returns (mean: real)
      requires Valid()
      ensures history == [] ==> mean == 0.0
      ensures history != [] ==>
                var w := Window(history, capacity);
                mean * |w| as real == SumOf(w) && |w| == Min(|history|, capacity)
    {
      mean := meanCached;
    }
  }
}
