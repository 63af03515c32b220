/** Options, bounded machine integers, and the few numeric helpers of the C++ standard
    library that the modelled code leans on. */
module Prelude {

  datatype Option<+T> = None | Some(value: T)

  type uint32 = n: int | 0 <= n < 0x1_0000_0000
  type uint64 = n: int | 0 <= n < 0x1_0000_0000_0000_0000
  type int32 = n: int | -0x8000_0000 <= n < 0x8000_0000

  const UINT64_RANGE: nat := 0x1_0000_0000_0000_0000

  /** What a 32-bit register keeps of a sum or difference. */
  function ToUint32(n: int): (r: uint32)
    ensures 0 <= n < 0x1_0000_0000 ==> r == n
  {
    n % 0x1_0000_0000
  }

  function Min(a: int, b: int): int {
    if a <= b then a else b
  }

  function Max(a: int, b: int): int {
    if a >= b then a else b
  }

  function MinReal(a: real, b: real): real {
    if a <= b then a else b
  }

  function MaxReal(a: real, b: real): real {
    if a >= b then a else b
  }

  function AbsReal(a: real): real {
    if a >= 0.0 then a else -a
  }

  /** std::clamp */
  function Clamp(x: real, lo: real, hi: real): real {
    if x < lo then lo else if hi < x then hi else x
  }

  /** std::lround: nearest integer, halves away from zero */
  function Round(x: real): (r: int)
    ensures x >= 0.0 ==> x - 0.5 < r as real <= x + 0.5
    ensures x <= 0.0 ==> x - 0.5 <= r as real < x + 0.5
  {
    if x >= 0.0 then (x + 0.5).Floor else -((0.5 - x).Floor)
  }

  /** A floating-point value cast to an integer: truncation toward zero */
  function Truncate(x: real): (r: int)
    ensures x >= 0.0 ==> 0.0 <= r as real <= x < r as real + 1.0
    ensures x <= 0.0 ==> r as real - 1.0 < x <= r as real <= 0.0
  {
    if x >= 0.0 then x.Floor else -((-x).Floor)
  }

  /** The unsigned idiom `(n + d - 1) / d` */
  function CeilDiv(n: nat, d: nat): nat
    requires d > 0
  {
    (n + d - 1) / d
  }

  lemma MulMonotone(a: int, b: int, d: nat)
    ensures a <= b ==> a * d <= b * d
  {
  }

  lemma NotNegative(x: real, y: real)
    requires x >= 0.0 && y >= 0.0
    ensures x * y >= 0.0
  {
  }

  /** The quotient that `CeilDiv` computes is the least one that covers `n`. */
  lemma CeilDivBounds(n: nat, d: nat)
    requires d > 0
    ensures n <= CeilDiv(n, d) * d
    ensures n > 0 ==> CeilDiv(n, d) > 0 && (CeilDiv(n, d) - 1) * d < n
    ensures n == 0 ==> CeilDiv(n, d) == 0
  {
  }

  /** ... and the only one. */
  lemma CeilDivUnique(n: nat, d: nat, q: nat)
    requires d > 0 && n > 0
    requires (q - 1) * d < n <= q * d
    ensures CeilDiv(n, d) == q
  {
    CeilDivBounds(n, d);
    var c := CeilDiv(n, d);
    MulMonotone(c, q - 1, d);
    MulMonotone(q, c - 1, d);
  }

  /** Anything that covers `n` is at least `CeilDiv`. */
  lemma CeilDivLeast(n: nat, d: nat, q: nat)
    requires d > 0
    requires n <= q * d
    ensures CeilDiv(n, d) <= q
  {
    CeilDivBounds(n, d);
    MulMonotone(q, CeilDiv(n, d) - 1, d);
  }

  /** Taking at least one divisor's worth away brings the quotient down. */
  lemma CeilDivDecreases(n: nat, d: nat, taken: nat)
    requires d > 0 && d <= taken < n
    ensures CeilDiv(n - taken, d) < CeilDiv(n, d)
  {
    CeilDivBounds(n, d);
    var c := CeilDiv(n, d);
    assert (c - 1) * d == c * d - d;
    CeilDivLeast(n - taken, d, c - 1);
  }

  function PowerOfTwo(n: nat): (r: real)
    ensures r >= 1.0
  {
    if n == 0 then 1.0 else 2.0 * PowerOfTwo(n - 1)
  }

  lemma {:induction false} PowerGrows(m: nat, n: nat)
    requires m <= n
    ensures PowerOfTwo(m) <= PowerOfTwo(n)
  {
    if m < n {
      PowerGrows(m, n - 1);
    }
  }
}
