/** Values shared by every component model. */
module Prelude {

  datatype Option<+T> = None | Some(value: T)

  /** The range of Go's int64, which also carries time.Duration in nanoseconds. */
  const MAX_INT64: int := 0x7FFF_FFFF_FFFF_FFFF

  const SECOND: int := 1_000_000_000
  const MINUTE: int := 60 * SECOND

  function Min(a: int, b: int): int {
    if a <= b then a else b
  }

  function Max(a: int, b: int): int {
    if a >= b then a else b
  }

  /** 2 to the power k. */
  function Pow2(k: nat): (p: nat)
    ensures p >= 1
  {
    if k == 0 then 1 else 2 * Pow2(k - 1)
  }

  lemma {:induction false} Pow2Monotone(j: nat, k: nat)
    requires j <= k
    ensures Pow2(j) <= Pow2(k)
    decreases k - j
  {
    if j < k {
      Pow2Monotone(j + 1, k);
    }
  }

  lemma {:induction false} PowerSum(j: nat, k: nat)
    ensures Pow2(j + k) == Pow2(j) * Pow2(k)
  {
    if j > 0 {
      PowerSum(j - 1, k);
      assert Pow2(j) == 2 * Pow2(j - 1) && Pow2(j + k) == 2 * Pow2(j - 1 + k);
      Regroup(2, Pow2(j - 1), Pow2(k));
    }
  }

  lemma Regroup(a: int, b: int, c: int)
    ensures (a * b) * c == a * (b * c)
  {
  }

  lemma Scale(c: int, x: int, y: int)
    requires c >= 0 && x <= y
    ensures c * x <= c * y
  {
  }

  lemma Distribute(l: int, k: int)
    ensures l * (k + 1) == l + l * k
  {
  }

  lemma QuotientBounds(t: int, c: int)
    requires c > 0
    ensures c * (t / c) <= t < c * (t / c) + c
  {
  }
}
