/** What several components share. */
module Wrappers {
  datatype Option<T> = Some(value: T) | None
}

/** Powers of two. */
module PowersOfTwo {
  function Pow2(n: nat): (p: nat)
    ensures p > 0
  {
    if n == 0 then 1 else 2 * Pow2(n - 1)
  }

  lemma {:induction false} Pow2Sum(a: nat, b: nat)
    ensures Pow2(a + b) == Pow2(a) * Pow2(b)
    decreases b
  {
    if b > 0 {
      Pow2Sum(a, b - 1);
      assert Pow2(a + b) == 2 * Pow2(a + (b - 1));
      Doubled(Pow2(a), Pow2(b - 1));
    }
  }

  lemma {:induction false} Doubled(x: nat, y: nat)
    ensures x * (2 * y) == 2 * (x * y)
  {}
}
