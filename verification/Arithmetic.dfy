/** Products of integers, one fact at a time, where the solver needs them spelt out. */
module Arithmetic {
  lemma Successor(n: int, w: int)
    ensures (n + 1) * w == n * w + w
  {
  }

  lemma ProductNonNegative(a: int, b: int)
    requires a >= 0 && b >= 0
    ensures a * b >= 0
  {
  }

  lemma Distribute(a: int, b: int, w: int)
    ensures (a + b) * w == a * w + b * w
  {
  }

  lemma ScaleMonotone(m: int, n: int, w: int)
    requires m <= n && w >= 0
    ensures m * w <= n * w
  {
    ProductNonNegative(n - m, w);
    Distribute(m, n - m, w);
  }

  lemma ScaleOrder(m: int, n: int, w: int)
    requires w >= 1
    ensures m < n ==> m * w < n * w
  {
    if m < n {
      ScaleMonotone(m + 1, n, w);
      Successor(m, w);
    }
  }

  lemma Regroup(a: int, b: int, c: int)
    ensures a * (b * c) == b * (a * c) == (a * b) * c
  {
  }

  lemma Swap(a: int, b: int)
    ensures a * b == b * a
  {
  }
}
