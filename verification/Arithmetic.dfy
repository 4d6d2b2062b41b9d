/** The few facts about products, quotients and remainders that the solver does not always find by itself. */
module Arithmetic {

  lemma {:induction false} MulMonotone(a: int, b: int, k: nat)
    requires a <= b
    ensures a * k <= b * k
  {
    assert b * k - a * k == (b - a) * k;
    MulNonNegative(b - a, k);
  }

  lemma {:induction false} MulNonNegative(a: nat, k: nat)
    ensures a * k >= 0
  {
  }

  lemma MulAssociative(a: int, b: int, c: int)
    ensures a * (b * c) == a * b * c
  {
  }

  lemma MulCancel(a: int, b: int, k: nat)
    requires a * k < b * k
    ensures a < b
  {
    if b <= a {
      MulMonotone(b, a, k);
    }
  }

  /** Division is determined by n == q * k + r with 0 <= r < k. */
  lemma DivModUnique(n: int, k: nat, q: int, r: int)
    requires n == q * k + r && 0 <= r < k
    ensures n / k == q && n % k == r
  {
    var q', r' := n / k, n % k;
    assert n == q' * k + r';
    assert (q + 1) * k == q * k + k && (q' + 1) * k == q' * k + k;
    MulCancel(q, q' + 1, k);
    MulCancel(q', q + 1, k);
  }

  lemma MultipleHasNoRemainder(m: int, k: nat)
    requires k > 0
    ensures (m * k) % k == 0 && (m * k) / k == m
  {
    DivModUnique(m * k, k, m, 0);
  }

  /** Comparing a * w + u with u < w is comparing a first. */
  lemma Lexicographic(a: nat, b: nat, w: int, u: int, v: int)
    requires 0 <= u < w && 0 <= v < w && a * w + u <= b * w + v
    ensures a <= b
  {
    assert (b + 1) * w == b * w + w;
    MulCancel(a, b + 1, w);
  }
}
