/** Monotonicity facts about multiplication and division used by the fee, quorum, reward and decay proofs. */
module Arith {

  lemma MulMonotone(x: nat, a: nat, b: nat)
    requires a <= b
    ensures x * a <= x * b
  {
    assert x * b == x * a + x * (b - a);
  }

  lemma DivMonotone(a: int, b: int, d: nat)
    requires 0 <= a <= b && d > 0
    ensures a / d <= b / d
  {
    var qa, qb := a / d, b / d;
    assert qa * d <= a && b < qb * d + d;
    var x := qa - qb - 1;
    assert x * d == qa * d - qb * d - d;
    NegativeFactor(x, d);
  }

  lemma NegativeFactor(x: int, d: nat)
    requires d > 0 && x * d < 0
    ensures x < 0
  {
  }

  /** The quotient is the one multiple of `d` that `a` lies within. */
  lemma DivUnique(a: int, d: nat, q: int)
    requires d > 0 && q * d <= a < q * d + d
    ensures a / d == q
  {
    var q' := a / d;
    var x := q - q';
    assert x * d == q * d - q' * d;
    assert (x - 1) * d == x * d - d;
    NegativeFactor(x - 1, d);
    assert (-x - 1) * d == -(x * d) - d;
    NegativeFactor(-x - 1, d);
  }

  /** At most `d` shares of `a / d` add up to at most `a`. */
  lemma SharesWithin(n: nat, a: nat, d: nat)
    requires 0 < d && n <= d
    ensures n * (a / d) <= a
  {
    var q := a / d;
    MulMonotone(q, n, d);
    assert n * q == q * n && d * q == q * d;
    assert d * q + a % d == a;
  }

  /**
   * `s` added up `n` times. Kept apart from `n * s` so that invariants
   * stated with it stay linear; `RepeatedIsProduct` connects the two.
   */
  function Repeated(n: nat, s: int): int {
    if n == 0 then 0 else Repeated(n - 1, s) + s
  }

  lemma {:induction false} RepeatedIsProduct(n: nat, s: int)
    ensures Repeated(n, s) == n * s
  {
    if n > 0 {
      RepeatedIsProduct(n - 1, s);
      assert n * s == (n - 1) * s + s;
    }
  }
}
