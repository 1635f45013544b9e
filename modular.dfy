/** Facts about Dafny's Euclidean `/` and `%` with a positive divisor, used by the
    cyclic-position proofs. */
module Modular {

  /** Quotient and remainder are determined by any decomposition `a == q * m + r`
      with `0 <= r < m`. */
  lemma DivModUnique(a: int, m: int, q: int, r: int)
    requires m > 0 && 0 <= r < m && a == q * m + r
    ensures a / m == q && a % m == r
  {
    var q', r' := a / m, a % m;
    assert a == q' * m + r';
    var d := q - q';
    assert d * m == r' - r;
  }

  /** Reducing the left operand of a sum first does not change the remainder of the sum. */
  lemma ModAddLeft(a: int, b: int, m: int)
    requires m > 0
    ensures (a % m + b) % m == (a + b) % m
  {
    var s := a % m + b;
    assert a == (a / m) * m + a % m;
    assert s == (s / m) * m + s % m;
    assert a + b == (a / m + s / m) * m + s % m;
    DivModUnique(a + b, m, a / m + s / m, s % m);
  }

  /** Adding a multiple of the divisor does not change the remainder. */
  lemma ModAddMultiple(a: int, k: int, m: int)
    requires m > 0
    ensures (a + k * m) % m == a % m
  {
    assert a == (a / m) * m + a % m;
    assert a + k * m == (a / m + k) * m + a % m;
    DivModUnique(a + k * m, m, a / m + k, a % m);
  }
}
