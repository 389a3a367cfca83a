/** Quotients and remainders by a variable. */
module Division {
  lemma {:induction false} NoMultiple(d: int, n: int, e: int)
    requires d * n == e && -n < e < n
    ensures d == 0
  {
  }

  lemma Difference(q: int, p: int, n: int)
    ensures (q - p) * n == q * n - p * n
  {
  }

  /** Quotient and remainder are determined. */
  lemma {:induction false} DivModUnique(x: int, n: int, q: int, r: int)
    requires 0 <= r < n && x == q * n + r
    ensures x / n == q && x % n == r
  {
    var p, t := x / n, x % n;
    assert x == p * n + t && 0 <= t < n;
    Difference(q, p, n);
    NoMultiple(q - p, n, t - r);
  }
}
