/** Products, quotients and their order. */
module Arithmetic {
  lemma OneMore(n: int, m: int)
    ensures (n + 1) * m == n * m + m && m * (n + 1) == m * n + m
  {
  }

  lemma Distribute(n: int, a: int, b: int)
    ensures n * (a + b) == n * a + n * b
  {
  }

  lemma TimesIsMonotone(n: int, a: int, b: int)
    requires n >= 0 && a <= b
    ensures n * a <= n * b
  {
  }

  /** The quotient and remainder are the only ones there are. */
  lemma QuotientIs(t: int, d: int, q: int, r: int)
    requires d > 0 && t == q * d + r && 0 <= r < d
    ensures t / d == q
  {
    var q' := t / d;
    assert t == q' * d + t % d;
    if q' > q { TimesIsMonotone(d, q + 1, q'); }
    if q' < q { TimesIsMonotone(d, q' + 1, q); }
  }

  /** The quotient is the largest multiple that fits. */
  lemma QuotientIsLargestMultiple(a: int, d: int, k: int)
    requires d > 0
    ensures k * d <= a <==> k <= a / d
  {
    var q := a / d;
    assert q * d <= a < q * d + d;
    if k <= q {
      TimesIsMonotone(d, k, q);
    } else {
      TimesIsMonotone(d, q + 1, k);
    }
  }

  lemma IntQuotientsAreOrdered(a: int, b: int, d: int)
    requires a <= b && d > 0
    ensures a / d <= b / d
  {
    assert a / d * d <= a;
    QuotientIsLargestMultiple(b, d, a / d);
  }

  lemma ProductsAreOrdered(a: real, b: real, c: real)
    requires a <= b && c >= 0.0
    ensures a * c <= b * c
  {
  }

  lemma QuotientsAreOrdered(a: real, b: real, d: real)
    requires a <= b && d > 0.0
    ensures a / d <= b / d
  {
  }
}
