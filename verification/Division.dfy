/** Facts about quotients and remainders by a variable divisor. */
module Division {
  lemma MulAtLeast(q: nat, d: nat)
    requires q > 0
    ensures d <= q * d
  {
  }

  lemma DivBounds(a: nat, d: nat)
    requires d > 0
    ensures (a / d) * d <= a < (a / d) * d + d
    ensures a / d <= a
  {
    var q, r := a / d, a % d;
    assert a == d * q + r && 0 <= r < d;
    if q > 0 {
      MulAtLeast(d, q);
    }
  }

  lemma NextMultiple(p: nat, q: nat, d: nat)
    requires p < q
    ensures p * d + d <= q * d
  {
    MulAtLeast(q - p, d);
    assert q * d == p * d + (q - p) * d;
  }

  /** Only one quotient has the right bounds. */
  lemma QuotientIsUnique(p: nat, q: nat, d: nat, a: nat)
    requires q * d <= a < q * d + d
    requires p * d <= a < p * d + d
    ensures p == q
  {
    if p < q {
      NextMultiple(p, q, d);
    } else if q < p {
      NextMultiple(q, p, d);
    }
  }

  lemma QuotientAndRemainder(k: nat, n: nat, q: nat, r: nat)
    requires r < n && k == q * n + r
    ensures k / n == q && k % n == r
  {
    DivBounds(k, n);
    QuotientIsUnique(k / n, q, n, k);
    assert k == n * (k / n) + k % n;
  }

  /** Counting modulo `n`. */
  lemma NextModulo(k: nat, n: nat)
    requires n > 0
    ensures (k + 1) % n == if k % n + 1 == n then 0 else k % n + 1
  {
    var q, r := k / n, k % n;
    assert k == n * q + r && 0 <= r < n;
    if r + 1 == n {
      assert k + 1 == (q + 1) * n + 0;
      QuotientAndRemainder(k + 1, n, q + 1, 0);
    } else {
      QuotientAndRemainder(k + 1, n, q, r + 1);
    }
  }
}
