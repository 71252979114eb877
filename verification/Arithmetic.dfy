/** Laws of products, quotients and remainders. */
module Arithmetic {

  lemma Distribute(n: nat, p: nat, q: nat)
    requires p <= q
    ensures n * (q - p) == n * q - n * p
  {
  }

  lemma AtLeastOnce(n: nat, k: nat)
    requires k >= 1
    ensures n * k >= n
  {
  }

  lemma QuotientUnique(a: nat, n: nat, q: nat, r: nat)
    requires n > 0 && r < n && a == n * q + r
    ensures a / n == q && a % n == r
  {
    var p, s := a / n, a % n;
    assert a == n * p + s;
    if p < q {
      Distribute(n, p, q);
      AtLeastOnce(n, q - p);
    } else if p > q {
      Distribute(n, q, p);
      AtLeastOnce(n, p - q);
    }
  }

  lemma DivideBelow(a: nat, n: nat)
    requires a < n
    ensures a / n == 0
  {
  }

  lemma DivideStep(a: nat, n: nat)
    requires n > 0
    ensures (a + n) / n == a / n + 1
  {
    assert a == n * (a / n) + a % n;
    assert a + n == n * (a / n + 1) + a % n;
    QuotientUnique(a + n, n, a / n + 1, a % n);
  }

  /** The largest multiple of n up to a. */
  lemma LastMultiple(a: nat, n: nat)
    requires n > 0
    ensures a - a % n >= 0 && (a - a % n) % n == 0
  {
    assert a == n * (a / n) + a % n;
    QuotientUnique(n * (a / n), n, a / n, 0);
  }

  lemma NoLaterMultiple(a: nat, m: nat, n: nat)
    requires n > 0 && m % n == 0 && a - a % n <= m <= a
    ensures m == a - a % n
  {
    var q, k := a / n, m / n;
    assert a == n * q + a % n && m == n * k;
    if k > q {
      Distribute(n, q, k);
      AtLeastOnce(n, k - q);
    } else if k < q {
      Distribute(n, k, q);
      AtLeastOnce(n, q - k);
    }
  }
}
