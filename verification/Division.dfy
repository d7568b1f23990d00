/** Quotients and remainders pinned down by the equation that defines them. */
module Division {

  lemma ModIs(a: nat, q: nat, r: nat, n: nat)
    requires n > 0 && r < n && a == q * n + r
    ensures a % n == r && a / n == q
  {
    var q', r' := a / n, a % n;
    assert a == q' * n + r';
    if q' < q {
      assert (q' + 1) * n <= q * n by { MulLe(q' + 1, q, n); }
    } else if q < q' {
      assert (q + 1) * n <= q' * n by { MulLe(q + 1, q', n); }
    }
  }

  lemma MulLe(a: nat, b: nat, n: nat)
    requires a <= b
    ensures a * n <= b * n
  {
    assert b * n == a * n + (b - a) * n;
  }

  lemma Halved(x: nat, p: nat)
    requires p > 0
    ensures x / (2 * p) == x / p / 2 && x % (2 * p) == x / p % 2 * p + x % p
  {
    var q, r := x / p, x % p;
    Recombine(q, p, r);
    ModIs(x, q / 2, q % 2 * p + r, 2 * p);
  }

  lemma Recombine(q: nat, p: nat, r: nat)
    requires r < p
    ensures q * p + r == q / 2 * (2 * p) + (q % 2 * p + r) && q % 2 * p + r < 2 * p
  {
    var h, b := q / 2, q % 2;
    assert q == 2 * h + b;
    assert q * p == h * (2 * p) + b * p;
  }

  /** The remainder of the next number. */
  lemma ModSuccessor(a: nat, n: nat)
    requires n > 0
    ensures (a + 1) % n == if a % n + 1 == n then 0 else a % n + 1
  {
    var q, r := a / n, a % n;
    if r + 1 == n {
      ModIs(a + 1, q + 1, 0, n) by { assert (q + 1) * n == q * n + n; }
    } else {
      ModIs(a + 1, q, r + 1, n);
    }
  }

  /** What is missing to the next multiple. */
  lemma PaddedIs(a: nat, n: nat)
    requires n > 0
    ensures (a + (n - a % n)) % n == 0
  {
    var q := a / n;
    assert a + (n - a % n) == (q + 1) * n + 0 by { assert (q + 1) * n == q * n + n; }
    ModIs(a + (n - a % n), q + 1, 0, n);
  }
}
