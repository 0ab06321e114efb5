/** Products, quotients and remainders. */
module Arithmetic {
  lemma MulMono(a: nat, b: nat, c: nat)
    requires a <= b
    ensures a * c <= b * c
  {
  }

  lemma MulCancel(a: nat, b: nat, c: nat)
    requires a * c < b * c
    ensures a < b
  {
  }

  /** Quotient and remainder are unique. */
  lemma ModIs(n: nat, d: nat, q: nat, r: nat)
    requires d > 0 && n == q * d + r && r < d
    ensures n % d == r
  {
    var p, m := n / d, n % d;
    assert n == p * d + m;
    SameQuotient(d, p, m, q, r);
  }

  lemma SameQuotient(d: nat, p: nat, m: nat, q: nat, r: nat)
    requires p * d + m == q * d + r && m < d && r < d
    ensures p == q
  {
    assert p < q + 1 by {
      assert (q + 1) * d == q * d + d;
      MulCancel(p, q + 1, d);
    }
    assert q < p + 1 by {
      assert (p + 1) * d == p * d + d;
      MulCancel(q, p + 1, d);
    }
  }
}
