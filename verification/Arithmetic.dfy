/** Facts about products and quotients. */
module Arithmetic {

  function Pow256(n: nat): (p: nat)
    ensures p >= 1
  {
    if n == 0 then 1 else 0x100 * Pow256(n - 1)
  }

  function Pow(b: nat, n: nat): nat {
    if n == 0 then 1 else b * Pow(b, n - 1)
  }

  lemma MulMono(d: nat, a: nat, b: nat)
    requires a <= b
    ensures d * a <= d * b
  {
    assert d * b == d * a + d * (b - a);
  }

  /** A quotient is determined by its remainder. */
  lemma Quotient(x: nat, d: nat, q: nat, r: nat)
    requires d > 0 && x == d * q + r && r < d
    ensures x / d == q && x % d == r
  {
    var q' := x / d;
    assert d * q' <= x < d * q' + d;
    assert d * (q' + 1) == d * q' + d && d * (q + 1) == d * q + d;
    if q' < q {
      MulMono(d, q' + 1, q);
    } else if q' > q {
      MulMono(d, q + 1, q');
    }
  }

  lemma Grows(p: nat, q: nat)
    requires p > 0
    ensures p * q >= q
    ensures p * (0 - q) == 0 - p * q
  {
    assert p * q == (p - 1) * q + q;
  }

  /** Quotient and remainder of integers are determined. */
  lemma OneRemainder(x: int, d: int, q: int, r: int)
    requires 0 <= r < d && x == d * q + r
    ensures x / d == q && x % d == r
  {
    var k := x / d - q;
    assert d * k == d * (x / d) - d * q == r - x % d;
    if k > 0 { MultipleGrows(d, k); }
    if k < 0 { MultipleGrows(d, 0 - k); }
  }

  lemma MultipleGrows(d: nat, k: nat)
    requires k >= 1
    ensures d * k >= d
    ensures d * (0 - k) == 0 - d * k
  {
    assert d * k == d * (k - 1) + d;
  }
}
