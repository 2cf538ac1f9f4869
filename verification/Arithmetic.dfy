/**
 Facts about products and quotients that the modules share.
 */
module Arithmetic {

  lemma Spread(d: int, q: nat)
    ensures d >= 1 ==> d * q >= q
    ensures d <= -1 ==> d * q <= 0 - q
  {
  }

  lemma Larger(a: nat, b: nat, c: nat, d: nat)
    requires a <= b && c <= d
    ensures a * c <= b * d
  {
    assert a * c <= b * c;
  }

  /** What is left below the divisor is the remainder. */
  lemma Quotient(x: nat, p: nat, q: nat, r: nat)
    requires x == q * p + r && r < p
    ensures x / p == q && x % p == r
  {
    var k := x / p;
    assert (q - k) * p == x % p - r;
    Spread(q - k, p);
  }

  lemma Multiple(a: nat, q: nat)
    requires q > 0
    ensures (a * q) % q == 0
  {
    Quotient(a * q, q, a, 0);
  }

  lemma HalfThen(y: nat, p: nat)
    requires p > 0
    ensures y / (2 * p) == y / 2 / p
  {
    var q, r := y / 2 / p, y / 2 % p;
    assert y / 2 == q * p + r;
    assert y == q * (2 * p) + (2 * r + y % 2);
    Quotient(y, 2 * p, q, 2 * r + y % 2);
  }
}
