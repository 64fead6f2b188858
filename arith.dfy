/** Facts about natural-number multiplication, division and remainder. */
module Arith {

  /** Multiplying by a natural number is monotone. */
  lemma {:induction false} MulMonotone(a: nat, b: nat, m: nat)
    ensures a <= b ==> a * m <= b * m
    ensures m == 0 ==> b * m == 0
  {
    if a < b {
      MulMonotone(a, b - 1, m);
    }
  }

  /** Euclidean division is unique: `a == q * d + r` with `0 <= r < d` fixes both. */
  lemma DivModUnique(a: nat, d: nat, q: nat, r: nat)
    requires d > 0 && r < d && a == q * d + r
    ensures a / d == q && a % d == r
  {
    var q', r' := a / d, a % d;
    assert a == q' * d + r';
    MulMonotone(q + 1, q', d);
    MulMonotone(q' + 1, q, d);
    assert (q + 1) * d == q * d + d;
    assert (q' + 1) * d == q' * d + d;
  }

  /** Adding `k` whole multiples of `d` adds `k` to the quotient and keeps the remainder. */
  lemma DivAddMultiple(x: nat, k: nat, d: nat)
    requires d > 0
    ensures (k * d + x) / d == k + x / d && (k * d + x) % d == x % d
  {
    assert x == (x / d) * d + x % d;
    assert (k + x / d) * d == k * d + (x / d) * d;
    DivModUnique(k * d + x, d, k + x / d, x % d);
  }

  lemma ModOfSmall(x: nat, d: nat)
    requires x < d
    ensures x % d == x
  {
    DivModUnique(x, d, 0, x);
  }

  lemma DivBelow(i: nat, a: nat, b: nat)
    requires i < a * b
    ensures b > 0 && 0 <= i / b < a
  {
    assert b == 0 ==> a * b == 0;
    assert b > 0;
    MulMonotone(a, i / b, b);
  }

  /** Digit `r` of `i` in base `... * r * q` is digit `r` of `i` itself. */
  lemma ModDivMod(i: nat, c: nat, r: nat, q: nat)
    requires c > 0 && r > 0 && q > 0
    ensures c * (r * q) > 0
    ensures (i % (c * (r * q))) / q % r == (i / q) % r
  {
    var s := c * (r * q);
    MulMonotone(1, c, r * q);
    MulMonotone(1, r, q);
    var a, b := i / s, i % s;
    assert i == a * s + b;
    Associate(a, c, r, q);
    DivAddMultiple(b, a * (c * r), q);
    assert i / q == a * (c * r) + b / q;
    assert a * (c * r) == (a * c) * r;
    DivAddMultiple(b / q, a * c, r);
  }

  lemma Associate(a: nat, c: nat, r: nat, q: nat)
    ensures a * (c * (r * q)) == (a * (c * r)) * q
  {
  }

  lemma NonZeroFactors(c: nat, r: nat, q: nat)
    requires c * (r * q) > 0
    ensures c > 0 && r > 0 && q > 0
  {
  }

  /** The quotient is positive exactly when the dividend reaches the divisor. */
  lemma DivPositive(n: nat, k: nat)
    requires k > 0
    ensures n / k > 0 <==> n >= k
  {
    if n < k {
      DivModUnique(n, k, 0, n);
    } else {
      DivAddMultiple(n - k, 1, k);
    }
  }
}
