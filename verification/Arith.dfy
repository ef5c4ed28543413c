/** Remainders by a variable modulus. */
module Arith {

  lemma MulAtLeast(k: int, n: int)
    requires k > 0 && n >= 0
    ensures k * n >= n
  {
  }

  lemma SmallMultiple(d: int, n: int)
    requires -n < d * n < n
    ensures d == 0
  {
    if d > 0 { MulAtLeast(d, n); }
    if d < 0 { MulAtLeast(-d, n); }
  }

  lemma UniqueRemainder(n: nat, q: int, r: nat, x: nat)
    requires n > 0 && r < n && x == q * n + r
    ensures x % n == r && x / n == q
  {
    assert x == x / n * n + x % n;
    assert (x / n - q) * n == r - x % n;
    SmallMultiple(x / n - q, n);
  }

  /** Distinct congruent numbers are at least the modulus apart. */
  lemma CongruentGap(n: nat, a: nat, b: nat)
    requires n > 0 && a < b && a % n == b % n
    ensures a + n <= b
  {
    assert a == a / n * n + a % n && b == b / n * n + b % n;
    var d := b / n - a / n;
    assert d * n == b - a;
    assert d > 0;
    MulAtLeast(d, n);
  }

  lemma AddModulus(n: nat, a: nat)
    requires n > 0
    ensures (a + n) % n == a % n
  {
    assert a == a / n * n + a % n;
    assert (a / n + 1) * n == a / n * n + n;
    UniqueRemainder(n, a / n + 1, a % n, a + n);
  }
}
