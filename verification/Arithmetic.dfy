/** Facts about products, quotients and remainders that the solver needs spelled out. */
module Arithmetic {

  lemma MulMonotone(x: nat, y: nat, g: nat)
    requires x <= y
    ensures x * g <= y * g
  {
    assert y * g == x * g + (y - x) * g;
  }

  lemma QuotientBound(a: nat, g: nat, t: nat)
    requires g > 0 && a * g <= t
    ensures a <= t / g
  {
    var q := t / g;
    assert (q + 1) * g == q * g + g > t;
    if q + 1 <= a { MulMonotone(q + 1, a, g); }
  }

  lemma NegativeMultiple(x: int, d: nat)
    requires x <= -1
    ensures x * d <= 0 - d
  {
    MulMonotone(1, 0 - x, d);
    assert (0 - x) * d == 0 - x * d;
  }

  lemma SmallMultiple(x: int, d: nat)
    requires 0 - d < x * d < d
    ensures x == 0
  {
    if x >= 1 { MulMonotone(1, x, d); }
    if x <= -1 { NegativeMultiple(x, d); }
  }

  lemma RemainderUnique(a: int, d: nat, q: int, r: nat)
    requires d > 0 && r < d && a == q * d + r
    ensures a % d == r
  {
    assert (a / d - q) * d == r - a % d;
    SmallMultiple(a / d - q, d);
  }

  lemma MultipleMod(q: int, d: nat)
    requires d > 0
    ensures (q * d) % d == 0
  {
    RemainderUnique(q * d, d, q, 0);
  }

  lemma ModShift(x: nat, n: nat)
    requires n > 0
    ensures (x + n) % n == x % n
  {
    var q := x / n;
    assert x + n == (q + 1) * n + x % n;
    RemainderUnique(x + n, n, q + 1, x % n);
  }
}
