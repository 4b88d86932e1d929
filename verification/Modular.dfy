/** Facts about remainders, stated once so that no other proof touches `%` directly. */
module Modular {

  lemma Quotient(a: int, n: int)
    requires n > 0
    ensures a == (a / n) * n + a % n && 0 <= a % n < n
  {}

  lemma AtLeastOne(d: int, n: int)
    requires d >= 1 && n > 0
    ensures d * n >= n
    ensures -d * n <= -n
  {
    assert (d - 1) * n >= 0;
    assert (d - 1) * n == d * n - n;
    assert -d * n == -(d * n);
  }

  /** A multiple of `n` strictly between `-n` and `n` is zero. */
  lemma NoSmallMultiple(d: int, n: int)
    requires n > 0 && -n < d * n < n
    ensures d == 0
  {
    if d > 0 {
      AtLeastOne(d, n);
    } else if d < 0 {
      AtLeastOne(-d, n);
    }
  }

  lemma Unique(a: int, n: int, q: int, r: int)
    requires n > 0 && 0 <= r < n && a == q * n + r
    ensures a % n == r
  {
    Quotient(a, n);
    assert (q - a / n) * n == q * n - (a / n) * n;
    NoSmallMultiple(q - a / n, n);
  }

  lemma Add(a: int, b: int, n: int)
    requires n > 0
    ensures (a + b) % n == (a % n + b) % n
  {
    Quotient(a, n);
    Quotient(a % n + b, n);
    var q, r := (a % n + b) / n, (a % n + b) % n;
    assert (a / n + q) * n == (a / n) * n + q * n;
    Unique(a + b, n, a / n + q, r);
  }

  /** A multiple of a multiple of `n` does not count. */
  lemma DropMultiple(k: int, m: int, a: int, n: int)
    requires n > 0 && m % n == 0
    ensures (k * m + a) % n == a % n
  {
    Quotient(m, n);
    Quotient(a, n);
    assert k * m == k * (m / n) * n;
    assert (k * (m / n) + a / n) * n == k * (m / n) * n + (a / n) * n;
    Unique(k * m + a, n, k * (m / n) + a / n, a % n);
  }

  lemma Turn(a: int, n: int)
    requires n > 0
    ensures (a + n) % n == a % n
  {
    Quotient(a, n);
    assert (a / n + 1) * n == (a / n) * n + n;
    Unique(a + n, n, a / n + 1, a % n);
  }

  lemma Small(a: int, n: int)
    requires 0 <= a < n
    ensures a % n == a
  {
    Unique(a, n, 0, a);
  }

  /** Less than one turn apart, equal remainders mean equal numbers. */
  lemma Injective(a: int, b: int, n: int)
    requires n > 0 && a <= b < a + n && a % n == b % n
    ensures a == b
  {
    Quotient(a, n);
    Quotient(b, n);
    assert (b / n - a / n) * n == (b / n) * n - (a / n) * n;
    NoSmallMultiple(b / n - a / n, n);
  }

  /** How far `[c, c + n)` must be entered to meet remainder `s`. */
  function Offset(c: nat, s: nat, n: nat): nat
    requires s < n
  {
    Quotient(c, n);
    if s >= c % n then s - c % n else s - c % n + n
  }

  lemma Meets(c: nat, s: nat, n: nat)
    requires s < n
    ensures Offset(c, s, n) < n && (c + Offset(c, s, n)) % n == s
  {
    Quotient(c, n);
    Add(c, Offset(c, s, n), n);
    Small(s, n);
    Turn(s, n);
  }
}
