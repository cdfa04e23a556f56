/** Facts about products and remainders that the solver does not find by itself. */
module Arithmetic {
  lemma Multiply(a: int, b: int, n: int)
    requires a <= b && 0 <= n
    ensures a * n <= b * n
  {
    assert (b - a) * n >= 0;
  }

  lemma OnlyZero(a: int, n: int)
    requires -n < a * n < n
    ensures a == 0
  {
    if a >= 1 {
      Multiply(1, a, n);
    } else if a <= -1 {
      Multiply(a, -1, n);
    }
  }

  lemma ModUnique(q: int, r: int, n: nat)
    requires 0 <= r < n
    ensures (q * n + r) % n == r && (q * n + r) / n == q
  {
    var m := q * n + r;
    assert (q - m / n) * n == m % n - r;
    OnlyZero(q - m / n, n);
  }

  lemma AddMultiple(m: int, q: int, n: nat)
    requires 0 < n
    ensures (m + q * n) % n == m % n
  {
    ModUnique(m / n + q, m % n, n);
    assert (m / n + q) * n == m / n * n + q * n;
  }

  lemma ScaledRemainder(k: nat, y: nat, m: nat)
    requires 0 < m && 0 < k
    ensures (k * y) % (k * m) == k * (y % m)
  {
    var q, r := y / m, y % m;
    Multiply(r + 1, m, k);
    assert k * y == q * (k * m) + k * r;
    ModUnique(q, k * r, k * m);
  }
}
