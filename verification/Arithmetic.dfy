/** Facts about division and remainders, and ordered real arithmetic. */
module Arithmetic {
  const U32_MAX: nat := 0xffff_ffff

  lemma MulAtLeast(d: int, n: int)
    requires d >= 1 && n >= 0
    ensures d * n >= n
  {
  }

  lemma MulOrder(a: nat, b: nat, c: nat)
    requires a <= b
    ensures a * c <= b * c
  {
  }

  /** Quotient and remainder are determined by their equation. */
  lemma DivisionUnique(v: int, n: int, q: int, r: int)
    requires n > 0 && v == q * n + r && 0 <= r < n
    ensures v / n == q && v % n == r
  {
    var d := v / n - q;
    assert d * n == r - v % n by {
      assert v == (v / n) * n + v % n;
      assert (v / n) * n - q * n == (v / n - q) * n;
    }
    if d >= 1 {
      MulAtLeast(d, n);
    } else if d <= -1 {
      MulAtLeast(-d, n);
    }
  }

  lemma DivideTwice(v: nat, m: nat)
    requires m > 0
    ensures v / (2 * m) == (v / 2) / m
  {
    var q, r := (v / 2) / m, (v / 2) % m;
    assert v / 2 == q * m + r;
    assert q * (2 * m) == 2 * (q * m);
    DivisionUnique(v, 2 * m, q, 2 * r + v % 2);
  }

  lemma ModOfSum(x: nat, n: nat)
    requires n > 0
    ensures (x + n) % n == x % n
  {
    assert (x / n + 1) * n == (x / n) * n + n;
    DivisionUnique(x + n, n, x / n + 1, x % n);
  }

  /** Two different numbers with one remainder are at least a modulus apart. */
  lemma CongruentApart(x: nat, y: nat, n: nat)
    requires n > 0 && x < y && x % n == y % n
    ensures x + n <= y
  {
    var d := y / n - x / n;
    assert y - x == d * n by {
      assert x == (x / n) * n + x % n && y == (y / n) * n + y % n;
      assert (y / n) * n - (x / n) * n == (y / n - x / n) * n;
    }
    if d <= 0 {
      MulNonPositive(d, n);
    } else {
      MulAtLeast(d, n);
    }
  }

  lemma MulNonPositive(d: int, n: nat)
    requires d <= 0
    ensures d * n <= 0
  {
  }

  lemma DivideShrinks(x: nat, n: nat)
    requires n > 0
    ensures x / n <= x
  {
    var q := x / n;
    assert n * q <= x;
    MulAtLeast(n, q);
  }

  lemma PositiveQuotient(n: nat, d: nat)
    requires d > 0
    ensures n / d > 0 <==> n >= d
  {
    var q, r := n / d, n % d;
    assert n == q * d + r;
    if q > 0 {
      MulAtLeast(q, d);
    }
  }
}
