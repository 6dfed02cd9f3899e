/** Quotients and remainders of natural numbers. */
module DivMod {

  lemma DivModEq(n: nat, d: nat)
    requires d > 0
    ensures n == (n / d) * d + n % d && 0 <= n % d < d && 0 <= n / d
  {
  }

  /** A product of naturals is at least its factor. */
  lemma MulGe(k: int, d: nat)
    requires k >= 1
    ensures k * d >= d
  {
    assert k * d == d + (k - 1) * d;
    assert (k - 1) * d >= 0;
  }

  lemma DivUnique(n: nat, d: nat, q: int, r: int)
    requires d > 0 && n == q * d + r && 0 <= r < d
    ensures n / d == q && n % d == r
  {
    DivModEq(n, d);
    var a, b := n / d, n % d;
    assert (a - q) * d == r - b && (q - a) * d == b - r;
    if a > q {
      MulGe(a - q, d);
    } else if a < q {
      MulGe(q - a, d);
    }
  }

  /** Dividing twice is dividing by the product. */
  lemma DivDiv(n: nat, a: nat, b: nat)
    requires a > 0 && b > 0
    ensures a * b > 0 && (n / a) / b == n / (a * b)
  {
    DivModEq(n, a);
    var m := n / a;
    DivModEq(m, b);
    var q, r := m / b, m % b;
    assert a * b > 0 by { MulGe(a, b); }
    // n == (q * b + r) * a + n % a
    assert m * a == q * (a * b) + r * a by {
      assert (q * b + r) * a == (q * b) * a + r * a;
      assert (q * b) * a == q * (a * b);
    }
    assert r * a + n % a < a * b by {
      assert (r + 1) * a == r * a + a;
      MulMono(r + 1, b, a);
      assert b * a == a * b;
    }
    assert r * a >= 0 by { MulMono(0, r, a); }
    DivUnique(n, a * b, q, r * a + n % a);
  }

  lemma MulMono(x: nat, y: nat, k: nat)
    requires x <= y
    ensures x * k <= y * k
  {
    assert y * k == x * k + (y - x) * k;
  }

  /** Dividing a multiple of P by P * R. */
  lemma DivCancel(d: nat, p: nat, r: nat)
    requires p > 0 && r > 0
    ensures p * r > 0 && (d * p) / (p * r) == d / r
  {
    DivDiv(d * p, p, r);
    DivUnique(d * p, p, d, 0);
  }

  /** X < M * D gives X / D < M. */
  lemma DivLess(x: nat, d: nat, m: nat)
    requires d > 0 && x < m * d
    ensures x / d < m
  {
    DivModEq(x, d);
    if x / d >= m {
      MulMono(m, x / d, d);
    }
  }

  /** M * D <= X gives M <= X / D. */
  lemma DivAtLeast(x: nat, d: nat, m: nat)
    requires d > 0 && m * d <= x
    ensures m <= x / d
  {
    DivModEq(x, d);
    if x / d < m {
      MulMono(x / d + 1, m, d);
    }
  }

  lemma DivLe(n: nat, d: nat)
    requires d > 0
    ensures 0 <= n / d <= n
  {
    DivModEq(n, d);
    if n / d > 0 {
      MulGe(d, n / d);
      assert d * (n / d) == (n / d) * d;
    }
  }
}
