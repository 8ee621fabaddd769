/** The few facts about products and quotients that index arithmetic needs. */
module Arithmetic {
  lemma MultiplyOrdered(x: nat, y: nat, d: nat)
    requires x <= y
    ensures x * d <= y * d
  {
    assert (y - x) * d >= 0;
  }

  /** Quotient and remainder are the only pair that recombines. */
  lemma DivideUnique(v: nat, d: nat, q: nat, r: nat)
    requires d > 0 && r < d && v == q * d + r
    ensures v / d == q && v % d == r
  {
    var q', r' := v / d, v % d;
    assert v == d * q' + r';
    assert (q - q') * d == r' - r;
    if q - q' >= 1 {
      MultiplyOrdered(1, q - q', d);
    } else if q' - q >= 1 {
      MultiplyOrdered(1, q' - q, d);
    }
  }

  lemma DivideTwice(v: nat, a: nat, b: nat)
    requires a > 0 && b > 0
    ensures a * b > 0 && v / (a * b) == v / a / b
  {
    MultiplyOrdered(1, a, b);
    Nested(v, a, b, a * b, v / a, v % a, v / a / b, v / a % b);
  }

  lemma Nested(v: nat, a: nat, b: nat, d: nat, q: nat, r: nat, q': nat, r': nat)
    requires d == a * b > 0
    requires v == a * q + r && r < a && q == b * q' + r' && r' < b
    ensures v / d == q'
  {
    Recombined(q', r', r, a, b);
    DivideUnique(v, d, q', r' * a + r);
  }

  lemma Recombined(q: nat, r: nat, low: nat, a: nat, b: nat)
    requires r < b && low < a
    ensures r * a + low < a * b
    ensures a * (b * q + r) + low == q * (a * b) + (r * a + low)
  {
    MultiplyOrdered(r, b - 1, a);
    assert a * (b * q) == q * (a * b);
  }

  /** Numbers less than `n` apart differ modulo `n`. */
  lemma ApartModulo(x: nat, y: nat, n: nat)
    requires x < y < x + n
    ensures x % n != y % n
  {
    if x % n == y % n {
      var k, m := x / n, y / n;
      assert x == n * k + x % n && y == n * m + y % n;
      if k < m {
        MultiplyOrdered(k + 1, m, n);
      } else {
        MultiplyOrdered(m, k, n);
      }
    }
  }
}
