/** Elementary facts about products and quotients of reals, each small enough to be used by name. */
module Reals {
  function Min(a: real, b: real): real { if a <= b then a else b }

  function Max(a: real, b: real): real { if a >= b then a else b }

  function Abs(a: real): real { if a >= 0.0 then a else -a }

  function Square(a: real): (r: real)
    ensures r >= 0.0
  {
    a * a
  }

  lemma ZeroProduct(x: real, y: real)
    requires x * y == 0.0
    ensures x == 0.0 || y == 0.0
  {}

  lemma PositiveSquare(x: real)
    requires x != 0.0
    ensures Square(x) > 0.0
  {
    assert Square(x) == x * x;
    if Square(x) == 0.0 { ZeroProduct(x, x); }
  }

  lemma NonNegativeProduct(x: real, y: real)
    requires x >= 0.0 && y >= 0.0
    ensures x * y >= 0.0
  {}

  lemma PositiveProduct(x: real, y: real)
    requires x > 0.0 && y > 0.0
    ensures x * y > 0.0
  {}

  lemma PositiveRoot(r: real)
    requires r >= 0.0 && r * r > 0.0
    ensures r > 0.0
  {}

  lemma QuotientTimes(x: real, y: real)
    requires y != 0.0
    ensures x / y * y == x
  {}

  /** A quotient is the one solution of its defining equation. */
  lemma QuotientUnique(q: real, x: real, y: real)
    requires y != 0.0 && q * y == x
    ensures q == x / y
  {
    var e := x / y;
    assert e * y == x;
    CancelFactor(q, e, y);
  }

  lemma NonNegativeQuotient(x: real, y: real)
    requires x >= 0.0 && y > 0.0
    ensures x / y >= 0.0
  {
    var e := x / y;
    assert e * y == x;
    if e < 0.0 { PositiveProduct(-e, y); }
  }

  lemma PositiveQuotient(x: real, y: real)
    requires x > 0.0 && y > 0.0
    ensures x / y > 0.0
  {
    var e := x / y;
    assert e * y == x;
    if e <= 0.0 { NonNegativeProduct(-e, y); }
  }

  /** A proportion of a quantity lies between nothing and all of it. */
  lemma ProductWithin(c: real, n: real)
    requires 0.0 <= c <= 1.0 && n >= 0.0
    ensures 0.0 <= c * n <= n
  {
    NonNegativeProduct(c, n);
    NonNegativeProduct(1.0 - c, n);
    assert (1.0 - c) * n == n - c * n;
  }

  lemma Distribute(m: real, x: real, y: real)
    ensures m * (x + y) == m * x + m * y
  {}

  lemma CancelFactor(x: real, y: real, k: real)
    requires k != 0.0 && x * k == y * k
    ensures x == y
  {
    assert (x - y) * k == 0.0;
  }

  lemma CancelOrder(x: real, y: real, k: real)
    requires k > 0.0 && x * k <= y * k
    ensures x <= y
  {
    if x > y { PositiveProduct(x - y, k); }
  }

  lemma CancelStrict(x: real, y: real, k: real)
    requires k > 0.0 && x * k < y * k
    ensures x < y
  {
    if x >= y { NonNegativeProduct(x - y, k); }
  }

  lemma ScaleOrder(x: real, y: real, k: real)
    requires k >= 0.0 && x <= y
    ensures x * k <= y * k
  {
    NonNegativeProduct(y - x, k);
  }

  /** Multiplying by a positive factor changes no comparison. */
  lemma OrderTimes(x: real, y: real, k: real)
    requires k > 0.0
    ensures x <= y <==> x * k <= y * k
    ensures y <= x <==> y * k <= x * k
  {
    if x < y { PositiveProduct(y - x, k); }
    if y < x { PositiveProduct(x - y, k); }
  }

  /** Squaring is monotone on the non-negative reals, in both directions. */
  lemma SquareMonotone(x: real, y: real)
    requires x >= 0.0 && y >= 0.0
    ensures x <= y <==> x * x <= y * y
  {
    assert (x - y) * (x + y) == x * x - y * y;
    if x > y { PositiveProduct(x - y, x + y); }
    if x <= y { NonNegativeProduct(y - x, x + y); }
  }

  lemma FractionRange(s: real, n: real)
    requires 0.0 <= s <= n && n > 0.0
    ensures 0.0 <= s / n <= 1.0
    ensures (n - s) / n == 1.0 - s / n
  {
    var p := s / n;
    assert p * n == s;
    NonNegativeQuotient(s, n);
    CancelOrder(p, 1.0, n);
    assert (1.0 - p) * n == n - p * n;
    QuotientUnique(1.0 - p, n - s, n);
  }
}
