/** Real arithmetic of the plane: products kept behind names, lengths, units, and two inequalities. */
module PlaneArithmetic {
  import opened Commands

  function Offset(origin: Vector2, target: Vector2): Vector2 {
    Vector2(target.x - origin.x, target.y - origin.y)
  }

  function Times(x: real, y: real): real {
    x * y
  }

  function Square(x: real): real {
    Times(x, x)
  }

  function SquaredMagnitude(v: Vector2): real {
    Square(v.x) + Square(v.y)
  }

  lemma TimesSign(x: real, y: real)
    ensures x > 0.0 && y > 0.0 ==> Times(x, y) > 0.0
    ensures x < 0.0 && y < 0.0 ==> Times(x, y) > 0.0
    ensures x == 0.0 || y == 0.0 ==> Times(x, y) == 0.0
  {
    if x > 0.0 && y > 0.0 {
      assert x * y > 0.0;
    } else if x < 0.0 && y < 0.0 {
      assert x * y > 0.0;
    }
  }

  lemma SquareIsPositive(x: real)
    ensures Square(x) >= 0.0 && (Square(x) == 0.0 <==> x == 0.0)
  {
    hide Times;
    TimesSign(x, x);
  }

  lemma SquaredMagnitudeIsZeroOnlyAtZero(v: Vector2)
    ensures SquaredMagnitude(v) >= 0.0 && (SquaredMagnitude(v) == 0.0 <==> v == ZERO_VECTOR)
  {
    hide Square;
    SquareIsPositive(v.x);
    SquareIsPositive(v.y);
    assert v == Vector2(v.x, v.y);
  }

  lemma OffsetIsZeroOnlyThere(a: Vector2, b: Vector2)
    ensures Offset(a, b) == ZERO_VECTOR <==> a == b
  {
    assert a == Vector2(a.x, a.y) && b == Vector2(b.x, b.y);
  }

  function ClampComponent(c: real): (r: real)
    ensures -1.0 <= r <= 1.0 && (-1.0 <= c <= 1.0 ==> r == c)
  {
    if c > 1.0 then 1.0 else if c < -1.0 then -1.0 else c
  }

  lemma ProductSign(a: real, b: real)
    ensures a >= 0.0 && b >= 0.0 ==> a * b >= 0.0
    ensures a <= 0.0 && b >= 0.0 ==> a * b <= 0.0
  {
  }

  lemma SquareIsProduct(x: real)
    ensures Square(x) == x * x
  {
  }

  function Absolute(x: real): real {
    if x < 0.0 then -x else x
  }

  lemma Distribute(a: real, b: real, c: real)
    ensures a * (b + c) == a * b + a * c
  {
  }

  lemma ProductIsMonotone(p: real, q: real, m: real, n: real)
    requires 0.0 <= p <= m && 0.0 <= q <= n
    ensures p * q <= m * n
  {
    assert (m - p) * q >= 0.0;
    assert m * (n - q) >= 0.0;
  }

  lemma SquareIsAtLeastZero(x: real)
    ensures x * x >= 0.0
  {
  }

  lemma RootIsMonotone(x: real, y: real)
    requires x * x <= y * y && y >= 0.0
    ensures -y <= x <= y
  {
    assert (x - y) * (x + y) == x * x - y * y && (-x - y) * (-x + y) == x * x - y * y;
    if x > y {
      TimesSign(x - y, x + y);
    } else if x < -y {
      TimesSign(-x - y, -x + y);
    }
  }

  predicate IsUnit(v: Vector2) {
    SquaredMagnitude(v) == 1.0
  }

  lemma InComponents(v: Vector2)
    ensures SquaredMagnitude(v) == v.x * v.x + v.y * v.y
  {
  }

  lemma ScaledSquares(x: real, y: real, k: real)
    ensures (x * k) * (x * k) + (y * k) * (y * k) == (x * x + y * y) * (k * k)
  {
  }

  lemma ScaledUnit(u: Vector2, k: real)
    requires IsUnit(u)
    ensures SquaredMagnitude(Vector2(u.x * k, u.y * k)) == Square(k)
  {
    InComponents(u);
    InComponents(Vector2(u.x * k, u.y * k));
    ScaledSquares(u.x, u.y, k);
  }

  lemma UnitOfComponents(a: real, b: real, x: real, y: real, d: real)
    requires d > 0.0 && a == x * d && b == y * d && a * a + b * b == d * d
    ensures x * x + y * y == 1.0
  {
    ScaledSquares(x, y, d);
    var excess := x * x + y * y - 1.0;
    Distribute(d * d, x * x + y * y, -1.0);
    assert excess * (d * d) == 0.0;
    TimesSign(d, d);
    assert d * d > 0.0;
  }

  /** A nonzero offset divided by its own length is a unit, whichever way it is turned. */
  lemma UnitOfOffset(v: Vector2, d: real)
    requires d > 0.0 && Square(d) == SquaredMagnitude(v)
    ensures IsUnit(Vector2(v.x / d, v.y / d)) && IsUnit(Vector2(-v.x / d, -v.y / d))
  {
    var x, y := v.x / d, v.y / d;
    assert v.x == x * d && v.y == y * d;
    InComponents(v);
    InComponents(Vector2(x, y));
    InComponents(Vector2(-x, -y));
    assert Square(d) == d * d;
    UnitOfComponents(v.x, v.y, x, y, d);
    assert -v.x / d == -x && -v.y / d == -y;
  }

  lemma LagrangeIdentity(a: real, b: real, c: real, d: real)
    ensures (a * c + b * d) * (a * c + b * d) + (a * d - b * c) * (a * d - b * c) == (a * a + b * b) * (c * c + d * d)
  {
  }

  /** Cauchy and Schwarz in the plane. */
  lemma DotIsBounded(a: real, b: real, c: real, d: real, m: real, n: real)
    requires m >= 0.0 && n >= 0.0 && a * a + b * b <= m * m && c * c + d * d <= n * n
    ensures a * c + b * d >= -(m * n)
  {
    var p, q, dot := a * a + b * b, c * c + d * d, a * c + b * d;
    LagrangeIdentity(a, b, c, d);
    SquareIsAtLeastZero(a * d - b * c);
    SquareIsAtLeastZero(a);
    SquareIsAtLeastZero(b);
    SquareIsAtLeastZero(c);
    SquareIsAtLeastZero(d);
    ProductIsMonotone(p, q, m * m, n * n);
    assert (m * m) * (n * n) == (m * n) * (m * n);
    RootIsMonotone(dot, m * n);
  }

  lemma NearButNotInside(a: real, b: real, c: real, d: real, n: real, m: real, contact: real)
    requires 0.0 <= n <= m && contact >= 0.0 && a * a + b * b == (contact + m) * (contact + m) && c * c + d * d == n * n
    ensures (a + c) * (a + c) + (b + d) * (b + d) >= contact * contact
  {
    var l := contact + m;
    DotIsBounded(a, b, c, d, l, n);
    var rest := l - n;
    assert (a + c) * (a + c) + (b + d) * (b + d) == (a * a + b * b) + 2.0 * (a * c + b * d) + (c * c + d * d);
    assert rest * rest == l * l - 2.0 * (l * n) + n * n;
    ProductIsMonotone(contact, contact, rest, rest);
  }

  lemma Positive(a: real, n: real, m: real)
    requires a * n == m && n > 0.0 && m > 0.0
    ensures a > 0.0
  {
    if a < 0.0 { TimesSign(-a, n); }
  }

  lemma Decomposition(a: real, b: real, x: real, y: real)
    requires x * x + y * y == 1.0
    ensures a * a + b * b == (a * x + b * y) * (a * x + b * y) + (a * -y + b * x) * (a * -y + b * x)
  {
    assert (a * x + b * y) * (a * x + b * y) + (a * -y + b * x) * (a * -y + b * x) == (a * a + b * b) * (x * x + y * y);
  }

  lemma RotatedSquares(x: real, y: real, e: real)
    ensures (x - e * y) * (x - e * y) + (y + e * x) * (y + e * x) == (x * x + y * y) * (1.0 + e * e)
  {
  }
}
