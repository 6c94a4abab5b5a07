/** Orientation of points in the plane: determinants, directions around a point, and lines. */
module Orientation {
  import opened Arithmetic
  import opened Points

  function Det(u0: real, u1: real, v0: real, v1: real): real {
    u0 * v1 - u1 * v0
  }

  /** Positive if c lies to the left of the line from a to b. */
  function Orient(a: Point, b: Point, c: Point): real {
    Det(b.x - a.x, b.y - a.y, c.x - a.x, c.y - a.y)
  }

  lemma {:induction false} OrientSwap(a: Point, b: Point, c: Point)
    ensures Orient(a, c, b) == Orient(c, b, a) == Orient(b, a, c) == -Orient(a, b, c)
  {}

  lemma {:induction false} NoTurn(p: Point, t: Point)
    ensures Orient(p, t, p) == 0.0 && Orient(p, t, t) == 0.0
  {}

  lemma {:induction false} ShiftOrient(o: Point, p: Point, x: Point)
    ensures Det(p.x - o.x, p.y - o.y, x.x - p.x, x.y - p.y) == Orient(o, p, x)
  {
    var u0, u1, v0, v1 := p.x - o.x, p.y - o.y, x.x - o.x, x.y - o.y;
    assert u0 * (v1 - u1) - u1 * (v0 - u0) == u0 * v1 - u1 * v0;
  }

  lemma {:induction false} Pluecker(u0: real, u1: real, a0: real, a1: real, b0: real, b1: real, c0: real, c1: real)
    ensures Det(u0, u1, b0, b1) * Det(a0, a1, c0, c1)
         == Det(u0, u1, a0, a1) * Det(b0, b1, c0, c1) + Det(u0, u1, c0, c1) * Det(a0, a1, b0, b1)
  {
    Expand(u0 * b1, u1 * b0, a0 * c1, a1 * c0);
    Expand(u0 * a1, u1 * a0, b0 * c1, b1 * c0);
    Expand(u0 * c1, u1 * c0, a0 * b1, a1 * b0);
    Regroup(u0, b1, a0, c1);
    Regroup(u0, b1, a1, c0);
    Regroup(u1, b0, a0, c1);
    Regroup(u1, b0, a1, c0);
    Regroup(u0, a1, b0, c1);
    Regroup(u0, a1, b1, c0);
    Regroup(u1, a0, b0, c1);
    Regroup(u1, a0, b1, c0);
    Regroup(u0, c1, a0, b1);
    Regroup(u0, c1, a1, b0);
    Regroup(u1, c0, a0, b1);
    Regroup(u1, c0, a1, b0);
  }

  lemma {:induction false} Expand(a: real, b: real, c: real, d: real)
    ensures (a - b) * (c - d) == a * c - a * d - b * c + b * d
  {}

  function Four(a: real, b: real, c: real, d: real): real {
    ((a * b) * c) * d
  }

  /** A product of four factors does not depend on their order. */
  lemma {:induction false} Regroup(a: real, b: real, c: real, d: real)
    ensures (a * b) * (c * d) == Four(a, b, c, d)
    ensures Four(a, b, c, d) == Four(a, c, b, d) == Four(a, c, d, b) == Four(a, d, b, c) == Four(a, b, d, c) ==
      Four(a, d, c, b)
  {
    var ab, ac, ad := a * b, a * c, a * d;
    assert ab * c == ac * b && ab * d == ad * b && ac * d == ad * c;
    assert (ab * c) * d == ab * (c * d);
    assert (ab * c) * d == (ab * d) * c;
    assert (ac * b) * d == (ac * d) * b;
    assert (ad * b) * c == (ad * c) * b;
  }

  /** All directions lie in a half plane that starts at u: then "left of" is transitive. */
  lemma {:induction false} TurnsTransitive(u0: real, u1: real, a0: real, a1: real, b0: real, b1: real, c0: real,
                                           c1: real)
    requires Det(u0, u1, a0, a1) >= 0.0 && Det(u0, u1, b0, b1) >= 0.0 && Det(u0, u1, c0, c1) >= 0.0
    requires Det(u0, u1, b0, b1) > 0.0 || Det(u0, u1, c0, c1) > 0.0
    requires Det(a0, a1, b0, b1) > 0.0 && Det(b0, b1, c0, c1) >= 0.0
    ensures Det(a0, a1, c0, c1) >= 0.0
  {
    Pluecker(u0, u1, a0, a1, b0, b1, c0, c1);
    hide Det;
    ProductSign(Det(u0, u1, b0, b1), Det(a0, a1, c0, c1), Det(u0, u1, a0, a1), Det(b0, b1, c0, c1),
      Det(u0, u1, c0, c1), Det(a0, a1, b0, b1));
  }

  lemma {:induction false} ProductSign(b: real, z: real, a: real, y: real, c: real, x: real)
    requires b >= 0.0 && a >= 0.0 && c >= 0.0 && (b > 0.0 || c > 0.0) && x > 0.0 && y >= 0.0 && b * z == a * y + c * x
    ensures z >= 0.0
  {
    assert a * y >= 0.0 && c * x >= 0.0;
    assert c > 0.0 ==> c * x > 0.0;
    assert z < 0.0 && b > 0.0 ==> b * z < 0.0;
  }

  lemma {:induction false} PointsTransitive(o: Point, a: Point, b: Point, c: Point, u0: real, u1: real)
    requires Det(u0, u1, a.x - o.x, a.y - o.y) >= 0.0 && Det(u0, u1, b.x - o.x, b.y - o.y) >= 0.0
    requires Det(u0, u1, c.x - o.x, c.y - o.y) >= 0.0
    requires Det(u0, u1, b.x - o.x, b.y - o.y) > 0.0 || Det(u0, u1, c.x - o.x, c.y - o.y) > 0.0
    requires Orient(o, a, b) > 0.0 && Orient(o, b, c) >= 0.0
    ensures Orient(o, a, c) >= 0.0
  {
    hide Det;
    TurnsTransitive(u0, u1, a.x - o.x, a.y - o.y, b.x - o.x, b.y - o.y, c.x - o.x, c.y - o.y);
  }

  function Dot(u0: real, u1: real, v0: real, v1: real): real {
    u0 * v0 + u1 * v1
  }

  /** Lagrange's identity with a quarter turn of u. */
  lemma {:induction false} Lagrange(u0: real, u1: real, v0: real, v1: real, x0: real, x1: real)
    ensures Dot(u0, u1, u0, u1) * Det(v0, v1, x0, x1)
         == Dot(u0, u1, v0, v1) * Det(u0, u1, x0, x1) - Dot(u0, u1, x0, x1) * Det(u0, u1, v0, v1)
  {
    Pluecker(u0, u1, v0, v1, -u1, u0, x0, x1);
    assert Det(u0, u1, -u1, u0) == Dot(u0, u1, u0, u1);
    assert Det(-u1, u0, x0, x1) == -Dot(u0, u1, x0, x1);
    assert Det(v0, v1, -u1, u0) == Dot(u0, u1, v0, v1);
  }

  /** Directions a - p parallel to u: the points seen to the left of one are to the left of the other, or to the right
      if the two are opposite. */
  lemma {:induction false} Parallel(p: Point, a: Point, x: Point, u0: real, u1: real)
    requires (u0 != 0.0 || u1 != 0.0) && a != p && Det(u0, u1, a.x - p.x, a.y - p.y) == 0.0
    ensures var s, o, d := Dot(u0, u1, a.x - p.x, a.y - p.y), Orient(p, a, x), Det(u0, u1, x.x - p.x, x.y - p.y);
      && s != 0.0
      && (s > 0.0 ==> (o > 0.0 <==> d > 0.0) && (o < 0.0 <==> d < 0.0))
      && (s < 0.0 ==> (o > 0.0 <==> d < 0.0) && (o < 0.0 <==> d > 0.0))
  {
    hide Det, Dot;
    NotZero(u0, u1, a.x - p.x, a.y - p.y);
    Lagrange(u0, u1, a.x - p.x, a.y - p.y, x.x - p.x, x.y - p.y);
    SameSign(Dot(u0, u1, u0, u1), Orient(p, a, x), Dot(u0, u1, a.x - p.x, a.y - p.y),
             Det(u0, u1, x.x - p.x, x.y - p.y));
  }

  lemma {:induction false} SameSign(n: real, o: real, s: real, d: real)
    requires n > 0.0 && s != 0.0 && n * o == s * d
    ensures s > 0.0 ==> (o > 0.0 <==> d > 0.0) && (o < 0.0 <==> d < 0.0)
    ensures s < 0.0 ==> (o > 0.0 <==> d < 0.0) && (o < 0.0 <==> d > 0.0)
  {
    ProductOf(n, o);
    ProductOf(s, d);
  }

  lemma {:induction false} ProductOf(x: real, y: real)
    ensures x > 0.0 ==> (x * y > 0.0 <==> y > 0.0) && (x * y < 0.0 <==> y < 0.0)
    ensures x < 0.0 ==> (x * y > 0.0 <==> y < 0.0) && (x * y < 0.0 <==> y > 0.0)
  {}

  /** Parallel directions have a product that is not zero. */
  lemma {:induction false} NotZero(u0: real, u1: real, v0: real, v1: real)
    requires (u0 != 0.0 || u1 != 0.0) && (v0 != 0.0 || v1 != 0.0) && Det(u0, u1, v0, v1) == 0.0
    ensures Dot(u0, u1, u0, u1) > 0.0 && Dot(u0, u1, v0, v1) != 0.0
  {
    Positive(u0, u1);
    Positive(v0, v1);
    Lagrange(u0, u1, v0, v1, -v1, v0);
    QuarterTurn(v0, v1);
    hide Det, Dot;
    PositiveProduct(Dot(u0, u1, u0, u1), Dot(v0, v1, v0, v1));
  }

  lemma {:induction false} QuarterTurn(v0: real, v1: real)
    ensures Det(v0, v1, -v1, v0) == Dot(v0, v1, v0, v1)
  {}

  lemma {:induction false} Positive(u0: real, u1: real)
    requires u0 != 0.0 || u1 != 0.0
    ensures Dot(u0, u1, u0, u1) > 0.0
  {
    SumOfSquares(u0, u1);
    hide Dot, Times;
    SquarePositive(u0);
    SquarePositive(u1);
  }

  lemma {:induction false} SumOfSquares(u0: real, u1: real)
    ensures Dot(u0, u1, u0, u1) == Times(u0, u0) + Times(u1, u1)
  {}

  function Times(x: real, y: real): real {
    x * y
  }

  lemma {:induction false} SquarePositive(x: real)
    ensures Times(x, x) >= 0.0 && (x != 0.0 ==> Times(x, x) > 0.0)
  {
    SquareSign(x);
    hide Times;
    if x > 0.0 { TimesPositive(x, x); }
    if x < 0.0 { TimesPositive(-x, -x); }
  }

  lemma {:induction false} SquareSign(x: real)
    ensures Times(-x, -x) == Times(x, x) && (x == 0.0 ==> Times(x, x) == 0.0)
  {}

  lemma {:induction false} TimesPositive(x: real, y: real)
    requires x > 0.0 && y > 0.0
    ensures Times(x, y) > 0.0
  {}

  lemma {:induction false} HeightDifference(p: Point, q: Point, x: Point, y: Point)
    ensures Orient(p, q, y) - Orient(p, q, x) == Det(q.x - p.x, q.y - p.y, y.x - x.x, y.y - x.y)
  {
    var d0, d1 := q.x - p.x, q.y - p.y;
    assert d0 * (y.y - p.y) - d0 * (x.y - p.y) == d0 * (y.y - x.y);
    assert d1 * (y.x - p.x) - d1 * (x.x - p.x) == d1 * (y.x - x.x);
  }

  /** Points inside the angle at a lowest vertex v are higher. */
  lemma {:induction false} AngleIsAbove(a: Point, v: Point, b: Point, x: Point, p: Point, q: Point)
    requires Orient(a, v, x) > 0.0 && Orient(v, b, x) > 0.0 && Orient(a, v, b) > 0.0 && p != q
    requires Orient(p, q, v) <= Orient(p, q, a) && Orient(p, q, v) <= Orient(p, q, b)
    ensures Orient(p, q, x) > Orient(p, q, v) &&
      (Orient(p, q, v) < Orient(p, q, a) || Orient(p, q, v) < Orient(p, q, b))
  {
    ShiftOrient(a, v, x);
    ShiftOrient(a, v, b);
    HeightDifference(p, q, a, v);
    HeightDifference(p, q, v, b);
    HeightDifference(p, q, v, x);
    var e1x, e1y, e2x, e2y, wx, wy := v.x - a.x, v.y - a.y, b.x - v.x, b.y - v.y, x.x - v.x, x.y - v.y;
    assert Orient(v, b, x) == Det(e2x, e2y, wx, wy);
    InAngle(q.x - p.x, q.y - p.y, e1x, e1y, e2x, e2y, wx, wy);
  }

  lemma {:induction false} InAngle(d0: real, d1: real, a0: real, a1: real, b0: real, b1: real, w0: real, w1: real)
    requires d0 != 0.0 || d1 != 0.0
    requires Det(d0, d1, a0, a1) <= 0.0 && Det(d0, d1, b0, b1) >= 0.0
    requires Det(a0, a1, b0, b1) > 0.0 && Det(a0, a1, w0, w1) > 0.0 && Det(b0, b1, w0, w1) > 0.0
    ensures Det(d0, d1, w0, w1) > 0.0 && (Det(d0, d1, a0, a1) < 0.0 || Det(d0, d1, b0, b1) > 0.0)
  {
    Pluecker(d0, d1, a0, a1, w0, w1, b0, b1);
    Lagrange(d0, d1, a0, a1, b0, b1);
    Positive(d0, d1);
    DetSwap(w0, w1, b0, b1);
    hide Det, Dot;
    AnglePositive(Det(d0, d1, w0, w1), Det(a0, a1, b0, b1), Det(d0, d1, a0, a1), Det(w0, w1, b0, b1),
      Det(d0, d1, b0, b1), Det(a0, a1, w0, w1),
                  Dot(d0, d1, d0, d1), Dot(d0, d1, a0, a1), Dot(d0, d1, b0, b1));
  }

  lemma {:induction false} DetSwap(a0: real, a1: real, b0: real, b1: real)
    ensures Det(a0, a1, b0, b1) == -Det(b0, b1, a0, a1)
  {}

  lemma {:induction false} AnglePositive(h: real, z: real, a: real, y: real, b: real, x: real, n: real, s: real,
                                         t: real)
    requires z > 0.0 && a <= 0.0 && b >= 0.0 && y < 0.0 && x > 0.0 && n > 0.0
    requires h * z == a * y + b * x && n * z == s * b - t * a
    ensures h > 0.0 && (a < 0.0 || b > 0.0)
  {
    NotParallel(z, a, b, n, s, t);
    assert a * y >= 0.0 && b * x >= 0.0;
    assert a < 0.0 ==> a * y > 0.0;
    assert b > 0.0 ==> b * x > 0.0;
    assert h <= 0.0 ==> h * z <= 0.0;
  }

  lemma {:induction false} BothNotLow(a: Point, v: Point, b: Point, p: Point, q: Point)
    requires Orient(a, v, b) > 0.0 && p != q
    requires Orient(p, q, v) <= Orient(p, q, a) && Orient(p, q, v) <= Orient(p, q, b)
    ensures Orient(p, q, v) < Orient(p, q, a) || Orient(p, q, v) < Orient(p, q, b)
  {
    ShiftOrient(a, v, b);
    HeightDifference(p, q, a, v);
    HeightDifference(p, q, v, b);
    var e1x, e1y, e2x, e2y, d0, d1 := v.x - a.x, v.y - a.y, b.x - v.x, b.y - v.y, q.x - p.x, q.y - p.y;
    Lagrange(d0, d1, e1x, e1y, e2x, e2y);
    Positive(d0, d1);
    hide Det, Dot;
    NotParallel(Det(e1x, e1y, e2x, e2y), Det(d0, d1, e1x, e1y), Det(d0, d1, e2x, e2y), Dot(d0, d1, d0, d1),
                Dot(d0, d1, e1x, e1y), Dot(d0, d1, e2x, e2y));
  }

  lemma {:induction false} NotParallel(z: real, a: real, b: real, n: real, s: real, t: real)
    requires z > 0.0 && n > 0.0 && n * z == s * b - t * a
    ensures a != 0.0 || b != 0.0
  {
    assert n * z > 0.0;
    assert a == 0.0 ==> t * a == 0.0;
    assert b == 0.0 ==> s * b == 0.0;
  }
}
