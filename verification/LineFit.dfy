/** Line fits over windows of a closed contour from running moments
    (`fit_line` and step 2 of `fit_quad`, Robot/apriltags/apriltag_quad_thresh.c), over the exact
    reals. */
module LineFit {
  import opened Arithmetic

  /** A contour point with its weight. */
  datatype Sample = Sample(x: real, y: real, w: real)

  datatype Moments = Moments(mx: real, my: real, mxx: real, mxy: real, myy: real, w: real)

  const ZERO := Moments(0.0, 0.0, 0.0, 0.0, 0.0, 0.0)

  function Add(a: Moments, b: Moments): Moments {
    Moments(a.mx + b.mx, a.my + b.my, a.mxx + b.mxx, a.mxy + b.mxy, a.myy + b.myy, a.w + b.w)
  }

  function Sub(a: Moments, b: Moments): Moments {
    Moments(a.mx - b.mx, a.my - b.my, a.mxx - b.mxx, a.mxy - b.mxy, a.myy - b.myy, a.w - b.w)
  }

  function Single(p: Sample): Moments {
    Moments(p.w * p.x, p.w * p.y, p.w * p.x * p.x, p.w * p.x * p.y, p.w * p.y * p.y, p.w)
  }

  function Sum(ps: seq<Sample>): Moments {
    if ps == [] then ZERO else Add(Sum(ps[..|ps| - 1]), Single(ps[|ps| - 1]))
  }

  lemma {:induction false} SumConcat(a: seq<Sample>, b: seq<Sample>)
    ensures Sum(a + b) == Add(Sum(a), Sum(b))
    decreases |b|
  {
    hide Single;
    if b == [] {
      assert a + b == a;
    } else {
      assert (a + b)[..|a + b| - 1] == a + b[..|b| - 1];
      SumConcat(a, b[..|b| - 1]);
    }
  }

  // ---------------------------------------------------------------------------------------
  // Windows

  /** The points from i0 to i1, both included, around the contour. */
  function Window(ps: seq<Sample>, i0: nat, i1: nat): seq<Sample>
    requires i0 < |ps| && i1 < |ps|
  {
    if i0 < i1 then ps[i0..i1 + 1] else ps[i0..] + ps[..i1 + 1]
  }

  ghost predicate Cumulative(ps: seq<Sample>, lfps: seq<Moments>) {
    |lfps| == |ps| && forall i | 0 <= i < |ps| :: lfps[i] == Sum(ps[..i + 1])
  }

  /** Running moments of all points. */
  method Cumulate(ps: seq<Sample>) returns (lfps: array<Moments>)
    ensures fresh(lfps) && Cumulative(ps, lfps[..])
  {
    hide Single;
    lfps := new Moments[|ps|](_ => ZERO);
    for i := 0 to |ps|
      invariant forall k | 0 <= k < i :: lfps[k] == Sum(ps[..k + 1])
    {
      assert ps[..i + 1][..i] == ps[..i];
      if i > 0 {
        lfps[i] := lfps[i - 1];
      } else {
        lfps[i] := ZERO;
      }
      lfps[i] := Add(lfps[i], Single(ps[i]));
    }
  }

  /** The moments of a window as the code computes them. */
  function WindowSum(lfps: seq<Moments>, i0: nat, i1: nat): Moments
    requires i0 != i1 && i0 < |lfps| && i1 < |lfps|
  {
    if i0 < i1 then (if i0 > 0 then Sub(lfps[i1], lfps[i0 - 1]) else lfps[i1])
    else Add(Sub(lfps[|lfps| - 1], lfps[i0 - 1]), lfps[i1])
  }

  function WindowSize(sz: nat, i0: nat, i1: nat): (n: nat)
    requires i0 != i1 && i0 < sz && i1 < sz
    ensures n >= 2
  {
    if i0 < i1 then i1 - i0 + 1 else sz - i0 + i1 + 1
  }

  /** Two subtractions and an addition give the moments of any window, wrap-around included. */
  method SumWindow(lfps: seq<Moments>, i0: nat, i1: nat) returns (m: Moments, n: nat)
    requires i0 != i1 && i0 < |lfps| && i1 < |lfps|
    ensures m == WindowSum(lfps, i0, i1) && n == WindowSize(|lfps|, i0, i1)
  {
    if i0 < i1 {
      n := i1 - i0 + 1;
      m := lfps[i1];
      if i0 > 0 {
        m := Sub(m, lfps[i0 - 1]);
      }
    } else {
      m := Sub(lfps[|lfps| - 1], lfps[i0 - 1]);
      m := Add(m, lfps[i1]);
      n := |lfps| - i0 + i1 + 1;
    }
  }

  lemma {:induction false} WindowMoments(lfps: seq<Moments>, i0: nat, i1: nat, ps: seq<Sample>)
    requires Cumulative(ps, lfps) && i0 != i1 && i0 < |lfps| && i1 < |lfps|
    ensures WindowSum(lfps, i0, i1) == Sum(Window(ps, i0, i1)) && WindowSize(|lfps|, i0, i1) == |Window(ps, i0, i1)|
  {
    hide Sum, Single;
    if i0 < i1 {
      SumConcat(ps[..i0], ps[i0..i1 + 1]);
      assert ps[..i0] + ps[i0..i1 + 1] == ps[..i1 + 1];
      NoPoints(ps);
    } else {
      SumConcat(ps[..i0], ps[i0..]);
      assert ps[..i0] + ps[i0..] == ps == ps[..|ps|];
      SumConcat(ps[i0..], ps[..i1 + 1]);
    }
  }

  lemma {:induction false} NoPoints(ps: seq<Sample>)
    ensures ps[..0] == [] && Sum(ps[..0]) == ZERO
  {}

  // ---------------------------------------------------------------------------------------
  // Errors

  /** Weighted sum of the squared values of a*x + b*y + c. */
  ghost function Squares(ps: seq<Sample>, a: real, b: real, c: real): real {
    if ps == [] then 0.0
    else
      var p := ps[|ps| - 1];
      Squares(ps[..|ps| - 1], a, b, c) + Square(p, a, b, c)
  }

  ghost function Square(p: Sample, a: real, b: real, c: real): real {
    p.w * ((a * p.x + b * p.y + c) * (a * p.x + b * p.y + c))
  }

  ghost function Form(m: Moments, a: real, b: real, c: real): real {
    a * a * m.mxx + 2.0 * a * b * m.mxy + b * b * m.myy + 2.0 * a * c * m.mx + 2.0 * b * c * m.my + c * c * m.w
  }

  lemma {:induction false} FormOfPoint(p: Sample, a: real, b: real, c: real)
    ensures Form(Single(p), a, b, c) == Square(p, a, b, c)
  {}

  lemma {:induction false} FormAdds(m: Moments, k: Moments, a: real, b: real, c: real)
    ensures Form(Add(m, k), a, b, c) == Form(m, a, b, c) + Form(k, a, b, c)
  {}

  lemma {:induction false} FormOfNothing(a: real, b: real, c: real)
    ensures Form(ZERO, a, b, c) == 0.0
  {}

  /** Sums of squares are a quadratic form in the moments. */
  lemma {:induction false} SquaresFromMoments(ps: seq<Sample>, a: real, b: real, c: real)
    ensures Squares(ps, a, b, c) == Form(Sum(ps), a, b, c)
  {
    hide Form, Single, Square;
    if ps == [] {
      FormOfNothing(a, b, c);
    } else {
      var front, p := ps[..|ps| - 1], ps[|ps| - 1];
      SquaresFromMoments(front, a, b, c);
      FormAdds(Sum(front), Single(p), a, b, c);
      FormOfPoint(p, a, b, c);
    }
  }

  datatype Covariance = Covariance(ex: real, ey: real, cxx: real, cxy: real, cyy: real)

  /** Centroid and covariances as the code computes them. */
  function Statistics(m: Moments): Covariance
    requires m.w != 0.0
  {
    var ex, ey := m.mx / m.w, m.my / m.w;
    Covariance(ex, ey, m.mxx / m.w - ex * ex, m.mxy / m.w - ex * ey, m.myy / m.w - ey * ey)
  }

  /** Offset that puts a line with normal (a, b) through the centroid. */
  ghost function Offset(ex: real, ey: real, a: real, b: real): real {
    -(a * ex + b * ey)
  }

  function MeanError(k: Covariance, nx: real, ny: real): real {
    nx * nx * k.cxx + 2.0 * nx * ny * k.cxy + ny * ny * k.cyy
  }

  lemma {:induction false} DivideBack(x: real, w: real)
    requires w != 0.0
    ensures (x / w) * w == x
  {}

  function Times(x: real, y: real): real {
    x * y
  }

  function Times3(x: real, y: real, z: real): real {
    x * y * z
  }

  lemma {:induction false} CentredForm(m: Moments, k: Covariance, a: real, b: real)
    requires m.mx == k.ex * m.w && m.my == k.ey * m.w && m.mxx == (k.cxx + k.ex * k.ex) * m.w
    requires m.mxy == (k.cxy + k.ex * k.ey) * m.w && m.myy == (k.cyy + k.ey * k.ey) * m.w
    ensures Times(MeanError(k, a, b), m.w) == Form(m, a, b, Offset(k.ex, k.ey, a, b))
  {
    QuadraticTerm(a, a, k.cxx, k.ex, k.ex, m.mxx, m.w);
    QuadraticTerm(a, b, k.cxy, k.ex, k.ey, m.mxy, m.w);
    QuadraticTerm(b, b, k.cyy, k.ey, k.ey, m.myy, m.w);
    Linear(a, b, m.mx, m.my, k.ex, k.ey, m.w);
    FormParts(m, k, a, b);
    hide Form, MeanError, Offset, Times, Times3;
    var u, v := Times(a, k.ex), Times(b, k.ey);
    SquareOfSum(u, v);
    Collect(Times3(a, a, k.cxx), Times3(a, b, k.cxy), Times3(b, b, k.cyy), Times(u, u), Times(u, v), Times(v, v), m.w);
  }

  lemma {:induction false} QuadraticTerm(a: real, b: real, c: real, ex: real, ey: real, m: real, w: real)
    requires m == (c + ex * ey) * w
    ensures Times3(a, b, m) == Times(Times3(a, b, c) + Times(Times(a, ex), Times(b, ey)), w)
  {
    assert a * b * (c + ex * ey) == a * b * c + (a * ex) * (b * ey);
    assert a * b * m == (a * b * (c + ex * ey)) * w;
  }

  lemma {:induction false} SquareOfSum(u: real, v: real)
    ensures Times(u + v, u + v) == Times(u, u) + 2.0 * Times(u, v) + Times(v, v)
  {}

  /** The terms with the offset. */
  function OffsetTerms(a: real, b: real, c: real, mx: real, my: real, w: real): real {
    2.0 * a * c * mx + 2.0 * b * c * my + c * c * w
  }

  lemma {:induction false} Linear(a: real, b: real, mx: real, my: real, ex: real, ey: real, w: real)
    requires mx == ex * w && my == ey * w
    ensures var e := Times(a, ex) + Times(b, ey); OffsetTerms(a, b, -e, mx, my, w) == -Times(Times(e, e), w)
  {
    var c := -(a * ex + b * ey);
    assert a * mx + b * my == -c * w;
    assert 2.0 * a * c * mx + 2.0 * b * c * my == 2.0 * c * (a * mx + b * my);
  }

  lemma {:induction false} FormParts(m: Moments, k: Covariance, a: real, b: real)
    ensures Form(m, a, b, Offset(k.ex, k.ey, a, b))
         == Times3(a, a, m.mxx) + 2.0 * Times3(a, b, m.mxy) + Times3(b, b, m.myy)
            + OffsetTerms(a, b, -(Times(a, k.ex) + Times(b, k.ey)), m.mx, m.my, m.w)
    ensures MeanError(k, a, b) == Times3(a, a, k.cxx) + 2.0 * Times3(a, b, k.cxy) + Times3(b, b, k.cyy)
  {}

  lemma {:induction false} Collect(x1: real, x2: real, x3: real, y1: real, y2: real, y3: real, w: real)
    ensures Times(x1 + 2.0 * x2 + x3, w)
         == Times(x1 + y1, w) + 2.0 * Times(x2 + y2, w) + Times(x3 + y3, w) - Times(y1 + 2.0 * y2 + y3, w)
  {}

  /** The mean error from the moments is the weighted mean of the squared distances from the line
      through the centroid, whatever its direction. */
  lemma {:induction false} ErrorIsResidual(ps: seq<Sample>, a: real, b: real)
    requires Sum(ps).w != 0.0
    ensures var m := Sum(ps); var k := Statistics(m);
      MeanError(k, a, b) * m.w == Squares(ps, a, b, Offset(k.ex, k.ey, a, b))
  {
    hide Sum, Form, Squares, MeanError, Offset;
    var m := Sum(ps);
    var k := Statistics(m);
    DivideBack(m.mx, m.w);
    DivideBack(m.my, m.w);
    DivideBack(m.mxx, m.w);
    DivideBack(m.mxy, m.w);
    DivideBack(m.myy, m.w);
    assert k.cxx + k.ex * k.ex == m.mxx / m.w;
    assert k.cxy + k.ex * k.ey == m.mxy / m.w;
    assert k.cyy + k.ey * k.ey == m.myy / m.w;
    CentredForm(m, k, a, b);
    assert Times(MeanError(k, a, b), m.w) == MeanError(k, a, b) * m.w;
    SquaresFromMoments(ps, a, b, Offset(k.ex, k.ey, a, b));
  }

  /** Of parallel lines the one through the centroid has the least error. */
  lemma {:induction false} CentroidBest(ps: seq<Sample>, a: real, b: real, c: real)
    requires Sum(ps).w > 0.0
    ensures var k := Statistics(Sum(ps)); Squares(ps, a, b, c) >= Squares(ps, a, b, Offset(k.ex, k.ey, a, b))
  {
    hide Sum, Squares, Offset, Form;
    var m := Sum(ps);
    var k := Statistics(m);
    SquaresFromMoments(ps, a, b, c);
    SquaresFromMoments(ps, a, b, Offset(k.ex, k.ey, a, b));
    DivideBack(m.mx, m.w);
    DivideBack(m.my, m.w);
    Completed(m, k, a, b, c);
  }

  lemma {:induction false} Completed(m: Moments, k: Covariance, a: real, b: real, c: real)
    requires m.w > 0.0 && m.mx == k.ex * m.w && m.my == k.ey * m.w
    ensures Form(m, a, b, c) >= Form(m, a, b, Offset(k.ex, k.ey, a, b))
  {
    var e := a * k.ex + b * k.ey;
    assert 2.0 * a * c * m.mx + 2.0 * b * c * m.my == 2.0 * c * e * m.w;
    assert 2.0 * a * (-e) * m.mx + 2.0 * b * (-e) * m.my == -2.0 * e * e * m.w;
    assert Form(m, a, b, c) - Form(m, a, b, -e) == (c + e) * (c + e) * m.w;
    SquareTimes(c + e, m.w);
  }

  lemma {:induction false} SquareTimes(x: real, w: real)
    requires w >= 0.0
    ensures x * x >= 0.0 && x * x * w >= 0.0
  {}

  // ---------------------------------------------------------------------------------------
  // The direction

  /** The functions of the C library, over the reals. */
  datatype Trig = Trig(cos: real -> real, sin: real -> real, atan2: (real, real) -> real)

  /** The laws that the fit needs: unit vectors, doubled angles, and polar coordinates. */
  ghost predicate IsTrig(f: Trig) {
    && (forall a: real :: Doubles(f, a))
    && forall p: real, q: real :: IsAngle(f, f.atan2(q, p), p, q)
  }

  ghost predicate Doubles(f: Trig, a: real) {
    && f.cos(a) * f.cos(a) + f.sin(a) * f.sin(a) == 1.0
    && f.cos(2.0 * a) == Cos2(f.cos(a), f.sin(a)) && f.sin(2.0 * a) == Sin2(f.cos(a), f.sin(a))
  }

  /** The vector (p, q) has this angle. */
  ghost predicate IsAngle(f: Trig, angle: real, p: real, q: real) {
    exists mag: real :: Polar(f, angle, mag, p, q)
  }

  ghost predicate Polar(f: Trig, angle: real, mag: real, p: real, q: real) {
    mag >= 0.0 && f.cos(angle) * mag == p && f.sin(angle) * mag == q
  }

  /** Cosine and sine of half the angle of the vector (p, q). */
  function Half(f: Trig, p: real, q: real): (real, real) {
    var theta := 0.5 * f.atan2(q, p);
    (f.cos(theta), f.sin(theta))
  }

  lemma {:induction false} HalvesAngle(f: Trig, p: real, q: real)
    requires IsTrig(f)
    ensures IsHalf(Half(f, p, q), p, q)
  {
    hide IsTrig, Cos2, Sin2, IsLength;
    var angle := f.atan2(q, p);
    var n := Half(f, p, q);
    TrigLaws(f, p, q);
    hide Doubles;
    var mag :| Polar(f, angle, mag, p, q);
    Hypotenuse(n.0, n.1, mag, p, q);
    assert Doubled(n, p, q, mag);
  }

  lemma {:induction false} TrigLaws(f: Trig, p: real, q: real)
    requires IsTrig(f)
    ensures IsAngle(f, f.atan2(q, p), p, q)
    ensures var n := Half(f, p, q);
      && n.0 * n.0 + n.1 * n.1 == 1.0
      && f.cos(f.atan2(q, p)) == Cos2(n.0, n.1) && f.sin(f.atan2(q, p)) == Sin2(n.0, n.1)
  {
    hide Cos2, Sin2, IsAngle;
    var theta := 0.5 * f.atan2(q, p);
    assert Doubles(f, theta);
    assert 2.0 * theta == f.atan2(q, p);
  }

  lemma {:induction false} Hypotenuse(a: real, b: real, mag: real, p: real, q: real)
    requires a * a + b * b == 1.0 && mag >= 0.0 && Cos2(a, b) * mag == p && Sin2(a, b) * mag == q
    ensures IsLength(mag, p, q)
  {
    DoubleIsUnit(a, b);
    hide Cos2, Sin2;
    var c, s := Cos2(a, b), Sin2(a, b);
    assert (c * mag) * (c * mag) + (s * mag) * (s * mag) == (c * c + s * s) * (mag * mag);
  }

  /** A unit vector that turns into the direction of (p, q) when its angle is doubled. */
  ghost predicate IsHalf(n: (real, real), p: real, q: real) {
    n.0 * n.0 + n.1 * n.1 == 1.0 && exists mag: real :: Doubled(n, p, q, mag)
  }

  ghost predicate Doubled(n: (real, real), p: real, q: real, mag: real) {
    IsLength(mag, p, q) && Cos2(n.0, n.1) * mag == p && Sin2(n.0, n.1) * mag == q
  }

  /** (nx, ny) lies at half the angle of (cyy - cxx, -2 cxy). */
  ghost predicate HalfAngle(k: Covariance, nx: real, ny: real) {
    IsHalf((nx, ny), k.cyy - k.cxx, -2.0 * k.cxy)
  }

  ghost predicate IsLength(mag: real, p: real, q: real) {
    mag >= 0.0 && mag * mag == p * p + q * q
  }

  /** Cosine and sine of the doubled angle of a unit vector. */
  function Cos2(a: real, b: real): real {
    a * a - b * b
  }

  function Sin2(a: real, b: real): real {
    2.0 * a * b
  }

  lemma {:induction false} DoubleIsUnit(a: real, b: real)
    requires a * a + b * b == 1.0
    ensures Cos2(a, b) * Cos2(a, b) + Sin2(a, b) * Sin2(a, b) == 1.0
  {
    assert Cos2(a, b) * Cos2(a, b) + Sin2(a, b) * Sin2(a, b) == (a * a + b * b) * (a * a + b * b);
  }

  /** A unit vector projects a vector to at most its length. */
  lemma {:induction false} Projection(c: real, s: real, p: real, q: real, mag: real)
    requires c * c + s * s == 1.0 && IsLength(mag, p, q)
    ensures c * p + s * q <= mag
  {
    var d, e := c * p + s * q, c * q - s * p;
    assert d * d + e * e == (c * c + s * s) * (p * p + q * q);
    assert e * e >= 0.0;
    assert d * d <= mag * mag;
    NotAbove(d, mag);
  }

  lemma {:induction false} NotAbove(d: real, mag: real)
    requires mag >= 0.0 && d * d <= mag * mag
    ensures d <= mag
  {
    PositiveProduct(d - mag, d + mag);
    assert (d - mag) * (d + mag) == d * d - mag * mag;
  }

  lemma {:induction false} ErrorByDouble(k: Covariance, a: real, b: real, p: real, q: real)
    requires a * a + b * b == 1.0 && p == k.cyy - k.cxx && q == -2.0 * k.cxy
    ensures 2.0 * MeanError(k, a, b) == k.cxx + k.cyy - (Cos2(a, b) * p + Sin2(a, b) * q)
  {
    assert a * a == 1.0 - b * b;
  }

  lemma {:induction false} HalfParts(nx: real, ny: real, p: real, q: real) returns (mag: real)
    requires IsHalf((nx, ny), p, q)
    ensures IsLength(mag, p, q) && nx * nx + ny * ny == 1.0
    ensures Cos2(nx, ny) * mag == p && Sin2(nx, ny) * mag == q
  {
    hide IsLength, Cos2, Sin2;
    mag :| Doubled((nx, ny), p, q, mag);
  }

  /** Of all directions the half angle has the least error. */
  lemma {:induction false} DirectionBest(k: Covariance, nx: real, ny: real, a: real, b: real)
    requires HalfAngle(k, nx, ny) && a * a + b * b == 1.0
    ensures MeanError(k, nx, ny) <= MeanError(k, a, b)
  {
    hide MeanError, IsLength, IsHalf, Cos2, Sin2;
    var p, q := k.cyy - k.cxx, -2.0 * k.cxy;
    var mag := HalfParts(nx, ny, p, q);
    ErrorByDouble(k, nx, ny, p, q);
    ErrorByDouble(k, a, b, p, q);
    DoubleIsUnit(nx, ny);
    DoubleIsUnit(a, b);
    Projection(Cos2(a, b), Sin2(a, b), p, q, mag);
    Along(Cos2(nx, ny), Sin2(nx, ny), p, q, mag);
  }

  /** The unit vector along (p, q) reaches that length. */
  lemma {:induction false} Along(c: real, s: real, p: real, q: real, mag: real)
    requires c * c + s * s == 1.0 && c * mag == p && s * mag == q
    ensures c * p + s * q == mag
  {
    assert c * (c * mag) + s * (s * mag) == (c * c + s * s) * mag;
  }

  ghost predicate Weighted(ps: seq<Sample>) {
    forall p | p in ps :: p.w > 0.0
  }

  lemma {:induction false} TotalPositive(ps: seq<Sample>)
    requires Weighted(ps)
    ensures Sum(ps).w >= 0.0 && (ps != [] ==> Sum(ps).w > 0.0)
  {
    if ps != [] { TotalPositive(ps[..|ps| - 1]); }
  }

  // ---------------------------------------------------------------------------------------
  // The fit

  datatype Line = Line(px: real, py: real, nx: real, ny: real)

  ghost function Residual(ps: seq<Sample>, l: Line): real {
    Squares(ps, l.nx, l.ny, Offset(l.px, l.py, l.nx, l.ny))
  }

  /** The mean squared error of the line fitted to a window, the last result of `fit_line`. */
  function FitError(lfps: seq<Moments>, f: Trig, i0: nat, i1: nat): real
    requires i0 != i1 && i0 < |lfps| && i1 < |lfps| && WindowSum(lfps, i0, i1).w != 0.0
  {
    var k := Statistics(WindowSum(lfps, i0, i1));
    var n := Half(f, k.cyy - k.cxx, -2.0 * k.cxy);
    MeanError(k, n.0, n.1)
  }

  /** mse is the weighted mean of the squared distances from a line, and no line has a smaller one. */
  ghost predicate IsLeastError(ps: seq<Sample>, mse: real) {
    exists line: Line :: LeastLine(ps, line) && mse * Sum(ps).w == Residual(ps, line)
  }

  /** A line of least error, with the weighted mean of the squared distances, and that times the number of points. */
  ghost predicate IsFit(ps: seq<Sample>, line: Line, err: real, mse: real) {
    && LeastLine(ps, line) && Centred(ps, line)
    && mse * Sum(ps).w == Residual(ps, line) && err == |ps| as real * mse
  }

  /** A line, given by a point and its unit normal, of which no line has a smaller sum of squared distances. */
  ghost predicate LeastLine(ps: seq<Sample>, line: Line) {
    && line.nx * line.nx + line.ny * line.ny == 1.0
    && forall a, b, c | a * a + b * b == 1.0 :: Residual(ps, line) <= Squares(ps, a, b, c)
  }

  /** The point on the line is the centroid. */
  ghost predicate Centred(ps: seq<Sample>, line: Line) {
    line.px * Sum(ps).w == Sum(ps).mx && line.py * Sum(ps).w == Sum(ps).my
  }

  /** Fits a line to a window. */
  method FitLine(lfps: seq<Moments>, i0: nat, i1: nat, f: Trig, ghost ps: seq<Sample>)
    returns (line: Line, err: real, mse: real)
    requires Cumulative(ps, lfps) && i0 != i1 && i0 < |lfps| && i1 < |lfps| && Weighted(ps) && IsTrig(f)
    ensures IsFit(Window(ps, i0, i1), line, err, mse)
    ensures WindowSum(lfps, i0, i1).w > 0.0 && mse == FitError(lfps, f, i0, i1)
    ensures var k := Statistics(WindowSum(lfps, i0, i1));
      var theta := 0.5 * f.atan2(-2.0 * k.cxy, k.cyy - k.cxx);
      line.nx == f.cos(theta) && line.ny == f.sin(theta)
  {
    hide IsFit, Sum, Squares, Window, Offset, LeastLine, MeanError, Statistics, FitError, Cumulative;
    hide WindowSum, WindowSize, IsTrig, Weighted, MeanSquared, TotalSquared, Times, Half;
    var m, n := SumWindow(lfps, i0, i1);
    FitsWindow(lfps, i0, i1, f, ps);
    var k := Statistics(m);
    var direction := Half(f, k.cyy - k.cxx, -2.0 * k.cxy);
    var nx, ny := direction.0, direction.1;
    line := Line(k.ex, k.ey, nx, ny);
    mse := MeanSquared(nx, ny, k.cxx, k.cxy, k.cyy);
    err := TotalSquared(nx, ny, n as real, k.cxx, k.cxy, k.cyy);
    HalfIs(f, k.cyy - k.cxx, -2.0 * k.cxy);
    MeanErrorParts(k, nx, ny, n as real);
  }

  lemma {:induction false} HalfIs(f: Trig, p: real, q: real)
    ensures Half(f, p, q) == (f.cos(0.5 * f.atan2(q, p)), f.sin(0.5 * f.atan2(q, p)))
  {}

  function MeanSquared(nx: real, ny: real, cxx: real, cxy: real, cyy: real): real {
    nx * nx * cxx + 2.0 * nx * ny * cxy + ny * ny * cyy
  }

  function TotalSquared(nx: real, ny: real, n: real, cxx: real, cxy: real, cyy: real): real {
    nx * nx * n * cxx + 2.0 * nx * ny * n * cxy + ny * ny * n * cyy
  }

  lemma {:induction false} MeanErrorParts(k: Covariance, nx: real, ny: real, n: real)
    ensures MeanError(k, nx, ny) == MeanSquared(nx, ny, k.cxx, k.cxy, k.cyy)
    ensures TotalSquared(nx, ny, n, k.cxx, k.cxy, k.cyy) == Times(n, MeanError(k, nx, ny))
  {}

  /** The line through the centroid at half the angle fits the window, with the mean squared error of FitError. */
  lemma {:induction false} FitsWindow(lfps: seq<Moments>, i0: nat, i1: nat, f: Trig, ps: seq<Sample>)
    requires Cumulative(ps, lfps) && i0 != i1 && i0 < |lfps| && i1 < |lfps| && Weighted(ps) && IsTrig(f)
    ensures var m := WindowSum(lfps, i0, i1);
      && m.w > 0.0
      && var k := Statistics(m); var d := Half(f, k.cyy - k.cxx, -2.0 * k.cxy);
      && FitError(lfps, f, i0, i1) == MeanError(k, d.0, d.1)
      && IsFit(Window(ps, i0, i1), Line(k.ex, k.ey, d.0, d.1),
               Times(WindowSize(|lfps|, i0, i1) as real, MeanError(k, d.0, d.1)), MeanError(k, d.0, d.1))
  {
    hide Sum, Squares, IsHalf, IsTrig, Half, Window, Offset, LeastLine, Centred, MeanError, Statistics, WindowSum,
      WindowSize;
    var win := Window(ps, i0, i1);
    WindowMoments(lfps, i0, i1, ps);
    WindowWeighted(ps, i0, i1);
    TotalPositive(win);
    var k := Statistics(Sum(win));
    var d := Half(f, k.cyy - k.cxx, -2.0 * k.cxy);
    HalvesAngle(f, k.cyy - k.cxx, -2.0 * k.cxy);
    ErrorIsResidual(win, d.0, d.1);
    assert (d.0, d.1) == d;
    StatisticsCentred(win, d.0, d.1);
    LeastSquares(win, Line(k.ex, k.ey, d.0, d.1));
  }

  lemma {:induction false} StatisticsCentred(ps: seq<Sample>, nx: real, ny: real)
    requires Sum(ps).w != 0.0
    ensures var k := Statistics(Sum(ps)); Centred(ps, Line(k.ex, k.ey, nx, ny))
  {
    hide Sum;
    DivideBack(Sum(ps).mx, Sum(ps).w);
    DivideBack(Sum(ps).my, Sum(ps).w);
  }

  /** The mean squared error of a window is the least of all lines. */
  lemma {:induction false} FitErrorIsLeast(lfps: seq<Moments>, i0: nat, i1: nat, f: Trig, ps: seq<Sample>)
    requires Cumulative(ps, lfps) && i0 != i1 && i0 < |lfps| && i1 < |lfps| && Weighted(ps) && IsTrig(f)
    ensures WindowSum(lfps, i0, i1).w > 0.0 && IsLeastError(Window(ps, i0, i1), FitError(lfps, f, i0, i1))
  {
    hide LeastLine, Centred, Residual, Sum, Window, MeanError, Statistics, FitError, Cumulative, WindowSum, IsTrig;
    hide Half;
    FitsWindow(lfps, i0, i1, f, ps);
  }

  lemma {:induction false} WindowWeighted(ps: seq<Sample>, i0: nat, i1: nat)
    requires Weighted(ps) && i0 < |ps| && i1 < |ps|
    ensures Weighted(Window(ps, i0, i1))
  {}

  /** The fitted line has the least sum of weighted squared distances of all lines. */
  lemma {:induction false} LeastSquares(ps: seq<Sample>, l: Line)
    requires Sum(ps).w > 0.0
    requires var k := Statistics(Sum(ps)); HalfAngle(k, l.nx, l.ny) && l.px == k.ex && l.py == k.ey
    ensures LeastLine(ps, l)
  {
    HalfIsUnit(l.nx, l.ny, Statistics(Sum(ps)));
    hide Sum, Squares, Residual, IsHalf, Statistics;
    forall a, b, c | a * a + b * b == 1.0 ensures Residual(ps, l) <= Squares(ps, a, b, c) {
      NoneBetter(ps, l, a, b, c);
    }
  }

  lemma {:induction false} NoneBetter(ps: seq<Sample>, l: Line, a: real, b: real, c: real)
    requires Sum(ps).w > 0.0 && a * a + b * b == 1.0
    requires var k := Statistics(Sum(ps)); HalfAngle(k, l.nx, l.ny) && l.px == k.ex && l.py == k.ey
    ensures Residual(ps, l) <= Squares(ps, a, b, c)
  {
    hide Sum, Squares, IsHalf, MeanError, Statistics, Offset;
    var k := Statistics(Sum(ps));
    ErrorIsResidual(ps, l.nx, l.ny);
    CentroidBest(ps, a, b, c);
    ErrorIsResidual(ps, a, b);
    DirectionBest(k, l.nx, l.ny, a, b);
    Scale(MeanError(k, l.nx, l.ny), MeanError(k, a, b), Sum(ps).w);
  }

  lemma {:induction false} HalfIsUnit(nx: real, ny: real, k: Covariance)
    requires HalfAngle(k, nx, ny)
    ensures nx * nx + ny * ny == 1.0
  {}

  lemma {:induction false} Scale(x: real, y: real, w: real)
    requires x <= y && w > 0.0
    ensures x * w <= y * w
  {}
}
