/** Point in polygon by quadrant counting (`g2d_polygon_contains_point`,
    Robot/apriltags/common/g2d.c), over the exact reals. */
module Winding {

  import opened Arithmetic
  import opened Points

  // ---------------------------------------------------------------------------------------
  // Crossings of the ray from q to the right

  /** Where the line through a and b is at height y. */
  function XAt(a: Point, b: Point, y: real): real
    requires a.y != b.y
  {
    a.x + (y - a.y) * (b.x - a.x) / (b.y - a.y)
  }

  /** +1 if the edge crosses the ray upwards, -1 if downwards, 0 if it does not cross it. A vertex
      on the ray belongs to the upper side. */
  function Crossing(a: Point, b: Point, q: Point): int {
    if a.y < q.y <= b.y then (if XAt(a, b, q.y) > q.x then 1 else 0)
    else if b.y < q.y <= a.y then (if XAt(a, b, q.y) > q.x then -1 else 0)
    else 0
  }

  function Next(poly: seq<Point>, i: nat): Point
    requires |poly| > 0
  {
    poly[i % |poly|]
  }

  /** Signed crossings of the first k edges. */
  function Crossings(poly: seq<Point>, q: Point, k: nat): int
    requires |poly| > 0
  {
    if k == 0 then 0 else Crossings(poly, q, k - 1) + Crossing(Next(poly, k - 1), Next(poly, k), q)
  }

  /** The winding number of the closed polygon around q. */
  function WindingNumber(poly: seq<Point>, q: Point): int
    requires |poly| > 0
  {
    Crossings(poly, q, |poly|)
  }

  /** Twice the signed area of the triangle q, a, b. */
  function Cross(a: Point, b: Point, q: Point): real {
    (a.x - q.x) * (b.y - q.y) - (a.y - q.y) * (b.x - q.x)
  }

  function MinR(a: real, b: real): real { if a < b then a else b }
  function MaxR(a: real, b: real): real { if a < b then b else a }

  /** q lies on the closed segment from a to b. */
  predicate OnSegment(a: Point, b: Point, q: Point) {
    && Cross(a, b, q) == 0.0
    && MinR(a.x, b.x) <= q.x <= MaxR(a.x, b.x) && MinR(a.y, b.y) <= q.y <= MaxR(a.y, b.y)
  }

  predicate OnNoEdge(poly: seq<Point>, q: Point)
    requires |poly| > 0
  {
    forall i {:trigger poly[i]} | 0 <= i < |poly| :: !OnSegment(poly[i], Next(poly, i + 1), q)
  }

  // ---------------------------------------------------------------------------------------
  // Quadrants

  function Quadrant(p: Point, q: Point): (k: nat)
    ensures k < 4
  {
    if p.x < q.x then (if p.y < q.y then 2 else 1) else (if p.y < q.y then 3 else 0)
  }

  /** What one edge adds to the quarter-turn count. */
  function QuarterTurns(a: Point, b: Point, q: Point): int {
    var dq := Quadrant(b, q) - Quadrant(a, q);
    if dq == -3 || dq == 1 then 1
    else if dq == -1 || dq == 3 then -1
    else if dq == 0 then 0
    else if Cross(a, b, q) < 0.0 then -2 else 2
  }

  function QuarterSum(poly: seq<Point>, q: Point, k: nat): int
    requires |poly| > 0
  {
    if k == 0 then 0 else QuarterSum(poly, q, k - 1) + QuarterTurns(Next(poly, k - 1), Next(poly, k), q)
  }

  lemma {:induction false} Quotient(n: real, d: real, t: real)
    requires d != 0.0 && t == n / d
    ensures t * d == n
  {}

  /** Which side of q an edge passes at q's height is the sign of the cross product. */
  lemma {:induction false} SideOfCrossing(a: Point, b: Point, q: Point)
    requires a.y != b.y
    ensures (XAt(a, b, q.y) - q.x) * (b.y - a.y) == Cross(a, b, q)
  {
    var n, d := (q.y - a.y) * (b.x - a.x), b.y - a.y;
    var t := n / d;
    Quotient(n, d, t);
    assert XAt(a, b, q.y) == a.x + t;
    assert (a.x + t - q.x) * d == (a.x - q.x) * d + t * d;
    var ux, uy, vx, vy := a.x - q.x, a.y - q.y, b.x - q.x, b.y - q.y;
    assert d == vy - uy && b.x - a.x == vx - ux && q.y - a.y == -uy;
    assert ux * (vy - uy) + (-uy) * (vx - ux) == ux * vy - uy * vx;
  }

  lemma {:induction false} SignOfProduct(x: real, d: real)
    ensures d > 0.0 ==> (x * d > 0.0 <==> x > 0.0) && (x * d == 0.0 <==> x == 0.0)
    ensures d < 0.0 ==> (x * d < 0.0 <==> x > 0.0) && (x * d == 0.0 <==> x == 0.0)
  {}

  /** The crossing in terms of the cross product. */
  lemma {:induction false} CrossingByCross(a: Point, b: Point, q: Point)
    ensures a.y < q.y <= b.y ==> Crossing(a, b, q) == if Cross(a, b, q) > 0.0 then 1 else 0
    ensures b.y < q.y <= a.y ==> Crossing(a, b, q) == if Cross(a, b, q) < 0.0 then -1 else 0
  {
    if a.y != b.y {
      SideOfCrossing(a, b, q);
      SignOfProduct(XAt(a, b, q.y) - q.x, b.y - a.y);
    }
  }

  /** Signs of the cross product when both ends are on one side, or in opposite quadrants. */
  lemma {:induction false} CrossSigns(a: Point, b: Point, q: Point)
    requires !OnSegment(a, b, q)
    ensures a.x < q.x && b.x < q.x && a.y < q.y <= b.y ==> Cross(a, b, q) < 0.0
    ensures a.x < q.x && b.x < q.x && b.y < q.y <= a.y ==> Cross(a, b, q) > 0.0
    ensures a.x >= q.x && b.x >= q.x && a.y < q.y <= b.y ==> Cross(a, b, q) > 0.0
    ensures a.x >= q.x && b.x >= q.x && b.y < q.y <= a.y ==> Cross(a, b, q) < 0.0
    ensures Quadrant(a, q) - Quadrant(b, q) == 2 || Quadrant(b, q) - Quadrant(a, q) == 2 ==> Cross(a, b, q) != 0.0
  {
    var ux, uy, vx, vy := a.x - q.x, a.y - q.y, b.x - q.x, b.y - q.y;
    MonotoneProduct(ux, vy);
    MonotoneProduct(uy, vx);
  }

  lemma {:induction false} MonotoneProduct(x: real, y: real)
    ensures x < 0.0 && y < 0.0 ==> x * y > 0.0
    ensures x < 0.0 && y >= 0.0 ==> x * y <= 0.0
    ensures x >= 0.0 && y < 0.0 ==> x * y <= 0.0
    ensures x >= 0.0 && y >= 0.0 ==> x * y >= 0.0
    ensures x < 0.0 && y > 0.0 ==> x * y < 0.0
    ensures x > 0.0 && y < 0.0 ==> x * y < 0.0
  {}

  /** Each edge turns by its change of quadrant plus four per crossing. */
  lemma {:induction false} EdgeTurns(a: Point, b: Point, q: Point)
    requires !OnSegment(a, b, q)
    ensures QuarterTurns(a, b, q) == Quadrant(b, q) - Quadrant(a, q) + 4 * Crossing(a, b, q)
  {
    hide Cross, OnSegment;
    CrossingByCross(a, b, q);
    CrossSigns(a, b, q);
  }

  lemma {:induction false} SumTurns(poly: seq<Point>, q: Point, k: nat)
    requires |poly| > 0 && OnNoEdge(poly, q)
    ensures QuarterSum(poly, q, k) == Quadrant(Next(poly, k), q) - Quadrant(poly[0], q) + 4 * Crossings(poly, q, k)
  {
    hide OnSegment, QuarterTurns, Crossing, Quadrant, Next;
    if k > 0 {
      SumTurns(poly, q, k - 1);
      EdgeFree(poly, q, k);
      EdgeTurns(Next(poly, k - 1), Next(poly, k), q);
    } else {
      FirstVertex(poly);
    }
  }

  lemma {:induction false} FirstVertex(poly: seq<Point>)
    requires |poly| > 0
    ensures Next(poly, 0) == poly[0] == Next(poly, |poly|)
  {}

  lemma {:induction false} EdgeFree(poly: seq<Point>, q: Point, k: nat)
    requires |poly| > 0 && OnNoEdge(poly, q) && k > 0
    ensures !OnSegment(Next(poly, k - 1), Next(poly, k), q)
  {
    hide OnSegment;
    NextWraps(poly, k);
    assert !OnSegment(poly[(k - 1) % |poly|], Next(poly, (k - 1) % |poly| + 1), q);
  }

  lemma {:induction false} NextWraps(poly: seq<Point>, k: nat)
    requires |poly| > 0 && k > 0
    ensures ((k - 1) % |poly| + 1) % |poly| == k % |poly|
  {
    NextMod(k, |poly|);
  }

  /** Around the closed polygon the count is four times the winding number, so it reaches two in
      absolute value exactly if the winding number is not zero. */
  lemma {:induction false} QuartersAreWinding(poly: seq<Point>, q: Point)
    requires |poly| > 0 && OnNoEdge(poly, q)
    ensures QuarterSum(poly, q, |poly|) == 4 * WindingNumber(poly, q)
  {
    SumTurns(poly, q, |poly|);
    FirstVertex(poly);
  }

  /** What the loop adds for one edge, given the quadrants of its ends. */
  method CountEdge(p0: Point, p: Point, q: Point, lastQuadrant: int, quadrant: int) returns (delta: int)
    requires lastQuadrant == Quadrant(p0, q) && quadrant == Quadrant(p, q)
    ensures delta == QuarterTurns(p0, p, q)
  {
    var dquadrant := quadrant - lastQuadrant;
    delta := 0;
    if dquadrant == -3 || dquadrant == 1 {
      delta := 1;
    } else if dquadrant == -1 || dquadrant == 3 {
      delta := -1;
    } else if dquadrant == -2 || dquadrant == 2 {
      var nx := p.y - q.y;
      var ny := -p.x + q.x;
      var dot := nx * (p0.x - q.x) + ny * (p0.y - q.y);
      assert dot == Cross(p0, p, q);
      delta := if dot < 0.0 then -2 else 2;
    }
  }

  /** The loop over the vertices, once around and back to the first. */
  method ContainsPoint(poly: seq<Point>, q: Point) returns (v: bool)
    requires |poly| > 0
    ensures v <==> QuarterSum(poly, q, |poly|) >= 2 || QuarterSum(poly, q, |poly|) <= -2
    ensures OnNoEdge(poly, q) ==> (v <==> WindingNumber(poly, q) != 0)
  {
    hide QuarterTurns, OnNoEdge, Quadrant, Next, WindingNumber, QuarterSum;
    var quadAcc := 0;
    var lastQuadrant := 0;
    var i: nat := 0;
    while i <= |poly|
      invariant i <= |poly| + 1
      invariant i > 0 ==> lastQuadrant == Quadrant(Next(poly, i - 1), q) && quadAcc == QuarterSum(poly, q, i - 1)
      invariant i == 0 ==> quadAcc == 0
    {
      VertexAt(poly, i);
      SumNext(poly, q, i);
      var p := poly[i % |poly|];
      var quadrant := Quadrant(p, q);
      if i > 0 {
        var delta := CountEdge(poly[i - 1], p, q, lastQuadrant, quadrant);
        quadAcc := quadAcc + delta;
      }
      lastQuadrant := quadrant;
      i := i + 1;
    }
    v := quadAcc >= 2 || quadAcc <= -2;
    if OnNoEdge(poly, q) {
      QuartersAreWinding(poly, q);
    }
  }

  lemma {:induction false} VertexAt(poly: seq<Point>, i: nat)
    requires |poly| > 0 && i <= |poly|
    ensures i % |poly| < |poly| && Next(poly, i) == poly[i % |poly|]
    ensures i > 0 ==> Next(poly, i - 1) == poly[i - 1]
  {}

  lemma {:induction false} SumNext(poly: seq<Point>, q: Point, i: nat)
    requires |poly| > 0
    ensures QuarterSum(poly, q, 0) == 0
    ensures i > 0 ==>
      QuarterSum(poly, q, i) == QuarterSum(poly, q, i - 1) + QuarterTurns(Next(poly, i - 1), Next(poly, i), q)
  {}
}
