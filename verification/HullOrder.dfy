/** Which orders of the input points lead the walk of HullWalk astray. */
module HullOrder {
  import opened HullWalk
  import opened Orientation
  import opened Points

  /** The first f entries and entry f lie on one line that bounds the points, and f is its end: the edge from entry 0 to
      f has no entry to its right, and none on its line beyond f. */
  ghost predicate Blocks(ps: seq<Point>, f: nat) {
    && 2 <= f && Bounds(ps, 0, f)
    && (forall i: nat | i < f :: !Off(ps, f, Edge(ps[0], ps[f]), i))
    && forall x: nat :: !Ahead(ps, f, Edge(ps[0], ps[f]), x)
  }

  ghost predicate Blocked(ps: seq<Point>) {
    exists f: nat :: Blocks(ps, f)
  }

  // ---------------------------------------------------------------------------------------
  // Directions along one line

  /** Directions that agree see everything alike. */
  lemma {:induction false} SameDirection(u0: real, u1: real, v0: real, v1: real, x0: real, x1: real)
    requires (u0 != 0.0 || u1 != 0.0) && Det(u0, u1, v0, v1) == 0.0 && Dot(u0, u1, v0, v1) > 0.0
    ensures Det(v0, v1, x0, x1) > 0.0 <==> Det(u0, u1, x0, x1) > 0.0
    ensures Det(v0, v1, x0, x1) < 0.0 <==> Det(u0, u1, x0, x1) < 0.0
    ensures Dot(v0, v1, x0, x1) > 0.0 <==> Dot(u0, u1, x0, x1) > 0.0
  {
    Positive(u0, u1);
    Lagrange(u0, u1, v0, v1, x0, x1);
    Lagrange(u0, u1, v0, v1, -x1, x0);
    Turned(v0, v1, x0, x1);
    Turned(u0, u1, x0, x1);
    hide Det, Dot;
    var n, s := Dot(u0, u1, u0, u1), Dot(u0, u1, v0, v1);
    SameSign(n, Det(v0, v1, x0, x1), s, Det(u0, u1, x0, x1));
    SameSign(n, Dot(v0, v1, x0, x1), s, Dot(u0, u1, x0, x1));
  }

  lemma {:induction false} Turned(v0: real, v1: real, x0: real, x1: real)
    ensures Det(v0, v1, -x1, x0) == Dot(v0, v1, x0, x1)
  {}

  /** Another direction along the line through p. */
  lemma {:induction false} SameLine(ps: seq<Point>, p: nat, u: Point, v: Point, x: nat)
    requires p < |ps| && u != Point(0.0, 0.0) && Det(u.x, u.y, v.x, v.y) == 0.0 && Dot(u.x, u.y, v.x, v.y) > 0.0
    ensures Off(ps, p, v, x) <==> Off(ps, p, u, x)
    ensures Ahead(ps, p, v, x) <==> Ahead(ps, p, u, x)
  {
    if x < |ps| { SameDirection(u.x, u.y, v.x, v.y, ps[x].x - ps[p].x, ps[x].y - ps[p].y); }
    hide Det, Dot;
  }

  /** Heights and distances seen from another point of the line. */
  lemma {:induction false} ShiftAlong(u: Point, p: Point, q: Point, x: Point)
    ensures Height(u, p, x) == Height(u, p, q) + Height(u, q, x)
    ensures Progress(u, p, x) == Progress(u, p, q) + Progress(u, q, x)
  {
    ShiftParts(u.x, q.x - p.x, x.x - q.x);
    ShiftParts(u.x, q.y - p.y, x.y - q.y);
    ShiftParts(u.y, q.x - p.x, x.x - q.x);
    ShiftParts(u.y, q.y - p.y, x.y - q.y);
  }

  lemma {:induction false} ShiftParts(u: real, a: real, b: real)
    ensures u * (a + b) == u * a + u * b
  {}

  /** The same half plane at another entry of the line. */
  lemma {:induction false} WideAlong(ps: seq<Point>, p: nat, u: Point, q: nat)
    requires Wide(ps, p, u) && q < |ps| && Height(u, ps[p], ps[q]) == 0.0
    ensures Wide(ps, q, u)
  {
    hide Height, Progress;
    forall x | 0 <= x < |ps| ensures Height(u, ps[q], ps[x]) >= 0.0 {
      ShiftAlong(u, ps[p], ps[q], ps[x]);
    }
  }

  /** Where entries of the line lie as seen from two of its points. */
  lemma {:induction false} SeenAlong(ps: seq<Point>, p: nat, u: Point, q: nat, x: nat)
    requires p < |ps| && q < |ps| && Height(u, ps[p], ps[q]) == 0.0
    ensures Off(ps, p, u, x) <==> Off(ps, q, u, x)
    ensures Ahead(ps, p, u, q) <==> Behind(ps, q, u, p)
    ensures Ahead(ps, p, u, q) && Ahead(ps, q, u, x) ==> Ahead(ps, p, u, x)
    ensures Behind(ps, p, u, q) && Behind(ps, q, u, x) ==> Behind(ps, p, u, x)
    ensures Behind(ps, p, u, x) && Ahead(ps, p, u, q) ==> Behind(ps, q, u, x)
    ensures Ahead(ps, p, u, x) && Behind(ps, p, u, q) ==> Ahead(ps, q, u, x)
  {
    hide Height, Progress;
    SelfProgress(u, ps[p]);
    ShiftAlong(u, ps[p], ps[q], ps[p]);
    if x < |ps| { ShiftAlong(u, ps[p], ps[q], ps[x]); }
  }

  // ---------------------------------------------------------------------------------------
  // From a blocking line the walk does not go around: no search on the line finds its end ...

  /** Three points of a line. */
  lemma {:induction false} OnLine(u: Point, f: Point, p: Point, b: Point, t: Point)
    requires u != Point(0.0, 0.0) && Height(u, f, p) == 0.0 == Height(u, f, b) && Height(u, f, t) == 0.0
    ensures Orient(p, b, t) == 0.0
  {
    hide Height, Orient;
    ShiftAlong(u, f, p, b);
    ShiftAlong(u, f, p, t);
    if b != p { ParallelSeen(p, b, t, u); } else { Degenerate(p, t); }
  }

  lemma {:induction false} Degenerate(p: Point, t: Point)
    ensures Orient(p, p, t) == 0.0
  {}

  lemma {:induction false} FlatAt(ps: seq<Point>, f: nat, i: nat)
    requires Blocks(ps, f) && i <= f
    ensures f < |ps| && Height(Edge(ps[0], ps[f]), ps[f], ps[i]) == 0.0
  {
    EdgeIsWide(ps, 0, f);
    SelfProgress(Edge(ps[0], ps[f]), ps[f]);
    hide Height;
    assert i < f ==> !Off(ps, f, Edge(ps[0], ps[f]), i);
  }

  lemma {:induction false} NotPicked(ps: seq<Point>, p: nat, f: nat, i: nat)
    requires Blocks(ps, f) && p < |ps| && p != f && Height(Edge(ps[0], ps[f]), ps[f], ps[p]) == 0.0 && i <= |ps|
    ensures Chosen(ps, p, i) != f
    ensures i <= f ==> Chosen(ps, p, i) == p || Chosen(ps, p, i) < f
  {
    hide Orient, Chosen, Height, Edge;
    FlatAt(ps, f, f);
    if i > 0 {
      NotPicked(ps, p, f, i - 1);
      ChosenNext(ps, p, i);
      if i - 1 == f {
        var q := Chosen(ps, p, f);
        if q == p {
          SomeChosen(ps, p, f);
        } else {
          FlatAt(ps, f, q);
          FirstDiffer(ps, f);
          OnLine(Edge(ps[0], ps[f]), ps[f], ps[p], ps[q], ps[f]);
        }
      }
    } else {
      ChosenNext(ps, p, 1);
    }
  }

  lemma {:induction false} FirstDiffer(ps: seq<Point>, f: nat)
    requires Blocks(ps, f)
    ensures f < |ps| && Edge(ps[0], ps[f]) != Point(0.0, 0.0)
  {}

  /** After two entries there is a choice. */
  lemma {:induction false} SomeChosen(ps: seq<Point>, p: nat, i: nat)
    requires p < |ps| && 2 <= i <= |ps|
    ensures Chosen(ps, p, i) != p
  {
    hide Orient, Chosen;
    ChosenNext(ps, p, 1);
    ChosenNext(ps, p, 2);
    if i > 2 {
      SomeChosen(ps, p, i - 1);
      ChosenNext(ps, p, i);
    }
  }

  /** Every edge of the hull that ends at the end of the line comes along the line. */
  lemma {:induction false} ComesAlong(ps: seq<Point>, p: nat, f: nat)
    requires Bounds(ps, 0, f) && Bounds(ps, p, f)
    ensures Height(Edge(ps[0], ps[f]), ps[f], ps[p]) == 0.0
  {
    hide Orient, Height;
    OrientSwap(ps[0], ps[f], ps[p]);
    ShiftHeight(ps[0], ps[f], ps[p]);
  }

  /** So no step along an edge of the hull leads there. */
  lemma {:induction false} NotReached(ps: seq<Point>, start: nat, k: nat, f: nat)
    requires start < |ps| && Blocks(ps, f) && EdgeAt(ps, start, k)
    ensures Walk(ps, start, k + 1) != f
  {
    hide Orient, Height, Chosen;
    var p := Walk(ps, start, k);
    if Walk(ps, start, k + 1) == f {
      ComesAlong(ps, p, f);
      hide Bounds;
      NotPicked(ps, p, f, |ps|);
    }
  }

  // ---------------------------------------------------------------------------------------
  // ... and a walk around the hull would have to come there

  /** Above the line a vertex with the lowest neighbours is followed by one as low and further back. */
  lemma {:induction false} NotLowest(ps: seq<Point>, f: nat, o: nat, p: nat, q: nat)
    requires Bounds(ps, 0, f) && Bounds(ps, o, p) && Bounds(ps, p, q) && !OnOneLine(ps)
    requires var u := Edge(ps[0], ps[f]);
      && Height(u, ps[f], ps[p]) > 0.0
      && Height(u, ps[f], ps[p]) <= Height(u, ps[f], ps[o]) && Height(u, ps[f], ps[p]) <= Height(u, ps[f], ps[q])
    ensures var u := Edge(ps[0], ps[f]);
      Height(u, ps[f], ps[q]) == Height(u, ps[f], ps[p]) && Progress(u, ps[f], ps[q]) < Progress(u, ps[f], ps[p])
  {
    hide Orient, OnOneLine, Det, Dot, Height, Progress;
    var u, a, b, v := Edge(ps[0], ps[f]), Edge(ps[o], ps[p]), Edge(ps[p], ps[q]), Edge(ps[p], ps[f]);
    Differences(u, ps[f], ps[o], ps[p]);
    Differences(u, ps[f], ps[p], ps[q]);
    Differences(u, ps[f], ps[p], ps[f]);
    SelfProgress(u, ps[f]);
    TurnParts(ps[o], ps[p], ps[q], ps[f]);
    LowAngle(u, a, b, v);
    if Det(a.x, a.y, b.x, b.y) == 0.0 {
      NotBackward(ps, o, p, q);
      AlongAngle(ps[o], ps[p], ps[q]);
      LowAlong(u, a, b, v);
    }
  }

  lemma {:induction false} Differences(u: Point, f: Point, p: Point, q: Point)
    ensures Det(u.x, u.y, q.x - p.x, q.y - p.y) == Height(u, f, q) - Height(u, f, p)
    ensures Dot(u.x, u.y, q.x - p.x, q.y - p.y) == Progress(u, f, q) - Progress(u, f, p)
  {
    ShiftAlong(u, f, p, q);
    hide Det, Dot;
  }

  lemma {:induction false} TurnParts(o: Point, p: Point, q: Point, f: Point)
    ensures var a, b, v := Edge(o, p), Edge(p, q), Edge(p, f);
      && Det(a.x, a.y, b.x, b.y) == Orient(o, p, q) && Det(a.x, a.y, v.x, v.y) == Orient(o, p, f)
      && Det(b.x, b.y, v.x, v.y) == Orient(p, q, f)
  {
    ShiftOrient(o, p, q);
    ShiftOrient(o, p, f);
  }

  lemma {:induction false} AlongAngle(o: Point, p: Point, q: Point)
    ensures var a, b := Edge(o, p), Edge(p, q); Progress(a, p, q) == Dot(a.x, a.y, b.x, b.y)
  {}

  /** The angle at a lowest vertex is flat if a point below lies in it. */
  lemma {:induction false} LowAngle(u: Point, a: Point, b: Point, v: Point)
    requires Det(u.x, u.y, a.x, a.y) <= 0.0 <= Det(u.x, u.y, b.x, b.y) && Det(u.x, u.y, v.x, v.y) < 0.0
    requires Det(a.x, a.y, b.x, b.y) >= 0.0 && Det(a.x, a.y, v.x, v.y) >= 0.0 && Det(b.x, b.y, v.x, v.y) >= 0.0
    ensures Det(a.x, a.y, b.x, b.y) == 0.0
  {
    Pluecker(u.x, u.y, a.x, a.y, v.x, v.y, b.x, b.y);
    DetSwap(v.x, v.y, b.x, b.y);
    hide Det;
    NoAngle(Det(u.x, u.y, v.x, v.y), Det(a.x, a.y, b.x, b.y), Det(u.x, u.y, a.x, a.y), Det(v.x, v.y, b.x, b.y),
            Det(u.x, u.y, b.x, b.y), Det(a.x, a.y, v.x, v.y));
  }

  lemma {:induction false} NoAngle(h: real, z: real, a: real, y: real, b: real, x: real)
    requires h < 0.0 && z >= 0.0 && a <= 0.0 && y <= 0.0 && b >= 0.0 && x >= 0.0 && h * z == a * y + b * x
    ensures z == 0.0
  {
    assert a * y >= 0.0 && b * x >= 0.0;
    assert z > 0.0 ==> h * z < 0.0;
  }

  /** If both edges then lead the same way, that way is back along the line. */
  lemma {:induction false} LowAlong(u: Point, a: Point, b: Point, v: Point)
    requires u != Point(0.0, 0.0) && a != Point(0.0, 0.0) && b != Point(0.0, 0.0)
    requires Det(u.x, u.y, a.x, a.y) <= 0.0 <= Det(u.x, u.y, b.x, b.y) && Det(u.x, u.y, v.x, v.y) < 0.0
    requires Det(a.x, a.y, b.x, b.y) == 0.0 && Dot(a.x, a.y, b.x, b.y) > 0.0 && Det(b.x, b.y, v.x, v.y) >= 0.0
    ensures Det(u.x, u.y, b.x, b.y) == 0.0 && Dot(u.x, u.y, b.x, b.y) < 0.0
  {
    SameDirection(a.x, a.y, b.x, b.y, u.x, u.y);
    DetSwap(u.x, u.y, a.x, a.y);
    DetSwap(u.x, u.y, b.x, b.y);
    if Dot(u.x, u.y, b.x, b.y) > 0.0 { SameDirection(u.x, u.y, b.x, b.y, v.x, v.y); }
    NotZero(u.x, u.y, b.x, b.y);
  }

  /** On the line a vertex before the end is followed by one further along. */
  lemma {:induction false} NotLast(ps: seq<Point>, f: nat, p: nat, q: nat)
    requires Bounds(ps, 0, f) && Bounds(ps, p, q) && !OnOneLine(ps) && NoTwin(ps, f)
    requires var u := Edge(ps[0], ps[f]);
      && Height(u, ps[f], ps[p]) == 0.0 && p != f && forall x: nat :: !Ahead(ps, f, u, x)
    ensures var u := Edge(ps[0], ps[f]);
      Height(u, ps[f], ps[q]) == 0.0 && Progress(u, ps[f], ps[q]) > Progress(u, ps[f], ps[p])
  {
    hide Orient, OnOneLine, Height, Progress, NoTwin, Wide;
    var u := Edge(ps[0], ps[f]);
    EdgeIsWide(ps, 0, f);
    var off := SomeOff(ps, f, u);
    Where(ps, f, u, p);
    WideAlong(ps, f, u, p);
    SeenAlong(ps, f, u, p, off);
    ShiftAlong(u, ps[f], ps[p], ps[f]);
    SelfProgress(u, ps[f]);
    SeenAlong(ps, p, u, f, off);
    ShiftAlong(u, ps[f], ps[p], ps[q]);
    WhereTo(ps, p, u, q);
    SeenEnds(ps, p, u, f, q, off);
  }

  lemma {:induction false} WhereTo(ps: seq<Point>, p: nat, u: Point, q: nat)
    requires Wide(ps, p, u) && q < |ps| && ps[q] != ps[p]
    ensures Off(ps, p, u, q) || Ahead(ps, p, u, q) || Behind(ps, p, u, q)
  {
    hide Det, Dot;
    if Height(u, ps[p], ps[q]) == 0.0 { Parallel(ps[p], ps[q], ps[p], u.x, u.y); }
  }

  /** From an entry behind f an edge of the hull leads ahead. */
  lemma {:induction false} SeenEnds(ps: seq<Point>, p: nat, u: Point, f: nat, q: nat, off: nat)
    requires Wide(ps, p, u) && Bounds(ps, p, q) && Ahead(ps, p, u, f) && Off(ps, p, u, off)
    ensures !Off(ps, p, u, q) && !Behind(ps, p, u, q)
  {
    hide Height, Progress, Orient, Wide;
    Seen(ps, p, u, f, q);
    Seen(ps, p, u, q, off);
  }

  /** The lowest vertex of the walk, and of these the furthest back. */
  lemma {:induction false} LowestOf(ps: seq<Point>, start: nat, n: nat, u: Point, f: Point) returns (k: nat)
    requires start < |ps| && n > 0
    ensures 1 <= k <= n && forall j: nat | 1 <= j <= n ::
      NotBelow(u, f, ps[Walk(ps, start, k)], ps[Walk(ps, start, j)])
  {
    hide Walk, Height, Progress;
    if n == 1 {
      k := 1;
    } else {
      k := LowestOf(ps, start, n - 1, u, f);
      var a, b := ps[Walk(ps, start, k)], ps[Walk(ps, start, n)];
      if !NotBelow(u, f, a, b) { k := n; }
    }
  }

  predicate NotBelow(u: Point, f: Point, a: Point, b: Point) {
    Height(u, f, a) < Height(u, f, b) || (Height(u, f, a) == Height(u, f, b) && Progress(u, f, a) <= Progress(u, f, b))
  }

  /** The vertex on the line that is furthest along. */
  lemma {:induction false} FurthestOf(ps: seq<Point>, start: nat, n: nat, u: Point, f: Point, i: nat) returns (k: nat)
    requires start < |ps| && 1 <= i <= n && Height(u, f, ps[Walk(ps, start, i)]) == 0.0
    ensures 1 <= k <= n && Height(u, f, ps[Walk(ps, start, k)]) == 0.0
    ensures forall j: nat | 1 <= j <= n && Height(u, f, ps[Walk(ps, start, j)]) == 0.0 ::
      Progress(u, f, ps[Walk(ps, start, j)]) <= Progress(u, f, ps[Walk(ps, start, k)])
    decreases n
  {
    hide Walk, Height, Progress;
    if n == 1 {
      k := 1;
    } else if i < n {
      k := FurthestOf(ps, start, n - 1, u, f, i);
      if Height(u, f, ps[Walk(ps, start, n)]) == 0.0
         && Progress(u, f, ps[Walk(ps, start, n)]) > Progress(u, f, ps[Walk(ps, start, k)]) {
        k := n;
      }
    } else if j: nat :| 1 <= j < n && Height(u, f, ps[Walk(ps, start, j)]) == 0.0 {
      k := FurthestOf(ps, start, n - 1, u, f, j);
      if Progress(u, f, ps[Walk(ps, start, n)]) > Progress(u, f, ps[Walk(ps, start, k)]) { k := n; }
    } else {
      k := n;
    }
  }

  /** The vertices before and after vertex k are among vertices 1 to n. */
  lemma {:induction false} InRange(ps: seq<Point>, start: nat, n: nat, k: nat) returns (i: nat, j: nat)
    requires start < |ps| && GoesAround(ps, start, n) && 1 <= k <= n
    ensures 1 <= i <= n && 1 <= j <= n
    ensures Walk(ps, start, i) == Walk(ps, start, k - 1) && Walk(ps, start, j) == Walk(ps, start, k + 1)
    ensures EdgeAt(ps, start, k - 1) && EdgeAt(ps, start, k)
  {
    hide Bounds;
    AroundAgain(ps, start, n, k);
    i := if k == 1 then n else k - 1;
    SamePlace(ps, start, n, 1);
    j := if k == n then 1 else k + 1;
  }

  lemma {:induction false} VisitsEnd(ps: seq<Point>, start: nat, n: nat, f: nat) returns (k: nat)
    requires start < |ps| && GoesAround(ps, start, n) && Blocks(ps, f) && NoTwin(ps, f) && !OnOneLine(ps)
    ensures 1 <= k <= n && Walk(ps, start, k) == f
  {
    FirstDiffer(ps, f);
    AroundSteps(ps, start, n);
    hide Bounds, OnOneLine, NoTwin, Walk, Height, Progress, GoesAround;
    var u := Edge(ps[0], ps[f]);
    var low := VisitsLine(ps, start, n, f);
    k := FurthestOf(ps, start, n, u, ps[f], low);
    var i, j := InRange(ps, start, n, k);
    if Walk(ps, start, k) != f {
      NotLast(ps, f, Walk(ps, start, k), Walk(ps, start, k + 1));
    }
  }

  lemma {:induction false} VisitsLine(ps: seq<Point>, start: nat, n: nat, f: nat) returns (k: nat)
    requires start < |ps| && GoesAround(ps, start, n) && Blocks(ps, f) && !OnOneLine(ps)
    ensures 1 <= k <= n && Height(Edge(ps[0], ps[f]), ps[f], ps[Walk(ps, start, k)]) == 0.0
  {
    var u := Edge(ps[0], ps[f]);
    AroundSteps(ps, start, n);
    k := LowestOf(ps, start, n, u, ps[f]);
    EdgeIsWide(ps, 0, f);
    assert Height(u, ps[f], ps[Walk(ps, start, k)]) >= 0.0;
    hide Bounds, OnOneLine, Walk, Height, Progress, GoesAround, Blocks;
    var i, j := InRange(ps, start, n, k);
    if Height(u, ps[f], ps[Walk(ps, start, k)]) > 0.0 {
      assert NotBelow(u, ps[f], ps[Walk(ps, start, k)], ps[Walk(ps, start, i)]);
      assert NotBelow(u, ps[f], ps[Walk(ps, start, k)], ps[Walk(ps, start, j)]);
      NotLowest(ps, f, Walk(ps, start, k - 1), Walk(ps, start, k), Walk(ps, start, k + 1));
    }
  }

  lemma {:induction false} AroundSteps(ps: seq<Point>, start: nat, n: nat)
    requires start < |ps| && GoesAround(ps, start, n)
    ensures n > 0
  {}

  lemma {:induction false} AroundNotBlocked(ps: seq<Point>, start: nat, n: nat, f: nat)
    requires start < |ps| && GoesAround(ps, start, n) && NoTwins(ps) && !OnOneLine(ps)
    ensures !Blocks(ps, f)
  {
    if Blocks(ps, f) {
      assert NoTwin(ps, f);
      hide Bounds, OnOneLine, NoTwins, NoTwin, Walk, Blocks;
      var k := VisitsEnd(ps, start, n, f);
      assert EdgeAt(ps, start, k - 1);
      NotReached(ps, start, k - 1, f);
    }
  }

  // ---------------------------------------------------------------------------------------
  // A search that is stuck shows a blocking line

  /** The entry ahead that is furthest along. */
  lemma {:induction false} FurthestAhead(ps: seq<Point>, p: nat, u: Point, a: nat, n: nat) returns (f: nat)
    requires p < |ps| && Ahead(ps, p, u, a) && a < n <= |ps|
    ensures Ahead(ps, p, u, f) && forall x: nat | x < n && Ahead(ps, p, u, x) ::
      Progress(u, ps[p], ps[x]) <= Progress(u, ps[p], ps[f])
    decreases n
  {
    hide Progress, Height;
    if a < n - 1 {
      f := FurthestAhead(ps, p, u, a, n - 1);
      if Ahead(ps, p, u, n - 1) && Progress(u, ps[p], ps[n - 1]) > Progress(u, ps[p], ps[f]) { f := n - 1; }
    } else if b: nat :| b < n - 1 && Ahead(ps, p, u, b) {
      f := FurthestAhead(ps, p, u, b, n - 1);
      if Progress(u, ps[p], ps[n - 1]) > Progress(u, ps[p], ps[f]) { f := n - 1; }
    } else {
      f := a;
    }
  }

  /** If the first entry lies ahead the search stays with it. */
  lemma {:induction false} FirstAhead(ps: seq<Point>, p: nat, u: Point, i: nat)
    requires Wide(ps, p, u) && FirstOther(p) < i <= |ps| && Ahead(ps, p, u, FirstOther(p))
    ensures p < |ps| && Chosen(ps, p, i) == FirstOther(p)
  {
    hide Orient, Chosen, Height, Progress;
    WideAt(ps, p, u);
    hide Wide;
    ChosenNext(ps, p, i);
    if i - 1 > FirstOther(p) {
      FirstAhead(ps, p, u, i - 1);
      Seen(ps, p, u, FirstOther(p), i - 1);
    } else if p == 0 {
      ChosenNext(ps, p, 1);
    }
  }

  /** Nothing on the line lies behind the start. */
  lemma {:induction false} StartIsRear(ps: seq<Point>, start: nat, u: Point, a: nat)
    requires FirstLeft(ps, start) && u != Point(0.0, 0.0) && Behind(ps, start, u, 0)
    ensures !Ahead(ps, start, u, a)
  {
    SelfProgress(u, ps[start]);
    if Ahead(ps, start, u, a) {
      AlongX(u.x, u.y, ps[0].x - ps[start].x, ps[0].y - ps[start].y);
      AlongX(u.x, u.y, ps[a].x - ps[start].x, ps[a].y - ps[start].y);
    }
  }

  lemma {:induction false} AlongX(u0: real, u1: real, v0: real, v1: real)
    requires (u0 != 0.0 || u1 != 0.0) && Det(u0, u1, v0, v1) == 0.0
    ensures u0 == 0.0 ==> v0 == 0.0
    ensures u0 > 0.0 ==> (Dot(u0, u1, v0, v1) > 0.0 <==> v0 > 0.0) && (Dot(u0, u1, v0, v1) < 0.0 <==> v0 < 0.0)
    ensures u0 < 0.0 ==> (Dot(u0, u1, v0, v1) > 0.0 <==> v0 < 0.0) && (Dot(u0, u1, v0, v1) < 0.0 <==> v0 > 0.0)
  {
    Positive(u0, u1);
    assert u0 * Dot(u0, u1, v0, v1) == Dot(u0, u1, u0, u1) * v0 by {
      assert u0 * (u1 * v1) == u1 * (u0 * v1) == u1 * (u1 * v0);
    }
    if u0 == 0.0 { assert u1 * v0 == 0.0; }
    var n, s := Dot(u0, u1, u0, u1), Dot(u0, u1, v0, v1);
    hide Dot, Det;
    ProductOf(n, v0);
    ProductOf(u0, s);
  }

  /** On the line of entry 1 the walk does not leave entry 0 behind. */
  lemma {:induction false} NothingLeftBehind(ps: seq<Point>, start: nat, j: nat, u: Point)
    requires FirstLeft(ps, start) && NoTwins(ps) && !OnOneLine(ps) && |ps| >= 2
    requires forall i: nat | i < j :: EdgeAt(ps, start, i)
    requires Wide(ps, Walk(ps, start, j), u) && Ahead(ps, Walk(ps, start, j), u, 1)
    ensures !Behind(ps, Walk(ps, start, j), u, 0)
  {
    hide Orient, OnOneLine, Height, Progress, Chosen, NoTwins, FirstLeft, Wide, Bounds;
    FirstAt(ps, start);
    var w := Walk(ps, start, j);
    if Behind(ps, w, u, 0) {
      if j == 0 {
        WideNotZero(ps, w, u);
        StartIsRear(ps, start, u, 1);
      } else {
        assert EdgeAt(ps, start, j - 1);
        var o := Walk(ps, start, j - 1);
        CameFrom(ps, o, w, u, 0);
        SeenAlong(ps, w, u, o, 1);
        SeenAlong(ps, o, u, w, 1);
        LineFirst(ps, o, w, u);
        NothingLeftBehind(ps, start, j - 1, u);
      }
    }
  }

  lemma {:induction false} WideNotZero(ps: seq<Point>, p: nat, u: Point)
    requires Wide(ps, p, u)
    ensures u != Point(0.0, 0.0)
  {}

  /** An edge of the hull to an entry with another one behind comes from behind on the line. */
  lemma {:induction false} CameFrom(ps: seq<Point>, o: nat, w: nat, u: Point, b: nat)
    requires Bounds(ps, o, w) && Wide(ps, w, u) && Behind(ps, w, u, b) && NoTwins(ps) && !OnOneLine(ps) && |ps| >= 2
    ensures Behind(ps, w, u, o) && Height(u, ps[w], ps[o]) == 0.0 == Height(u, ps[o], ps[w]) && Wide(ps, o, u)
  {
    hide Orient, OnOneLine, Height, Progress;
    assert NoTwin(ps, w) && ps[o] != ps[w];
    assert Orient(ps[o], ps[w], ps[b]) >= 0.0;
    hide NoTwin, NoTwins;
    var off := SomeOff(ps, w, u);
    assert Orient(ps[o], ps[w], ps[off]) >= 0.0;
    WhereTo(ps, w, u, o);
    hide Bounds;
    Seen(ps, w, u, b, o);
    Seen(ps, w, u, o, off);
    OrientTurn(ps[o], ps[w], ps[b]);
    OrientTurn(ps[o], ps[w], ps[off]);
    OrientTurn(ps[w], ps[off], ps[o]);
    WideAlong(ps, w, u, o);
    ShiftAlong(u, ps[w], ps[o], ps[w]);
    SelfProgress(u, ps[w]);
  }

  /** From there entry 0 lies behind as well: otherwise the search would have taken entry 0 or 1. */
  lemma {:induction false} LineFirst(ps: seq<Point>, o: nat, w: nat, u: Point)
    requires Wide(ps, o, u) && NoTwins(ps) && Bounds(ps, o, w) && |ps| >= 2 && w == Chosen(ps, o, |ps|)
    requires Ahead(ps, o, u, w) && Ahead(ps, w, u, 1) && Behind(ps, w, u, 0)
    ensures Behind(ps, o, u, 0) && Ahead(ps, o, u, 1)
  {
    assert NoTwin(ps, o);
    hide Orient, Height, Progress, Chosen, NoTwins, Bounds, Wide;
    SelfAside(ps, w, u);
    SeenAlong(ps, o, u, w, 1);
    AheadLevel(ps, o, u, w);
    SeenAlong(ps, o, u, w, 0);
    if Ahead(ps, o, u, FirstOther(o)) { FirstAhead(ps, o, u, |ps|); }
    if o != 0 {
      Where(ps, o, u, 0);
      Excluded(ps, w, u, 0);
    }
  }

  lemma {:induction false} AheadLevel(ps: seq<Point>, p: nat, u: Point, x: nat)
    requires p < |ps| && (Ahead(ps, p, u, x) || Behind(ps, p, u, x))
    ensures x < |ps| && Height(u, ps[p], ps[x]) == 0.0
  {}

  lemma {:induction false} SelfAside(ps: seq<Point>, p: nat, u: Point)
    requires p < |ps|
    ensures !Ahead(ps, p, u, p) && !Behind(ps, p, u, p)
  {
    SelfProgress(u, ps[p]);
  }

  /** Entry f, furthest ahead, comes before all entries off the line. */
  lemma {:induction false} LineBlocks(ps: seq<Point>, p: nat, u: Point, f: nat)
    requires Wide(ps, p, u) && NoTwins(ps) && 2 <= f && Ahead(ps, p, u, f)
    requires forall x: nat | Ahead(ps, p, u, x) :: Progress(u, ps[p], ps[x]) <= Progress(u, ps[p], ps[f])
    requires forall x: nat | Off(ps, p, u, x) :: f < x
    ensures Blocks(ps, f)
  {
    hide Orient, Height, Progress, NoTwins, Wide, Det, Dot;
    WideAt(ps, p, u);
    WideNotZero(ps, p, u);
    AheadLevel(ps, p, u, f);
    EndHasNoTwin(ps, p, u, f);
    RearToEnd(ps, p, u, f);
    WideAlong(ps, p, u, 0);
    EdgeAhead(ps, 0, u, f);
    var v := Edge(ps[0], ps[f]);
    EdgeAlong(ps[0], ps[f], u);
    forall i: nat | i < f ensures !Off(ps, f, v, i) {
      SameLine(ps, f, u, v, i);
      SeenAlong(ps, p, u, f, i);
    }
    forall x: nat ensures !Ahead(ps, f, v, x) {
      SameLine(ps, f, u, v, x);
      SeenAlong(ps, p, u, f, x);
      if x < |ps| { ShiftAlong(u, ps[p], ps[f], ps[x]); }
    }
  }

  lemma {:induction false} EndHasNoTwin(ps: seq<Point>, p: nat, u: Point, f: nat)
    requires Wide(ps, p, u) && NoTwins(ps) && Ahead(ps, p, u, f)
    ensures NoTwin(ps, f)
  {
    hide Orient, Height, Progress, Wide, NoTwin;
    WideAt(ps, p, u);
    EdgeAhead(ps, p, u, f);
  }

  /** The edge to an entry ahead bounds the points. */
  lemma {:induction false} EdgeAhead(ps: seq<Point>, p: nat, u: Point, f: nat)
    requires Wide(ps, p, u) && Ahead(ps, p, u, f)
    ensures Bounds(ps, p, f)
  {
    hide Orient, Height, Progress, Wide;
    WideAt(ps, p, u);
    SelfProgress(u, ps[p]);
    forall x | 0 <= x < |ps| ensures Orient(ps[p], ps[f], ps[x]) >= 0.0 {
      Seen(ps, p, u, f, x);
    }
  }

  lemma {:induction false} EdgeAlong(p: Point, f: Point, u: Point)
    ensures Det(u.x, u.y, Edge(p, f).x, Edge(p, f).y) == Height(u, p, f)
    ensures Dot(u.x, u.y, Edge(p, f).x, Edge(p, f).y) == Progress(u, p, f)
  {}

  /** From entry 0 the end lies ahead. */
  lemma {:induction false} RearToEnd(ps: seq<Point>, p: nat, u: Point, f: nat)
    requires Wide(ps, p, u) && NoTwin(ps, f) && 0 < f && Ahead(ps, p, u, f) && !Off(ps, p, u, 0)
    requires Ahead(ps, p, u, 0) ==> Progress(u, ps[p], ps[0]) <= Progress(u, ps[p], ps[f])
    ensures p < |ps| && Height(u, ps[p], ps[0]) == 0.0 && Ahead(ps, 0, u, f)
  {
    assert Height(u, ps[p], ps[0]) >= 0.0;
    hide Orient, Height, Progress;
    ShiftAlong(u, ps[p], ps[0], ps[f]);
    WideAlong(ps, p, u, 0);
    WhereTo(ps, 0, u, f);
  }

  /** The first search that is stuck shows a blocking line. */
  lemma {:induction false} StuckBlocks(ps: seq<Point>, start: nat, k: nat) returns (f: nat)
    requires FirstLeft(ps, start) && NoTwins(ps) && !OnOneLine(ps) && |ps| >= 2
    requires (forall i: nat | i < k :: EdgeAt(ps, start, i)) && StuckAt(ps, start, k)
    ensures Blocks(ps, f)
  {
    hide OnOneLine, Chosen, Height, Progress, Bounds, Off, Ahead, Behind;
    FirstAt(ps, start);
    var p, u := Walk(ps, start, k), Heading(ps, start, k);
    HeadingIsWide(ps, start, k);
    var off := SomeOff(ps, p, u);
    hide FirstLeft, NoTwins, NoTwin, Wide, Blocks;
    var a: nat :| Ahead(ps, p, u, a);
    OffAheadAt(ps, p, u, a);
    f := FurthestAhead(ps, p, u, a, |ps|);
    OffAheadAt(ps, p, u, f);
    EndIndex(ps, start, k, u, f);
    forall x: nat | Ahead(ps, p, u, x) ensures x < |ps| && Progress(u, ps[p], ps[x]) <= Progress(u, ps[p], ps[f]) {
      OffAheadAt(ps, p, u, x);
    }
    LineBlocks(ps, p, u, f);
  }

  lemma {:induction false} HeadingIsWide(ps: seq<Point>, start: nat, k: nat)
    requires FirstLeft(ps, start) && NoTwins(ps) && (k == 0 || EdgeAt(ps, start, k - 1))
    ensures Wide(ps, Walk(ps, start, k), Heading(ps, start, k)) && NoTwin(ps, Walk(ps, start, k))
  {
    hide Orient, Chosen, Wide, NoTwin;
    if k == 0 {
      LeftmostIsWide(ps, start);
    } else {
      EdgeIsWide(ps, Walk(ps, start, k - 1), Walk(ps, start, k));
    }
  }

  /** The end of the line is neither of the first two entries. */
  lemma {:induction false} EndIndex(ps: seq<Point>, start: nat, k: nat, u: Point, f: nat)
    requires FirstLeft(ps, start) && NoTwins(ps) && !OnOneLine(ps) && |ps| >= 2
    requires forall i: nat | i < k :: EdgeAt(ps, start, i)
    requires var p := Walk(ps, start, k); Wide(ps, p, u) && Behind(ps, p, u, FirstOther(p)) && Ahead(ps, p, u, f)
    ensures f >= 2
  {
    hide OnOneLine, Chosen, Bounds, Off, Ahead, Behind, NoTwins, FirstLeft, Wide;
    FirstAt(ps, start);
    var p := Walk(ps, start, k);
    Excluded(ps, p, u, f);
    SelfAside(ps, p, u);
    if f == 1 { NothingLeftBehind(ps, start, k, u); }
  }

  /** If the entries on the outline differ and not all entries are on one line, the walk goes around the hull exactly
      if no bounding line blocks it. */
  lemma {:induction false} WalkExact(ps: seq<Point>, start: nat)
    requires FirstLeft(ps, start) && NoTwins(ps) && !OnOneLine(ps) && |ps| >= 2
    ensures (exists n: nat :: GoesAround(ps, start, n)) <==> !Blocked(ps)
  {
    hide OnOneLine, NoTwins, StuckAt, EdgeAt, Blocks, GoesAround, FirstLeft;
    FirstAt(ps, start);
    if n: nat :| GoesAround(ps, start, n) {
      forall f: nat ensures !Blocks(ps, f) {
        AroundNotBlocked(ps, start, n, f);
      }
    } else {
      NeverStuckAround(ps, start);
      var k: nat :| StuckAt(ps, start, k);
      var j := FirstStuck(ps, start, k);
      var f := StuckBlocks(ps, start, j);
    }
  }

  /** The first search on the way that is stuck; all steps before are along edges of the hull. */
  lemma {:induction false} FirstStuck(ps: seq<Point>, start: nat, k: nat) returns (j: nat)
    requires FirstLeft(ps, start) && NoTwins(ps) && !OnOneLine(ps) && |ps| >= 2 && StuckAt(ps, start, k)
    ensures j <= k && StuckAt(ps, start, j) && forall i: nat | i < j :: EdgeAt(ps, start, i)
  {
    hide OnOneLine, NoTwins, StuckAt, EdgeAt, FirstLeft;
    FirstAt(ps, start);
    j := 0;
    while !StuckAt(ps, start, j)
      invariant j <= k && forall i: nat | i < j :: EdgeAt(ps, start, i)
      decreases k - j
    {
      StepExact(ps, start, j);
      j := j + 1;
    }
  }
}
