/** What the gift wrapping of ConvexHull does on some inputs with colinear points. */
module HullExamples {
  import opened ConvexHull
  import opened HullOrder
  import opened HullWalk
  import opened Orientation
  import opened Points

  /** A search among the first four entries, one by one. */
  lemma {:induction false} SearchFour(ps: seq<Point>, p: nat, q1: nat, q2: nat, q3: nat, q4: nat)
    requires |ps| >= 4 && p < |ps| && q1 < 4 && q2 < 4 && q3 < 4 && (p == 0 || q1 != p) && q2 != p && q3 != p
    requires q1 == 0
    requires q2 == if p == 1 then q1 else if q1 == p || Orient(ps[p], ps[q1], ps[1]) < 0.0 then 1 else q1
    requires q3 == if p == 2 then q2 else if Orient(ps[p], ps[q2], ps[2]) < 0.0 then 2 else q2
    requires q4 == if p == 3 then q3 else if Orient(ps[p], ps[q3], ps[3]) < 0.0 then 3 else q3
    ensures Chosen(ps, p, 4) == q4
  {
    hide Orient, Chosen;
    ChosenNext(ps, p, 1);
    ChosenNext(ps, p, 2);
    ChosenNext(ps, p, 3);
    ChosenNext(ps, p, 4);
  }

  lemma {:induction false} WalkFour(ps: seq<Point>, a: nat, b: nat, c: nat, d: nat)
    requires a < |ps| && b == Chosen(ps, a, |ps|) && c == Chosen(ps, b, |ps|) && d == Chosen(ps, c, |ps|)
    ensures Walk(ps, a, 0) == a && Walk(ps, a, 1) == b && Walk(ps, a, 2) == c && Walk(ps, a, 3) == d
    ensures Walk(ps, a, 4) == Chosen(ps, d, |ps|)
  {
    hide Chosen;
    assert Walk(ps, a, 1) == Chosen(ps, Walk(ps, a, 0), |ps|);
    assert Walk(ps, a, 2) == Chosen(ps, Walk(ps, a, 1), |ps|);
    assert Walk(ps, a, 3) == Chosen(ps, Walk(ps, a, 2), |ps|);
    assert Walk(ps, a, 4) == Chosen(ps, Walk(ps, a, 3), |ps|);
  }

  ghost predicate FourEdges(ps: seq<Point>, a: nat, b: nat, c: nat, d: nat) {
    Bounds(ps, a, b) && Bounds(ps, b, c) && Bounds(ps, c, d) && Bounds(ps, d, a)
  }

  lemma {:induction false} AroundFour(ps: seq<Point>, a: nat, b: nat, c: nat, d: nat)
    requires a < |ps| && b == Chosen(ps, a, |ps|) && c == Chosen(ps, b, |ps|) && d == Chosen(ps, c, |ps|)
    requires a == Chosen(ps, d, |ps|) && FourEdges(ps, a, b, c, d)
    ensures GoesAround(ps, a, 4)
  {
    hide Chosen, Bounds;
    WalkFour(ps, a, b, c, d);
    hide Walk;
    forall k: nat | k < 4 ensures EdgeAt(ps, a, k) {
      assert k == 0 || k == 1 || k == 2 || k == 3;
    }
  }

  /** A square and the middle of one side. */
  ghost predicate Square(ps: seq<Point>) {
    |ps| == 5 && ps[0] == Point(0.0, 0.0) && ps[1] == Point(2.0, 0.0) && ps[2] == Point(2.0, 2.0) &&
      ps[3] == Point(0.0, 2.0)
    && ps[4] == Point(1.0, 0.0)
  }

  lemma {:induction false} SquareTurns01(ps: seq<Point>)
    requires Square(ps)
    ensures Orient(ps[0], ps[1], ps[2]) == 4.0
    ensures Orient(ps[0], ps[1], ps[3]) == 4.0
    ensures Orient(ps[0], ps[1], ps[4]) == 0.0
  {}

  lemma {:induction false} SquareTurns10(ps: seq<Point>)
    requires Square(ps)
    ensures Orient(ps[1], ps[0], ps[2]) == -4.0
    ensures Orient(ps[1], ps[0], ps[3]) == -4.0
    ensures Orient(ps[1], ps[0], ps[4]) == 0.0
  {}

  lemma {:induction false} SquareTurns12(ps: seq<Point>)
    requires Square(ps)
    ensures Orient(ps[1], ps[2], ps[0]) == 4.0
    ensures Orient(ps[1], ps[2], ps[3]) == 4.0
    ensures Orient(ps[1], ps[2], ps[4]) == 2.0
  {}

  lemma {:induction false} SquareTurns20(ps: seq<Point>)
    requires Square(ps)
    ensures Orient(ps[2], ps[0], ps[1]) == 4.0
    ensures Orient(ps[2], ps[0], ps[3]) == -4.0
    ensures Orient(ps[2], ps[0], ps[4]) == 2.0
  {}

  lemma {:induction false} SquareTurns23(ps: seq<Point>)
    requires Square(ps)
    ensures Orient(ps[2], ps[3], ps[0]) == 4.0
    ensures Orient(ps[2], ps[3], ps[1]) == 4.0
    ensures Orient(ps[2], ps[3], ps[4]) == 4.0
  {}

  lemma {:induction false} SquareTurns30(ps: seq<Point>)
    requires Square(ps)
    ensures Orient(ps[3], ps[0], ps[1]) == 4.0
    ensures Orient(ps[3], ps[0], ps[2]) == 4.0
    ensures Orient(ps[3], ps[0], ps[4]) == 2.0
  {}

  lemma {:induction false} SquareSearch0(ps: seq<Point>)
    requires Square(ps)
    ensures Chosen(ps, 0, 5) == 1
  {
    hide Orient, Chosen;
    SquareTurns01(ps);
    SearchFour(ps, 0, 0, 1, 1, 1);
    ChosenNext(ps, 0, 5);
  }

  lemma {:induction false} SquareSearch1(ps: seq<Point>)
    requires Square(ps)
    ensures Chosen(ps, 1, 5) == 2
  {
    hide Orient, Chosen;
    SquareTurns10(ps);
    SquareTurns12(ps);
    SearchFour(ps, 1, 0, 0, 2, 2);
    ChosenNext(ps, 1, 5);
  }

  lemma {:induction false} SquareSearch2(ps: seq<Point>)
    requires Square(ps)
    ensures Chosen(ps, 2, 5) == 3
  {
    hide Orient, Chosen;
    SquareTurns20(ps);
    SquareTurns23(ps);
    SearchFour(ps, 2, 0, 0, 0, 3);
    ChosenNext(ps, 2, 5);
  }

  lemma {:induction false} SquareSearch3(ps: seq<Point>)
    requires Square(ps)
    ensures Chosen(ps, 3, 5) == 0
  {
    hide Orient, Chosen;
    SquareTurns30(ps);
    SearchFour(ps, 3, 0, 0, 0, 0);
    ChosenNext(ps, 3, 5);
  }

  lemma {:induction false} OwnTurns(ps: seq<Point>, p: nat, q: nat)
    requires p < |ps| && q < |ps|
    ensures Orient(ps[p], ps[q], ps[p]) == 0.0 == Orient(ps[p], ps[q], ps[q])
  {
    NoTurn(ps[p], ps[q]);
  }

  lemma {:induction false} NotSharp(ps: seq<Point>, p: nat, q: nat, x: nat)
    requires Bounds(ps, p, q) && x < |ps| && x != p && x != q && Orient(ps[p], ps[q], ps[x]) == 0.0
    ensures !SharpOutline(ps)
  {
    hide Orient;
    assert !Supports(ps, p, q);
  }

  lemma {:induction false} SquareBounds(ps: seq<Point>)
    requires Square(ps)
    ensures FourEdges(ps, 0, 1, 2, 3)
  {
    hide Orient;
    SquareTurns01(ps);
    SquareTurns12(ps);
    SquareTurns23(ps);
    SquareTurns30(ps);
    OwnTurns(ps, 0, 1);
    OwnTurns(ps, 1, 2);
    OwnTurns(ps, 2, 3);
    OwnTurns(ps, 3, 0);
  }

  /** The middle is passed over, although the outline is not sharp: the walk goes from corner to corner. */
  lemma {:induction false} SquareFound(ps: seq<Point>)
    requires Square(ps)
    ensures FirstLeft(ps, 0) && GoesAround(ps, 0, 4) && !SharpOutline(ps)
    ensures Walk(ps, 0, 1) == 1 && Walk(ps, 0, 2) == 2 && Walk(ps, 0, 3) == 3
  {
    hide Orient, Chosen, Bounds, Walk, GoesAround, SharpOutline;
    SquareSearch0(ps);
    SquareSearch1(ps);
    SquareSearch2(ps);
    SquareSearch3(ps);
    SquareBounds(ps);
    SquareTurns01(ps);
    NotSharp(ps, 0, 1, 4);
    WalkFour(ps, 0, 1, 2, 3);
    AroundFour(ps, 0, 1, 2, 3);
  }

  /** Three points on the lower side of a triangle, in order, and its apex. */
  ghost predicate Triangle(ps: seq<Point>) {
    |ps| == 4 && ps[0] == Point(0.0, 0.0) && ps[1] == Point(1.0, 0.0) && ps[2] == Point(2.0, 0.0) &&
      ps[3] == Point(1.0, 1.0)
  }

  lemma {:induction false} TriangleTurns01(ps: seq<Point>)
    requires Triangle(ps)
    ensures Orient(ps[0], ps[1], ps[2]) == 0.0 && Orient(ps[0], ps[1], ps[3]) == 1.0
  {}

  lemma {:induction false} TriangleTurns10(ps: seq<Point>)
    requires Triangle(ps)
    ensures Orient(ps[1], ps[0], ps[2]) == 0.0 && Orient(ps[1], ps[0], ps[3]) == -1.0
  {}

  lemma {:induction false} TriangleTurns30(ps: seq<Point>)
    requires Triangle(ps)
    ensures Orient(ps[3], ps[0], ps[1]) == 1.0 && Orient(ps[3], ps[0], ps[2]) == 2.0
  {}

  lemma {:induction false} TriangleSearch0(ps: seq<Point>)
    requires Triangle(ps)
    ensures Chosen(ps, 0, 4) == 1
  {
    hide Orient, Chosen;
    TriangleTurns01(ps);
    SearchFour(ps, 0, 0, 1, 1, 1);
  }

  lemma {:induction false} TriangleSearch1(ps: seq<Point>)
    requires Triangle(ps)
    ensures Chosen(ps, 1, 4) == 3
  {
    hide Orient, Chosen;
    TriangleTurns10(ps);
    SearchFour(ps, 1, 0, 0, 0, 3);
  }

  lemma {:induction false} TriangleSearch3(ps: seq<Point>)
    requires Triangle(ps)
    ensures Chosen(ps, 3, 4) == 0
  {
    hide Orient, Chosen;
    TriangleTurns30(ps);
    SearchFour(ps, 3, 0, 0, 0, 0);
  }

  /** At the middle the search is stuck: it starts with the corner behind, passes over the corner ahead, and takes the
      apex. The polygon 0, 1, 3 leaves that corner outside. */
  lemma {:induction false} CornerMissed(ps: seq<Point>)
    requires Triangle(ps)
    ensures FirstLeft(ps, 0) && StuckAt(ps, 0, 1)
    ensures Walk(ps, 0, 1) == 1 && Walk(ps, 0, 2) == 3 && Walk(ps, 0, 3) == 0 && Orient(ps[1], ps[3], ps[2]) < 0.0
  {
    hide Orient, Chosen, Walk, Stuck, Edge;
    TriangleSearch0(ps);
    TriangleSearch1(ps);
    TriangleSearch3(ps);
    TriangleOutside(ps);
    WalkFour(ps, 0, 1, 3, 0);
    MiddleStuck(ps);
    HeadingOne(ps, 0);
  }

  /** The lower side blocks the walk: its three points come first, its end last of them. */
  lemma {:induction false} CornerBlocks(ps: seq<Point>)
    requires Triangle(ps)
    ensures Blocks(ps, 2)
  {
    hide Triangle, Bounds, Height, Progress, Edge, Orient;
    TriangleSide(ps);
    TriangleBounds(ps);
    SidesTwice(ps[2], ps[0]);
    SidesTwice(ps[2], ps[1]);
    SidesTwice(ps[2], ps[2]);
    SidesTwice(ps[2], ps[3]);
    var u := Edge(ps[0], ps[2]);
    forall i: nat | i < 2 ensures !Off(ps, 2, u, i) {
      assert i == 0 || i == 1;
    }
    forall x: nat ensures !Ahead(ps, 2, u, x) {
      if x < 4 { assert x == 0 || x == 1 || x == 2 || x == 3; }
    }
  }

  lemma {:induction false} TriangleSide(ps: seq<Point>)
    requires Triangle(ps)
    ensures |ps| == 4 && Edge(ps[0], ps[2]) == Point(2.0, 0.0)
    ensures ps[0].y == ps[1].y == ps[2].y && ps[0].x < ps[2].x && ps[1].x < ps[2].x && ps[3].x < ps[2].x
  {}

  lemma {:induction false} TriangleBounds(ps: seq<Point>)
    requires Triangle(ps)
    ensures Bounds(ps, 0, 2)
  {
    hide Orient;
    TriangleTurns02(ps);
    OwnTurns(ps, 0, 2);
  }

  lemma {:induction false} TriangleTurns02(ps: seq<Point>)
    requires Triangle(ps)
    ensures Orient(ps[0], ps[2], ps[1]) == 0.0 && Orient(ps[0], ps[2], ps[3]) == 2.0
  {}

  lemma {:induction false} SidesTwice(p: Point, x: Point)
    ensures Height(Point(2.0, 0.0), p, x) == 2.0 * (x.y - p.y) && Progress(Point(2.0, 0.0), p, x) == 2.0 * (x.x - p.x)
  {}

  lemma {:induction false} TriangleOutside(ps: seq<Point>)
    requires Triangle(ps)
    ensures Orient(ps[1], ps[3], ps[2]) == -1.0
  {}

  lemma {:induction false} HeadingOne(ps: seq<Point>, start: nat)
    requires start < |ps|
    ensures Walk(ps, start, 0) == start && Heading(ps, start, 1) == Edge(ps[start], ps[Walk(ps, start, 1)])
  {}

  lemma {:induction false} MiddleStuck(ps: seq<Point>)
    requires Triangle(ps)
    ensures Stuck(ps, 1, Edge(ps[0], ps[1]))
  {
    hide Height, Progress;
    var u := Edge(ps[0], ps[1]);
    Sides(ps[1], ps[0]);
    Sides(ps[1], ps[1]);
    Sides(ps[1], ps[2]);
    Sides(ps[1], ps[3]);
    assert Ahead(ps, 1, u, 2) && Behind(ps, 1, u, 0);
    assert !Ahead(ps, 1, u, 3) && !Off(ps, 1, u, 0) && !Off(ps, 1, u, 1) && !Off(ps, 1, u, 2);
  }

  lemma {:induction false} Sides(p: Point, x: Point)
    ensures Height(Point(1.0, 0.0), p, x) == x.y - p.y && Progress(Point(1.0, 0.0), p, x) == x.x - p.x
  {}

  /** A triangle whose longest side leads to the start, and the middle of that side, which comes first. */
  ghost predicate Ramp(ps: seq<Point>) {
    |ps| == 4 && ps[0] == Point(1.0, 1.0) && ps[1] == Point(0.0, 0.0) && ps[2] == Point(2.0, 0.0) &&
      ps[3] == Point(2.0, 2.0)
  }

  lemma {:induction false} RampTurns01(ps: seq<Point>)
    requires Ramp(ps)
    ensures Orient(ps[0], ps[1], ps[2]) == 2.0 && Orient(ps[0], ps[1], ps[3]) == 0.0
  {}

  lemma {:induction false} RampTurns10(ps: seq<Point>)
    requires Ramp(ps)
    ensures Orient(ps[1], ps[0], ps[2]) == -2.0 && Orient(ps[1], ps[0], ps[3]) == 0.0
  {}

  lemma {:induction false} RampTurns12(ps: seq<Point>)
    requires Ramp(ps)
    ensures Orient(ps[1], ps[2], ps[0]) == 2.0 && Orient(ps[1], ps[2], ps[3]) == 4.0
  {}

  lemma {:induction false} RampTurns20(ps: seq<Point>)
    requires Ramp(ps)
    ensures Orient(ps[2], ps[0], ps[1]) == 2.0 && Orient(ps[2], ps[0], ps[3]) == -2.0
  {}

  lemma {:induction false} RampTurns23(ps: seq<Point>)
    requires Ramp(ps)
    ensures Orient(ps[2], ps[3], ps[0]) == 2.0 && Orient(ps[2], ps[3], ps[1]) == 4.0
  {}

  lemma {:induction false} RampTurns30(ps: seq<Point>)
    requires Ramp(ps)
    ensures Orient(ps[3], ps[0], ps[1]) == 0.0 && Orient(ps[3], ps[0], ps[2]) == 2.0
  {}

  lemma {:induction false} RampSearch1(ps: seq<Point>)
    requires Ramp(ps)
    ensures Chosen(ps, 1, 4) == 2
  {
    hide Orient, Chosen;
    RampTurns10(ps);
    RampTurns12(ps);
    SearchFour(ps, 1, 0, 0, 2, 2);
  }

  lemma {:induction false} RampSearch2(ps: seq<Point>)
    requires Ramp(ps)
    ensures Chosen(ps, 2, 4) == 3
  {
    hide Orient, Chosen;
    RampTurns20(ps);
    SearchFour(ps, 2, 0, 0, 0, 3);
  }

  lemma {:induction false} RampSearch3(ps: seq<Point>)
    requires Ramp(ps)
    ensures Chosen(ps, 3, 4) == 0
  {
    hide Orient, Chosen;
    RampTurns30(ps);
    SearchFour(ps, 3, 0, 0, 0, 0);
  }

  lemma {:induction false} RampSearch0(ps: seq<Point>)
    requires Ramp(ps)
    ensures Chosen(ps, 0, 4) == 1
  {
    hide Orient, Chosen;
    RampTurns01(ps);
    SearchFour(ps, 0, 0, 1, 1, 1);
  }

  /** The walk goes around, but its last point lies on the line of its neighbours and stays. */
  lemma {:induction false} LastPointKept(ps: seq<Point>)
    requires Ramp(ps)
    ensures FirstLeft(ps, 1) && GoesAround(ps, 1, 4)
    ensures Walk(ps, 1, 2) == 3 && Walk(ps, 1, 3) == 0 && Walk(ps, 1, 4) == 1 && Orient(ps[3], ps[0], ps[1]) == 0.0
  {
    hide Orient, Chosen, Bounds, Walk, GoesAround;
    RampSearch1(ps);
    RampSearch2(ps);
    RampSearch3(ps);
    RampSearch0(ps);
    RampBounds(ps);
    RampTurns30(ps);
    WalkFour(ps, 1, 2, 3, 0);
    AroundFour(ps, 1, 2, 3, 0);
  }

  lemma {:induction false} RampBounds(ps: seq<Point>)
    requires Ramp(ps)
    ensures FourEdges(ps, 1, 2, 3, 0)
  {
    hide Orient;
    RampTurns12(ps);
    RampTurns23(ps);
    RampTurns30(ps);
    RampTurns01(ps);
    OwnTurns(ps, 1, 2);
    OwnTurns(ps, 2, 3);
    OwnTurns(ps, 3, 0);
    OwnTurns(ps, 0, 1);
  }

  /** If the first two points are equal and leftmost, the loop goes from one to the other and back: it returns that
      point twice, whatever the other points are. */
  lemma {:induction false} TwinsReturned(ps: seq<Point>)
    requires |ps| >= 2 && ps[0] == ps[1] && Leftmost(ps, 0)
    ensures FirstLeft(ps, 0) && FirstReturn(ps, 0, 2) && Polygon(ps, 0, 2) == [ps[0], ps[0]]
  {
    hide Chosen, Orient;
    TwinChosen(ps, 0, |ps|);
    TwinChosen(ps, 1, |ps|);
    NextIsChosen(ps, 0, 0);
    NextIsChosen(ps, 0, 1);
    WalkZero(ps, 0);
    assert Kept(ps, 0, 1) == [0, 1];
  }

  /** A search that meets the twin of its point first stays with it. */
  lemma {:induction false} TwinChosen(ps: seq<Point>, p: nat, i: nat)
    requires p < 2 <= i <= |ps| && ps[0] == ps[1]
    ensures Chosen(ps, p, i) == 1 - p
  {
    hide Chosen;
    ChosenNext(ps, p, 1);
    ChosenNext(ps, p, i);
    if i > 2 { TwinChosen(ps, p, i - 1); }
  }

  /** With three points on a line the promise fails: from (0,0) the search goes to (1,0), from there straight back, and
      (2,0) is never reached. With the leftmost point last the loop does not end. */
  lemma {:induction false} ColinearPointsMissed(ps: seq<Point>)
    requires |ps| == 3 && forall i | 0 <= i < 3 :: ps[i].y == 0.0
    requires ps[0] != ps[1]
    ensures ps[0].x == 0.0 && ps[1].x == 1.0 && ps[2].x == 2.0 ==> Walk(ps, 0, 1) == 1 && Walk(ps, 0, 2) == 0
    ensures ps[0].x == 1.0 && ps[1].x == 2.0 && ps[2].x == 0.0 ==>
      FirstLeft(ps, 2) && forall n: nat | n > 0 :: Walk(ps, 2, n) != 2
  {
    hide Orient, Walk, OnOneLine;
    OnAxisLine(ps);
    StartsAt(ps, 0);
    FlatWalk(ps, 0, 1);
    FlatWalk(ps, 0, 2);
    LineEnds(ps, 2);
  }

  lemma {:induction false} OnAxisLine(ps: seq<Point>)
    requires |ps| >= 2 && (forall i | 0 <= i < |ps| :: ps[i].y == 0.0) && ps[0] != ps[1]
    ensures OnOneLine(ps)
  {
    hide Orient;
    forall i | 0 <= i < |ps| ensures Orient(ps[0], ps[1], ps[i]) == 0.0 == Orient(ps[1], ps[0], ps[i]) {
      OnAxis(ps[0], ps[1], ps[i]);
    }
    assert Bounds(ps, 0, 1) && Bounds(ps, 1, 0);
  }

  lemma {:induction false} StartsAt(ps: seq<Point>, start: nat)
    requires start < |ps|
    ensures Walk(ps, start, 0) == start
  {}

  lemma {:induction false} OnAxis(a: Point, b: Point, x: Point)
    requires a.y == b.y == x.y
    ensures Orient(a, b, x) == 0.0 == Orient(b, a, x)
  {}
}
