/** Gift wrapping (`g2d_convex_hull`, Robot/apriltags/common/g2d.c), over the exact reals. */
module ConvexHull {
  import opened HullOrder
  import opened HullWalk
  import opened Orientation
  import opened Points

  /** All other entries lie strictly to the left of the edge from p to q. */
  ghost predicate Supports(ps: seq<Point>, p: nat, q: nat) {
    && p < |ps| && q < |ps| && ps[p] != ps[q]
    && forall x | 0 <= x < |ps| && x != p && x != q :: Orient(ps[p], ps[q], ps[x]) > 0.0
  }

  /** No line that bounds the points holds a third entry, and leftmost entries differ. Inside, points may
      coincide and lie on common lines. */
  ghost predicate SharpOutline(ps: seq<Point>) {
    && (forall p: nat, q: nat | Bounds(ps, p, q) :: Supports(ps, p, q))
    && (forall p: nat, q: nat | Leftmost(ps, p) && q < |ps| && p != q :: ps[p] != ps[q])
  }

  ghost predicate GeneralPosition(ps: seq<Point>) {
    && (forall i, j | 0 <= i < |ps| && 0 <= j < |ps| && i != j :: ps[i] != ps[j])
    && (forall i, j, k | 0 <= i < |ps| && 0 <= j < |ps| && 0 <= k < |ps| && i != j && i != k && j != k ::
          Orient(ps[i], ps[j], ps[k]) != 0.0)
  }

  /** Points no two of which are equal and no three of which lie on a line qualify. */
  lemma {:induction false} GeneralIsSharp(ps: seq<Point>)
    requires GeneralPosition(ps)
    ensures SharpOutline(ps)
  {
    hide Orient;
    forall p: nat, q: nat | Bounds(ps, p, q) ensures Supports(ps, p, q) {
      forall x | 0 <= x < |ps| && x != p && x != q ensures Orient(ps[p], ps[q], ps[x]) > 0.0 {
        assert Orient(ps[p], ps[q], ps[x]) != 0.0;
      }
    }
  }

  // ---------------------------------------------------------------------------------------
  // The outline

  /** The hull found so far: edges of the hull, convex at every inner vertex, with m vertices on the way to the right
      and the others on the way to the left. */
  ghost predicate Outline(ps: seq<Point>, idx: seq<nat>, m: nat) {
    && 1 <= m <= |idx| && (forall k | 0 <= k < |idx| :: idx[k] < |ps|)
    && (forall k | 0 < k < |idx| :: BoundsAt(ps, idx, k))
    && (forall k | 0 < k < |idx| - 1 :: ConvexAt(ps, idx, k))
    && (forall j, k | 0 <= j < k < m :: Before(ps[idx[j]], ps[idx[k]]))
    && (forall j, k | m - 1 <= j < k < |idx| :: Before(ps[idx[k]], ps[idx[j]]))
    && (forall k | 0 < k < |idx| :: ps[idx[k]] != ps[idx[0]])
  }

  ghost predicate BoundsAt(ps: seq<Point>, idx: seq<nat>, k: nat)
    requires 0 < k < |idx|
  {
    Bounds(ps, idx[k - 1], idx[k])
  }

  ghost predicate ConvexAt(ps: seq<Point>, idx: seq<nat>, k: nat)
    requires 0 < k < |idx| - 1 && forall j | 0 <= j < |idx| :: idx[j] < |ps|
  {
    Orient(ps[idx[k - 1]], ps[idx[k]], ps[idx[k + 1]]) > 0.0
  }

  lemma {:induction false} StartOutline(ps: seq<Point>, start: nat)
    requires start < |ps|
    ensures Outline(ps, [start], 1)
  {}

  /** The last vertex and, if there is one, the edge that leads to it. */
  lemma {:induction false} OutlineEnd(ps: seq<Point>, idx: seq<nat>, m: nat)
    requires Outline(ps, idx, m)
    ensures var l := |idx| - 1;
      && l >= 0 && idx[l] < |ps|
      && (l > 0 ==> idx[l - 1] < |ps| && Bounds(ps, idx[l - 1], idx[l]))
      && (l > 0 && m == |idx| ==> Before(ps[idx[l - 1]], ps[idx[l]]))
      && (m < |idx| ==> l > 0 && Before(ps[idx[l]], ps[idx[l - 1]]))
  {
    hide Orient, Before, Bounds, ConvexAt;
    var l := |idx| - 1;
    if l > 0 { assert BoundsAt(ps, idx, l); }
  }

  /** A new vertex. */
  lemma {:induction false} OutlineGrows(ps: seq<Point>, idx: seq<nat>, m: nat, q: nat) returns (m': nat)
    requires Outline(ps, idx, m) && Bounds(ps, idx[|idx| - 1], q) && ps[q] != ps[idx[0]]
    requires m < |idx| ==> Before(ps[q], ps[idx[|idx| - 1]])
    requires |idx| > 1 ==> idx[|idx| - 2] < |ps| && Orient(ps[idx[|idx| - 2]], ps[idx[|idx| - 1]], ps[q]) != 0.0
    ensures Outline(ps, idx + [q], m')
  {
    hide Orient, Before;
    var l, next := |idx| - 1, idx + [q];
    OutlineEnd(ps, idx, m);
    BeforeIsRightward(ps[idx[l]], ps[q]);
    m' := if Before(ps[q], ps[idx[l]]) then m else m + 1;
    forall k | 0 < k < |next| ensures BoundsAt(ps, next, k) {
      assert k < |idx| ==> BoundsAt(ps, idx, k);
    }
    forall k | 0 < k < |next| - 1 ensures ConvexAt(ps, next, k) {
      if k < l { assert ConvexAt(ps, idx, k); }
    }
    hide Bounds, BoundsAt, ConvexAt;
    forall j, k | 0 <= j < k < m' ensures Before(ps[next[j]], ps[next[k]]) {
      if k == |idx| && j < l { BeforeTrans(ps[idx[j]], ps[idx[l]], ps[q]); }
    }
    forall j, k | m' - 1 <= j < k < |next| ensures Before(ps[next[k]], ps[next[j]]) {
      if k == |idx| && j < l { BeforeTrans(ps[q], ps[idx[l]], ps[idx[j]]); }
    }
  }

  lemma {:induction false} BeforeTrans(a: Point, b: Point, c: Point)
    requires Before(a, b) && Before(b, c)
    ensures Before(a, c)
  {}

  /** A third point on the line of an edge lies beyond its end: the edge to that point bounds the points as well. */
  lemma {:induction false} Further(ps: seq<Point>, o: nat, p: nat, q: nat)
    requires Bounds(ps, o, p) && Bounds(ps, p, q) && !OnOneLine(ps) && Orient(ps[o], ps[p], ps[q]) == 0.0
    ensures Bounds(ps, o, q) && Progress(Edge(ps[o], ps[p]), ps[p], ps[q]) > 0.0
    ensures forall x | 0 <= x < |ps| && Orient(ps[o], ps[p], ps[x]) > 0.0 :: Orient(ps[o], ps[q], ps[x]) > 0.0
  {
    hide Det, Dot, Orient, Height, Progress, OnOneLine;
    var u := Edge(ps[o], ps[p]);
    NotBackward(ps, o, p, q);
    EdgeHeight(ps[o], ps[p], ps[q]);
    ProgressAdds(ps[o], ps[p], ps[q]);
    SelfProgress(u, ps[o]);
    forall x | 0 <= x < |ps|
      ensures Orient(ps[o], ps[q], ps[x]) >= 0.0
      ensures Orient(ps[o], ps[p], ps[x]) > 0.0 ==> Orient(ps[o], ps[q], ps[x]) > 0.0
    {
      EdgeHeight(ps[o], ps[p], ps[x]);
      ParallelSeen(ps[o], ps[q], ps[x], u);
    }
  }

  lemma {:induction false} ProgressAdds(o: Point, p: Point, q: Point)
    requires o != p
    ensures Progress(Edge(o, p), o, q) > Progress(Edge(o, p), p, q)
  {
    var u := Edge(o, p);
    Positive(u.x, u.y);
    assert u.x * (q.x - o.x) == u.x * (q.x - p.x) + u.x * u.x;
    assert u.y * (q.y - o.y) == u.y * (q.y - p.y) + u.y * u.y;
  }

  /** Such a step leads the same way as the edge. */
  lemma {:induction false} SameSide(o: Point, p: Point, q: Point)
    requires o != p && p != q && Orient(o, p, q) == 0.0 && Progress(Edge(o, p), p, q) > 0.0
    ensures Before(o, p) <==> Before(p, q)
    ensures Before(o, p) ==> Before(o, q)
    ensures Before(p, o) ==> Before(q, o)
  {
    ShiftHeight(o, p, q);
    BeforeIsRightward(o, p);
    BeforeIsRightward(p, q);
    hide Orient, Before, Rightward;
    var u, v := Edge(o, p), Edge(p, q);
    if Rightward(u.x, u.y) && !Rightward(v.x, v.y) { Opposite(u, v); }
    if !Rightward(u.x, u.y) && Rightward(v.x, v.y) { Opposite(v, u); }
    if Before(o, p) { BeforeTrans(o, p, q); } else { BeforeEither(o, p, q); }
  }

  lemma {:induction false} BeforeEither(o: Point, p: Point, q: Point)
    requires !Before(o, p) && !Before(p, q) && o != p && p != q
    ensures Before(q, o) && !Before(o, q)
  {}

  lemma {:induction false} Opposite(u: Point, v: Point)
    requires Rightward(u.x, u.y) && !Rightward(v.x, v.y) && v != Point(0.0, 0.0)
    ensures Det(u.x, u.y, v.x, v.y) == 0.0 ==> Dot(u.x, u.y, v.x, v.y) < 0.0
    ensures Det(v.x, v.y, u.x, u.y) == 0.0 ==> Dot(v.x, v.y, u.x, u.y) < 0.0
  {
    var w0, w1 := -v.x, -v.y;
    assert Det(u.x, u.y, w0, w1) == -Det(u.x, u.y, v.x, v.y) == Det(v.x, v.y, u.x, u.y);
    assert Dot(u.x, u.y, w0, w1) == -Dot(u.x, u.y, v.x, v.y) == -Dot(v.x, v.y, u.x, u.y);
    if Det(u.x, u.y, w0, w1) == 0.0 { SameWay(u.x, u.y, w0, w1); }
  }

  /** The last vertex is overwritten by one further along the edge that leads to it. */
  lemma {:induction false} OutlineMoves(ps: seq<Point>, idx: seq<nat>, m: nat, q: nat)
    requires Outline(ps, idx, m) && |idx| > 1 && !OnOneLine(ps) && Bounds(ps, idx[|idx| - 1], q)
    requires idx[|idx| - 2] < |ps| && Orient(ps[idx[|idx| - 2]], ps[idx[|idx| - 1]], ps[q]) == 0.0
    requires ps[q] != ps[idx[0]]
    ensures Outline(ps, idx[|idx| - 1 := q], m)
  {
    hide Orient, Before, OnOneLine, Progress, Edge;
    var l, next := |idx| - 1, idx[|idx| - 1 := q];
    var o, p := idx[l - 1], idx[l];
    OutlineEnd(ps, idx, m);
    Further(ps, o, p, q);
    SameSide(ps[o], ps[p], ps[q]);
    forall k | 0 < k < |next| ensures BoundsAt(ps, next, k) {
      assert BoundsAt(ps, idx, k);
    }
    forall k | 0 < k < l ensures ConvexAt(ps, next, k) {
      assert ConvexAt(ps, idx, k);
      if k == l - 1 {
        var a := idx[k - 1];
        OrientTurn(ps[a], ps[o], ps[p]);
        OrientTurn(ps[a], ps[o], ps[q]);
      }
    }
    hide Bounds, BoundsAt, ConvexAt;
    forall j, k | 0 <= j < k < m ensures Before(ps[next[j]], ps[next[k]]) {
      if k == l && j < l - 1 { BeforeTrans(ps[idx[j]], ps[o], ps[q]); }
    }
    forall j, k | m - 1 <= j < k < |next| ensures Before(ps[next[k]], ps[next[j]]) {
      if k == l && j < l - 1 { BeforeTrans(ps[q], ps[o], ps[idx[j]]); }
    }
  }

  /** No vertex occurs twice. */
  lemma {:induction false} OutlineDistinct(ps: seq<Point>, idx: seq<nat>, m: nat, j: nat, k: nat)
    requires Outline(ps, idx, m) && NoTwins(ps) && j < k < |idx| && (|idx| > 2 ==> !OnOneLine(ps))
    ensures idx[j] < |ps| && idx[k] < |ps| && ps[idx[j]] != ps[idx[k]]
  {
    hide Orient, OnOneLine, ConvexAt;
    if 0 < j && j < m - 1 && m <= k {
      assert BoundsAt(ps, idx, j) && BoundsAt(ps, idx, k);
      assert Before(ps[idx[j - 1]], ps[idx[j]]) && Before(ps[idx[k]], ps[idx[k - 1]]);
      assert NoTwin(ps, idx[j]);
      hide Before, NoTwin, Bounds;
      if idx[j] == idx[k] { OneSide(ps, idx[j - 1], idx[k - 1], idx[j]); }
      NotTwin(ps, idx[j], idx[k]);
    }
  }

  lemma {:induction false} NotTwin(ps: seq<Point>, i: nat, j: nat)
    requires NoTwin(ps, i) && j < |ps| && i != j
    ensures ps[i] != ps[j]
  {}

  ghost predicate Copies(ps: seq<Point>, idx: seq<nat>, hull: seq<Point>) {
    |hull| == |idx| && forall k | 0 <= k < |hull| :: idx[k] < |ps| && hull[k] == ps[idx[k]]
  }

  function After(hull: seq<Point>, k: nat): Point
    requires k < |hull|
  {
    if k + 1 == |hull| then hull[0] else hull[k + 1]
  }

  /** A closed polygon of distinct input points with no input point to the right of any edge. Every vertex is a corner,
      except that the first and the last may lie on the line of their neighbours. */
  ghost predicate Encloses(ps: seq<Point>, hull: seq<Point>) {
    && |hull| >= 2 && (forall k | 0 <= k < |hull| :: hull[k] in ps)
    && (forall j, k | 0 <= j < k < |hull| :: hull[j] != hull[k])
    && NoneOutside(ps, hull) && forall k: nat | 0 < k < |hull| - 1 :: Corner(hull, k)
  }

  /** No input point lies to the right of an edge. */
  ghost predicate NoneOutside(ps: seq<Point>, hull: seq<Point>) {
    forall k, x {:trigger After(hull, k), x in ps} | 0 <= k < |hull| && x in ps ::
      Orient(hull[k], After(hull, k), x) >= 0.0
  }

  ghost predicate Corner(hull: seq<Point>, k: nat)
    requires 0 < k < |hull| - 1
  {
    Orient(hull[k - 1], hull[k], hull[k + 1]) > 0.0
  }

  lemma {:induction false} OutlineEncloses(ps: seq<Point>, idx: seq<nat>, m: nat, hull: seq<Point>)
    requires Outline(ps, idx, m) && Copies(ps, idx, hull) && |idx| >= 2 && NoTwins(ps) && (|idx| > 2 ==> !OnOneLine(ps))
    requires Bounds(ps, idx[|idx| - 1], idx[0])
    ensures Encloses(ps, hull)
  {
    hide Orient, OnOneLine, Before, NoTwins;
    forall j, k | 0 <= j < k < |hull| ensures hull[j] != hull[k] {
      OutlineDistinct(ps, idx, m, j, k);
    }
    forall k, x {:trigger After(hull, k), x in ps} | 0 <= k < |hull| && x in ps
      ensures Orient(hull[k], After(hull, k), x) >= 0.0
    {
      var i :| 0 <= i < |ps| && ps[i] == x;
      if k + 1 < |idx| { assert BoundsAt(ps, idx, k + 1); }
    }
    forall k: nat | 0 < k < |hull| - 1 ensures Corner(hull, k) {
      assert ConvexAt(ps, idx, k);
    }
  }

  // ---------------------------------------------------------------------------------------
  // Gift wrapping

  /** If the first entry lies inside no line blocks the walk. */
  lemma {:induction false} InnerFirstIsClear(ps: seq<Point>)
    requires forall p: nat, q: nat | Bounds(ps, p, q) :: Orient(ps[p], ps[q], ps[0]) > 0.0
    ensures !Blocked(ps)
  {
    hide Orient;
    forall f: nat ensures !Blocks(ps, f) {
      if Bounds(ps, 0, f) { NoTurn(ps[0], ps[f]); }
    }
  }

  method FindLeft(ps: seq<Point>) returns (pleft: nat)
    requires |ps| >= 1
    ensures FirstLeft(ps, pleft)
  {
    pleft := 0;
    for i := 0 to |ps|
      invariant pleft < |ps| && pleft <= i && forall k | 0 <= k < i :: ps[pleft].x <= ps[k].x
      invariant forall k | 0 <= k < pleft :: ps[pleft].x < ps[k].x
    {
      if ps[i].x < ps[pleft].x {
        pleft := i;
      }
    }
  }

  /** The inner search. From a point on the outline it finds an edge of the hull exactly if it is not stuck. */
  method FindNext(ps: seq<Point>, p: nat) returns (q: nat)
    requires |ps| >= 2 && p < |ps|
    ensures q < |ps| && q != p && q == Chosen(ps, p, |ps|)
    ensures !OnOneLine(ps) && NoTwin(ps, p) ==> forall u | Wide(ps, p, u) :: Bounds(ps, p, q) <==> !Stuck(ps, p, u)
  {
    hide NoTwin, Wide, Bounds, Stuck, OnOneLine, Chosen;
    q := p;  // nothing chosen yet
    var n0, n1 := 0.0, 0.0;
    var i: nat := 0;
    ChosenNext(ps, p, 1);
    while i < |ps|
      invariant i <= |ps| && q < |ps| && q == Chosen(ps, p, i)
      invariant q == p ==> i == 0 || (i == 1 && p == 0)
      invariant q != p ==> n0 == ps[q].y - ps[p].y && n1 == -ps[q].x + ps[p].x
    {
      ChosenNext(ps, p, i + 1);
      if i != p {
        if q == p {
          q := i;
          n0, n1 := ps[q].y - ps[p].y, -ps[q].x + ps[p].x;
        } else {
          var e0, e1 := ps[i].x - ps[p].x, ps[i].y - ps[p].y;
          var dot := e0 * n0 + e1 * n1;
          assert dot == -Orient(ps[p], ps[q], ps[i]);
          if dot > 0.0 {
            q := i;
            n0, n1 := ps[q].y - ps[p].y, -ps[q].x + ps[p].x;
          }
        }
      }
      i := i + 1;
    }
    if !OnOneLine(ps) && NoTwin(ps, p) {
      forall u | Wide(ps, p, u) ensures Bounds(ps, p, q) <==> !Stuck(ps, p, u) {
        var off := SomeOff(ps, p, u);
        SearchExact(ps, p, u, off);
      }
    }
  }

  /** Whether the new point lies on the line of the last two. */
  method Colinear(hull: seq<Point>, p: Point, q: Point) returns (colinear: bool)
    requires |hull| > 0 && p == hull[|hull| - 1]
    ensures colinear <==> |hull| > 1 && Orient(hull[|hull| - 2], p, q) == 0.0
  {
    colinear := false;
    if |hull| > 1 {
      var o := hull[|hull| - 2];
      var e0, e1 := o.x - p.x, o.y - p.y;
      var n0, n1 := q.y - p.y, -q.x + p.x;
      OrientTurn(o, p, q);
      assert n0 * e0 + n1 * e1 == -Orient(p, q, o);
      colinear := n0 * e0 + n1 * e1 == 0.0;
    }
  }

  lemma {:induction false} TwoAround(ps: seq<Point>, start: nat)
    requires |ps| == 2 && NoTwins(ps) && FirstLeft(ps, start)
    ensures GoesAround(ps, start, 2)
  {
    var q := FirstOther(start);
    ChosenOfTwo(ps, start);
    ChosenOfTwo(ps, q);
    assert ps[start] != ps[q];
    NoTurn(ps[start], ps[q]);
    NoTurn(ps[q], ps[start]);
    hide Orient, Chosen;
    assert Walk(ps, start, 1) == Chosen(ps, Walk(ps, start, 0), 2) == q;
    assert Walk(ps, start, 2) == Chosen(ps, Walk(ps, start, 1), 2) == start;
    assert EdgeAt(ps, start, 0) && EdgeAt(ps, start, 1);
  }

  lemma {:induction false} ChosenOfTwo(ps: seq<Point>, p: nat)
    requires |ps| == 2 && p < 2
    ensures Chosen(ps, p, 2) == FirstOther(p)
  {
    hide Chosen;
    ChosenNext(ps, p, 1);
    ChosenNext(ps, p, 2);
  }

  /** While the walk is above the points it goes on to the left. */
  lemma {:induction false} GoesLeft(ps: seq<Point>, idx: seq<nat>, m: nat, q: nat)
    requires Outline(ps, idx, m) && FirstLeft(ps, idx[0]) && (m < |idx| ==> !OnOneLine(ps))
    requires Bounds(ps, idx[|idx| - 1], q) && q == Chosen(ps, idx[|idx| - 1], |ps|) && q != idx[0]
    ensures m < |idx| ==> Before(ps[q], ps[idx[|idx| - 1]])
  {
    hide Orient, OnOneLine, Chosen, Before;
    OutlineEnd(ps, idx, m);
    var l := |idx| - 1;
    if m < |idx| {
      BeforeIsRightward(ps[idx[l]], ps[q]);
      if Before(ps[idx[l]], ps[q]) {
        TurnsOnce(ps, idx[l - 1], idx[l], q);
        BackToStart(ps, idx[l], idx[0], |ps|);
      }
    }
  }

  /** The vertices that the loop keeps after k steps of the walk: a new one that lies on the line of the last two
      overwrites the last. */
  function Kept(ps: seq<Point>, start: nat, k: nat): (idx: seq<nat>)
    requires start < |ps|
    ensures |idx| >= 1 && forall i | 0 <= i < |idx| :: idx[i] < |ps|
    ensures idx[0] == start && idx[|idx| - 1] == Walk(ps, start, k)
  {
    if k == 0 then [start]
    else
      var idx, q := Kept(ps, start, k - 1), Walk(ps, start, k);
      var l := |idx| - 1;
      if l > 0 && Orient(ps[idx[l - 1]], ps[idx[l]], ps[q]) == 0.0 then idx[l := q] else idx + [q]
  }

  function PointsOf(ps: seq<Point>, idx: seq<nat>): (hull: seq<Point>)
    requires forall i | 0 <= i < |idx| :: idx[i] < |ps|
    ensures |hull| == |idx|
  {
    seq(|idx|, i requires 0 <= i < |idx| => ps[idx[i]])
  }

  /** The loop ends after n steps. */
  ghost predicate FirstReturn(ps: seq<Point>, start: nat, n: nat)
    requires start < |ps|
  {
    n > 0 && Walk(ps, start, n) == start && forall j: nat | 0 < j < n :: Walk(ps, start, j) != start
  }

  /** The polygon that the loop returns if it ends after n steps. */
  function Polygon(ps: seq<Point>, start: nat, n: nat): seq<Point>
    requires start < |ps| && n > 0
  {
    PointsOf(ps, Kept(ps, start, n - 1))
  }

  ghost predicate Ends(ps: seq<Point>, start: nat, n: nat) {
    FirstLeft(ps, start) && FirstReturn(ps, start, n)
  }

  ghost predicate LoopEnds(ps: seq<Point>) {
    exists start: nat, n: nat :: Ends(ps, start, n)
  }

  ghost predicate Wrapped(ps: seq<Point>, hull: seq<Point>) {
    exists start: nat, n: nat :: Ends(ps, start, n) && hull == Polygon(ps, start, n)
  }

  /** Along edges of the hull the vertices kept form an outline. */
  lemma {:induction false} KeptOutline(ps: seq<Point>, start: nat, k: nat) returns (m: nat)
    requires FirstLeft(ps, start) && NoTwins(ps) && !OnOneLine(ps)
    requires forall j: nat | j < k :: EdgeAt(ps, start, j) && Walk(ps, start, j + 1) != start
    ensures Outline(ps, Kept(ps, start, k), m)
  {
    hide Orient, OnOneLine, Before, Chosen, Outline, Bounds;
    StartFacts(ps, start);
    hide NoTwin, NoTwins, FirstLeft;
    if k == 0 {
      m := 1;
      StartOutline(ps, start);
    } else {
      m := KeptOutline(ps, start, k - 1);
      m := KeptNext(ps, start, k - 1, m);
    }
  }

  /** One more step. */
  lemma {:induction false} KeptNext(ps: seq<Point>, start: nat, k: nat, m: nat) returns (m': nat)
    requires FirstLeft(ps, start) && NoTwin(ps, start) && !OnOneLine(ps) && Outline(ps, Kept(ps, start, k), m)
    requires EdgeAt(ps, start, k) && Walk(ps, start, k + 1) != start
    ensures Outline(ps, Kept(ps, start, k + 1), m')
  {
    hide Orient, OnOneLine, Before, Chosen, Outline, Bounds;
    var idx, q := Kept(ps, start, k), Walk(ps, start, k + 1);
    var l := |idx| - 1;
    NotTwin(ps, start, q);
    hide NoTwin, FirstLeft, EdgeAt;
    OutlineEnd(ps, idx, m);
    EdgeParts(ps, start, k);
    GoesLeft(ps, idx, m, q);
    if l > 0 && Orient(ps[idx[l - 1]], ps[idx[l]], ps[q]) == 0.0 {
      OutlineMoves(ps, idx, m, q);
      m' := m;
    } else {
      m' := OutlineGrows(ps, idx, m, q);
    }
  }

  lemma {:induction false} EdgeParts(ps: seq<Point>, start: nat, k: nat)
    requires start < |ps| && EdgeAt(ps, start, k)
    ensures Bounds(ps, Walk(ps, start, k), Walk(ps, start, k + 1))
    ensures Walk(ps, start, k + 1) == Chosen(ps, Walk(ps, start, k), |ps|)
  {}

  lemma {:induction false} ReturnParts(ps: seq<Point>, start: nat, n: nat, j: nat)
    requires start < |ps| && FirstReturn(ps, start, n)
    ensures n > 0 && Walk(ps, start, n) == start && (0 < j < n ==> Walk(ps, start, j) != start)
  {}

  lemma {:induction false} BeforeReturn(ps: seq<Point>, start: nat, n: nat, k: nat)
    requires start < |ps| && FirstReturn(ps, start, n) && k < n
    requires forall j: nat | j < k :: EdgeAt(ps, start, j)
    ensures forall j: nat | j < k :: EdgeAt(ps, start, j) && Walk(ps, start, j + 1) != start
  {
    hide Walk, EdgeAt;
  }

  /** Before the loop ends no entry is visited twice. */
  lemma {:induction false} NoRepeat(ps: seq<Point>, start: nat, n: nat, i: nat, j: nat)
    requires start < |ps| && FirstReturn(ps, start, n) && i < j < n
    ensures Walk(ps, start, i) != Walk(ps, start, j)
  {
    hide Chosen;
    if Walk(ps, start, i) == Walk(ps, start, j) {
      FromThere(ps, start, i, j, n - j);
      ReturnParts(ps, start, n, i + (n - j));
    }
  }

  lemma {:induction false} FromThere(ps: seq<Point>, start: nat, i: nat, j: nat, t: nat)
    requires start < |ps| && Walk(ps, start, i) == Walk(ps, start, j)
    ensures Walk(ps, start, i + t) == Walk(ps, start, j + t)
  {
    if t > 0 { FromThere(ps, start, i, j, t - 1); }
  }

  // A step that is not along an edge of the hull

  /** The line through p and q has points on both sides. */
  ghost predicate Cuts(ps: seq<Point>, p: nat, q: nat) {
    && p < |ps| && q < |ps|
    && (exists a: nat :: a < |ps| && Orient(ps[p], ps[q], ps[a]) < 0.0)
    && exists b: nat :: b < |ps| && Orient(ps[p], ps[q], ps[b]) > 0.0
  }

  /** Such a step leads off the line of arrival and cuts through the points. */
  lemma {:induction false} WrongStep(ps: seq<Point>, p: nat, u: Point)
    requires Wide(ps, p, u) && NoTwin(ps, p) && |ps| >= 2 && !OnOneLine(ps) && !Bounds(ps, p, Chosen(ps, p, |ps|))
    ensures p < |ps| && Off(ps, p, u, Chosen(ps, p, |ps|)) && Cuts(ps, p, Chosen(ps, p, |ps|))
  {
    hide Orient, OnOneLine, Height, Progress, Chosen, NoTwin, Wide, Bounds;
    WideAt(ps, p, u);
    var off := SomeOff(ps, p, u);
    SearchExact(ps, p, u, off);
    var q := Chosen(ps, p, |ps|);
    Where(ps, p, u, q);
    if Ahead(ps, p, u, q) { EdgeAhead(ps, p, u, q); }
    var a: nat :| Ahead(ps, p, u, a);
    Seen(ps, p, u, a, q);
    Seen(ps, p, u, FirstOther(p), q);
  }

  /** After a step from p to q the vertex p stays, followed by one on the line from p to q. */
  ghost predicate LineKept(ps: seq<Point>, idx: seq<nat>, c: nat, p: nat, q: nat) {
    && c + 1 < |idx| && idx[c] == p < |ps| && idx[c + 1] < |ps| && q < |ps|
    && idx[c + 1] != p && Orient(ps[p], ps[q], ps[idx[c + 1]]) == 0.0
  }

  lemma {:induction false} LineStays(ps: seq<Point>, start: nat, j: nat, k: nat, c: nat)
    requires start < |ps| && j < k && c == |Kept(ps, start, j)| - 1 && NoTwin(ps, Walk(ps, start, j))
    requires Kept(ps, start, j + 1) == Kept(ps, start, j) + [Walk(ps, start, j + 1)]
    requires forall i: nat | j < i <= k :: Walk(ps, start, i) != Walk(ps, start, j)
    ensures LineKept(ps, Kept(ps, start, k), c, Walk(ps, start, j), Walk(ps, start, j + 1))
  {
    hide Orient, Chosen, Walk, NoTwin, Kept;
    var p, q := Walk(ps, start, j), Walk(ps, start, j + 1);
    NoTurn(ps[p], ps[q]);
    if k > j + 1 {
      hide LineKept;
      LineStays(ps, start, j, k - 1, c);
      LineStep(ps, Kept(ps, start, k - 1), c, p, q, Walk(ps, start, k));
      KeptStep(ps, start, k - 1);
    }
  }

  lemma {:induction false} KeptStep(ps: seq<Point>, start: nat, k: nat)
    requires start < |ps|
    ensures Walk(ps, start, k + 1) < |ps|
    ensures var idx, q := Kept(ps, start, k), Walk(ps, start, k + 1);
      var l := |idx| - 1;
      Kept(ps, start, k + 1) ==
        if l > 0 && Orient(ps[idx[l - 1]], ps[idx[l]], ps[q]) == 0.0 then idx[l := q] else idx + [q]
  {
    hide Orient, Walk;
  }

  lemma {:induction false} LineStep(ps: seq<Point>, idx: seq<nat>, c: nat, p: nat, q: nat, w: nat)
    requires LineKept(ps, idx, c, p, q) && NoTwin(ps, p) && w < |ps| && w != p && q != p
    requires forall i | 0 <= i < |idx| :: idx[i] < |ps|
    ensures LineKept(ps, idx + [w], c, p, q)
    ensures var l := |idx| - 1;
      l > 0 && (Orient(ps[idx[l - 1]], ps[idx[l]], ps[w]) == 0.0 ==> LineKept(ps, idx[l := w], c, p, q))
  {
    hide Orient, NoTwin;
    StillOnLine(ps, p, q, idx[c + 1], w);
  }

  lemma {:induction false} StillOnLine(ps: seq<Point>, p: nat, q: nat, v: nat, w: nat)
    requires NoTwin(ps, p) && q < |ps| && v < |ps| && w < |ps| && v != p && q != p && Orient(ps[p], ps[q], ps[v]) == 0.0
    ensures Orient(ps[p], ps[v], ps[w]) == 0.0 ==> Orient(ps[p], ps[q], ps[w]) == 0.0
  {
    hide Orient, Height, Progress;
    var u := Edge(ps[p], ps[q]);
    EdgeHeight(ps[p], ps[q], ps[v]);
    EdgeHeight(ps[p], ps[q], ps[w]);
    EdgeNotZero(ps[p], ps[q]);
    ParallelSeen(ps[p], ps[v], ps[w], u);
  }

  lemma {:induction false} EdgeNotZero(p: Point, q: Point)
    ensures p != q ==> Edge(p, q) != Point(0.0, 0.0)
  {}

  /** An edge along a line with points on both sides has some to its right. */
  lemma {:induction false} CutOutside(ps: seq<Point>, p: nat, q: nat, v: nat)
    requires Cuts(ps, p, q) && NoTwin(ps, p) && v < |ps| && v != p && q != p && Orient(ps[p], ps[q], ps[v]) == 0.0
    ensures exists x: nat :: x < |ps| && Orient(ps[p], ps[v], ps[x]) < 0.0
  {
    hide Orient, Height, Progress;
    var u := Edge(ps[p], ps[q]);
    var a: nat :| a < |ps| && Orient(ps[p], ps[q], ps[a]) < 0.0;
    var b: nat :| b < |ps| && Orient(ps[p], ps[q], ps[b]) > 0.0;
    EdgeHeight(ps[p], ps[q], ps[v]);
    EdgeHeight(ps[p], ps[q], ps[a]);
    EdgeHeight(ps[p], ps[q], ps[b]);
    EdgeNotZero(ps[p], ps[q]);
    ParallelSeen(ps[p], ps[v], ps[a], u);
    ParallelSeen(ps[p], ps[v], ps[b], u);
  }

  lemma {:induction false} NotEnclosed(ps: seq<Point>, hull: seq<Point>, c: nat, x: nat)
    requires c < |hull| && x < |ps| && Orient(hull[c], After(hull, c), ps[x]) < 0.0
    ensures !NoneOutside(ps, hull)
  {
    hide Orient;
    assert ps[x] in ps;
  }

  lemma {:induction false} OutsideEdge(ps: seq<Point>, hull: seq<Point>, c: nat, p: nat, q: nat, v: nat)
    requires p < |ps| && q < |ps| && v < |ps| && Cuts(ps, p, q) && NoTwin(ps, p)
    requires v != p && q != p && Orient(ps[p], ps[q], ps[v]) == 0.0
    requires c < |hull| && hull[c] == ps[p] && After(hull, c) == ps[v]
    ensures !NoneOutside(ps, hull)
  {
    CutOutside(ps, p, q, v);
    hide Orient, Cuts, NoTwin;
    var x: nat :| x < |ps| && Orient(ps[p], ps[v], ps[x]) < 0.0;
    NotEnclosed(ps, hull, c, x);
  }

  /** A walk that has taken such a step returns a polygon that leaves points outside. */
  lemma {:induction false} WrongPolygon(ps: seq<Point>, start: nat, n: nat, j: nat)
    requires FirstLeft(ps, start) && NoTwins(ps) && !OnOneLine(ps) && |ps| >= 2 && FirstReturn(ps, start, n)
    requires j < n && !EdgeAt(ps, start, j) && forall i: nat | i < j :: EdgeAt(ps, start, i)
    ensures n > 0 && !NoneOutside(ps, Polygon(ps, start, n))
  {
    hide Orient, OnOneLine, Chosen, Outline, NoneOutside, Bounds, Before, Off;
    StartFacts(ps, start);
    HeadingIsWide(ps, start, j);
    ReturnParts(ps, start, n, j);
    BeforeReturn(ps, start, n, j);
    var m := KeptOutline(ps, start, j);
    hide FirstLeft, NoTwins, NoTwin, Wide;
    var p, q, c := Walk(ps, start, j), Walk(ps, start, j + 1), |Kept(ps, start, j)| - 1;
    NextIsChosen(ps, start, j);
    WrongStep(ps, p, Heading(ps, start, j));
    ChosenOther(ps, p);
    hide Cuts;
    if j + 1 == n {
      NoTurn(ps[p], ps[q]);
      OutsideEdge(ps, Polygon(ps, start, n), c, p, q, q);
    } else {
      WrongStepKept(ps, start, j, m);
      forall i: nat | j < i <= n - 1 ensures Walk(ps, start, i) != p { NoRepeat(ps, start, n, j, i); }
      LineStays(ps, start, j, n - 1, c);
      OutsideEdge(ps, Polygon(ps, start, n), c, p, q, Kept(ps, start, n - 1)[c + 1]);
    }
  }

  lemma {:induction false} NextIsChosen(ps: seq<Point>, start: nat, k: nat)
    requires start < |ps|
    ensures Walk(ps, start, k + 1) == Chosen(ps, Walk(ps, start, k), |ps|)
    ensures EdgeAt(ps, start, k) <==> Bounds(ps, Walk(ps, start, k), Walk(ps, start, k + 1))
  {}

  lemma {:induction false} ChosenOther(ps: seq<Point>, p: nat)
    requires p < |ps| && |ps| >= 2
    ensures Chosen(ps, p, |ps|) != p
  {
    SomeChosen(ps, p, |ps|);
  }

  /** The new vertex is not on the line of the last two: it is added. */
  lemma {:induction false} WrongStepKept(ps: seq<Point>, start: nat, j: nat, m: nat)
    requires start < |ps| && Outline(ps, Kept(ps, start, j), m) && NoTwin(ps, Walk(ps, start, j)) && !OnOneLine(ps)
    requires |ps| >= 2 && !EdgeAt(ps, start, j)
    ensures Kept(ps, start, j + 1) == Kept(ps, start, j) + [Walk(ps, start, j + 1)]
  {
    hide Orient, OnOneLine, Chosen, Outline, Bounds, Before, Height;
    var idx := Kept(ps, start, j);
    var l := |idx| - 1;
    OutlineEnd(ps, idx, m);
    NextIsChosen(ps, start, j);
    if l > 0 {
      EdgeIsWide(ps, idx[l - 1], idx[l]);
      WrongStep(ps, idx[l], Edge(ps[idx[l - 1]], ps[idx[l]]));
      ShiftHeight(ps[idx[l - 1]], ps[idx[l]], ps[Walk(ps, start, j + 1)]);
    }
  }

  /** If the entries on the outline differ and not all entries are on one line, and the loop ends, it returns a polygon
      around the points if no bounding line blocks the walk, and one with some point outside if a line does. */
  lemma {:induction false} PolygonExact(ps: seq<Point>, start: nat, n: nat)
    requires FirstLeft(ps, start) && NoTwins(ps) && !OnOneLine(ps) && |ps| >= 2 && FirstReturn(ps, start, n)
    ensures n > 0
    ensures !Blocked(ps) ==> Encloses(ps, Polygon(ps, start, n))
    ensures Blocked(ps) ==> !NoneOutside(ps, Polygon(ps, start, n))
  {
    hide Orient, OnOneLine, Outline, Encloses, NoneOutside, Bounds, Blocks, StuckAt, Before;
    WalkExact(ps, start);
    StartFacts(ps, start);
    hide FirstLeft, NoTwin, NoTwins;
    ReturnParts(ps, start, n, 0);
    if j: nat :| j < n && !EdgeAt(ps, start, j) {
      var i := FirstWrong(ps, start, j);
      StepExact(ps, start, i);
      var f := StuckBlocks(ps, start, i);
      WrongPolygon(ps, start, n, i);
    } else {
      assert GoesAround(ps, start, n);
      RightPolygon(ps, start, n);
    }
  }

  lemma {:induction false} FirstWrong(ps: seq<Point>, start: nat, j: nat) returns (i: nat)
    requires start < |ps| && !EdgeAt(ps, start, j)
    ensures i <= j && !EdgeAt(ps, start, i) && forall k: nat | k < i :: EdgeAt(ps, start, k)
  {
    hide EdgeAt;
    if k: nat :| k < j && !EdgeAt(ps, start, k) { i := FirstWrong(ps, start, k); } else { i := j; }
  }

  lemma {:induction false} RightPolygon(ps: seq<Point>, start: nat, n: nat)
    requires FirstLeft(ps, start) && NoTwins(ps) && !OnOneLine(ps) && |ps| >= 2 && FirstReturn(ps, start, n)
    requires GoesAround(ps, start, n)
    ensures n > 0 && Encloses(ps, Polygon(ps, start, n))
  {
    hide Orient, OnOneLine, Outline, Encloses, Bounds, Before, Chosen;
    StartFacts(ps, start);
    ReturnParts(ps, start, n, 0);
    BeforeReturn(ps, start, n, n - 1);
    var m := KeptOutline(ps, start, n - 1);
    hide FirstLeft, NoTwin, NoTwins;
    NextIsChosen(ps, start, n - 1);
    assert EdgeAt(ps, start, n - 1);
    var idx := Kept(ps, start, n - 1);
    BoundsDiffer(ps, idx[|idx| - 1], idx[0]);
    OutlineEncloses(ps, idx, m, PointsOf(ps, idx));
  }

  lemma {:induction false} BoundsDiffer(ps: seq<Point>, p: nat, q: nat)
    requires Bounds(ps, p, q)
    ensures p != q
  {}

  /** If no line blocks the walk the loop ends. */
  lemma {:induction false} ClearEnds(ps: seq<Point>)
    requires |ps| >= 2 && NoTwins(ps) && !OnOneLine(ps) && !Blocked(ps)
    ensures LoopEnds(ps)
  {
    hide Orient, OnOneLine, Bounds, Blocked, Walk, EdgeAt, NoTwins, NoTwin;
    var start := SomeFirstLeft(ps, |ps|);
    WalkExact(ps, start);
    var n: nat :| GoesAround(ps, start, n);
    var k := FirstTime(ps, start, n);
    assert Ends(ps, start, k);
  }

  lemma {:induction false} FirstTime(ps: seq<Point>, start: nat, n: nat) returns (k: nat)
    requires start < |ps| && n > 0 && Walk(ps, start, n) == start
    ensures FirstReturn(ps, start, k)
  {
    hide Walk;
    if j: nat :| 0 < j < n && Walk(ps, start, j) == start { k := FirstTime(ps, start, j); } else { k := n; }
  }

  lemma {:induction false} SomeFirstLeft(ps: seq<Point>, n: nat) returns (start: nat)
    requires 0 < n <= |ps|
    ensures start < n && forall i: nat | i < n :: ps[start].x <= ps[i].x
    ensures forall i: nat | i < start :: ps[start].x < ps[i].x
  {
    if n == 1 {
      start := 0;
    } else {
      start := SomeFirstLeft(ps, n - 1);
      if ps[n - 1].x < ps[start].x { start := n - 1; }
    }
  }

  /** Two different points. */
  lemma {:induction false} TwoPolygon(ps: seq<Point>, start: nat, n: nat)
    requires |ps| == 2 && NoTwins(ps) && FirstLeft(ps, start) && FirstReturn(ps, start, n)
    ensures n == 2 && Encloses(ps, Polygon(ps, start, n))
  {
    hide Orient, Outline, Encloses, OnOneLine, Chosen;
    TwoAround(ps, start);
    StartFacts(ps, start);
    hide FirstLeft, NoTwins;
    var q := FirstOther(start);
    ChosenOfTwo(ps, start);
    NextIsChosen(ps, start, 0);
    ReturnParts(ps, start, n, 2);
    ReturnParts(ps, start, n, 1);
    assert n == 2;
    var idx := Kept(ps, start, 1);
    WalkZero(ps, start);
    assert idx == [start, q];
    assert EdgeAt(ps, start, 0) && EdgeAt(ps, start, 1);
    StartOutline(ps, start);
    OutlineOfTwo(ps, start, q);
  }

  lemma {:induction false} OutlineOfTwo(ps: seq<Point>, p: nat, q: nat)
    requires |ps| == 2 && Bounds(ps, p, q) && Bounds(ps, q, p)
    ensures Encloses(ps, PointsOf(ps, [p, q]))
  {
    hide Orient;
    var hull := PointsOf(ps, [p, q]);
    assert hull == [ps[p], ps[q]];
    forall k, x {:trigger After(hull, k), x in ps} | 0 <= k < |hull| && x in ps
      ensures Orient(hull[k], After(hull, k), x) >= 0.0
    {
      var i :| 0 <= i < |ps| && ps[i] == x;
    }
  }

  /** The loop ends with a polygon around the points exactly if no line blocks the walk. */
  method Hull(ps: seq<Point>) returns (hull: seq<Point>)
    requires |ps| >= 2 && LoopEnds(ps)
    ensures Wrapped(ps, hull)
    ensures NoTwins(ps) && !OnOneLine(ps) ==> if Blocked(ps) then !NoneOutside(ps, hull) else Encloses(ps, hull)
    ensures NoTwins(ps) && |ps| == 2 ==> Encloses(ps, hull)
    ensures SharpOutline(ps) ==> OutlineOf(ps, hull)
  {
    hide SharpOutline, Bounds, Wide, Orient, Det, Outline, Chosen, OutlineOf, Encloses, NoneOutside, NoTwin,
      NoTwins, OnOneLine, Walk, Blocked, Stuck, FirstReturn, Kept, PointsOf;
    var pleft: nat := FindLeft(ps);
    ghost var n := StepsToEnd(ps, pleft);
    ReturnParts(ps, pleft, n, 0);
    WalkZero(ps, pleft);
    hull := [ps[pleft]];
    ghost var k: nat := 0;
    var p: nat := pleft;
    var q: nat := FindNext(ps, p);
    NextIsChosen(ps, pleft, k);
    while q != pleft
      invariant k < n && p == Walk(ps, pleft, k) && q == Walk(ps, pleft, k + 1) && q < |ps|
      invariant hull == PointsOf(ps, Kept(ps, pleft, k))
      decreases n - k
    {
      KeptPoints(ps, pleft, k);
      var colinear := Colinear(hull, ps[p], ps[q]);
      if colinear {
        hull := hull[|hull| - 1 := ps[q]];
      } else {
        hull := hull + [ps[q]];
      }
      p := q;
      k := k + 1;
      q := FindNext(ps, p);
      NextIsChosen(ps, pleft, k);
    }
    ReturnParts(ps, pleft, n, k + 1);
    assert Ends(ps, pleft, n) && hull == Polygon(ps, pleft, n);
    HullIsRight(ps, pleft, n);
  }

  lemma {:induction false} WalkZero(ps: seq<Point>, start: nat)
    requires start < |ps|
    ensures Walk(ps, start, 0) == start && PointsOf(ps, Kept(ps, start, 0)) == [ps[start]]
  {}

  /** The vertices kept after one more step. */
  lemma {:induction false} KeptPoints(ps: seq<Point>, start: nat, k: nat)
    requires start < |ps|
    ensures Walk(ps, start, k) < |ps| && Walk(ps, start, k + 1) < |ps|
    ensures var hull, q := PointsOf(ps, Kept(ps, start, k)), ps[Walk(ps, start, k + 1)];
      var l := |hull| - 1;
      && l >= 0 && hull[l] == ps[Walk(ps, start, k)]
      && PointsOf(ps, Kept(ps, start, k + 1)) ==
        if l > 0 && Orient(hull[l - 1], hull[l], q) == 0.0 then hull[l := q] else hull + [q]
  {
    KeptStep(ps, start, k);
    hide Orient, Walk;
  }

  lemma {:induction false} FirstLeftUnique(ps: seq<Point>, s: nat, t: nat)
    requires FirstLeft(ps, s) && FirstLeft(ps, t)
    ensures s == t
  {
    assert ps[s].x <= ps[t].x <= ps[s].x;
  }

  lemma {:induction false} StepsToEnd(ps: seq<Point>, start: nat) returns (n: nat)
    requires FirstLeft(ps, start) && LoopEnds(ps)
    ensures FirstReturn(ps, start, n)
  {
    hide FirstReturn;
    var s: nat, m: nat :| Ends(ps, s, m);
    FirstLeftUnique(ps, s, start);
    n := m;
  }

  lemma {:induction false} HullIsRight(ps: seq<Point>, start: nat, n: nat)
    requires |ps| >= 2 && FirstLeft(ps, start) && FirstReturn(ps, start, n)
    ensures n > 0
    ensures NoTwins(ps) && !OnOneLine(ps) ==>
      var hull := Polygon(ps, start, n);
      if Blocked(ps) then !NoneOutside(ps, hull) else Encloses(ps, hull)
    ensures NoTwins(ps) && |ps| == 2 ==> Encloses(ps, Polygon(ps, start, n))
    ensures SharpOutline(ps) ==> OutlineOf(ps, Polygon(ps, start, n))
  {
    hide SharpOutline, Bounds, Orient, OutlineOf, Encloses, NoneOutside, NoTwins, OnOneLine, Blocked;
    ReturnParts(ps, start, n, 0);
    if SharpOutline(ps) { SharpNoTwins(ps); }
    if NoTwins(ps) && |ps| == 2 { TwoPolygon(ps, start, n); }
    if NoTwins(ps) && !OnOneLine(ps) { PolygonExact(ps, start, n); }
    if SharpOutline(ps) {
      if |ps| > 2 { SharpIsClear(ps); }
      SharpIsStrict(ps, Polygon(ps, start, n));
    }
  }

  lemma {:induction false} StartFacts(ps: seq<Point>, start: nat)
    requires FirstLeft(ps, start) && NoTwins(ps)
    ensures start < |ps| && NoTwin(ps, start)
  {}

  // ---------------------------------------------------------------------------------------
  // Points whose outline has no colinear points

  /** A closed polygon of distinct input points, each of whose edges has all other input points
      strictly to its left. */
  ghost predicate OutlineOf(ps: seq<Point>, hull: seq<Point>) {
    && |hull| >= 2 && (forall k | 0 <= k < |hull| :: hull[k] in ps)
    && (forall j, k | 0 <= j < k < |hull| :: hull[j] != hull[k])
    && forall k, x {:trigger After(hull, k), x in ps} |
         0 <= k < |hull| && x in ps && x != hull[k] && x != After(hull, k) :: Orient(hull[k], After(hull, k), x) > 0.0
  }

  lemma {:induction false} SharpIsStrict(ps: seq<Point>, hull: seq<Point>)
    requires SharpOutline(ps) && Encloses(ps, hull)
    ensures OutlineOf(ps, hull)
  {
    hide Orient, Corner;
    forall k, x {:trigger After(hull, k), x in ps} | 0 <= k < |hull| && x in ps && x != hull[k] && x != After(hull, k)
      ensures Orient(hull[k], After(hull, k), x) > 0.0
    {
      StrictEdge(ps, hull[k], After(hull, k), x);
    }
  }

  lemma {:induction false} StrictEdge(ps: seq<Point>, a: Point, b: Point, x: Point)
    requires SharpOutline(ps) && a in ps && b in ps && x in ps && a != b && x != a && x != b
    requires forall y | y in ps :: Orient(a, b, y) >= 0.0
    ensures Orient(a, b, x) > 0.0
  {
    hide Orient;
    var p: nat :| p < |ps| && ps[p] == a;
    var q: nat :| q < |ps| && ps[q] == b;
    var i: nat :| i < |ps| && ps[i] == x;
    assert Bounds(ps, p, q);
    assert Supports(ps, p, q);
  }

  /** Then no line blocks the walk. */
  lemma {:induction false} SharpIsClear(ps: seq<Point>)
    requires |ps| > 2 && SharpOutline(ps)
    ensures NoTwins(ps) && !OnOneLine(ps) && !Blocked(ps)
  {
    hide Orient, OnOneLine, NoTwins;
    SharpNoTwins(ps);
    SharpNotOnOneLine(ps);
    forall f: nat ensures !Blocks(ps, f) {
      if Blocks(ps, f) {
        assert Supports(ps, 0, f) && !Off(ps, f, Edge(ps[0], ps[f]), 1);
        ShiftHeight(ps[0], ps[f], ps[1]);
      }
    }
  }

  lemma {:induction false} SharpNoTwins(ps: seq<Point>)
    requires SharpOutline(ps)
    ensures NoTwins(ps)
  {
    forall p: nat, q: nat | Bounds(ps, p, q) ensures NoTwin(ps, p) && NoTwin(ps, q) {
      assert Supports(ps, p, q);
      NoTurn(ps[p], ps[q]);
      assert Orient(ps[p], ps[q], ps[p]) == 0.0 == Orient(ps[p], ps[q], ps[q]);
      hide Orient, SharpOutline;
    }
  }

  lemma {:induction false} SharpNotOnOneLine(ps: seq<Point>)
    requires |ps| > 2 && SharpOutline(ps)
    ensures !OnOneLine(ps)
  {
    forall p: nat, q: nat | Bounds(ps, p, q) ensures !Bounds(ps, q, p) {
      var x: nat := if p != 0 && q != 0 then 0 else if p != 1 && q != 1 then 1 else 2;
      assert Supports(ps, p, q);
      OrientSwap(ps[p], ps[q], ps[x]);
      hide Orient, SharpOutline;
    }
  }

  ghost predicate Distinct(ps: seq<Point>) {
    forall i, j | 0 <= i < |ps| && 0 <= j < |ps| && ps[i] == ps[j] :: i == j
  }

  function Prev(hull: seq<Point>, k: nat): Point
    requires k < |hull|
  {
    if k == 0 then hull[|hull| - 1] else hull[k - 1]
  }

  /** A vertex lowest in the direction to the left of the edge from p to q. */
  lemma {:induction false} Lowest(hull: seq<Point>, p: Point, q: Point) returns (k: nat)
    requires |hull| > 0
    ensures k < |hull| && forall j | 0 <= j < |hull| :: Orient(p, q, hull[k]) <= Orient(p, q, hull[j])
  {
    hide Orient;
    k := 0;
    for i := 0 to |hull|
      invariant k < |hull| && forall j | 0 <= j < i :: Orient(p, q, hull[k]) <= Orient(p, q, hull[j])
    {
      if Orient(p, q, hull[i]) < Orient(p, q, hull[k]) {
        k := i;
      }
    }
  }

  /** With the line through p and q bounding the points, three points on it are the lowest vertex and its two
      neighbours, which is impossible. */
  lemma {:induction false} LowestAndNeighbours(ps: seq<Point>, hull: seq<Point>, p: Point, q: Point, k: nat, x: Point)
    requires OutlineOf(ps, hull) && |hull| >= 3 && k < |hull| && p != q && x in ps
    requires forall j | 0 <= j < |hull| :: Orient(p, q, hull[k]) <= Orient(p, q, hull[j])
    ensures x == hull[k] || x == Prev(hull, k) || x == After(hull, k) || Orient(p, q, x) > Orient(p, q, hull[k])
    ensures Orient(p, q, hull[k]) < Orient(p, q, Prev(hull, k)) || Orient(p, q, hull[k]) < Orient(p, q, After(hull, k))
  {
    hide Orient;
    var j: nat := if k == 0 then |hull| - 1 else k - 1;
    var a, v, b := hull[j], hull[k], After(hull, k);
    assert After(hull, j) == v && b in ps && Prev(hull, k) == a;
    assert b != a && b != v;
    if x != v && x != a && x != b {
      AngleIsAbove(a, v, b, x, p, q);
    } else {
      BothNotLow(a, v, b, p, q);
    }
  }

  /** If distinct points have an outline at all, they meet the condition under which the loop finds it. */
  lemma {:induction false} OutlineNeedsSharp(ps: seq<Point>, hull: seq<Point>)
    requires Distinct(ps) && OutlineOf(ps, hull)
    ensures SharpOutline(ps)
  {
    hide Orient, OutlineOf;
    forall p: nat, q: nat | Bounds(ps, p, q) ensures Supports(ps, p, q) {
      forall r: nat | r < |ps| && r != p && r != q ensures Orient(ps[p], ps[q], ps[r]) > 0.0 {
        if |hull| >= 3 {
          ThirdIsAbove(ps, hull, p, q, r);
        } else {
          TwoOnly(ps, hull, ps[p], ps[q], ps[r]);
        }
      }
    }
  }

  lemma {:induction false} ThirdIsAbove(ps: seq<Point>, hull: seq<Point>, p: nat, q: nat, r: nat)
    requires Distinct(ps) && OutlineOf(ps, hull) && |hull| >= 3 && Bounds(ps, p, q) && r < |ps| && r != p && r != q
    ensures Orient(ps[p], ps[q], ps[r]) > 0.0
  {
    NoTurn(ps[p], ps[q]);
    hide Orient;
    var k := Lowest(hull, ps[p], ps[q]);
    LowestAndNeighbours(ps, hull, ps[p], ps[q], k, ps[p]);
    LowestAndNeighbours(ps, hull, ps[p], ps[q], k, ps[q]);
    LowestAndNeighbours(ps, hull, ps[p], ps[q], k, ps[r]);
    var i :| 0 <= i < |ps| && ps[i] == hull[k];
    assert Orient(ps[p], ps[q], ps[i]) >= 0.0;
  }

  lemma {:induction false} TwoOnly(ps: seq<Point>, hull: seq<Point>, x: Point, y: Point, z: Point)
    requires OutlineOf(ps, hull) && |hull| < 3 && x in ps && y in ps && z in ps
    ensures x == y || y == z || x == z
  {
    OnlyEnds(ps, hull, x);
    OnlyEnds(ps, hull, y);
    OnlyEnds(ps, hull, z);
  }

  lemma {:induction false} OnlyEnds(ps: seq<Point>, hull: seq<Point>, x: Point)
    requires OutlineOf(ps, hull) && |hull| < 3 && x in ps
    ensures |hull| == 2 && (x == hull[0] || x == hull[1])
  {
    OrientSwap(hull[0], hull[1], x);
    hide Orient;
    assert After(hull, 0) == hull[1] && After(hull, 1) == hull[0];
  }

  // ---------------------------------------------------------------------------------------
  // All points on one line

  lemma {:induction false} FlatTriple(ps: seq<Point>, p: nat, q: nat, i: nat, j: nat, k: nat)
    requires Bounds(ps, p, q) && Bounds(ps, q, p) && i < |ps| && j < |ps| && k < |ps|
    ensures Orient(ps[i], ps[j], ps[k]) == 0.0
  {
    hide Orient, Det, Dot;
    var u := Edge(ps[p], ps[q]);
    forall x | x == i || x == j || x == k ensures Orient(ps[p], ps[q], ps[x]) == 0.0 {
      OrientSwap(ps[p], ps[q], ps[x]);
      assert Orient(ps[q], ps[p], ps[x]) >= 0.0;
    }
    HeightDifference(ps[p], ps[q], ps[i], ps[j]);
    HeightDifference(ps[p], ps[q], ps[i], ps[k]);
    if ps[i] == ps[j] {
      OrientSwap(ps[i], ps[j], ps[k]);
    } else {
      Parallel(ps[i], ps[j], ps[k], u.x, u.y);
    }
  }

  lemma {:induction false} FlatSearch(ps: seq<Point>, p: nat, i: nat)
    requires OnOneLine(ps) && p < |ps| && FirstOther(p) < i <= |ps|
    ensures Chosen(ps, p, i) == FirstOther(p)
  {
    hide Orient, Chosen;
    var a: nat, b: nat :| Bounds(ps, a, b) && Bounds(ps, b, a);
    ChosenNext(ps, p, i);
    if i - 1 > FirstOther(p) {
      FlatSearch(ps, p, i - 1);
      FlatTriple(ps, a, b, p, FirstOther(p), i - 1);
    } else if p == 0 {
      ChosenNext(ps, p, 1);
    }
  }

  /** If all points are on one line the loop goes back and forth between the first two: it ends exactly if the
      leftmost point is one of these. */
  lemma {:induction false} LineEnds(ps: seq<Point>, start: nat)
    requires |ps| >= 2 && OnOneLine(ps) && start < |ps|
    ensures (exists n: nat :: n > 0 && Walk(ps, start, n) == start) <==> start < 2
  {
    hide OnOneLine;
    forall n: nat | n > 0 ensures Walk(ps, start, n) < 2 {
      FlatWalk(ps, start, n);
    }
    FlatWalk(ps, start, 1);
    FlatWalk(ps, start, 2);
    assert start < 2 ==> Walk(ps, start, 2) == start;
  }

  lemma {:induction false} FlatWalk(ps: seq<Point>, start: nat, n: nat)
    requires |ps| >= 2 && OnOneLine(ps) && start < |ps| && n > 0
    ensures Walk(ps, start, n) == FirstOther(Walk(ps, start, n - 1)) < 2
  {
    hide OnOneLine, Chosen;
    FlatSearch(ps, Walk(ps, start, n - 1), |ps|);
  }
}
