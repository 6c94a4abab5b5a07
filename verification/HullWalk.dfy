/** The searches of gift wrapping (`g2d_convex_hull`, Robot/apriltags/common/g2d.c), over the exact reals, and the walk
    from one to the next. */
module HullWalk {
  import opened Orientation
  import opened Points

  /** No entry lies to the right of the edge from p to q. */
  ghost predicate Bounds(ps: seq<Point>, p: nat, q: nat) {
    && p < |ps| && q < |ps| && ps[p] != ps[q]
    && forall x | 0 <= x < |ps| :: Orient(ps[p], ps[q], ps[x]) >= 0.0
  }

  ghost predicate Leftmost(ps: seq<Point>, p: nat) {
    p < |ps| && forall i | 0 <= i < |ps| :: ps[p].x <= ps[i].x
  }

  /** Where the loop starts. */
  ghost predicate FirstLeft(ps: seq<Point>, p: nat) {
    Leftmost(ps, p) && forall i | 0 <= i < p :: ps[p].x < ps[i].x
  }

  /** No other entry equals entry p. */
  ghost predicate NoTwin(ps: seq<Point>, p: nat) {
    p < |ps| && forall x | 0 <= x < |ps| && x != p :: ps[x] != ps[p]
  }

  /** Entries on the outline differ from all others; inside, points may coincide. */
  ghost predicate NoTwins(ps: seq<Point>) {
    && (forall p: nat, q: nat | Bounds(ps, p, q) :: NoTwin(ps, p) && NoTwin(ps, q))
    && forall p: nat | Leftmost(ps, p) :: NoTwin(ps, p)
  }

  ghost predicate OnOneLine(ps: seq<Point>) {
    exists p: nat, q: nat :: Bounds(ps, p, q) && Bounds(ps, q, p)
  }

  // ---------------------------------------------------------------------------------------
  // One search. u is a direction at entry p with all entries to its left: the direction of the edge that led to p.
  // The other entries lie off the line through p along u, ahead on it, or behind.

  ghost predicate Wide(ps: seq<Point>, p: nat, u: Point) {
    && p < |ps| && u != Point(0.0, 0.0)
    && forall x | 0 <= x < |ps| :: Height(u, ps[p], ps[x]) >= 0.0
  }

  function Height(u: Point, p: Point, x: Point): real {
    Det(u.x, u.y, x.x - p.x, x.y - p.y)
  }

  function Progress(u: Point, p: Point, x: Point): real {
    Dot(u.x, u.y, x.x - p.x, x.y - p.y)
  }

  predicate Off(ps: seq<Point>, p: nat, u: Point, x: nat)
    requires p < |ps|
  {
    x < |ps| && Height(u, ps[p], ps[x]) > 0.0
  }

  predicate Ahead(ps: seq<Point>, p: nat, u: Point, x: nat)
    requires p < |ps|
  {
    x < |ps| && Height(u, ps[p], ps[x]) == 0.0 && Progress(u, ps[p], ps[x]) > 0.0
  }

  predicate Behind(ps: seq<Point>, p: nat, u: Point, x: nat)
    requires p < |ps|
  {
    x < |ps| && Height(u, ps[p], ps[x]) == 0.0 && Progress(u, ps[p], ps[x]) < 0.0
  }

  /** The entry that the search looks at first. */
  function FirstOther(p: nat): nat {
    if p == 0 then 1 else 0
  }

  /** The search goes wrong: the first entry lies behind, there are entries ahead, and all of these come before all
      entries off the line. */
  ghost predicate Stuck(ps: seq<Point>, p: nat, u: Point)
    requires p < |ps|
  {
    && Behind(ps, p, u, FirstOther(p))
    && (exists a: nat :: Ahead(ps, p, u, a))
    && forall a: nat, x: nat | Ahead(ps, p, u, a) && Off(ps, p, u, x) :: a < x
  }

  /** The choice after the first i points, for any points at all; p stands for no choice yet. */
  function Chosen(ps: seq<Point>, p: nat, i: nat): (q: nat)
    requires p < |ps| && i <= |ps|
    ensures q < |ps|
  {
    if i == 0 then p
    else
      var q, t := Chosen(ps, p, i - 1), i - 1;
      if t == p then q else if q == p || Orient(ps[p], ps[q], ps[t]) < 0.0 then t else q
  }

  lemma {:induction false} ChosenNext(ps: seq<Point>, p: nat, i: nat)
    requires p < |ps| && 0 < i <= |ps|
    ensures Chosen(ps, p, 0) == p
    ensures var q, t := Chosen(ps, p, i - 1), i - 1;
      Chosen(ps, p, i) == if t == p then q else if q == p || Orient(ps[p], ps[q], ps[t]) < 0.0 then t else q
  {}

  /** Where an entry lies. */
  lemma {:induction false} Where(ps: seq<Point>, p: nat, u: Point, x: nat)
    requires Wide(ps, p, u) && NoTwin(ps, p) && x < |ps| && x != p
    ensures Off(ps, p, u, x) || Ahead(ps, p, u, x) || Behind(ps, p, u, x)
  {
    hide Det, Dot;
    assert ps[x] != ps[p];
    if Height(u, ps[p], ps[x]) == 0.0 { Parallel(ps[p], ps[x], ps[p], u.x, u.y); }
  }

  /** How entries are seen from p. */
  lemma {:induction false} Seen(ps: seq<Point>, p: nat, u: Point, a: nat, x: nat)
    requires Wide(ps, p, u) && a < |ps| && x < |ps|
    ensures Ahead(ps, p, u, a) ==> Orient(ps[p], ps[a], ps[x]) >= 0.0
    ensures Ahead(ps, p, u, a) && Off(ps, p, u, x) ==> Orient(ps[p], ps[x], ps[a]) < 0.0
    ensures Behind(ps, p, u, a) && Off(ps, p, u, x) ==> Orient(ps[p], ps[a], ps[x]) < 0.0 < Orient(ps[p], ps[x], ps[a])
    ensures Behind(ps, p, u, a) && !Off(ps, p, u, x) ==> Orient(ps[p], ps[a], ps[x]) == 0.0
  {
    hide Det, Dot;
    if Ahead(ps, p, u, a) || Behind(ps, p, u, a) {
      if ps[a] != ps[p] { Parallel(ps[p], ps[a], ps[x], u.x, u.y); }
      OrientSwap(ps[p], ps[a], ps[x]);
      SelfProgress(u, ps[p]);
    }
  }

  lemma {:induction false} SelfProgress(u: Point, p: Point)
    ensures Progress(u, p, p) == 0.0 == Height(u, p, p)
  {}

  /** The search so far, with choice q among the first i entries. */
  ghost predicate Phase(ps: seq<Point>, p: nat, u: Point, q: nat, i: nat)
    requires p < |ps|
  {
    && q < |ps| && q < i && q != p
    && (Ahead(ps, p, u, q) ==> Behind(ps, p, u, FirstOther(p)) ==> exists x: nat :: Off(ps, p, u, x) && x < q)
    && (Off(ps, p, u, q) ==> BestOff(ps, p, u, q, i) && LostAhead(ps, p, u, i))
    && (Behind(ps, p, u, q) ==> q == FirstOther(p) && NoneOff(ps, p, u, i))
  }

  ghost predicate BestOff(ps: seq<Point>, p: nat, u: Point, q: nat, i: nat)
    requires p < |ps| && q < |ps|
  {
    forall x: nat | x < |ps| && x < i && !Ahead(ps, p, u, x) :: Orient(ps[p], ps[q], ps[x]) >= 0.0
  }

  /** Entries ahead that the search has passed over. */
  ghost predicate LostAhead(ps: seq<Point>, p: nat, u: Point, i: nat)
    requires p < |ps|
  {
    forall a: nat | Ahead(ps, p, u, a) && a < i ::
      Behind(ps, p, u, FirstOther(p)) && forall x: nat | Off(ps, p, u, x) && x < i :: a < x
  }

  ghost predicate NoneOff(ps: seq<Point>, p: nat, u: Point, i: nat)
    requires p < |ps|
  {
    forall x: nat | x < i :: !Off(ps, p, u, x)
  }

  lemma {:induction false} FirstPhase(ps: seq<Point>, p: nat, u: Point, t: nat)
    requires Wide(ps, p, u) && t == FirstOther(p) && t < |ps|
    ensures Phase(ps, p, u, t, t + 1)
  {
    hide Height, Progress, Orient;
    SelfProgress(u, ps[p]);
    NoTurn(ps[p], ps[t]);
  }

  /** The entry p itself is passed over. */
  lemma {:induction false} PhaseSkips(ps: seq<Point>, p: nat, u: Point, q: nat)
    requires p < |ps| && Phase(ps, p, u, q, p)
    ensures Phase(ps, p, u, q, p + 1)
  {
    hide Height, Progress, Orient;
    SelfProgress(u, ps[p]);
    NoTurn(ps[p], ps[q]);
  }

  lemma {:induction false} PhaseNext(ps: seq<Point>, p: nat, u: Point, q: nat, t: nat)
    requires Wide(ps, p, u) && NoTwin(ps, p) && t < |ps| && t != p && Phase(ps, p, u, q, t)
    ensures Phase(ps, p, u, if Orient(ps[p], ps[q], ps[t]) < 0.0 then t else q, t + 1)
  {
    hide Height, Progress, Orient, Wide, NoTwin, BestOff, LostAhead, NoneOff, Off, Ahead, Behind;
    WideAt(ps, p, u);
    Where(ps, p, u, q);
    Where(ps, p, u, t);
    Seen(ps, p, u, q, t);
    Seen(ps, p, u, t, q);
    Excluded(ps, p, u, q);
    Excluded(ps, p, u, t);
    if Off(ps, p, u, q) {
      OffNext(ps, p, u, q, t);
    } else if Behind(ps, p, u, q) {
      BehindNext(ps, p, u, q, t);
    }
  }

  lemma {:induction false} Excluded(ps: seq<Point>, p: nat, u: Point, x: nat)
    requires p < |ps|
    ensures !(Off(ps, p, u, x) && (Ahead(ps, p, u, x) || Behind(ps, p, u, x)))
    ensures !(Ahead(ps, p, u, x) && Behind(ps, p, u, x))
  {}

  /** From a choice off the line. */
  lemma {:induction false} OffNext(ps: seq<Point>, p: nat, u: Point, q: nat, t: nat)
    requires Wide(ps, p, u) && NoTwin(ps, p) && t < |ps| && t != p && q < |ps| && q < t && Off(ps, p, u, q)
    requires BestOff(ps, p, u, q, t) && LostAhead(ps, p, u, t)
    ensures Off(ps, p, u, t) && Orient(ps[p], ps[q], ps[t]) < 0.0 ==> BestOff(ps, p, u, t, t + 1)
    ensures !Ahead(ps, p, u, t) && Orient(ps[p], ps[q], ps[t]) >= 0.0 ==> BestOff(ps, p, u, q, t + 1)
    ensures !Ahead(ps, p, u, t) ==> LostAhead(ps, p, u, t + 1)
  {
    hide Height, Progress, Orient, Wide, NoTwin, Off, Ahead, Behind;
    WideAt(ps, p, u);
    if Off(ps, p, u, t) && Orient(ps[p], ps[q], ps[t]) < 0.0 {
      forall x: nat | x < |ps| && x < t + 1 && !Ahead(ps, p, u, x) ensures Orient(ps[p], ps[t], ps[x]) >= 0.0 {
        StillBest(ps, p, u, q, t, x);
      }
    }
  }

  lemma {:induction false} StillBest(ps: seq<Point>, p: nat, u: Point, q: nat, t: nat, x: nat)
    requires Wide(ps, p, u) && t < |ps| && q < |ps| && x < |ps| && Off(ps, p, u, q) && Off(ps, p, u, t)
    requires Orient(ps[p], ps[q], ps[t]) < 0.0 && (x == t || Orient(ps[p], ps[q], ps[x]) >= 0.0)
    ensures Orient(ps[p], ps[t], ps[x]) >= 0.0
  {
    hide Det, Orient;
    NoTurn(ps[p], ps[t]);
    OrientSwap(ps[p], ps[q], ps[t]);
    if x != t { PointsTransitive(ps[p], ps[t], ps[q], ps[x], u.x, u.y); }
  }

  /** From a choice behind p. */
  lemma {:induction false} BehindNext(ps: seq<Point>, p: nat, u: Point, q: nat, t: nat)
    requires Wide(ps, p, u) && NoTwin(ps, p) && t < |ps| && t != p && q < |ps| && Behind(ps, p, u, q)
    requires q == FirstOther(p) && NoneOff(ps, p, u, t)
    ensures Off(ps, p, u, t) ==> BestOff(ps, p, u, t, t + 1) && LostAhead(ps, p, u, t + 1)
    ensures !Off(ps, p, u, t) ==> NoneOff(ps, p, u, t + 1)
  {
    hide Height, Progress, Orient, Wide, NoTwin, Off, Ahead, Behind;
    WideAt(ps, p, u);
    NoTurn(ps[p], ps[t]);
    if Off(ps, p, u, t) {
      Excluded(ps, p, u, t);
      forall x: nat | x < |ps| && x < t + 1 && !Ahead(ps, p, u, x) ensures Orient(ps[p], ps[t], ps[x]) >= 0.0 {
        if x != t && x != p {
          Where(ps, p, u, x);
          Seen(ps, p, u, x, t);
        }
      }
    }
  }

  /** At the end of the search. */
  lemma {:induction false} LastPhase(ps: seq<Point>, p: nat, u: Point, q: nat, off: nat)
    requires Wide(ps, p, u) && NoTwin(ps, p) && Phase(ps, p, u, q, |ps|) && Off(ps, p, u, off)
    ensures Bounds(ps, p, q) <==> !Stuck(ps, p, u)
    ensures !Behind(ps, p, u, q)
  {
    hide Height, Progress, Orient, Off, Ahead, Behind, Wide, BestOff, LostAhead, NoneOff, Stuck, Bounds;
    WideAt(ps, p, u);
    Where(ps, p, u, q);
    Excluded(ps, p, u, q);
    NotNone(ps, p, u, off);
    if Ahead(ps, p, u, q) {
      LastAhead(ps, p, u, q);
    } else if Off(ps, p, u, q) {
      LastOff(ps, p, u, q);
    }
  }

  lemma {:induction false} NotNone(ps: seq<Point>, p: nat, u: Point, x: nat)
    requires p < |ps| && Off(ps, p, u, x)
    ensures !NoneOff(ps, p, u, |ps|)
  {
    OffAheadAt(ps, p, u, x);
    hide Off;
  }

  lemma {:induction false} LastAhead(ps: seq<Point>, p: nat, u: Point, q: nat)
    requires Wide(ps, p, u) && NoTwin(ps, p) && q < |ps| && q != p && Ahead(ps, p, u, q)
    requires Behind(ps, p, u, FirstOther(p)) ==> exists x: nat :: Off(ps, p, u, x) && x < q
    ensures Bounds(ps, p, q) && !Stuck(ps, p, u)
  {
    hide Height, Progress, Orient, Off, Ahead, Behind, Wide;
    forall x | 0 <= x < |ps| ensures Orient(ps[p], ps[q], ps[x]) >= 0.0 {
      Seen(ps, p, u, q, x);
    }
  }

  lemma {:induction false} LastOff(ps: seq<Point>, p: nat, u: Point, q: nat)
    requires Wide(ps, p, u) && NoTwin(ps, p) && q < |ps| && q != p && Off(ps, p, u, q)
    requires BestOff(ps, p, u, q, |ps|) && LostAhead(ps, p, u, |ps|)
    ensures Bounds(ps, p, q) <==> !Stuck(ps, p, u)
  {
    hide Height, Progress, Orient, Off, Ahead, Behind, Wide;
    forall x: nat | Off(ps, p, u, x) || Ahead(ps, p, u, x) ensures x < |ps| {
      OffAheadAt(ps, p, u, x);
    }
    if a: nat :| Ahead(ps, p, u, a) {
      Seen(ps, p, u, a, q);
      assert !Bounds(ps, p, q);
    } else {
      assert Bounds(ps, p, q);
    }
  }

  lemma {:induction false} OffAheadAt(ps: seq<Point>, p: nat, u: Point, x: nat)
    requires p < |ps| && (Off(ps, p, u, x) || Ahead(ps, p, u, x))
    ensures x < |ps|
  {}

  /** The choice is a hull edge exactly if the search is not stuck. */
  lemma {:induction false} SearchExact(ps: seq<Point>, p: nat, u: Point, off: nat)
    requires Wide(ps, p, u) && NoTwin(ps, p) && Off(ps, p, u, off) && |ps| >= 2
    ensures var q := Chosen(ps, p, |ps|);
      q != p && !Behind(ps, p, u, q) && (Bounds(ps, p, q) <==> !Stuck(ps, p, u))
  {
    hide Off, Phase, Wide, NoTwin, Chosen, Orient;
    WideAt(ps, p, u);
    ChosenPhase(ps, p, u, |ps|);
    PhaseParts(ps, p, u, Chosen(ps, p, |ps|), |ps|);
    LastPhase(ps, p, u, Chosen(ps, p, |ps|), off);
  }

  lemma {:induction false} WideAt(ps: seq<Point>, p: nat, u: Point)
    requires Wide(ps, p, u)
    ensures p < |ps|
  {}

  lemma {:induction false} PhaseParts(ps: seq<Point>, p: nat, u: Point, q: nat, i: nat)
    requires p < |ps| && Phase(ps, p, u, q, i)
    ensures q != p && q < |ps|
  {}

  lemma {:induction false} ChosenPhase(ps: seq<Point>, p: nat, u: Point, i: nat)
    requires Wide(ps, p, u) && NoTwin(ps, p) && FirstOther(p) < i <= |ps|
    ensures p < |ps| && Phase(ps, p, u, Chosen(ps, p, i), i)
  {
    hide Phase, Wide, NoTwin, Orient, Chosen;
    WideAt(ps, p, u);
    var t: nat := i - 1;
    ChosenNext(ps, p, i);
    if t == FirstOther(p) {
      if p == 0 { ChosenNext(ps, p, t); }
      FirstPhase(ps, p, u, t);
    } else {
      ChosenPhase(ps, p, u, t);
      PhaseParts(ps, p, u, Chosen(ps, p, t), t);
      if t == p {
        PhaseSkips(ps, p, u, Chosen(ps, p, t));
      } else {
        PhaseNext(ps, p, u, Chosen(ps, p, t), t);
      }
    }
  }

  // ---------------------------------------------------------------------------------------
  // The walk from search to search

  function Walk(ps: seq<Point>, start: nat, k: nat): (p: nat)
    requires start < |ps|
    ensures p < |ps|
  {
    if k == 0 then start else Chosen(ps, Walk(ps, start, k - 1), |ps|)
  }

  /** The direction in which the walk arrives. */
  function Heading(ps: seq<Point>, start: nat, k: nat): Point
    requires start < |ps|
  {
    if k == 0 then Point(0.0, -1.0) else Edge(ps[Walk(ps, start, k - 1)], ps[Walk(ps, start, k)])
  }

  function Edge(o: Point, p: Point): Point {
    Point(p.x - o.x, p.y - o.y)
  }

  ghost predicate StuckAt(ps: seq<Point>, start: nat, k: nat)
    requires start < |ps|
  {
    Stuck(ps, Walk(ps, start, k), Heading(ps, start, k))
  }

  ghost predicate EdgeAt(ps: seq<Point>, start: nat, k: nat)
    requires start < |ps|
  {
    Bounds(ps, Walk(ps, start, k), Walk(ps, start, k + 1))
  }

  /** After n steps along edges of the hull the walk is back. */
  ghost predicate GoesAround(ps: seq<Point>, start: nat, n: nat)
    requires start < |ps|
  {
    n > 0 && Walk(ps, start, n) == start && forall k: nat | k < n :: EdgeAt(ps, start, k)
  }

  lemma {:induction false} LeftmostIsWide(ps: seq<Point>, p: nat)
    requires Leftmost(ps, p)
    ensures Wide(ps, p, Point(0.0, -1.0))
  {}

  /** The half plane of the edge that led to p. */
  lemma {:induction false} EdgeIsWide(ps: seq<Point>, o: nat, p: nat)
    requires Bounds(ps, o, p)
    ensures Wide(ps, p, Edge(ps[o], ps[p]))
  {
    hide Det, Orient;
    forall x | 0 <= x < |ps| ensures Height(Edge(ps[o], ps[p]), ps[p], ps[x]) >= 0.0 {
      ShiftOrient(ps[o], ps[p], ps[x]);
    }
  }

  lemma {:induction false} NoneOffTheLine(ps: seq<Point>, p: nat, u: Point)
    requires Wide(ps, p, u) && NoTwin(ps, p) && |ps| >= 2 && forall x: nat :: !Off(ps, p, u, x)
    ensures OnOneLine(ps)
  {
    hide Det, Orient, Dot;
    var a := FirstOther(p);
    assert ps[a] != ps[p] && !Off(ps, p, u, a);
    forall x: nat | x < |ps| ensures Orient(ps[p], ps[a], ps[x]) == 0.0 == Orient(ps[a], ps[p], ps[x]) {
      assert !Off(ps, p, u, x);
      Parallel(ps[p], ps[a], ps[x], u.x, u.y);
      OrientSwap(ps[p], ps[a], ps[x]);
    }
    assert Bounds(ps, p, a) && Bounds(ps, a, p);
  }

  /** Unless all entries are on one line, some entry lies off the line through p. */
  lemma {:induction false} SomeOff(ps: seq<Point>, p: nat, u: Point) returns (off: nat)
    requires Wide(ps, p, u) && NoTwin(ps, p) && |ps| >= 2 && !OnOneLine(ps)
    ensures Off(ps, p, u, off)
  {
    hide Off, OnOneLine;
    if forall x: nat :: !Off(ps, p, u, x) { NoneOffTheLine(ps, p, u); }
    off :| Off(ps, p, u, off);
  }

  /** On the outline, the next step is along an edge of the hull exactly if the search is not stuck. */
  lemma {:induction false} StepExact(ps: seq<Point>, start: nat, k: nat)
    requires FirstLeft(ps, start) && NoTwins(ps) && !OnOneLine(ps) && |ps| >= 2
    requires k == 0 || EdgeAt(ps, start, k - 1)
    ensures EdgeAt(ps, start, k) <==> !StuckAt(ps, start, k)
  {
    hide OnOneLine, Stuck, Wide, NoTwin, Chosen;
    var p := Walk(ps, start, k);
    if k == 0 {
      LeftmostIsWide(ps, p);
    } else {
      EdgeIsWide(ps, Walk(ps, start, k - 1), p);
    }
    var off := SomeOff(ps, p, Heading(ps, start, k));
    hide Bounds;
    SearchExact(ps, p, Heading(ps, start, k), off);
  }

  lemma {:induction false} EdgesAll(ps: seq<Point>, start: nat, k: nat)
    requires FirstLeft(ps, start) && NoTwins(ps) && !OnOneLine(ps) && |ps| >= 2
    requires forall j: nat :: !StuckAt(ps, start, j)
    ensures EdgeAt(ps, start, k)
  {
    hide OnOneLine, NoTwins, FirstLeft, StuckAt, EdgeAt;
    FirstAt(ps, start);
    if k > 0 { EdgesAll(ps, start, k - 1); }
    StepExact(ps, start, k);
  }

  lemma {:induction false} FirstAt(ps: seq<Point>, start: nat)
    requires FirstLeft(ps, start)
    ensures start < |ps|
  {}

  // ---------------------------------------------------------------------------------------
  // The walk goes to the right below the points, then to the left above them

  predicate Before(a: Point, b: Point) {
    a.x < b.x || (a.x == b.x && a.y > b.y)
  }

  predicate Rightward(v0: real, v1: real) {
    v0 > 0.0 || (v0 == 0.0 && v1 < 0.0)
  }

  lemma {:induction false} HalfTurn(a0: real, a1: real, b0: real, b1: real, d0: real, d1: real)
    requires Rightward(a0, a1) && Rightward(b0, b1) && Rightward(d0, d1)
    requires Det(a0, a1, b0, b1) >= 0.0 && Det(a0, a1, d0, d1) <= 0.0 && Det(b0, b1, d0, d1) >= 0.0
    ensures Det(a0, a1, b0, b1) == 0.0
  {
    Pluecker(0.0, -1.0, a0, a1, b0, b1, d0, d1);
    DetDown(a0, a1);
    DetDown(b0, b1);
    DetDown(d0, d1);
    DetZeroSide(a0, a1, b0, b1);
    DetZeroSide(b0, b1, d0, d1);
    hide Det;
    ProductOf(a0, Det(b0, b1, d0, d1));
    ProductOf(b0, Det(a0, a1, d0, d1));
    ProductOf(d0, Det(a0, a1, b0, b1));
  }

  lemma {:induction false} DetDown(v0: real, v1: real)
    ensures Det(0.0, -1.0, v0, v1) == v0
  {}

  /** Nothing is further right than straight down. */
  lemma {:induction false} DetZeroSide(a0: real, a1: real, b0: real, b1: real)
    requires Rightward(a0, a1) && Rightward(b0, b1)
    ensures b0 == 0.0 ==> Det(a0, a1, b0, b1) <= 0.0
    ensures b0 == 0.0 && a0 > 0.0 ==> Det(a0, a1, b0, b1) < 0.0
    ensures a0 == 0.0 && b0 > 0.0 ==> Det(a0, a1, b0, b1) > 0.0
  {
    ProductOf(a0, b1);
    ProductOf(b0, a1);
  }

  lemma {:induction false} SameWay(a0: real, a1: real, b0: real, b1: real)
    requires Rightward(a0, a1) && Rightward(b0, b1) && Det(a0, a1, b0, b1) == 0.0
    ensures Dot(a0, a1, b0, b1) > 0.0
  {
    DetZeroSide(a0, a1, b0, b1);
    ProductOf(a0, b0);
    ProductOf(a1, b1);
    if a0 > 0.0 {
      assert b1 * a0 == a1 * b0;
      ProductOf(b0, a1);
      ProductOf(a0, b1);
    }
  }

  lemma {:induction false} BeforeIsRightward(a: Point, b: Point)
    ensures Before(a, b) <==> Rightward(b.x - a.x, b.y - a.y)
    ensures a == b || Before(a, b) || Before(b, a)
    ensures !(Before(a, b) && Before(b, a))
  {}

  /** Entries on one line: seen from p the directions to o and q are parallel. */
  lemma {:induction false} NoSpread(ps: seq<Point>, o: nat, p: nat, q: nat)
    requires o < |ps| && p < |ps| && q < |ps| && ps[o] != ps[p] && ps[q] != ps[p] && Orient(ps[p], ps[q], ps[o]) == 0.0
    requires forall x | 0 <= x < |ps| :: Orient(ps[p], ps[q], ps[x]) >= 0.0 || Orient(ps[p], ps[q], ps[x]) <= 0.0
    requires var s := Progress(Edge(ps[p], ps[q]), ps[p], ps[o]);
      forall x | 0 <= x < |ps| ::
        var a, b := Orient(ps[p], ps[q], ps[x]), Orient(ps[p], ps[o], ps[x]);
        (s > 0.0 && a >= 0.0 && b <= 0.0) || (s < 0.0 && a <= 0.0 && b <= 0.0)
    ensures OnOneLine(ps)
  {
    hide Det, Dot, Orient;
    var u := Edge(ps[p], ps[q]);
    forall x | 0 <= x < |ps| ensures Orient(ps[p], ps[o], ps[x]) == 0.0 == Orient(ps[o], ps[p], ps[x]) {
      EdgeHeight(ps[p], ps[q], ps[x]);
      EdgeHeight(ps[p], ps[q], ps[o]);
      Parallel(ps[p], ps[o], ps[x], u.x, u.y);
      OrientSwap(ps[p], ps[o], ps[x]);
    }
    assert Bounds(ps, p, o) && Bounds(ps, o, p);
  }

  lemma {:induction false} EdgeHeight(p: Point, q: Point, x: Point)
    ensures Height(Edge(p, q), p, x) == Orient(p, q, x)
  {}

  /** The walk turns back to the right only at the top of the left side. */
  lemma {:induction false} TurnsOnce(ps: seq<Point>, o: nat, p: nat, q: nat)
    requires Bounds(ps, o, p) && Bounds(ps, p, q) && !OnOneLine(ps)
    requires Before(ps[p], ps[o]) && Before(ps[p], ps[q])
    ensures forall t | 0 <= t < |ps| :: !Before(ps[t], ps[p])
  {
    hide Det, Dot, Orient, OnOneLine, Before;
    forall t: nat | t < |ps| ensures !Before(ps[t], ps[p]) {
      if Before(ps[t], ps[p]) {
        TurnIsFlat(ps[o], ps[p], ps[q], ps[t]);
        forall x | 0 <= x < |ps| ensures Orient(ps[p], ps[q], ps[x]) >= 0.0 && Orient(ps[p], ps[o], ps[x]) <= 0.0 {
          OrientSwap(ps[p], ps[o], ps[x]);
        }
        NoSpread(ps, o, p, q);
      }
    }
  }

  lemma {:induction false} TurnIsFlat(o: Point, p: Point, q: Point, t: Point)
    requires Before(p, o) && Before(p, q) && Before(t, p)
    requires Orient(p, q, o) >= 0.0 && Orient(p, q, t) >= 0.0 && Orient(o, p, t) >= 0.0
    ensures Orient(p, q, o) == 0.0 && Progress(Edge(p, q), p, o) > 0.0
  {
    BeforeIsRightward(p, o);
    BeforeIsRightward(p, q);
    BeforeIsRightward(t, p);
    hide Before, Rightward;
    var a, b, d := Edge(p, q), Edge(p, o), Edge(t, p);
    assert Orient(p, q, t) == -Det(a.x, a.y, d.x, d.y);
    assert Orient(o, p, t) == Det(b.x, b.y, d.x, d.y) by { OrientSwap(p, o, t); }
    HalfTurn(a.x, a.y, b.x, b.y, d.x, d.y);
    SameWay(a.x, a.y, b.x, b.y);
  }

  /** No entry is reached both from the left and from the right. */
  lemma {:induction false} OneSide(ps: seq<Point>, o: nat, o': nat, p: nat)
    requires Bounds(ps, o, p) && Bounds(ps, o', p) && !OnOneLine(ps)
    ensures !(Before(ps[o], ps[p]) && Before(ps[p], ps[o']))
  {
    hide Det, Dot, Orient, OnOneLine, Before;
    if Before(ps[o], ps[p]) && Before(ps[p], ps[o']) {
      OppositeWays(ps[o], ps[o'], ps[p]);
      forall x | 0 <= x < |ps| ensures Orient(ps[p], ps[o'], ps[x]) <= 0.0 && Orient(ps[p], ps[o], ps[x]) <= 0.0 {
        OrientSwap(ps[p], ps[o], ps[x]);
        OrientSwap(ps[p], ps[o'], ps[x]);
      }
      NoSpread(ps, o, p, o');
    }
  }

  lemma {:induction false} OppositeWays(o: Point, o': Point, p: Point)
    requires Before(o, p) && Before(p, o') && Orient(o, p, o') >= 0.0 && Orient(o', p, o) >= 0.0
    ensures Orient(p, o', o) == 0.0 && Progress(Edge(p, o'), p, o) < 0.0
  {
    OrientSwap(p, o, o');
    OrientSwap(p, o', o);
    BeforeIsRightward(o, p);
    BeforeIsRightward(p, o');
    hide Before, Rightward;
    var a, d := Edge(p, o'), Edge(o, p);
    assert Orient(p, o', o) == -Det(a.x, a.y, d.x, d.y);
    SameWay(a.x, a.y, d.x, d.y);
    assert Progress(a, p, o) == -Dot(a.x, a.y, d.x, d.y);
  }

  /** From the top of the left side the search finds the start. */
  lemma {:induction false} BackToStart(ps: seq<Point>, p: nat, start: nat, i: nat)
    requires FirstLeft(ps, start) && p < |ps| && i <= |ps|
    requires ps[p] != ps[start] && forall t | 0 <= t < |ps| :: !Before(ps[t], ps[p])
    ensures i <= start ==> if i == 0 then Chosen(ps, p, i) == p else Chosen(ps, p, i) < start
    ensures i > start ==> Chosen(ps, p, i) == start
  {
    hide Orient, Chosen;
    assert !Before(ps[start], ps[p]);
    assert ps[start].x == ps[p].x && ps[start].y < ps[p].y && start < p;
    ChosenNext(ps, p, if i == 0 then 1 else i);
    if i > 0 {
      BackToStart(ps, p, start, i - 1);
      var q := Chosen(ps, p, i - 1);
      if i - 1 == start && q != p {
        LeftSide(ps[p], ps[start], ps[q]);
      } else if i - 1 > start {
        LeftSide(ps[p], ps[start], ps[i - 1]);
      }
    }
  }

  lemma {:induction false} LeftSide(p: Point, s: Point, x: Point)
    requires p.x == s.x <= x.x && s.y < p.y
    ensures Orient(p, s, x) >= 0.0 && (s.x < x.x ==> Orient(p, x, s) < 0.0)
  {
    OrientSwap(p, s, x);
    DetDownward(s.y - p.y, x.x - p.x, x.y - p.y);
    hide Det;
  }

  lemma {:induction false} DetDownward(d: real, v0: real, v1: real)
    requires d < 0.0
    ensures v0 > 0.0 ==> Det(0.0, d, v0, v1) > 0.0
    ensures v0 == 0.0 ==> Det(0.0, d, v0, v1) == 0.0
  {
    ProductOf(d, v0);
  }

  ghost function Beyond(ps: seq<Point>, p: nat, up: bool): set<nat>
    requires p < |ps|
  {
    set t: nat | t < |ps| && if up then Before(ps[t], ps[p]) else Before(ps[p], ps[t])
  }

  /** The walk comes back. */
  lemma {:induction false} Returns(ps: seq<Point>, start: nat, k: nat, up: bool) returns (n: nat)
    requires FirstLeft(ps, start) && NoTwins(ps) && !OnOneLine(ps) && forall j: nat :: EdgeAt(ps, start, j)
    requires k > 0 ==> Walk(ps, start, k) != start
    requires up ==> k > 0 && Before(ps[Walk(ps, start, k)], ps[Walk(ps, start, k - 1)])
    ensures GoesAround(ps, start, n)
    decreases !up, Beyond(ps, Walk(ps, start, k), up)
  {
    hide Orient, OnOneLine, Chosen;
    var p, q := Walk(ps, start, k), Walk(ps, start, k + 1);
    assert EdgeAt(ps, start, k);
    if q == start {
      n := k + 1;
    } else {
      BeforeIsRightward(ps[p], ps[q]);
      if up {
        assert EdgeAt(ps, start, k - 1);
        if Before(ps[p], ps[q]) {
          TurnsOnce(ps, Walk(ps, start, k - 1), p, q);
          BackToStart(ps, p, start, |ps|);
        }
      }
      var up' := Before(ps[q], ps[p]);
      if up == up' { Closer(ps, p, q, up); }
      n := Returns(ps, start, k + 1, up');
    }
  }

  lemma {:induction false} Closer(ps: seq<Point>, p: nat, q: nat, up: bool)
    requires p < |ps| && q < |ps| && if up then Before(ps[q], ps[p]) else Before(ps[p], ps[q])
    ensures Beyond(ps, q, up) < Beyond(ps, p, up)
  {
    assert q in Beyond(ps, p, up) && q !in Beyond(ps, q, up);
  }

  // ---------------------------------------------------------------------------------------
  // Two bounding edges in line

  lemma {:induction false} ParallelSeen(p: Point, a: Point, x: Point, u: Point)
    requires u != Point(0.0, 0.0) && a != p && Height(u, p, a) == 0.0
    ensures var s, o, d := Progress(u, p, a), Orient(p, a, x), Height(u, p, x);
      && s != 0.0
      && (s > 0.0 ==> (o > 0.0 <==> d > 0.0) && (o < 0.0 <==> d < 0.0))
      && (s < 0.0 ==> (o > 0.0 <==> d < 0.0) && (o < 0.0 <==> d > 0.0))
  {
    hide Det, Dot, Orient;
    Parallel(p, a, x, u.x, u.y);
  }

  lemma {:induction false} NotBackward(ps: seq<Point>, o: nat, p: nat, q: nat)
    requires Bounds(ps, o, p) && Bounds(ps, p, q) && !OnOneLine(ps) && Orient(ps[o], ps[p], ps[q]) == 0.0
    ensures Progress(Edge(ps[o], ps[p]), ps[p], ps[q]) > 0.0
  {
    hide Det, Dot, Orient, Height, Progress, OnOneLine;
    var u := Edge(ps[o], ps[p]);
    ShiftHeight(ps[o], ps[p], ps[q]);
    ParallelSeen(ps[p], ps[q], ps[p], u);
    if Progress(u, ps[p], ps[q]) < 0.0 { BackwardIsFlat(ps, o, p, q); }
  }

  lemma {:induction false} BackwardIsFlat(ps: seq<Point>, o: nat, p: nat, q: nat)
    requires Bounds(ps, o, p) && Bounds(ps, p, q) && Orient(ps[o], ps[p], ps[q]) == 0.0
    requires Progress(Edge(ps[o], ps[p]), ps[p], ps[q]) < 0.0
    ensures OnOneLine(ps)
  {
    hide Det, Dot, Orient, Height, Progress;
    var u := Edge(ps[o], ps[p]);
    ShiftHeight(ps[o], ps[p], ps[q]);
    forall x | 0 <= x < |ps| ensures Orient(ps[p], ps[o], ps[x]) >= 0.0 {
      ShiftHeight(ps[o], ps[p], ps[x]);
      ParallelSeen(ps[p], ps[q], ps[x], u);
      OrientSwap(ps[o], ps[p], ps[x]);
    }
    assert Bounds(ps, p, o);
  }

  lemma {:induction false} ShiftHeight(o: Point, p: Point, x: Point)
    ensures Height(Edge(o, p), p, x) == Orient(o, p, x)
  {
    hide Det, Orient;
    ShiftOrient(o, p, x);
  }

  lemma {:induction false} OrientTurn(a: Point, b: Point, c: Point)
    ensures Orient(a, b, c) == Orient(b, c, a)
  {}

  /** If the entries on the outline differ and not all entries are on one line, the walk goes around the hull exactly
      if no search on the way is stuck. */
  lemma {:induction false} NeverStuckAround(ps: seq<Point>, start: nat)
    requires FirstLeft(ps, start) && NoTwins(ps) && !OnOneLine(ps) && |ps| >= 2
    ensures (exists n: nat :: GoesAround(ps, start, n)) <==> forall k: nat :: !StuckAt(ps, start, k)
  {
    hide OnOneLine, NoTwins, StuckAt, EdgeAt;
    if n: nat :| GoesAround(ps, start, n) {
      forall k: nat ensures !StuckAt(ps, start, k) {
        AroundAgain(ps, start, n, k);
        if k > 0 { AroundAgain(ps, start, n, k - 1); }
        StepExact(ps, start, k);
      }
    }
    if forall k: nat :: !StuckAt(ps, start, k) {
      forall k: nat ensures EdgeAt(ps, start, k) {
        EdgesAll(ps, start, k);
      }
      var n := Returns(ps, start, 0, false);
    }
  }

  lemma {:induction false} AroundAgain(ps: seq<Point>, start: nat, n: nat, k: nat)
    requires start < |ps| && GoesAround(ps, start, n)
    ensures EdgeAt(ps, start, k)
    decreases k
  {
    hide Bounds;
    if k >= n {
      AroundAgain(ps, start, n, k - n);
      SamePlace(ps, start, n, k - n);
      SamePlace(ps, start, n, k + 1 - n);
    }
  }

  lemma {:induction false} SamePlace(ps: seq<Point>, start: nat, n: nat, j: nat)
    requires start < |ps| && Walk(ps, start, n) == start
    ensures Walk(ps, start, n + j) == Walk(ps, start, j)
  {
    if j > 0 { SamePlace(ps, start, n, j - 1); }
  }
}
