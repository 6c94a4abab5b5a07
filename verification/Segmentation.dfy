/** Labelling of pixel components in the thresholded image, row by row or in parallel chunks
    that are stitched afterwards (Robot/apriltags/apriltag_quad_thresh.c). */
module Segmentation {
  import opened Arithmetic
  import opened FiniteSets
  import opened UnionFind

  /** The thresholded image: 0, 255, or 127 where there is no contrast. */
  datatype Image = Image(w: nat, h: nat, stride: nat, buf: seq<int>)

  datatype Pixel = Pixel(x: nat, y: nat)

  ghost predicate ValidImage(im: Image) {
    im.stride >= im.w && |im.buf| >= im.stride * im.h
  }

  predicate Inside(im: Image, p: Pixel) {
    p.x < im.w && p.y < im.h
  }

  lemma {:induction false} RowMajorBounds(x: nat, y: nat, w: nat, h: nat)
    requires x < w && y < h
    ensures y * w + x < w * h
  {
    assert y * w <= (h - 1) * w;
    assert (h - 1) * w + w == w * h;
  }

  /** Rows are stride entries apart. */
  function At(im: Image, p: Pixel): (v: int)
    requires ValidImage(im) && Inside(im, p)
    ensures var k := p.y * im.stride + p.x; k < |im.buf| && v == im.buf[k]
  {
    RowMajorBounds(p.x, p.y, im.stride, im.h);
    im.buf[p.y * im.stride + p.x]
  }

  /** Index of a pixel in the union-find table. */
  function Id(im: Image, p: Pixel): (id: nat)
    requires Inside(im, p)
    ensures id < im.w * im.h
  {
    RowMajorBounds(p.x, p.y, im.w, im.h);
    p.y * im.w + p.x
  }

  lemma {:induction false} IdSplits(im: Image, p: Pixel)
    requires Inside(im, p)
    ensures Id(im, p) / im.w == p.y && Id(im, p) % im.w == p.x
  {
    var w, y, x := im.w, p.y, p.x;
    var q, r := (y * w + x) / w, (y * w + x) % w;
    assert q * w + r == y * w + x;
    DivUnique(w, q, r, y, x);
  }

  function PixelOf(im: Image, id: nat): (p: Pixel)
    requires id < im.w * im.h
    ensures Inside(im, p) && Id(im, p) == id
  {
    assert im.w > 0;
    var y, x := id / im.w, id % im.w;
    assert y * im.w + x == id;
    RowBelow(im.w, im.h, y, id);
    Pixel(x, y)
  }

  lemma {:induction false} RowBelow(w: nat, h: nat, y: nat, id: nat)
    requires w > 0 && id < w * h && y * w <= id
    ensures y < h
  {
    MulLe(h, y, w);
  }

  // ---------------------------------------------------------------------------------------
  // The neighbour graph

  /** The scan at p looks right and, one row down, straight and (for white) diagonally. It
      starts neither in the first or last column nor in the last row. */
  function Target(p: Pixel, k: nat): Pixel
    requires p.x >= 1 && k < 4
  {
    match k
    case 0 => Pixel(p.x + 1, p.y)
    case 1 => Pixel(p.x, p.y + 1)
    case 2 => Pixel(p.x - 1, p.y + 1)
    case _ => Pixel(p.x + 1, p.y + 1)
  }

  predicate Scans(im: Image, p: Pixel) {
    1 <= p.x && p.x + 1 < im.w && p.y + 1 < im.h
  }

  predicate Joins(im: Image, p: Pixel, k: nat)
    requires ValidImage(im)
  {
    Scans(im, p) && k < 4 && At(im, p) != 127 && At(im, Target(p, k)) == At(im, p) && (k >= 2 ==> At(im, p) == 255)
  }

  /** Same colour, and next to each other: four neighbours for black, eight for white. One of
      the two, the upper one or in a row the left one, must be a scanned pixel. */
  ghost predicate Neighbours(im: Image, p: Pixel, q: Pixel)
    requires ValidImage(im)
  {
    && Inside(im, p) && Inside(im, q) && At(im, p) == At(im, q) != 127
    && -1 <= p.x - q.x <= 1 && -1 <= p.y - q.y <= 1 && p != q
    && (p.x == q.x || p.y == q.y || At(im, p) == 255)
    && Scans(im, if p.y < q.y || (p.y == q.y && p.x < q.x) then p else q)
  }

  ghost predicate PixelPath(im: Image, ps: seq<Pixel>)
    requires ValidImage(im)
  {
    |ps| > 0 && Inside(im, ps[0]) && forall i {:trigger ps[i]} | 0 < i < |ps| :: Neighbours(im, ps[i-1], ps[i])
  }

  /** p and q lie in the same connected component of the neighbour graph. */
  ghost predicate SameComponent(im: Image, p: Pixel, q: Pixel)
    requires ValidImage(im)
  {
    exists ps :: PixelPath(im, ps) && ps[0] == p && ps[|ps| - 1] == q
  }

  function Edge(im: Image, p: Pixel, k: nat): (nat, nat)
    requires Scans(im, p) && k < 4
  {
    (Id(im, p), Id(im, Target(p, k)))
  }

  /** The pairs that scanning the given rows connects. */
  ghost function Edges(im: Image, rows: set<nat>): set<(nat, nat)>
    requires ValidImage(im)
  {
    set x: nat, y: nat, k: nat | y in rows && x < im.w && k < 4 && Joins(im, Pixel(x, y), k) :: Edge(im, Pixel(x, y), k)
  }

  lemma {:induction false} EdgesInTable(im: Image, rows: set<nat>)
    requires ValidImage(im)
    ensures InTable(Edges(im, rows), im.w * im.h)
  {}

  lemma {:induction false} EdgesUnion(im: Image, rows: set<nat>, more: set<nat>)
    requires ValidImage(im)
    ensures Edges(im, rows + more) == Edges(im, rows) + Edges(im, more)
  {}

  lemma {:induction false} EdgeJoinsNeighbours(im: Image, rows: set<nat>, a: nat, b: nat)
    requires ValidImage(im) && (a, b) in Edges(im, rows)
    ensures a < im.w * im.h && b < im.w * im.h && Neighbours(im, PixelOf(im, a), PixelOf(im, b))
    ensures PixelOf(im, a).y in rows && PixelOf(im, a).y <= PixelOf(im, b).y <= PixelOf(im, a).y + 1
  {
    var x: nat, y: nat, k: nat :| y in rows && x < im.w && k < 4 && Joins(im, Pixel(x, y), k) &&
      (a, b) == Edge(im, Pixel(x, y), k);
    IdInjective(im, Pixel(x, y), PixelOf(im, a));
    IdInjective(im, Target(Pixel(x, y), k), PixelOf(im, b));
  }

  lemma {:induction false} IdInjective(im: Image, p: Pixel, q: Pixel)
    requires Inside(im, p) && Inside(im, q) && Id(im, p) == Id(im, q)
    ensures p == q
  {
    IdSplits(im, p);
    IdSplits(im, q);
  }

  function AllRows(h: nat): set<nat> {
    if h == 0 then {} else Below(h - 1)
  }

  lemma {:induction false} NeighboursAreEdges(im: Image, p: Pixel, q: Pixel)
    requires ValidImage(im) && Neighbours(im, p, q)
    ensures Step(Edges(im, AllRows(im.h)), Id(im, p), Id(im, q))
  {
    var above := p.y < q.y || (p.y == q.y && p.x < q.x);
    var up, down := if above then p else q, if above then q else p;
    var k := if down.y == up.y then 0 else if down.x == up.x then 1 else if down.x < up.x then 2 else 3;
    assert down == Target(up, k) && Joins(im, up, k);
    assert Edge(im, Pixel(up.x, up.y), k) in Edges(im, AllRows(im.h));
  }

  lemma {:induction false} ComponentFromPath(im: Image, p: seq<nat>)
    requires ValidImage(im) && Path(Edges(im, AllRows(im.h)), p) && p[0] < im.w * im.h
    ensures p[|p| - 1] < im.w * im.h
    ensures SameComponent(im, PixelOf(im, p[0]), PixelOf(im, p[|p| - 1]))
  {
    var e := Edges(im, AllRows(im.h));
    EdgesInTable(im, AllRows(im.h));
    forall i | 0 <= i < |p| ensures p[i] < im.w * im.h {
      if i > 0 { assert Step(e, p[i-1], p[i]); }
    }
    var ps := seq(|p|, i requires 0 <= i < |p| => PixelOf(im, p[i]));
    forall i | 0 < i < |ps| ensures Neighbours(im, ps[i-1], ps[i]) {
      assert Step(e, p[i-1], p[i]);
      if (p[i-1], p[i]) in e {
        EdgeJoinsNeighbours(im, AllRows(im.h), p[i-1], p[i]);
      } else {
        EdgeJoinsNeighbours(im, AllRows(im.h), p[i], p[i-1]);
      }
    }
    assert PixelPath(im, ps);
  }

  lemma {:induction false} PathFromComponent(im: Image, ps: seq<Pixel>)
    requires ValidImage(im) && PixelPath(im, ps)
    ensures Inside(im, ps[|ps| - 1])
    ensures Related(Edges(im, AllRows(im.h)), Id(im, ps[0]), Id(im, ps[|ps| - 1]))
  {
    forall i | 0 <= i < |ps| ensures Inside(im, ps[i]) {
      if i > 0 { assert Neighbours(im, ps[i-1], ps[i]); }
    }
    var p := seq(|ps|, i requires 0 <= i < |ps| => Id(im, ps[i]));
    forall i | 0 < i < |p| ensures Step(Edges(im, AllRows(im.h)), p[i-1], p[i]) {
      NeighboursAreEdges(im, ps[i-1], ps[i]);
    }
    assert PathFrom(Edges(im, AllRows(im.h)), p, Id(im, ps[0]), Id(im, ps[|ps| - 1]));
  }

  /** Scanning every row relates two pixels exactly when they share a component. */
  lemma {:induction false} ScanFindsComponents(im: Image, p: Pixel, q: Pixel)
    requires ValidImage(im) && Inside(im, p) && Inside(im, q)
    ensures Related(Edges(im, AllRows(im.h)), Id(im, p), Id(im, q)) <==> SameComponent(im, p, q)
  {
    var e := Edges(im, AllRows(im.h));
    if Related(e, Id(im, p), Id(im, q)) {
      var path :| PathFrom(e, path, Id(im, p), Id(im, q));
      ComponentFromPath(im, path);
      IdInjective(im, p, PixelOf(im, Id(im, p)));
      IdInjective(im, q, PixelOf(im, Id(im, q)));
    }
    if SameComponent(im, p, q) {
      var ps :| PixelPath(im, ps) && ps[0] == p && ps[|ps| - 1] == q;
      PathFromComponent(im, ps);
    }
  }

  // ---------------------------------------------------------------------------------------
  // Scanning a row

  ghost function EdgesBefore(im: Image, y: nat, x0: nat): set<(nat, nat)>
    requires ValidImage(im)
  {
    set x: nat, k: nat | x < x0 && k < 4 && Joins(im, Pixel(x, y), k) :: Edge(im, Pixel(x, y), k)
  }

  ghost function EdgeIf(im: Image, p: Pixel, k: nat): set<(nat, nat)>
    requires ValidImage(im) && k < 4
  {
    if Joins(im, p, k) then {Edge(im, p, k)} else {}
  }

  lemma {:induction false} EdgesBeforeNext(im: Image, y: nat, x: nat)
    requires ValidImage(im)
    ensures var p := Pixel(x, y);
      EdgesBefore(im, y, x + 1)
      == EdgesBefore(im, y, x) + EdgeIf(im, p, 0) + EdgeIf(im, p, 1) + EdgeIf(im, p, 2) + EdgeIf(im, p, 3)
  {
    hide At, Target, Id;
    var p := Pixel(x, y);
    var l, r := EdgesBefore(im, y, x + 1),
      EdgesBefore(im, y, x) + EdgeIf(im, p, 0) + EdgeIf(im, p, 1) + EdgeIf(im, p, 2) + EdgeIf(im, p, 3);
    forall e | e in l ensures e in r {
      var x1: nat, k: nat :| x1 < x + 1 && k < 4 && Joins(im, Pixel(x1, y), k) && e == Edge(im, Pixel(x1, y), k);
      if x1 == x { assert e in EdgeIf(im, p, k); assert k == 0 || k == 1 || k == 2 || k == 3; }
    }
    forall e | e in r ensures e in l {
      if e !in EdgesBefore(im, y, x) {
        var k: nat :| k < 4 && e in EdgeIf(im, p, k);
        assert Joins(im, Pixel(x, y), k);
      }
    }
  }

  lemma {:induction false} RowEdges(im: Image, y: nat)
    requires ValidImage(im)
    ensures EdgesBefore(im, y, 0) == EdgesBefore(im, y, 1) == {}
    ensures EdgesBefore(im, y, if im.w >= 2 then im.w - 1 else 1) == Edges(im, {y})
  {}

  ghost predicate Ready(uf: Sets, im: Image)
    reads uf, uf.data
  {
    uf.Valid() && ValidImage(im) && uf.maxid == im.w * im.h
  }

  method ConnectIf(uf: Sets, im: Image, p: Pixel, k: nat)
    requires Ready(uf, im) && Scans(im, p) && k < 4 && At(im, p) != 127 && (k >= 2 ==> At(im, p) == 255)
    modifies uf`joined, uf.data
    ensures Ready(uf, im) && uf.joined == old(uf.joined) + EdgeIf(im, p, k)
  {
    hide Forest, Sized, Represents;
    var q := Target(p, k);
    if At(im, q) == At(im, p) {
      var _ := uf.Connect(Id(im, p), Id(im, q));
    }
  }

  method DoUnionfindLine(uf: Sets, im: Image, y: nat)
    requires Ready(uf, im) && y + 1 < im.h
    modifies uf`joined, uf.data
    ensures Ready(uf, im) && uf.joined == old(uf.joined) + Edges(im, {y})
  {
    hide Edges, EdgesBefore, EdgeIf, Forest, Sized, Represents;
    RowEdges(im, y);
    var x := 1;
    while x < im.w - 1
      invariant 1 <= x <= (if im.w >= 2 then im.w - 1 else 1)
      invariant Ready(uf, im)
      invariant uf.joined == old(uf.joined) + EdgesBefore(im, y, x)
    {
      var p := Pixel(x, y);
      var v := At(im, p);
      EdgesBeforeNext(im, y, x);
      if v != 127 {
        ConnectIf(uf, im, p, 0);
        ConnectIf(uf, im, p, 1);
        if v == 255 {
          ConnectIf(uf, im, p, 2);
          ConnectIf(uf, im, p, 3);
        } else {
          NoDiagonals(im, p);
        }
      } else {
        NoEdges(im, p);
      }
      x := x + 1;
    }
  }

  lemma {:induction false} NoDiagonals(im: Image, p: Pixel)
    requires ValidImage(im) && Inside(im, p) && At(im, p) != 255
    ensures EdgeIf(im, p, 2) == EdgeIf(im, p, 3) == {}
  {}

  lemma {:induction false} NoEdges(im: Image, p: Pixel)
    requires ValidImage(im) && Inside(im, p) && At(im, p) == 127
    ensures EdgeIf(im, p, 0) == EdgeIf(im, p, 1) == EdgeIf(im, p, 2) == EdgeIf(im, p, 3) == {}
  {}

  /** One thread: scan every row but the last, top to bottom. */
  method LabelSequential(im: Image) returns (uf: Sets)
    requires ValidImage(im) && im.h >= 1
    ensures Ready(uf, im) && fresh(uf) && fresh(uf.data)
    ensures LabelsComponents(im, uf.data[..])
  {
    hide Edges, LabelsComponents, Forest, Sized, Represents;
    uf := new Sets(im.w * im.h);
    NoRowsNoEdges(im);
    var y := 0;
    while y < im.h - 1
      invariant 0 <= y <= im.h - 1 && Ready(uf, im) && fresh(uf) && fresh(uf.data)
      invariant uf.joined == Edges(im, Below(y))
    {
      DoUnionfindLine(uf, im, y);
      EdgesUnion(im, Below(y), {y});
      y := y + 1;
    }
    ScanLabels(im, uf.data[..]);
  }

  /** Two pixels have the same label exactly when they share a component. */
  ghost predicate LabelsComponents(im: Image, d: seq<Rec>)
    requires ValidImage(im)
  {
    && |d| == im.w * im.h + 1 && Forest(d)
    && forall p, q | Inside(im, p) && Inside(im, q) :: Rep(d, Id(im, p)) == Rep(d, Id(im, q)) <==>
         SameComponent(im, p, q)
  }

  lemma {:induction false} ScanLabels(im: Image, d: seq<Rec>)
    requires ValidImage(im) && |d| == im.w * im.h + 1 && Forest(d) && Represents(d, Edges(im, AllRows(im.h)))
    ensures LabelsComponents(im, d)
  {
    hide Edges, Forest, SameComponent;
    forall p, q | Inside(im, p) && Inside(im, q)
      ensures Rep(d, Id(im, p)) == Rep(d, Id(im, q)) <==> SameComponent(im, p, q)
    {
      ScanFindsComponents(im, p, q);
    }
  }

  lemma {:induction false} NoRowsNoEdges(im: Image)
    requires ValidImage(im)
    ensures Edges(im, {}) == Edges(im, Below(0)) == {}
  {}

  // ---------------------------------------------------------------------------------------
  // Chunks

  /** The rows [y0, y1) one task scans. */
  datatype Task = Task(y0: nat, y1: nat)

  /** Rows scanned by the tasks: all but the last of each full chunk. */
  ghost function TaskRows(sz: nat, chunk: nat): set<nat>
    requires chunk > 0
  {
    set y | y in Below(sz) && y % chunk != chunk - 1
  }

  /** Rows scanned while stitching: the last of each chunk that is followed by another chunk. */
  ghost function StitchRows(sz: nat, chunk: nat): set<nat>
    requires chunk > 0
  {
    set y | y in Below(sz) && y + 1 < sz && y % chunk == chunk - 1
  }

  lemma {:induction false} NextRowSameChunk(y: nat, chunk: nat)
    requires chunk > 0 && y % chunk != chunk - 1
    ensures (y + 1) / chunk == y / chunk
  {
    var q, r := y / chunk, y % chunk;
    assert y + 1 == q * chunk + (r + 1);
    DivUnique(chunk, (y + 1) / chunk, (y + 1) % chunk, q, r + 1);
  }

  /** No row is scanned twice, and the rows scanned are all of them exactly when the chunk size
      does not divide their number; otherwise the last one is missed. */
  lemma {:induction false} RowsCovered(sz: nat, chunk: nat)
    requires chunk > 0 && sz > 0
    ensures TaskRows(sz, chunk) !! StitchRows(sz, chunk)
    ensures TaskRows(sz, chunk) + StitchRows(sz, chunk) == if sz % chunk != 0 then Below(sz) else Below(sz) - {sz - 1}
  {
    LastRowOfChunk(sz, chunk);
  }

  lemma {:induction false} LastRowOfChunk(sz: nat, chunk: nat)
    requires chunk > 0 && sz > 0
    ensures (sz - 1) % chunk == chunk - 1 <==> sz % chunk == 0
  {
    var q, r := (sz - 1) / chunk, (sz - 1) % chunk;
    if r == chunk - 1 {
      assert sz == (q + 1) * chunk + 0;
      DivUnique(chunk, sz / chunk, sz % chunk, q + 1, 0);
    } else {
      assert sz == q * chunk + (r + 1);
      DivUnique(chunk, sz / chunk, sz % chunk, q, r + 1);
    }
  }

  /** While the tasks run, related pixels lie in the same chunk. A lookup or a connect reads and
      writes only records related to its arguments, so tasks of different chunks never touch a
      common record, however they interleave. */
  lemma {:induction false} TasksTouchDisjointRows(im: Image, chunk: nat, pairs: set<(nat, nat)>, a: nat, b: nat)
    requires ValidImage(im) && chunk > 0 && im.h >= 1 && a < im.w * im.h
    requires pairs <= Edges(im, TaskRows(im.h - 1, chunk)) && Related(pairs, a, b)
    ensures b < im.w * im.h && PixelOf(im, a).y / chunk == PixelOf(im, b).y / chunk
  {
    var p :| PathFrom(pairs, p, a, b);
    PathStaysInChunk(im, chunk, pairs, p);
  }

  lemma {:induction false} PathStaysInChunk(im: Image, chunk: nat, pairs: set<(nat, nat)>, p: seq<nat>)
    requires ValidImage(im) && chunk > 0 && im.h >= 1
    requires pairs <= Edges(im, TaskRows(im.h - 1, chunk)) && Path(pairs, p) && p[0] < im.w * im.h
    ensures p[|p| - 1] < im.w * im.h && PixelOf(im, p[0]).y / chunk == PixelOf(im, p[|p| - 1]).y / chunk
    decreases |p|
  {
    if |p| > 1 {
      var front := p[..|p| - 1];
      assert Path(pairs, front) by {
        forall i | 0 < i < |front| ensures Step(pairs, front[i-1], front[i]) {
          assert front[i] == p[i] && front[i-1] == p[i-1];
        }
      }
      PathStaysInChunk(im, chunk, pairs, front);
      var u, v := p[|p| - 2], p[|p| - 1];
      assert Step(pairs, u, v);
      if (u, v) in pairs {
        EdgeStaysInChunk(im, chunk, u, v);
      } else {
        EdgeStaysInChunk(im, chunk, v, u);
      }
    }
  }

  lemma {:induction false} EdgeStaysInChunk(im: Image, chunk: nat, u: nat, v: nat)
    requires ValidImage(im) && chunk > 0 && im.h >= 1 && (u, v) in Edges(im, TaskRows(im.h - 1, chunk))
    ensures u < im.w * im.h && v < im.w * im.h && PixelOf(im, u).y / chunk == PixelOf(im, v).y / chunk
  {
    EdgeJoinsNeighbours(im, TaskRows(im.h - 1, chunk), u, v);
    NextRowSameChunk(PixelOf(im, u).y, chunk);
  }

  const TASKS_PER_THREAD_TARGET: nat := 10

  /** The least number of rows for which ten tasks per thread have more rows than there are. */
  ghost function ChunkSize(h: nat, nthreads: nat): (chunk: nat)
    requires h >= 1 && nthreads > 0
    ensures chunk > 0 && (chunk - 1) * (10 * nthreads) <= h - 1 < chunk * (10 * nthreads)
  {
    var t := 10 * nthreads;
    assert (h - 1) / t * t <= h - 1 < (h - 1) / t * t + t;
    assert (1 + (h - 1) / t) * t == (h - 1) / t * t + t;
    1 + (h - 1) / t
  }

  ghost predicate SamePartition(pairs: set<(nat, nat)>, other: set<(nat, nat)>, n: nat) {
    forall a: nat, b: nat | a < n && b < n :: Related(pairs, a, b) <==> Related(other, a, b)
  }

  ghost function ChunkedEdges(im: Image, chunk: nat): set<(nat, nat)>
    requires ValidImage(im) && im.h >= 1 && chunk > 0
  {
    Edges(im, TaskRows(im.h - 1, chunk) + StitchRows(im.h - 1, chunk))
  }

  ghost predicate ChunkingHarmless(w: nat, h: nat, chunk: nat)
    requires h >= 1 && chunk > 0
  {
    forall im: Image | ValidImage(im) && im.w == w && im.h == h ::
      SamePartition(Edges(im, AllRows(h)), ChunkedEdges(im, chunk), w * h)
  }

  /** Chunked labelling gives the sequential partition of every image exactly when the chunk size
      does not divide h - 1. (Images narrower than three pixels have no edges at all.) */
  lemma {:induction false} ChunkedMatchesSequential(w: nat, h: nat, chunk: nat)
    requires w >= 3 && h >= 2 && chunk > 0
    ensures ChunkingHarmless(w, h, chunk) <==> (h - 1) % chunk != 0
  {
    hide ChunkingHarmless, TaskRows, StitchRows;
    RowsCovered(h - 1, chunk);
    if (h - 1) % chunk == 0 {
      RowMissed(w, h, chunk);
    } else {
      RowsScanned(w, h, chunk);
    }
  }

  lemma {:induction false} RowsScanned(w: nat, h: nat, chunk: nat)
    requires h >= 1 && chunk > 0 && TaskRows(h - 1, chunk) + StitchRows(h - 1, chunk) == AllRows(h)
    ensures ChunkingHarmless(w, h, chunk)
  {
    hide Edges, TaskRows, StitchRows, Related;
  }

  lemma {:induction false} RowMissed(w: nat, h: nat, chunk: nat)
    requires w >= 3 && h >= 2 && chunk > 0 && h - 2 !in TaskRows(h - 1, chunk) + StitchRows(h - 1, chunk)
    ensures !ChunkingHarmless(w, h, chunk)
  {
    hide Edges, TaskRows, StitchRows, SamePartition;
    var im := LastRowImage(w, h);
    LastRowJoined(w, h);
    OtherRowsAreGrey(w, h, TaskRows(h - 1, chunk) + StitchRows(h - 1, chunk));
    hide LastRowImage;
    assert ValidImage(im) && im.w == w && im.h == h && ChunkedEdges(im, chunk) == {};
  }

  /** In the image with two black pixels in row h - 2 the pair of these is all there is. */
  lemma {:induction false} LastRowJoined(w: nat, h: nat)
    requires w >= 3 && h >= 2
    ensures !SamePartition(Edges(LastRowImage(w, h), AllRows(h)), {}, w * h)
  {
    hide Edges;
    var im := LastRowImage(w, h);
    var p, q := Pixel(1, h - 2), Pixel(2, h - 2);
    LastRowPixels(w, h, p);
    LastRowPixels(w, h, q);
    assert Neighbours(im, p, q);
    NeighboursAreEdges(im, p, q);
    hide Neighbours, LastRowImage, Related;
    RelatedStep(Edges(im, AllRows(h)), Id(im, p), Id(im, q));
    NothingRelated(Id(im, p), Id(im, q));
  }

  lemma {:induction false} NothingRelated(a: nat, b: nat)
    ensures Related({}, a, b) ==> a == b
  {
    if Related({}, a, b) {
      var path :| PathFrom({}, path, a, b);
      assert |path| > 1 ==> Step({}, path[0], path[1]);
    }
  }

  /** All grey except two black pixels side by side in row h - 2. */
  function LastRowImage(w: nat, h: nat): (im: Image)
    requires w >= 3 && h >= 2
    ensures ValidImage(im) && im.w == w && im.h == h
  {
    Image(w, h, w, seq(w * h, i => if i == (h - 2) * w + 1 || i == (h - 2) * w + 2 then 0 else 127))
  }

  lemma {:induction false} LastRowPixels(w: nat, h: nat, p: Pixel)
    requires w >= 3 && h >= 2 && p.x < w && p.y < h
    ensures At(LastRowImage(w, h), p) == if p.y == h - 2 && (p.x == 1 || p.x == 2) then 0 else 127
  {
    RowMajorBounds(p.x, p.y, w, h);
    var i := p.y * w + p.x;
    assert LastRowImage(w, h).buf[i] == if i == (h - 2) * w + 1 || i == (h - 2) * w + 2 then 0 else 127;
    if i == (h - 2) * w + 1 { DivUnique(w, p.y, p.x, h - 2, 1); }
    if i == (h - 2) * w + 2 { DivUnique(w, p.y, p.x, h - 2, 2); }
  }

  lemma {:induction false} OtherRowsAreGrey(w: nat, h: nat, rows: set<nat>)
    requires w >= 3 && h >= 2 && h - 2 !in rows
    ensures Edges(LastRowImage(w, h), rows) == {}
  {
    var im := LastRowImage(w, h);
    forall x: nat, y: nat, k: nat | y in rows && x < w && k < 4 ensures !Joins(im, Pixel(x, y), k) {
      if y < h { LastRowPixels(w, h, Pixel(x, y)); }
    }
  }

  /** Every table that the chunked program can end with labels the components, for every image of this size. */
  ghost predicate ChunkedFindsComponents(w: nat, h: nat, chunk: nat)
    requires h >= 1 && chunk > 0
  {
    forall im: Image, d: seq<Rec> | ValidImage(im) && im.w == w && im.h == h && ChunkedTable(im, chunk, d) ::
      LabelsComponents(im, d)
  }

  ghost predicate ChunkedTable(im: Image, chunk: nat, d: seq<Rec>)
    requires ValidImage(im) && im.h >= 1 && chunk > 0
  {
    |d| == im.w * im.h + 1 && Forest(d) && Represents(d, ChunkedEdges(im, chunk))
  }

  lemma {:induction false} ChunkedTableLabels(im: Image, chunk: nat, d: seq<Rec>)
    requires ValidImage(im) && im.h >= 1 && chunk > 0 && ChunkedTable(im, chunk, d)
    requires im.h == 1 || (im.h - 1) % chunk != 0
    ensures LabelsComponents(im, d)
  {
    hide LabelsComponents, Edges, Forest;
    if im.h > 1 {
      RowsCovered(im.h - 1, chunk);
    } else {
      assert TaskRows(0, chunk) + StitchRows(0, chunk) == {} == Below(0);
    }
    ScanLabels(im, d);
  }

  /** Chunked labelling finds the components of every image of a size exactly when the chunk size does not divide
      h - 1. */
  lemma {:induction false} ChunkedLabelsComponents(w: nat, h: nat, chunk: nat)
    requires w >= 3 && h >= 2 && chunk > 0
    ensures ChunkedFindsComponents(w, h, chunk) <==> (h - 1) % chunk != 0
  {
    hide LabelsComponents, ChunkedTable, Forest;
    if (h - 1) % chunk != 0 {
      forall im: Image, d: seq<Rec> | ValidImage(im) && im.w == w && im.h == h && ChunkedTable(im, chunk, d)
        ensures LabelsComponents(im, d)
      {
        ChunkedTableLabels(im, chunk, d);
      }
    } else {
      var im := LastRowImage(w, h);
      var d := seq(w * h + 1, i requires 0 <= i < w * h + 1 => Rec(i, 1));
      RowsCovered(h - 1, chunk);
      OtherRowsAreGrey(w, h, TaskRows(h - 1, chunk) + StitchRows(h - 1, chunk));
      SingletonsRepresentNothing(d);
      assert ChunkedTable(im, chunk, d) by { SingletonTable(im, chunk, d); }
      PairNotLabelled(w, h, d);
    }
  }

  lemma {:induction false} SingletonTable(im: Image, chunk: nat, d: seq<Rec>)
    requires ValidImage(im) && im.h >= 1 && chunk > 0 && |d| == im.w * im.h + 1
    requires Forest(d) && Represents(d, {}) && ChunkedEdges(im, chunk) == {}
    ensures ChunkedTable(im, chunk, d)
  {}

  /** The two black pixels of the image are not labelled as one component by a table without links. */
  lemma {:induction false} PairNotLabelled(w: nat, h: nat, d: seq<Rec>)
    requires w >= 3 && h >= 2 && |d| == w * h + 1 && forall i | 0 <= i < |d| :: d[i] == Rec(i, 1)
    ensures !LabelsComponents(LastRowImage(w, h), d)
  {
    hide SameComponent, Edges;
    var im := LastRowImage(w, h);
    var p, q := Pixel(1, h - 2), Pixel(2, h - 2);
    LastRowPixels(w, h, p);
    LastRowPixels(w, h, q);
    assert Neighbours(im, p, q);
    NeighboursAreEdges(im, p, q);
    RelatedStep(Edges(im, AllRows(h)), Id(im, p), Id(im, q));
    ScanFindsComponents(im, p, q);
    assert Id(im, p) != Id(im, q);
    assert LabelsComponents(im, d) ==> Rep(d, Id(im, p)) == Rep(d, Id(im, q));
  }

  // The parallel program

  /** Tasks in any order, a row at a time: which task moves next is arbitrary. */
  method RunTasks(uf: Sets, im: Image, tasks: seq<Task>)
    requires Ready(uf, im)
    requires forall t | t in tasks :: t.y1 + 1 <= im.h && (t.y0 < t.y1 ==> t.y1 < im.h)
    modifies uf`joined, uf.data
    ensures Ready(uf, im)
    ensures uf.joined == old(uf.joined) + Edges(im, RowsBefore(tasks, Ends(tasks)))
  {
    hide Edges, RowsBefore, Work, Forest, Sized, Represents, Underway;
    var next: seq<nat> := seq(|tasks|, i requires 0 <= i < |tasks| => tasks[i].y0);
    NoRowsBefore(tasks, next);
    NoRowsNoEdges(im);
    TasksStart(tasks, next);
    while exists t :: 0 <= t < |tasks| && next[t] < tasks[t].y1
      invariant |next| == |tasks| && Underway(tasks, next)
      invariant Ready(uf, im) && uf.joined == old(uf.joined) + Edges(im, RowsBefore(tasks, next))
      decreases Work(tasks, next)
    {
      var t :| 0 <= t < |tasks| && next[t] < tasks[t].y1;
      next := RunRow(uf, im, tasks, next, t, old(uf.joined));
    }
    TasksEnd(tasks, next);
  }

  /** The next row of task t. */
  method RunRow(uf: Sets, im: Image, tasks: seq<Task>, next: seq<nat>, t: nat, ghost before: set<(nat, nat)>)
    returns (later: seq<nat>)
    requires Ready(uf, im) && |next| == |tasks| && Underway(tasks, next)
    requires t < |tasks| && next[t] < tasks[t].y1 && tasks[t].y1 < im.h
    requires uf.joined == before + Edges(im, RowsBefore(tasks, next))
    modifies uf`joined, uf.data
    ensures Ready(uf, im) && |later| == |tasks| && Underway(tasks, later)
    ensures Work(tasks, later) < Work(tasks, next)
    ensures uf.joined == before + Edges(im, RowsBefore(tasks, later))
  {
    hide Edges, RowsBefore, Work, Forest, Sized, Represents;
    DoUnionfindLine(uf, im, next[t]);
    later := next[t := next[t] + 1];
    RowsAdvance(tasks, next, t);
    EdgesUnion(im, RowsBefore(tasks, next), {next[t]});
    WorkAdvances(tasks, next, t);
  }

  ghost predicate Underway(tasks: seq<Task>, next: seq<nat>)
    requires |next| == |tasks|
  {
    forall t | 0 <= t < |tasks| :: tasks[t].y0 <= next[t] <= Ends(tasks)[t]
  }

  lemma {:induction false} TasksStart(tasks: seq<Task>, next: seq<nat>)
    requires |next| == |tasks| && forall t | 0 <= t < |tasks| :: next[t] == tasks[t].y0
    ensures Underway(tasks, next)
  {}

  lemma {:induction false} TasksEnd(tasks: seq<Task>, next: seq<nat>)
    requires |next| == |tasks| && Underway(tasks, next)
    requires !exists t :: 0 <= t < |tasks| && next[t] < tasks[t].y1
    ensures next == Ends(tasks)
  {}

  function Ends(tasks: seq<Task>): (e: seq<nat>)
    ensures |e| == |tasks| && forall t | 0 <= t < |tasks| ::
      e[t] == if tasks[t].y0 < tasks[t].y1 then tasks[t].y1 else tasks[t].y0
  {
    seq(|tasks|, i requires 0 <= i < |tasks| => if tasks[i].y0 < tasks[i].y1 then tasks[i].y1 else tasks[i].y0)
  }

  ghost function RowsBefore(tasks: seq<Task>, next: seq<nat>): set<nat>
    requires |next| == |tasks|
  {
    set t: nat, y: nat | t < |tasks| && y < next[t] && InTask(tasks, t, y) :: y
  }

  ghost predicate InTask(tasks: seq<Task>, t: nat, y: nat) {
    t < |tasks| && tasks[t].y0 <= y
  }

  lemma {:induction false} NoRowsBefore(tasks: seq<Task>, next: seq<nat>)
    requires |next| == |tasks| && forall t | 0 <= t < |tasks| :: next[t] == tasks[t].y0
    ensures RowsBefore(tasks, next) == {}
  {}

  lemma {:induction false} RowsAdvance(tasks: seq<Task>, next: seq<nat>, t: nat)
    requires |next| == |tasks| && t < |tasks| && tasks[t].y0 <= next[t]
    ensures RowsBefore(tasks, next[t := next[t] + 1]) == RowsBefore(tasks, next) + {next[t]}
  {
    var later := next[t := next[t] + 1];
    assert later[t] == next[t] + 1;
    forall y | y in RowsBefore(tasks, next) + {next[t]} ensures y in RowsBefore(tasks, later) {
      if y in RowsBefore(tasks, next) {
        var s: nat :| s < |tasks| && y < next[s] && InTask(tasks, s, y);
        assert y < later[s] && InTask(tasks, s, y);
      } else {
        assert y < later[t] && InTask(tasks, t, y);
      }
    }
  }

  ghost function Work(tasks: seq<Task>, next: seq<nat>): nat
    requires |next| == |tasks|
  {
    if tasks == [] then 0
    else Work(tasks[1..], next[1..]) + if next[0] < tasks[0].y1 then tasks[0].y1 - next[0] else 0
  }

  lemma {:induction false} WorkAdvances(tasks: seq<Task>, next: seq<nat>, t: nat)
    requires |next| == |tasks| && t < |tasks| && next[t] < tasks[t].y1
    ensures Work(tasks, next[t := next[t] + 1]) == Work(tasks, next) - 1
  {
    var later := next[t := next[t] + 1];
    if t == 0 {
      assert later[1..] == next[1..];
    } else {
      WorkAdvances(tasks[1..], next[1..], t - 1);
      assert later[1..] == next[1..][t - 1 := next[t] + 1];
    }
  }

  ghost predicate IsTaskList(tasks: seq<Task>, sz: nat, chunk: nat)
    requires chunk > 0
  {
    forall t {:trigger tasks[t]} | 0 <= t < |tasks| ::
      && t * chunk < sz
      && tasks[t] == Task(t * chunk, if sz < t * chunk + chunk - 1 then sz else t * chunk + chunk - 1)
  }

  lemma {:induction false} NoTasks(sz: nat, chunk: nat)
    requires chunk > 0
    ensures IsTaskList([], sz, chunk)
  {}

  lemma {:induction false} TaskListGrows(tasks: seq<Task>, sz: nat, chunk: nat, i: nat)
    requires chunk > 0 && IsTaskList(tasks, sz, chunk) && i == |tasks| * chunk && i < sz
    ensures IsTaskList(tasks + [Task(i, if sz < i + chunk - 1 then sz else i + chunk - 1)], sz, chunk)
    ensures (|tasks| + 1) * chunk == i + chunk
  {}

  method MakeTasks(sz: nat, chunk: nat) returns (tasks: seq<Task>)
    requires chunk > 0
    ensures IsTaskList(tasks, sz, chunk) && sz <= |tasks| * chunk
    ensures forall t | t in tasks :: t.y1 <= sz
  {
    hide IsTaskList;
    tasks := [];
    var i: nat := 0;
    NoTasks(sz, chunk);
    while i < sz
      invariant i == |tasks| * chunk && IsTaskList(tasks, sz, chunk)
      invariant forall t | t in tasks :: t.y1 <= sz
      decreases sz - i
    {
      TaskListGrows(tasks, sz, chunk, i);
      tasks := tasks + [Task(i, if sz < i + chunk - 1 then sz else i + chunk - 1)];
      i := i + chunk;
    }
  }

  lemma {:induction false} ReadyTableLabels(uf: Sets, im: Image, chunk: nat)
    requires Ready(uf, im) && im.h >= 1 && chunk > 0 && uf.joined == ChunkedEdges(im, chunk)
    ensures im.h == 1 || (im.h - 1) % chunk != 0 ==> LabelsComponents(im, uf.data[..])
  {
    hide LabelsComponents, Forest, Sized, Represents, ChunkedEdges;
    if im.h == 1 || (im.h - 1) % chunk != 0 { ChunkedTableLabels(im, chunk, uf.data[..]); }
  }

  /** Several threads: chunk tasks first, then the rows between chunks. */
  method LabelChunked(im: Image, nthreads: nat) returns (uf: Sets)
    requires ValidImage(im) && im.h >= 1 && nthreads > 0
    ensures Ready(uf, im) && fresh(uf) && fresh(uf.data)
    ensures uf.joined == ChunkedEdges(im, ChunkSize(im.h, nthreads))
    ensures im.h == 1 || (im.h - 1) % ChunkSize(im.h, nthreads) != 0 ==> LabelsComponents(im, uf.data[..])
  {
    hide Edges, TaskRows, StitchRows, Forest, Sized, Represents, IsTaskList, LabelsComponents, ChunkedTable;
    uf := new Sets(im.w * im.h);
    var sz := im.h - 1;
    var chunk := 1 + sz / (TASKS_PER_THREAD_TARGET * nthreads);
    assert chunk == ChunkSize(im.h, nthreads);
    var tasks := MakeTasks(sz, chunk);
    RunTasks(uf, im, tasks);
    TasksCover(tasks, sz, chunk);

    Stitch(uf, im, tasks, chunk);
    StitchCover(tasks, sz, chunk);
    EdgesUnion(im, TaskRows(sz, chunk), StitchRows(sz, chunk));
    assert uf.joined == ChunkedEdges(im, chunk);
    ReadyTableLabels(uf, im, chunk);
  }

  method Stitch(uf: Sets, im: Image, tasks: seq<Task>, chunk: nat)
    requires Ready(uf, im) && im.h >= 1 && chunk > 0 && IsTaskList(tasks, im.h - 1, chunk)
    modifies uf`joined, uf.data
    ensures Ready(uf, im)
    ensures uf.joined == old(uf.joined) + Edges(im, StitchedBefore(tasks, if |tasks| > 0 then |tasks| - 1 else 0))
  {
    hide Edges, Forest, Sized, Represents, IsTaskList;
    var k: nat := 0;
    NoRowsNoEdges(im);
    assert StitchedBefore(tasks, 0) == {};
    while k + 1 < |tasks|
      invariant k <= if |tasks| > 0 then |tasks| - 1 else 0
      invariant Ready(uf, im) && uf.joined == old(uf.joined) + Edges(im, StitchedBefore(tasks, k))
    {
      InnerTaskEnd(tasks, im.h - 1, chunk, k);
      DoUnionfindLine(uf, im, tasks[k].y1);
      assert StitchedBefore(tasks, k + 1) == StitchedBefore(tasks, k) + {tasks[k].y1};
      EdgesUnion(im, StitchedBefore(tasks, k), {tasks[k].y1});
      k := k + 1;
    }
  }

  ghost function StitchedBefore(tasks: seq<Task>, k: nat): set<nat>
    requires k <= |tasks|
  {
    set t | 0 <= t < k :: tasks[t].y1
  }

  lemma {:induction false} InnerTaskEnd(tasks: seq<Task>, sz: nat, chunk: nat, t: nat)
    requires chunk > 0 && IsTaskList(tasks, sz, chunk) && t + 1 < |tasks|
    ensures tasks[t].y1 == t * chunk + chunk - 1 && tasks[t].y1 + 1 < sz
    ensures tasks[t].y1 % chunk == chunk - 1
  {
    assert tasks[t + 1].y0 == (t + 1) * chunk == t * chunk + chunk;
    var y := t * chunk + chunk - 1;
    assert (y / chunk) * chunk + y % chunk == y;
    DivUnique(chunk, y / chunk, y % chunk, t, chunk - 1);
  }

  lemma {:induction false} TasksCover(tasks: seq<Task>, sz: nat, chunk: nat)
    requires chunk > 0 && IsTaskList(tasks, sz, chunk) && sz <= |tasks| * chunk
    ensures RowsBefore(tasks, Ends(tasks)) == TaskRows(sz, chunk)
  {
    hide IsTaskList, InTask, Ends;
    forall y: nat | y in TaskRows(sz, chunk) ensures y in RowsBefore(tasks, Ends(tasks)) {
      TaskOfRow(tasks, sz, chunk, y);
    }
    forall y: nat | y in RowsBefore(tasks, Ends(tasks)) ensures y in TaskRows(sz, chunk) {
      var t: nat :| t < |tasks| && y < Ends(tasks)[t] && InTask(tasks, t, y);
      RowOfTask(tasks, sz, chunk, y, t);
    }
  }

  lemma {:induction false} TaskAt(tasks: seq<Task>, sz: nat, chunk: nat, t: nat, u: nat)
    requires chunk > 0 && IsTaskList(tasks, sz, chunk) && t < |tasks| && u == t * chunk
    ensures u < sz && tasks[t] == Task(u, if sz < u + chunk - 1 then sz else u + chunk - 1)
  {}

  lemma {:induction false} TaskOfRow(tasks: seq<Task>, sz: nat, chunk: nat, y: nat)
    requires chunk > 0 && IsTaskList(tasks, sz, chunk) && sz <= |tasks| * chunk
    requires y < sz && y % chunk != chunk - 1
    ensures y / chunk < |tasks| && y < Ends(tasks)[y / chunk] && InTask(tasks, y / chunk, y)
  {
    hide IsTaskList;
    var t := y / chunk;
    var u := t * chunk;
    assert y == u + y % chunk;
    MulLe(|tasks|, t, chunk);
    TaskAt(tasks, sz, chunk, t, u);
  }

  lemma {:induction false} RowOfTask(tasks: seq<Task>, sz: nat, chunk: nat, y: nat, t: nat)
    requires chunk > 0 && IsTaskList(tasks, sz, chunk)
    requires t < |tasks| && y < Ends(tasks)[t] && InTask(tasks, t, y)
    ensures y < sz && y % chunk != chunk - 1
  {
    hide IsTaskList;
    var u := t * chunk;
    TaskAt(tasks, sz, chunk, t, u);
    var q, r := y / chunk, y % chunk;
    assert q * chunk + r == u + (y - u);
    DivUnique(chunk, q, r, t, y - u);
  }

  lemma {:induction false} StitchCover(tasks: seq<Task>, sz: nat, chunk: nat)
    requires chunk > 0 && IsTaskList(tasks, sz, chunk) && sz <= |tasks| * chunk
    ensures StitchedBefore(tasks, if |tasks| > 0 then |tasks| - 1 else 0) == StitchRows(sz, chunk)
  {
    if |tasks| == 0 {
      assert sz == 0;
      return;
    }
    forall y: nat | y in StitchRows(sz, chunk) ensures y in StitchedBefore(tasks, |tasks| - 1) {
      var t := y / chunk;
      assert y == t * chunk + (chunk - 1);
      MulLe(|tasks|, t + 1, chunk);
      assert (t + 1) * chunk == y + 1;
      InnerTaskEnd(tasks, sz, chunk, t);
      assert tasks[t].y1 == y;
    }
    forall y: nat | y in StitchedBefore(tasks, |tasks| - 1) ensures y in StitchRows(sz, chunk) {
      var t :| 0 <= t < |tasks| - 1 && tasks[t].y1 == y;
      InnerTaskEnd(tasks, sz, chunk, t);
    }
  }
}
