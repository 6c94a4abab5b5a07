/** Greedy reduction of a closed contour to four vertices
    (`quad_segment_agg`, Robot/apriltags/apriltag_quad_thresh.c). */
module SegmentAgg {
  import opened FiniteSets
  import opened MaxHeap

  /** Error of the line fitted to the contour from one index forward to another, which must be a different one. */
  type Fit = (nat, nat) --> real

  ghost predicate FitsOn(fit: Fit, live: set<nat>) {
    forall a, b | a in live && b in live && a != b :: fit.requires(a, b)
  }

  // ---------------------------------------------------------------------------------------
  // The naive algorithm, on the set of vertices still alive

  /** x is passed when going forward from a to b around the contour. */
  predicate Between(a: nat, x: nat, b: nat) {
    if a < b then a < x < b else x > a || x < b
  }

  ghost predicate GapFree(live: set<nat>, a: nat, b: nat) {
    forall x | x in live :: !Between(a, x, b)
  }

  /** b is the live vertex that follows a. */
  ghost predicate IsNext(live: set<nat>, a: nat, b: nat) {
    a in live && b in live && a != b && GapFree(live, a, b)
  }

  ghost function Gap(live: set<nat>, a: nat, b: nat): set<nat> {
    set x | x in live && Between(a, x, b)
  }

  lemma {:induction false} NextExists(live: set<nat>, a: nat, b: nat) returns (r: nat)
    requires a in live && b in live && a != b
    ensures IsNext(live, a, r)
    decreases Gap(live, a, b)
  {
    if x :| x in live && Between(a, x, b) {
      assert Gap(live, a, x) < Gap(live, a, b) by { assert x in Gap(live, a, b) && x !in Gap(live, a, x); }
      r := NextExists(live, a, x);
    } else {
      r := b;
    }
  }

  lemma {:induction false} PrevExists(live: set<nat>, a: nat, b: nat) returns (r: nat)
    requires a in live && b in live && a != b
    ensures IsNext(live, r, a)
    decreases Gap(live, b, a)
  {
    if x :| x in live && Between(b, x, a) {
      assert Gap(live, x, a) < Gap(live, b, a) by { assert x in Gap(live, b, a) && x !in Gap(live, x, a); }
      r := PrevExists(live, a, x);
    } else {
      r := b;
    }
  }

  lemma {:induction false} OtherExists(live: set<nat>, a: nat) returns (b: nat)
    requires |live| >= 2
    ensures b in live && b != a
  {
    if live <= {a} { SubsetCard(live, {a}); }
    b :| b in live && b != a;
  }

  ghost function Succ(live: set<nat>, a: nat): (b: nat)
    requires |live| >= 2 && a in live
    ensures IsNext(live, a, b)
  {
    assert exists b :: IsNext(live, a, b) by {
      var o := OtherExists(live, a);
      var r := NextExists(live, a, o);
    }
    var b :| IsNext(live, a, b);
    b
  }

  ghost function Pred(live: set<nat>, a: nat): (b: nat)
    requires |live| >= 2 && a in live
    ensures IsNext(live, b, a)
  {
    assert exists b :: IsNext(live, b, a) by {
      var o := OtherExists(live, a);
      var r := PrevExists(live, a, o);
    }
    var b :| IsNext(live, b, a);
    b
  }

  lemma {:induction false} NeighboursUnique(live: set<nat>, l: nat, i: nat, r: nat)
    requires |live| >= 2 && IsNext(live, l, i) && IsNext(live, i, r)
    ensures Pred(live, i) == l && Succ(live, i) == r
  {
    assert !Between(l, Pred(live, i), i) && !Between(Pred(live, i), l, i);
    assert !Between(i, r, Succ(live, i)) && !Between(i, Succ(live, i), r);
  }

  /** Error of the line that would replace the two lines meeting in i. */
  ghost function MergeError(fit: Fit, live: set<nat>, i: nat): real
    requires |live| > 2 && i in live && FitsOn(fit, live)
  {
    NeighboursDiffer(live, Pred(live, i), i, Succ(live, i));
    fit(Pred(live, i), Succ(live, i))
  }

  /** One step of the naive algorithm: drop a live vertex of least merge error. */
  ghost predicate GreedyStep(fit: Fit, live: set<nat>, next: set<nat>) {
    |live| > 2 && FitsOn(fit, live) &&
    exists i :: Cheapest(fit, live, i) && next == live - {i}
  }

  ghost predicate Cheapest(fit: Fit, live: set<nat>, i: nat)
    requires |live| > 2 && FitsOn(fit, live)
  {
    i in live && forall j | j in live :: MergeError(fit, live, i) <= MergeError(fit, live, j)
  }

  /** A whole run of the naive algorithm, from all of 0, ..., sz - 1 down to four vertices. */
  ghost predicate GreedyRun(fit: Fit, sz: nat, trace: seq<set<nat>>) {
    && |trace| > 0 && trace[0] == Below(sz) && |trace[|trace| - 1]| == 4
    && forall k {:trigger trace[k]} | 0 < k < |trace| :: GreedyStep(fit, trace[k-1], trace[k])
  }

  // ---------------------------------------------------------------------------------------
  // The data structures of the fast algorithm

  /** A candidate removal: vertex i, its neighbours when the candidate was made, and its error. */
  datatype RemoveVertex = RemoveVertex(i: nat, left: nat, right: nat, err: real)

  datatype Segment = Segment(isVertex: bool, left: nat, right: nat)

  /** The linked ring: vertices are exactly the live ones and know their live neighbours. */
  ghost predicate RingOk(segs: seq<Segment>, live: set<nat>) {
    && live <= Below(|segs|)
    && (forall i | 0 <= i < |segs| :: segs[i].isVertex <==> i in live)
    && (forall i {:trigger LinksOk(segs, live, i)} | i in live :: LinksOk(segs, live, i))
  }

  ghost predicate LinksOk(segs: seq<Segment>, live: set<nat>, i: nat) {
    i < |segs| && IsNext(live, segs[i].left, i) && IsNext(live, i, segs[i].right)
  }

  /** No live vertex has ever appeared between a candidate's vertices: vertices only disappear. */
  ghost predicate CandidateOk(fit: Fit, sz: nat, live: set<nat>, rv: RemoveVertex) {
    && rv.i < sz && rv.left < sz && rv.right < sz && rv.left != rv.i && rv.i != rv.right
    && GapFree(live, rv.left, rv.i) && GapFree(live, rv.i, rv.right)
    && rv.left != rv.right && fit.requires(rv.left, rv.right) && rv.err == fit(rv.left, rv.right)
  }

  ghost predicate EntriesOk(fit: Fit, sz: nat, live: set<nat>, arena: seq<RemoveVertex>, heap: multiset<Entry<nat>>) {
    forall e | e in heap ::
      e.datum < |arena| && e.value == -arena[e.datum].err && CandidateOk(fit, sz, live, arena[e.datum])
  }

  ghost predicate Current(segs: seq<Segment>, i: nat, rv: RemoveVertex)
    requires i < |segs|
  {
    rv.i == i && rv.left == segs[i].left && rv.right == segs[i].right
  }

  ghost predicate HasCurrent(segs: seq<Segment>, arena: seq<RemoveVertex>, heap: multiset<Entry<nat>>, i: nat)
    requires i < |segs|
  {
    exists e :: e in heap && e.datum < |arena| && Current(segs, i, arena[e.datum])
  }

  /** Every live vertex has the candidate with its current neighbours in the heap. */
  ghost predicate AllCurrent(segs: seq<Segment>, live: set<nat>, arena: seq<RemoveVertex>, heap: multiset<Entry<nat>>)
    requires live <= Below(|segs|)
  {
    forall i | i in live :: HasCurrent(segs, arena, heap, i)
  }

  ghost predicate Inv(fit: Fit, segs: seq<Segment>, live: set<nat>, arena: seq<RemoveVertex>,
                      heap: multiset<Entry<nat>>)
  {
    && FitsOn(fit, Below(|segs|)) && RingOk(segs, live) && EntriesOk(fit, |segs|, live, arena, heap)
    && AllCurrent(segs, live, arena, heap)
  }

  predicate Stale(segs: seq<Segment>, rv: RemoveVertex)
    requires rv.i < |segs| && rv.left < |segs| && rv.right < |segs|
  {
    !segs[rv.i].isVertex || !segs[rv.left].isVertex || !segs[rv.right].isVertex
  }

  /** The heap cannot run empty while a vertex is alive. */
  lemma {:induction false} HeapNotEmpty(fit: Fit, segs: seq<Segment>, live: set<nat>, arena: seq<RemoveVertex>,
                                        heap: multiset<Entry<nat>>)
    requires Inv(fit, segs, live, arena, heap) && live != {}
    ensures heap != multiset{}
  {
    var i :| i in live;
    assert HasCurrent(segs, arena, heap, i);
  }

  /** A stale candidate can be dropped. */
  lemma {:induction false} DropStale(fit: Fit, segs: seq<Segment>, live: set<nat>, arena: seq<RemoveVertex>,
                                     heap: multiset<Entry<nat>>, e: Entry<nat>, rest: multiset<Entry<nat>>)
    requires Inv(fit, segs, live, arena, heap) && heap == rest + multiset{e}
    requires e.datum < |arena| && CandidateOk(fit, |segs|, live, arena[e.datum]) && Stale(segs, arena[e.datum])
    ensures Inv(fit, segs, live, arena, rest)
  {
    RingInTable(segs, live);
    hide GapFree, CandidateOk, HasCurrent, RingOk;
    forall i | i in live ensures HasCurrent(segs, arena, rest, i) {
      KeepsCurrent(fit, segs, live, arena, heap, e, rest, i);
    }
  }

  lemma {:induction false} KeepsCurrent(fit: Fit, segs: seq<Segment>, live: set<nat>, arena: seq<RemoveVertex>,
                                        heap: multiset<Entry<nat>>, e: Entry<nat>, rest: multiset<Entry<nat>>, i: nat)
    requires RingOk(segs, live) && i in live && HasCurrent(segs, arena, heap, i) && heap == rest + multiset{e}
    requires e.datum < |arena| && CandidateOk(fit, |segs|, live, arena[e.datum]) && Stale(segs, arena[e.datum])
    ensures HasCurrent(segs, arena, rest, i)
  {
    hide GapFree;
    var f :| f in heap && f.datum < |arena| && Current(segs, i, arena[f.datum]);
    assert LinksOk(segs, live, i);
    assert f != e;
    assert f in rest;
  }

  /** A candidate whose three vertices are all live names the current neighbours. */
  lemma {:induction false} FreshIsCurrent(fit: Fit, segs: seq<Segment>, live: set<nat>, rv: RemoveVertex)
    requires RingOk(segs, live) && CandidateOk(fit, |segs|, live, rv) && |live| >= 2
    requires !Stale(segs, rv)
    ensures Current(segs, rv.i, rv) && Pred(live, rv.i) == rv.left && Succ(live, rv.i) == rv.right
  {
    assert LinksOk(segs, live, rv.i);
    NeighboursUnique(live, rv.left, rv.i, rv.right);
    NeighboursUnique(live, segs[rv.i].left, rv.i, segs[rv.i].right);
  }

  /** The fresh candidate at the top of the heap is a cheapest vertex of the naive algorithm. */
  lemma {:induction false} TopIsCheapest(fit: Fit, segs: seq<Segment>, live: set<nat>, arena: seq<RemoveVertex>,
                                         heap: multiset<Entry<nat>>, e: Entry<nat>)
    requires Inv(fit, segs, live, arena, heap) && |live| > 2 && e in heap
    requires e.datum < |arena| && CandidateOk(fit, |segs|, live, arena[e.datum]) && !Stale(segs, arena[e.datum])
    requires forall f | f in heap :: e.value >= f.value
    ensures FitsOn(fit, live) && Cheapest(fit, live, arena[e.datum].i)
  {
    hide GapFree, IsNext;
    var rv := arena[e.datum];
    FreshIsCurrent(fit, segs, live, rv);
    forall j | j in live ensures MergeError(fit, live, rv.i) <= MergeError(fit, live, j) {
      assert HasCurrent(segs, arena, heap, j);
      var f :| f in heap && f.datum < |arena| && Current(segs, j, arena[f.datum]);
      assert LinksOk(segs, live, j);
      NeighboursUnique(live, segs[j].left, j, segs[j].right);
    }
  }

  // Unlinking a vertex

  function Unlinked(segs: seq<Segment>, rv: RemoveVertex): (r: seq<Segment>)
    requires rv.i < |segs| && rv.left < |segs| && rv.right < |segs|
    ensures |r| == |segs|
  {
    var s1 := segs[rv.i := segs[rv.i].(isVertex := false)];
    var s2 := s1[rv.left := s1[rv.left].(right := rv.right)];
    s2[rv.right := s2[rv.right].(left := rv.left)]
  }

  lemma {:induction false} NeighboursDiffer(live: set<nat>, l: nat, i: nat, r: nat)
    requires |live| > 2 && IsNext(live, l, i) && IsNext(live, i, r)
    ensures l != r
  {
    if live <= {l, i} {
      SubsetCard(live, {l, i});
    }
    var x :| x in live && x != l && x != i;
    assert !Between(l, x, i) && !Between(i, x, r);
  }

  lemma {:induction false} GapsStayFree(live: set<nat>, i: nat, a: nat, b: nat)
    requires GapFree(live, a, b)
    ensures GapFree(live - {i}, a, b)
  {}

  lemma {:induction false} GapsJoin(live: set<nat>, l: nat, i: nat, r: nat)
    requires IsNext(live, l, i) && IsNext(live, i, r) && l != r
    ensures IsNext(live - {i}, l, r)
  {
    forall x | x in live - {i} ensures !Between(l, x, r) {
      assert !Between(l, x, i) && !Between(i, x, r);
      assert !Between(l, r, i);
    }
  }

  lemma {:induction false} UnlinkNeighbours(segs: seq<Segment>, live: set<nat>, rv: RemoveVertex)
    requires RingOk(segs, live) && |live| > 2 && rv.i in live && Current(segs, rv.i, rv)
    ensures rv.left in live && rv.right in live && rv.left != rv.right && rv.left != rv.i && rv.right != rv.i
    ensures IsNext(live, rv.left, rv.i) && IsNext(live, rv.i, rv.right) && IsNext(live - {rv.i}, rv.left, rv.right)
    ensures rv.left < |segs| && rv.right < |segs|
  {
    hide GapFree;
    assert LinksOk(segs, live, rv.i);
    NeighboursDiffer(live, rv.left, rv.i, rv.right);
    GapsJoin(live, rv.left, rv.i, rv.right);
  }

  lemma {:induction false} UnlinkKeepsLinks(segs: seq<Segment>, live: set<nat>, rv: RemoveVertex, k: nat)
    requires LinksOk(segs, live, k) && k in live && k != rv.i
    requires rv.left < |segs| && rv.right < |segs| && rv.i < |segs|
    requires IsNext(live, rv.left, rv.i) && IsNext(live, rv.i, rv.right) && IsNext(live - {rv.i}, rv.left, rv.right)
    ensures LinksOk(Unlinked(segs, rv), live - {rv.i}, k)
  {
    hide GapFree;
    var rest := live - {rv.i};
    if segs[k].left == rv.i {
      SuccUnique(live, rv.i, k, rv.right);
    }
    if segs[k].right == rv.i {
      PredUnique(live, rv.i, k, rv.left);
    }
    GapsStayFree(live, rv.i, segs[k].left, k);
    GapsStayFree(live, rv.i, k, segs[k].right);
    var s := Unlinked(segs, rv);
    assert s[k].left == if k == rv.right then rv.left else segs[k].left;
    assert s[k].right == if k == rv.left then rv.right else segs[k].right;
  }

  lemma {:induction false} UnlinkKeepsRing(segs: seq<Segment>, live: set<nat>, rv: RemoveVertex)
    requires RingOk(segs, live) && |live| > 2 && rv.i in live && Current(segs, rv.i, rv)
    ensures rv.left < |segs| && rv.right < |segs| && RingOk(Unlinked(segs, rv), live - {rv.i})
  {
    hide GapFree, IsNext, LinksOk;
    UnlinkNeighbours(segs, live, rv);
    forall k | k in live - {rv.i} ensures LinksOk(Unlinked(segs, rv), live - {rv.i}, k) {
      assert LinksOk(segs, live, k);
      UnlinkKeepsLinks(segs, live, rv, k);
    }
  }

  lemma {:induction false} SuccUnique(live: set<nat>, a: nat, b: nat, c: nat)
    requires IsNext(live, a, b) && IsNext(live, a, c)
    ensures b == c
  {
    assert !Between(a, b, c) && !Between(a, c, b);
  }

  lemma {:induction false} PredUnique(live: set<nat>, a: nat, b: nat, c: nat)
    requires IsNext(live, b, a) && IsNext(live, c, a)
    ensures b == c
  {
    assert !Between(b, c, a) && !Between(c, b, a);
  }

  /** The candidates made when rv is unlinked, from the links afterwards. */
  function Child1(fit: Fit, s: seq<Segment>, rv: RemoveVertex): RemoveVertex
    requires rv.left < |s| && fit.requires(s[rv.left].left, rv.right)
  {
    RemoveVertex(rv.left, s[rv.left].left, rv.right, fit(s[rv.left].left, rv.right))
  }

  function Child2(fit: Fit, s: seq<Segment>, rv: RemoveVertex): RemoveVertex
    requires rv.right < |s| && fit.requires(rv.left, s[rv.right].right)
  {
    RemoveVertex(rv.right, rv.left, s[rv.right].right, fit(rv.left, s[rv.right].right))
  }

  /** The lines of both children have different ends. */
  ghost predicate ChildrenFit(fit: Fit, s: seq<Segment>, rv: RemoveVertex) {
    && rv.left < |s| && rv.right < |s|
    && fit.requires(s[rv.left].left, rv.right) && fit.requires(rv.left, s[rv.right].right)
  }

  lemma {:induction false} ChildrenFitAfter(fit: Fit, segs: seq<Segment>, live: set<nat>, rv: RemoveVertex)
    requires FitsOn(fit, Below(|segs|)) && RingOk(segs, live) && |live| > 3 && rv.i in live && Current(segs, rv.i, rv)
    requires rv.left < |segs| && rv.right < |segs|
    ensures ChildrenFit(fit, Unlinked(segs, rv), rv)
    ensures Unlinked(segs, rv)[rv.left].left != rv.right && rv.left != Unlinked(segs, rv)[rv.right].right
  {
    hide GapFree;
    var s, left := Unlinked(segs, rv), live - {rv.i};
    UnlinkNeighbours(segs, live, rv);
    UnlinkKeepsRing(segs, live, rv);
    assert LinksOk(s, left, rv.left) && LinksOk(s, left, rv.right);
    NeighboursDiffer(left, s[rv.left].left, rv.left, rv.right);
    NeighboursDiffer(left, rv.left, rv.right, s[rv.right].right);
  }

  lemma {:induction false} ChildrenOk(fit: Fit, segs: seq<Segment>, live: set<nat>, rv: RemoveVertex)
    requires RingOk(segs, live) && |live| > 3 && rv.i in live && Current(segs, rv.i, rv)
    requires rv.left < |segs| && rv.right < |segs| && RingOk(Unlinked(segs, rv), live - {rv.i})
    requires FitsOn(fit, Below(|segs|)) && ChildrenFit(fit, Unlinked(segs, rv), rv)
    ensures var s, left := Unlinked(segs, rv), live - {rv.i};
      && rv.left in left && rv.right in left
      && CandidateOk(fit, |s|, left, Child1(fit, s, rv)) && CandidateOk(fit, |s|, left, Child2(fit, s, rv))
      && Current(s, rv.left, Child1(fit, s, rv)) && Current(s, rv.right, Child2(fit, s, rv))
  {
    hide GapFree;
    var s, left := Unlinked(segs, rv), live - {rv.i};
    UnlinkNeighbours(segs, live, rv);
    ChildrenFitAfter(fit, segs, live, rv);
    assert LinksOk(s, left, rv.left) && LinksOk(s, left, rv.right);
  }

  lemma {:induction false} CandidateStaysOk(fit: Fit, sz: nat, live: set<nat>, rv: RemoveVertex, i: nat)
    requires CandidateOk(fit, sz, live, rv)
    ensures CandidateOk(fit, sz, live - {i}, rv)
  {}

  ghost predicate Children(fit: Fit, s: seq<Segment>, rv: RemoveVertex, arena: seq<RemoveVertex>,
                           rest: multiset<Entry<nat>>, arena': seq<RemoveVertex>, heap': multiset<Entry<nat>>)
    requires ChildrenFit(fit, s, rv)
  {
    && arena' == arena + [Child1(fit, s, rv), Child2(fit, s, rv)]
    && heap' == rest + multiset{Entry(-Child1(fit, s, rv).err, |arena|)} +
         multiset{Entry(-Child2(fit, s, rv).err, |arena| + 1)}
  }

  lemma {:induction false} UnlinkKeepsEntries(fit: Fit, segs: seq<Segment>, live: set<nat>, arena: seq<RemoveVertex>,
                                              rv: RemoveVertex, rest: multiset<Entry<nat>>,
                                              arena': seq<RemoveVertex>, heap': multiset<Entry<nat>>)
    requires EntriesOk(fit, |segs|, live, arena, rest)
    requires rv.i < |segs| && rv.left < |segs| && rv.right < |segs|
    requires ChildrenFit(fit, Unlinked(segs, rv), rv) &&
      Children(fit, Unlinked(segs, rv), rv, arena, rest, arena', heap')
    requires CandidateOk(fit, |segs|, live - {rv.i}, Child1(fit, Unlinked(segs, rv), rv))
    requires CandidateOk(fit, |segs|, live - {rv.i}, Child2(fit, Unlinked(segs, rv), rv))
    ensures EntriesOk(fit, |segs|, live - {rv.i}, arena', heap')
  {
    hide CandidateOk, Unlinked;
    forall f | f in heap'
      ensures f.datum < |arena'| && f.value == -arena'[f.datum].err &&
        CandidateOk(fit, |segs|, live - {rv.i}, arena'[f.datum])
    {
      if f in rest {
        assert arena'[f.datum] == arena[f.datum];
        CandidateStaysOk(fit, |segs|, live, arena[f.datum], rv.i);
      } else {
        assert f.datum == |arena| || f.datum == |arena| + 1;
      }
    }
  }

  lemma {:induction false} UnlinkKeepsCurrent(fit: Fit, segs: seq<Segment>, live: set<nat>, arena: seq<RemoveVertex>,
                                              heap: multiset<Entry<nat>>, e: Entry<nat>, rest: multiset<Entry<nat>>,
                                              rv: RemoveVertex, arena': seq<RemoveVertex>, heap': multiset<Entry<nat>>,
                                              k: nat)
    requires heap == rest + multiset{e} && e.datum < |arena| && arena[e.datum] == rv
    requires rv.i < |segs| && rv.left < |segs| && rv.right < |segs| && k < |segs| && k != rv.i
    requires HasCurrent(segs, arena, heap, k) && ChildrenFit(fit, Unlinked(segs, rv), rv)
    requires Children(fit, Unlinked(segs, rv), rv, arena, rest, arena', heap')
    requires Current(Unlinked(segs, rv), rv.left, Child1(fit, Unlinked(segs, rv), rv))
    requires Current(Unlinked(segs, rv), rv.right, Child2(fit, Unlinked(segs, rv), rv))
    ensures HasCurrent(Unlinked(segs, rv), arena', heap', k)
  {
    var s := Unlinked(segs, rv);
    var e1, e2 := Entry(-Child1(fit, s, rv).err, |arena|), Entry(-Child2(fit, s, rv).err, |arena| + 1);
    assert e1 in heap' && arena'[e1.datum] == Child1(fit, s, rv);
    assert e2 in heap' && arena'[e2.datum] == Child2(fit, s, rv);
    if k != rv.left && k != rv.right {
      var f :| f in heap && f.datum < |arena| && Current(segs, k, arena[f.datum]);
      assert f != e && f in rest && f in heap';
      assert arena'[f.datum] == arena[f.datum] && Current(s, k, arena'[f.datum]);
    }
  }

  lemma {:induction false} UnlinkKeepsInv(fit: Fit, segs: seq<Segment>, live: set<nat>, arena: seq<RemoveVertex>,
                                          heap: multiset<Entry<nat>>, e: Entry<nat>, rest: multiset<Entry<nat>>,
                                          rv: RemoveVertex, arena': seq<RemoveVertex>, heap': multiset<Entry<nat>>)
    requires Inv(fit, segs, live, arena, heap) && |live| > 3 && heap == rest + multiset{e}
    requires e.datum < |arena| && arena[e.datum] == rv && rv.i in live && Current(segs, rv.i, rv)
    requires rv.i < |segs| && rv.left < |segs| && rv.right < |segs|
    requires ChildrenFit(fit, Unlinked(segs, rv), rv) &&
      Children(fit, Unlinked(segs, rv), rv, arena, rest, arena', heap')
    ensures Inv(fit, Unlinked(segs, rv), live - {rv.i}, arena', heap')
  {
    hide GapFree, IsNext, LinksOk, CandidateOk, HasCurrent, Children, RingOk;
    UnlinkKeepsRing(segs, live, rv);
    ChildrenOk(fit, segs, live, rv);
    assert forall f | f in rest :: f in heap;
    UnlinkKeepsEntries(fit, segs, live, arena, rv, rest, arena', heap');
    RingInTable(Unlinked(segs, rv), live - {rv.i});
    forall k | k in live - {rv.i} ensures HasCurrent(Unlinked(segs, rv), arena', heap', k) {
      UnlinkKeepsCurrent(fit, segs, live, arena, heap, e, rest, rv, arena', heap', k);
    }
  }

  lemma {:induction false} ChildrenFitParts(fit: Fit, s: seq<Segment>, rv: RemoveVertex)
    requires ChildrenFit(fit, s, rv)
    ensures rv.left < |s| && rv.right < |s|
    ensures fit.requires(s[rv.left].left, rv.right) && fit.requires(rv.left, s[rv.right].right)
  {}

  lemma {:induction false} ChildrenMade(fit: Fit, s: seq<Segment>, rv: RemoveVertex, arena: seq<RemoveVertex>,
                                        h: multiset<Entry<nat>>, c1: RemoveVertex, c2: RemoveVertex,
                                        arena1: seq<RemoveVertex>, h1: multiset<Entry<nat>>,
                                        arena2: seq<RemoveVertex>, h2: multiset<Entry<nat>>)
    requires ChildrenFit(fit, s, rv) && c1 == Child1(fit, s, rv) && c2 == Child2(fit, s, rv)
    requires arena1 == arena + [c1] && arena2 == arena1 + [c2]
    requires h1 == h + multiset{Entry(-c1.err, |arena|)} && h2 == h1 + multiset{Entry(-c2.err, |arena1|)}
    ensures Children(fit, s, rv, arena, h, arena2, h2)
  {
    assert arena + [c1] + [c2] == arena + [c1, c2];
  }

  lemma {:induction false} RingInTable(segs: seq<Segment>, live: set<nat>)
    requires RingOk(segs, live)
    ensures live <= Below(|segs|)
  {}

  // ---------------------------------------------------------------------------------------
  // The algorithm

  /** The local variables of the function. */
  class Reduction {
    const sz: nat
    const fit: Fit
    const rvalloc: array<RemoveVertex>
    var rvallocPos: nat
    const segs: array<Segment>
    const heap: ZMaxHeap<nat>
    var nvertices: nat
    ghost var live: set<nat>

    ghost predicate Shaped()
      reads this, heap
    {
      && segs.Length == sz && rvalloc.Length == 3 * sz && rvallocPos <= rvalloc.Length
      && heap.Valid() && nvertices == |live| && FitsOn(fit, Below(sz))
    }

    ghost predicate Valid()
      reads this, rvalloc, segs, heap, heap.a
    {
      && Shaped() && Ordered(heap.Contents())
      && rvallocPos == 3 * sz - 2 * nvertices
      && Inv(fit, segs[..], live, rvalloc[..rvallocPos], multiset(heap.Contents()))
    }

    constructor (sz: nat, fit: Fit)
      requires sz >= 4 && FitsOn(fit, Below(sz))
      ensures Valid() && fresh(rvalloc) && fresh(segs) && fresh(heap) && fresh(heap.a)
      ensures this.sz == sz && this.fit == fit && live == Below(sz) && nvertices == sz
    {
      this.sz, this.fit := sz, fit;
      rvalloc := new RemoveVertex[3 * sz](_ => RemoveVertex(0, 0, 0, 0.0));
      segs := new Segment[sz](_ => Segment(false, 0, 0));
      heap := new ZMaxHeap<nat>();
      rvallocPos, nvertices := 0, sz;
      live := Below(sz);
      new;
      BelowCard(sz);
      Populate();
    }

    /** The initial candidates and links. */
    method Populate()
      requires Shaped() && sz >= 4 && rvallocPos == 0 && heap.Contents() == [] && live == Below(sz) && nvertices == sz
      modifies this`rvallocPos, rvalloc, segs, heap, heap.a
      ensures Valid() && (heap.a == old(heap.a) || fresh(heap.a))
    {
      hide Ordered, OrderedFrom, Inv, Initial, InitialHeap, Link, FitsOn, Below;
      EmptyOrdered(heap.Contents());
      InitialHeapEmpty();
      var i: nat := 0;
      while i < sz
        invariant i <= sz && rvallocPos == i && heap.Valid() && Ordered(heap.Contents())
        invariant heap.a == old(heap.a) || fresh(heap.a)
        invariant live == old(live) && nvertices == sz
        invariant rvalloc[..i] == seq(i, k requires 0 <= k < sz => Initial(k))
        invariant segs[..i] == seq(i, k requires 0 <= k < sz => Link(k))
        invariant multiset(heap.Contents()) == InitialHeap(i)
      {
        AddInitial(i);
        i := i + 1;
      }
      assert segs[..] == segs[..sz];
      InitialInv(segs[..], rvalloc[..sz], multiset(heap.Contents()));
    }

    method AddInitial(i: nat)
      requires sz > 2 && FitsOn(fit, Below(sz)) && segs.Length == sz && i < sz && rvallocPos == i < rvalloc.Length
      requires heap.Valid() && Ordered(heap.Contents())
      modifies this`rvallocPos, rvalloc, segs, heap, heap.a
      ensures rvallocPos == i + 1 && heap.Valid() && Ordered(heap.Contents()) &&
        (heap.a == old(heap.a) || fresh(heap.a))
      ensures rvalloc[..i + 1] == old(rvalloc[..i]) + [Initial(i)]
      ensures segs[..i + 1] == old(segs[..i]) + [Link(i)]
      ensures multiset(heap.Contents()) == multiset(old(heap.Contents())) + multiset{Entry(-Initial(i).err, i)}
    {
      hide Ordered, OrderedFrom, LeftOf, RightOf, FitsOn;
      var rv := Initial(i);
      AddCandidate(rv);
      segs[i] := Segment(true, rv.left, rv.right);
    }

    function Link(i: nat): Segment
      requires i < sz && sz > 1
    {
      Segment(true, LeftOf(i), RightOf(i))
    }

    lemma {:induction false} InitialHeapEmpty()
      requires sz > 2 && FitsOn(fit, Below(sz))
      ensures InitialHeap(0) == multiset{}
      ensures forall n: nat | n < sz :: InitialHeap(n + 1) == InitialHeap(n) + multiset{Entry(-Initial(n).err, n)}
    {}

    function LeftOf(i: nat): nat
      requires i < sz
    {
      if i == 0 then sz - 1 else i - 1
    }

    function RightOf(i: nat): nat
      requires i < sz && sz > 1
    {
      if i == 0 then 1 else (i + 1) % sz
    }

    function Initial(i: nat): RemoveVertex
      requires i < sz && sz > 2 && FitsOn(fit, Below(sz))
    {
      assert LeftOf(i) in Below(sz) && RightOf(i) in Below(sz);
      RemoveVertex(i, LeftOf(i), RightOf(i), fit(LeftOf(i), RightOf(i)))
    }

    ghost function InitialHeap(n: nat): multiset<Entry<nat>>
      requires n <= sz && sz > 2 && FitsOn(fit, Below(sz))
    {
      if n == 0 then multiset{} else InitialHeap(n - 1) + multiset{Entry(-Initial(n - 1).err, n - 1)}
    }

    lemma {:induction false} InitialHeapHas(n: nat, e: Entry<nat>)
      requires n <= sz && sz > 2 && FitsOn(fit, Below(sz))
      ensures e in InitialHeap(n) <==> e.datum < n && e.value == -Initial(e.datum).err
    {
      if n > 0 {
        InitialHeapHas(n - 1, e);
      }
    }

    lemma {:induction false} InitialLinks(s: seq<Segment>, i: nat)
      requires sz >= 4 && FitsOn(fit, Below(sz)) && |s| == sz && i < sz && s[i] == Link(i)
      ensures LinksOk(s, Below(sz), i) && CandidateOk(fit, sz, Below(sz), Initial(i)) && Current(s, i, Initial(i))
    {
      assert RightOf(i) == if i + 1 == sz then 0 else i + 1;
      assert GapFree(Below(sz), LeftOf(i), i) && GapFree(Below(sz), i, RightOf(i));
      hide GapFree;
    }

    lemma {:induction false} InitialInv(s: seq<Segment>, arena: seq<RemoveVertex>, h: multiset<Entry<nat>>)
      requires sz >= 4 && FitsOn(fit, Below(sz)) && |s| == |arena| == sz && h == InitialHeap(sz)
      requires arena == seq(sz, k requires 0 <= k < sz => Initial(k))
      requires s == seq(sz, k requires 0 <= k < sz => Link(k))
      ensures Inv(fit, s, Below(sz), arena, h)
    {
      hide LinksOk, CandidateOk, Current;
      var all := Below(sz);
      assert forall k | 0 <= k < sz :: arena[k] == Initial(k) && s[k] == Link(k);
      hide Initial, LeftOf, RightOf, Link;
      forall i | i in all ensures LinksOk(s, all, i) {
        InitialLinks(s, i);
      }
      forall e | e in h
        ensures e.datum < |arena| && e.value == -arena[e.datum].err && CandidateOk(fit, sz, all, arena[e.datum])
      {
        InitialHeapHas(sz, e);
        InitialLinks(s, e.datum);
      }
      forall i | i in all ensures HasCurrent(s, arena, h, i) {
        var e := Entry(-Initial(i).err, i);
        InitialHeapHas(sz, e);
        InitialLinks(s, i);
        assert e in h && Current(s, i, arena[e.datum]);
      }
    }

    /** One round: take the best candidate; either it is stale and only leaves the heap, or its
        vertex is a cheapest live vertex and is unlinked. */
    method Round()
      requires Valid() && nvertices > 4
      modifies this`rvallocPos, this`nvertices, this`live, rvalloc, segs, heap, heap.a
      ensures Valid() && (heap.a == old(heap.a) || fresh(heap.a))
      ensures nvertices == old(nvertices) || nvertices == old(nvertices) - 1
      ensures nvertices == old(nvertices) ==> live == old(live) && heap.size < old(heap.size)
      ensures nvertices < old(nvertices) ==> GreedyStep(fit, old(live), live)
    {
      hide Ordered, OrderedFrom, Inv, CandidateOk, Cheapest, RingOk, FitsOn;
      ghost var h0, s0, arena := multiset(heap.Contents()), segs[..], rvalloc[..rvallocPos];
      HeapNotEmpty(fit, s0, live, arena, h0);
      assert rvallocPos < rvalloc.Length;
      var res, top := heap.RemoveMax();
      assert res;
      ghost var rest := multiset(heap.Contents());
      EntryOk(fit, s0, live, arena, h0, top);
      var rv := rvalloc[top.datum];
      assert rv == arena[top.datum] && segs[..] == s0;

      if !segs[rv.i].isVertex || !segs[rv.left].isVertex || !segs[rv.right].isVertex {
        DropStale(fit, s0, live, arena, h0, top, rest);
        return;
      }
      TopIsCheapest(fit, s0, live, arena, h0, top);
      RingOfInv(fit, s0, live, arena, h0);
      FreshIsCurrent(fit, s0, live, rv);
      CheapestIsLive(fit, live, rv.i);
      UnlinkNeighbours(s0, live, rv);
      RoundMerge(rv, top, h0);
    }

    method RoundMerge(rv: RemoveVertex, ghost top: Entry<nat>, ghost h0: multiset<Entry<nat>>)
      requires Shaped() && Ordered(heap.Contents()) && nvertices > 4 && rvallocPos == 3 * sz - 2 * nvertices
      requires Inv(fit, segs[..], live, rvalloc[..rvallocPos], h0)
      requires h0 == multiset(heap.Contents()) + multiset{top}
      requires top.datum < rvallocPos && rvalloc[top.datum] == rv
      requires rv.i < sz && rv.left < sz && rv.right < sz && rv.i in live && Current(segs[..], rv.i, rv)
      requires rv.left != rv.i && rv.right != rv.i && rv.left != rv.right
      requires FitsOn(fit, live) && Cheapest(fit, live, rv.i)
      modifies this`rvallocPos, this`nvertices, this`live, rvalloc, segs, heap, heap.a
      ensures Valid() && (heap.a == old(heap.a) || fresh(heap.a))
      ensures nvertices == old(nvertices) - 1 && GreedyStep(fit, old(live), live)
    {
      hide Ordered, OrderedFrom, Inv, Cheapest, Current, Unlinked, Children, GreedyStep, FitsOn, ChildrenFit;
      ghost var s0, arena, rest := segs[..], rvalloc[..rvallocPos], multiset(heap.Contents());
      RingOfInv(fit, s0, live, arena, h0);
      ChildrenFitAfter(fit, s0, live, rv);
      Unlink(rv);
      ghost var s := segs[..];

      AddChildren(rv);
      nvertices := nvertices - 1;
      live := live - {rv.i};
      assert segs[..] == s;
      UnlinkKeepsInv(fit, s0, old(live), arena, h0, top, rest, rv, rvalloc[..rvallocPos], multiset(heap.Contents()));
      StepTaken(fit, old(live), rv.i);
      CheapestIsLive(fit, old(live), rv.i);
    }

    method AddChildren(rv: RemoveVertex)
      requires segs.Length == sz && heap.Valid() && Ordered(heap.Contents()) && rvallocPos + 2 <= rvalloc.Length
      requires rv.left < sz && rv.right < sz && ChildrenFit(fit, segs[..], rv)
      modifies this`rvallocPos, rvalloc, heap, heap.a
      ensures rvallocPos == old(rvallocPos) + 2
      ensures heap.Valid() && Ordered(heap.Contents()) && (heap.a == old(heap.a) || fresh(heap.a))
      ensures Children(fit, segs[..], rv, old(rvalloc[..rvallocPos]), multiset(old(heap.Contents())),
                       rvalloc[..rvallocPos], multiset(heap.Contents()))
    {
      hide Ordered, OrderedFrom, Children, FitsOn, GapFree, ChildrenFit;
      ghost var s, arena, h := segs[..], rvalloc[..rvallocPos], multiset(heap.Contents());
      ChildrenFitParts(fit, s, rv);
      // the join to the left
      var child1 := RemoveVertex(rv.left, segs[rv.left].left, rv.right, fit(segs[rv.left].left, rv.right));
      AddCandidate(child1);
      ghost var arena1, h1 := rvalloc[..rvallocPos], multiset(heap.Contents());

      // the join to the right
      var child2 := RemoveVertex(rv.right, rv.left, segs[rv.right].right, fit(rv.left, segs[rv.right].right));
      AddCandidate(child2);
      ChildrenMade(fit, s, rv, arena, h, child1, child2, arena1, h1, rvalloc[..rvallocPos], multiset(heap.Contents()));
    }

    method Unlink(rv: RemoveVertex)
      requires segs.Length == sz && rv.i < sz && rv.left < sz && rv.right < sz
      requires rv.left != rv.i && rv.right != rv.i && rv.left != rv.right
      modifies segs
      ensures segs[..] == Unlinked(old(segs[..]), rv)
    {
      segs[rv.i] := segs[rv.i].(isVertex := false);
      segs[rv.left] := segs[rv.left].(right := rv.right);
      segs[rv.right] := segs[rv.right].(left := rv.left);
    }

    /** Takes a record from the pool for a candidate and adds it to the heap. */
    method AddCandidate(child: RemoveVertex)
      requires heap.Valid() && Ordered(heap.Contents()) && rvallocPos < rvalloc.Length
      modifies this`rvallocPos, rvalloc, heap, heap.a
      ensures heap.Valid() && Ordered(heap.Contents()) && (heap.a == old(heap.a) || fresh(heap.a))
      ensures rvallocPos == old(rvallocPos) + 1
      ensures rvalloc[..rvallocPos] == old(rvalloc[..rvallocPos]) + [child]
      ensures multiset(heap.Contents()) == multiset(old(heap.Contents())) + multiset{Entry(-child.err, old(rvallocPos))}
    {
      hide Ordered, OrderedFrom;
      rvalloc[rvallocPos] := child;
      rvallocPos := rvallocPos + 1;
      heap.Add(rvallocPos - 1, -child.err);
    }

    method Collect() returns (indices: seq<nat>)
      requires Valid()
      ensures |indices| == |live|
      ensures forall j, k | 0 <= j < k < |indices| :: indices[j] < indices[k]
      ensures forall i :: i in indices <==> i in live
    {
      hide Inv, RingOk, Ordered, Ascending;
      ghost var s := segs[..];
      RingOfInv(fit, s, live, rvalloc[..rvallocPos], multiset(heap.Contents()));
      RingVertices(s, live);
      indices := [];
      var i: nat := 0;
      AscendingBounds(indices, live, 0);
      while i < sz
        invariant i <= sz && Ascending(indices, live * Below(i))
      {
        assert s[i] == segs[i];
        AscendingNext(indices, live, i);
        if segs[i].isVertex {
          indices := indices + [i];
        }
        i := i + 1;
      }
      AscendingBounds(indices, live, sz);
    }
  }

  /** The elements of a set in ascending order. */
  ghost predicate Ascending(indices: seq<nat>, seen: set<nat>) {
    && |indices| == |seen| && (forall k :: k in indices <==> k in seen)
    && forall j, k | 0 <= j < k < |indices| :: indices[j] < indices[k]
  }

  lemma {:induction false} BelowNext(live: set<nat>, i: nat)
    ensures live * Below(i + 1) == if i in live then live * Below(i) + {i} else live * Below(i)
    ensures forall k | k in live * Below(i) :: k < i
  {}

  lemma {:induction false} AscendingAppend(indices: seq<nat>, seen: set<nat>, i: nat)
    requires Ascending(indices, seen) && forall k | k in seen :: k < i
    ensures Ascending(indices + [i], seen + {i})
  {
    var more := indices + [i];
    assert forall j | 0 <= j < |indices| :: indices[j] in indices;
    assert i !in seen;
    forall k ensures k in more <==> k in seen + {i} {
      assert k in indices <==> k in seen;
    }
  }

  lemma {:induction false} AscendingNext(indices: seq<nat>, live: set<nat>, i: nat)
    requires Ascending(indices, live * Below(i))
    ensures Ascending(if i in live then indices + [i] else indices, live * Below(i + 1))
  {
    var seen := live * Below(i);
    assert forall j | 0 <= j < |indices| :: indices[j] in seen;
    BelowNext(live, i);
    hide Below;
    if i in live { AscendingAppend(indices, seen, i); }
  }

  lemma {:induction false} AscendingBounds(indices: seq<nat>, live: set<nat>, sz: nat)
    ensures Ascending([], live * Below(0))
    ensures Ascending(indices, live * Below(sz)) && live <= Below(sz) ==>
      && |indices| == |live| && (forall k :: k in indices <==> k in live)
      && forall j, k | 0 <= j < k < |indices| :: indices[j] < indices[k]
  {
    assert live * Below(0) == {};
    if live <= Below(sz) { assert live * Below(sz) == live; }
  }

  lemma {:induction false} RingVertices(segs: seq<Segment>, live: set<nat>)
    requires RingOk(segs, live)
    ensures forall i | 0 <= i < |segs| :: segs[i].isVertex <==> i in live
    ensures live <= Below(|segs|)
  {}

  lemma {:induction false} StepTaken(fit: Fit, live: set<nat>, i: nat)
    requires |live| > 2 && FitsOn(fit, live) && Cheapest(fit, live, i)
    ensures GreedyStep(fit, live, live - {i})
  {
    hide Cheapest;
    var next := live - {i};
    assert Cheapest(fit, live, i) && next == live - {i};
  }

  lemma {:induction false} CheapestIsLive(fit: Fit, live: set<nat>, i: nat)
    requires |live| > 2 && FitsOn(fit, live) && Cheapest(fit, live, i)
    ensures i in live && |live - {i}| == |live| - 1
  {
    hide MergeError;
  }

  lemma {:induction false} EmptyOrdered(s: seq<Entry<nat>>)
    requires s == []
    ensures Ordered(s)
  {}

  lemma {:induction false} RingOfInv(fit: Fit, segs: seq<Segment>, live: set<nat>, arena: seq<RemoveVertex>,
                                     heap: multiset<Entry<nat>>)
    requires Inv(fit, segs, live, arena, heap)
    ensures RingOk(segs, live)
  {}

  lemma {:induction false} EntryOk(fit: Fit, segs: seq<Segment>, live: set<nat>, arena: seq<RemoveVertex>,
                                   heap: multiset<Entry<nat>>, e: Entry<nat>)
    requires Inv(fit, segs, live, arena, heap) && e in heap
    ensures e.datum < |arena| && CandidateOk(fit, |segs|, live, arena[e.datum])
  {}

  /** The heap-driven algorithm is a run of the naive one and returns its four survivors in
      contour order; it never fails and never overruns the candidate pool. */
  method QuadSegmentAgg(sz: nat, fit: Fit) returns (res: bool, indices: seq<nat>, ghost trace: seq<set<nat>>)
    requires sz >= 4 && FitsOn(fit, Below(sz))
    ensures res && GreedyRun(fit, sz, trace) && |trace| == sz - 3
    ensures |indices| == 4 && (forall j, k | 0 <= j < k < 4 :: indices[j] < indices[k])
    ensures forall i :: i in indices <==> i in trace[|trace| - 1]
  {
    hide Inv, Ordered, OrderedFrom, GreedyStep;
    var r := new Reduction(sz, fit);
    trace := [r.live];
    while r.nvertices > 4
      invariant r.Valid() && r.nvertices >= 4 && r.sz == sz && r.fit == fit
      invariant fresh(r) && fresh(r.rvalloc) && fresh(r.segs) && fresh(r.heap) && fresh(r.heap.a)
      invariant |trace| == sz - r.nvertices + 1 && trace[0] == Below(sz) && trace[|trace| - 1] == r.live
      invariant forall k {:trigger trace[k]} | 0 < k < |trace| :: GreedyStep(fit, trace[k-1], trace[k])
      decreases r.nvertices, r.heap.size
    {
      ghost var n := r.nvertices;
      r.Round();
      if r.nvertices < n {
        trace := trace + [r.live];
      }
    }
    indices := r.Collect();
    res := true;
  }
}
