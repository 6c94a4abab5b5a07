/** Reconciling overlapping detections of one tag (the loop in `apriltag_detector_detect`,
    Robot/apriltags/apriltag.c). */
module Reconcile {

  /** `corners` holds the corner coordinates in the order in which they are compared. */
  datatype Detection = Detection(id: int, family: nat, hamming: int, margin: real, goodness: real, corners: seq<real>)

  /** Whether the outlines of two detections overlap; nothing is assumed about it. */
  type Overlap = (seq<real>, seq<real>) -> bool

  /** Two detections of one tag that overlap. */
  ghost predicate Conflict(overlaps: Overlap, a: Detection, b: Detection) {
    a.id == b.id && a.family == b.family && overlaps(a.corners, b.corners)
  }

  // ---------------------------------------------------------------------------------------
  // Preference

  /** What is compared, first things first; smaller is better. */
  ghost function Keys(a: Detection): seq<real> {
    [a.hamming as real, -a.margin, -a.goodness] + a.corners
  }

  function PreferSmaller(pref: int, q0: real, q1: real): int {
    if pref != 0 then pref else if q0 < q1 then -1 else if q1 < q0 then 1 else 0
  }

  /** -1 if the keys x come first in lexicographic order, 1 if y do, 0 if they are equal. */
  ghost function Compare(x: seq<real>, y: seq<real>): int
    requires |x| == |y|
  {
    if x == [] then 0 else if x[0] < y[0] then -1 else if y[0] < x[0] then 1 else Compare(x[1..], y[1..])
  }

  ghost predicate WellFormed(a: Detection) {
    |a.corners| == 8
  }

  /** x comes before y: it is smaller where they first differ. */
  ghost predicate First(x: seq<real>, y: seq<real>) {
    exists i :: 0 <= i < |x| && i < |y| && x[i] < y[i] && x[..i] == y[..i]
  }

  /** a is preferred to b: fewer bit errors, then a larger margin, then more goodness, then corners that come before. */
  ghost predicate Better(a: Detection, b: Detection) {
    || a.hamming < b.hamming
    || (a.hamming == b.hamming && a.margin > b.margin)
    || (a.hamming == b.hamming && a.margin == b.margin && a.goodness > b.goodness)
    || (a.hamming == b.hamming && a.margin == b.margin && a.goodness == b.goodness && First(a.corners, b.corners))
  }

  lemma {:induction false} CompareFirst(x: seq<real>, y: seq<real>)
    requires |x| == |y|
    ensures Compare(x, y) < 0 <==> First(x, y)
  {
    if x != [] && x[0] == y[0] {
      CompareFirst(x[1..], y[1..]);
      if i :| 0 <= i < |x| && x[i] < y[i] && x[..i] == y[..i] {
        assert x[..i][1..] == x[1..][..i - 1] && y[..i][1..] == y[1..][..i - 1];
        assert x[1..][i - 1] < y[1..][i - 1];
      }
      if i :| 0 <= i < |x| - 1 && x[1..][i] < y[1..][i] && x[1..][..i] == y[1..][..i] {
        assert x[..i + 1] == [x[0]] + x[1..][..i] && y[..i + 1] == [y[0]] + y[1..][..i];
        assert x[i + 1] < y[i + 1];
      }
    } else if x != [] {
      FirstAtOnce(x, y);
    }
  }

  lemma {:induction false} FirstAtOnce(x: seq<real>, y: seq<real>)
    requires |x| == |y| > 0 && x[0] != y[0]
    ensures First(x, y) <==> x[0] < y[0]
  {
    assert x[..0] == y[..0];
    forall i | 0 < i < |x| ensures x[..i] != y[..i] {
      assert x[..i][0] != y[..i][0];
    }
  }

  /** The lexicographic order of the keys is this preference. */
  lemma {:induction false} KeysOrder(a: Detection, b: Detection)
    requires WellFormed(a) && WellFormed(b)
    ensures Compare(Keys(a), Keys(b)) < 0 <==> Better(a, b)
  {
    hide First;
    var x, y := Keys(a), Keys(b);
    assert x[0..] == x && y[0..] == y;
    assert x[3..] == a.corners && y[3..] == b.corners;
    ComparePrefix(x, y, 0);
    ComparePrefix(x, y, 1);
    ComparePrefix(x, y, 2);
    CompareFirst(a.corners, b.corners);
  }

  lemma {:induction false} OrderSigns(a: Detection, b: Detection)
    requires WellFormed(a) && WellFormed(b)
    ensures |Keys(a)| == |Keys(b)| && (Compare(Keys(a), Keys(b)) < 0 <==> Better(a, b))
    ensures Compare(Keys(a), Keys(b)) > 0 <==> Better(b, a)
    ensures Compare(Keys(b), Keys(a)) == -Compare(Keys(a), Keys(b))
  {
    hide Better, Compare, Keys;
    KeysParts(a);
    KeysParts(b);
    KeysOrder(a, b);
    KeysOrder(b, a);
    CompareSwaps(Keys(a), Keys(b));
  }

  /** -1 to keep a, 1 to keep b, 0 if undecided. */
  method Prefer(a: Detection, b: Detection) returns (pref: int)
    requires WellFormed(a) && WellFormed(b)
    ensures pref == Compare(Keys(a), Keys(b))
    ensures (pref < 0 <==> Better(a, b)) && (pref > 0 <==> Better(b, a))
  {
    OrderSigns(a, b);
    hide Better, Compare, Keys;
    pref := CompareAll(a, b);
  }

  /** The chain of comparisons. */
  method CompareAll(a: Detection, b: Detection) returns (pref: int)
    requires WellFormed(a) && WellFormed(b)
    ensures |Keys(a)| == |Keys(b)| && pref == Compare(Keys(a), Keys(b))
  {
    hide Compare, Keys, PreferSmaller, Rest;
    ghost var x, y := Keys(a), Keys(b);
    KeysParts(a);
    KeysParts(b);
    RestEnds(x, y, 0);
    pref := 0;
    PreferNext(x, y, 0, pref);
    pref := PreferSmaller(pref, a.hamming as real, b.hamming as real);
    PreferNext(x, y, 1, pref);
    pref := PreferSmaller(pref, -a.margin, -b.margin);
    PreferNext(x, y, 2, pref);
    pref := PreferSmaller(pref, -a.goodness, -b.goodness);
    var i: nat := 0;
    while i < 4
      invariant i <= 4 && |x| == |y| == 11
      invariant Rest(x, y, 3 + 2 * i, pref) == Compare(x, y)
    {
      PreferNext(x, y, 3 + 2 * i, pref);
      pref := PreferSmaller(pref, a.corners[2 * i], b.corners[2 * i]);
      PreferNext(x, y, 4 + 2 * i, pref);
      pref := PreferSmaller(pref, a.corners[2 * i + 1], b.corners[2 * i + 1]);
      i := i + 1;
    }
    RestEnds(x, y, pref);
  }

  lemma {:induction false} KeysParts(a: Detection)
    requires WellFormed(a)
    ensures var x := Keys(a);
      && |x| == 11 && x[0] == a.hamming as real && x[1] == -a.margin && x[2] == -a.goodness
      && forall k | 0 <= k < 8 :: x[3 + k] == a.corners[k]
  {}

  /** The outcome when the keys before k have been compared, with result pref. */
  ghost function Rest(x: seq<real>, y: seq<real>, k: nat, pref: int): int
    requires |x| == |y| && k <= |x|
  {
    if pref != 0 then pref else Compare(x[k..], y[k..])
  }

  lemma {:induction false} PreferNext(x: seq<real>, y: seq<real>, k: nat, pref: int)
    requires |x| == |y| && k < |x|
    ensures Rest(x, y, k, pref) == Rest(x, y, k + 1, PreferSmaller(pref, x[k], y[k]))
  {
    hide Compare;
    ComparePrefix(x, y, k);
  }

  lemma {:induction false} RestEnds(x: seq<real>, y: seq<real>, pref: int)
    requires |x| == |y|
    ensures Rest(x, y, 0, 0) == Compare(x, y) && Rest(x, y, |x|, pref) == pref
  {
    assert x[0..] == x && y[0..] == y && x[|x|..] == y[|y|..] == [];
  }

  lemma {:induction false} ComparePrefix(x: seq<real>, y: seq<real>, k: nat)
    requires |x| == |y| && k < |x|
    ensures Compare(x[k..], y[k..]) ==
      if x[k] < y[k] then -1 else if y[k] < x[k] then 1 else Compare(x[k + 1..], y[k + 1..])
  {
    assert x[k..][1..] == x[k + 1..] && y[k..][1..] == y[k + 1..];
  }

  lemma {:induction false} CompareSwaps(x: seq<real>, y: seq<real>)
    requires |x| == |y|
    ensures Compare(y, x) == -Compare(x, y)
  {
    if x != [] { CompareSwaps(x[1..], y[1..]); }
  }

  lemma {:induction false} CompareTransitive(x: seq<real>, y: seq<real>, z: seq<real>)
    requires |x| == |y| == |z| && Compare(x, y) <= 0 && Compare(y, z) <= 0
    ensures Compare(x, z) <= 0
  {
    if x != [] && x[0] == y[0] == z[0] { CompareTransitive(x[1..], y[1..], z[1..]); }
  }

  lemma {:induction false} CompareSelf(x: seq<real>)
    ensures Compare(x, x) == 0
  {
    if x != [] { CompareSelf(x[1..]); }
  }

  // ---------------------------------------------------------------------------------------
  // Who yields to whom

  /** a is dropped when compared with b. */
  ghost predicate Yields(overlaps: Overlap, a: Detection, b: Detection) {
    && WellFormed(a) && WellFormed(b)
    && ((Conflict(overlaps, b, a) && Compare(Keys(b), Keys(a)) < 0)
        || (Conflict(overlaps, a, b) && Compare(Keys(a), Keys(b)) >= 0))
  }

  ghost predicate IsChain(overlaps: Overlap, c: seq<Detection>, a: Detection, b: Detection) {
    && |c| > 0 && c[0] == a && c[|c| - 1] == b && WellFormed(a)
    && forall i {:trigger c[i]} | 0 < i < |c| :: Yields(overlaps, c[i-1], c[i])
  }

  /** A chain of detections, each yielding to the next, leads from a to b. */
  ghost predicate Linked(overlaps: Overlap, a: Detection, b: Detection) {
    exists c :: IsChain(overlaps, c, a, b)
  }

  lemma {:induction false} LinkedSelf(overlaps: Overlap, a: Detection)
    requires WellFormed(a)
    ensures Linked(overlaps, a, a)
  {
    assert IsChain(overlaps, [a], a, a);
  }

  lemma {:induction false} LinkedStep(overlaps: Overlap, a: Detection, b: Detection, w: Detection)
    requires Linked(overlaps, a, b) && Yields(overlaps, b, w)
    ensures Linked(overlaps, a, w)
  {
    hide Yields;
    var c :| IsChain(overlaps, c, a, b);
    assert IsChain(overlaps, c + [w], a, w);
  }

  /** The end of a chain is at least as preferred as its start, and is the same tag. */
  lemma {:induction false} ChainImproves(overlaps: Overlap, c: seq<Detection>, a: Detection, b: Detection)
    requires IsChain(overlaps, c, a, b)
    ensures WellFormed(b) && Compare(Keys(b), Keys(a)) <= 0 && b.id == a.id && b.family == a.family
    decreases |c|
  {
    hide Yields, Keys, Compare;
    if |c| == 1 {
      CompareSelf(Keys(a));
    } else {
      var m := c[|c| - 2];
      ChainFront(overlaps, c, a, b);
      ChainImproves(overlaps, c[..|c| - 1], a, m);
      YieldsToBetter(overlaps, m, b);
      KeysParts(a);
      KeysParts(m);
      KeysParts(b);
      CompareTransitive(Keys(b), Keys(m), Keys(a));
    }
  }

  lemma {:induction false} ChainFront(overlaps: Overlap, c: seq<Detection>, a: Detection, b: Detection)
    requires IsChain(overlaps, c, a, b) && |c| > 1
    ensures IsChain(overlaps, c[..|c| - 1], a, c[|c| - 2]) && Yields(overlaps, c[|c| - 2], b)
  {
    hide Yields;
    var front := c[..|c| - 1];
    forall i {:trigger front[i]} | 0 < i < |front| ensures Yields(overlaps, front[i-1], front[i]) {
      assert front[i] == c[i] && front[i-1] == c[i-1];
    }
    assert Yields(overlaps, c[|c| - 2], c[|c| - 1]);
  }

  lemma {:induction false} YieldsToBetter(overlaps: Overlap, a: Detection, b: Detection)
    requires Yields(overlaps, a, b)
    ensures WellFormed(a) && WellFormed(b) && b.id == a.id && b.family == a.family && Compare(Keys(b), Keys(a)) <= 0
  {
    hide Compare;
    CompareSwaps(Keys(a), Keys(b));
  }

  // ---------------------------------------------------------------------------------------
  // The loop

  /** Removal in constant time: the last element fills the gap. */
  function Removed<T>(s: seq<T>, i: nat): (r: seq<T>)
    requires i < |s|
    ensures |r| == |s| - 1
  {
    if i < |s| - 1 then s[i := s[|s| - 1]][..|s| - 1] else s[..|s| - 1]
  }

  lemma {:induction false} RemovedMultiset<T>(s: seq<T>, i: nat)
    requires i < |s|
    ensures multiset(Removed(s, i)) + multiset{s[i]} == multiset(s)
  {
    var last := |s| - 1;
    assert s == s[..last] + [s[last]];
    if i < last {
      assert s[i := s[last]][..last] == s[..last][i := s[last]];
    }
  }

  /** Nothing before i0 conflicts with anything after itself. */
  ghost predicate Settled(overlaps: Overlap, s: seq<Detection>, i0: nat) {
    forall a, b | 0 <= a < i0 && a < b < |s| :: !Conflict(overlaps, s[a], s[b])
  }

  /** Nothing in (i0, i1) conflicts with i0. */
  ghost predicate Scanned(overlaps: Overlap, s: seq<Detection>, i0: nat, i1: nat) {
    i0 < |s| && forall b | i0 < b < i1 && b < |s| :: !Conflict(overlaps, s[i0], s[b])
  }

  /** Nothing appears from nowhere, and every detection is linked to one that is still there. */
  ghost predicate Accounted(overlaps: Overlap, all: seq<Detection>, s: seq<Detection>) {
    && multiset(s) <= multiset(all)
    && forall d | d in all :: exists w :: w in s && Linked(overlaps, d, w)
  }

  lemma {:induction false} DropKeepsAccount(overlaps: Overlap, all: seq<Detection>, s: seq<Detection>, lose: nat,
                                            win: nat)
    requires Accounted(overlaps, all, s) && lose < |s| && win < |s| && lose != win && Yields(overlaps, s[lose], s[win])
    ensures Accounted(overlaps, all, Removed(s, lose))
  {
    var r := Removed(s, lose);
    RemovedMultiset(s, lose);
    assert s[win] in r by {
      var last := |s| - 1;
      assert if win == last then r[lose] == s[win] else r[win] == s[win];
    }
    forall d | d in all ensures exists w :: w in r && Linked(overlaps, d, w) {
      var w :| w in s && Linked(overlaps, d, w);
      if w == s[lose] {
        LinkedStep(overlaps, d, w, s[win]);
      } else {
        assert w in multiset(s);
        assert w in multiset(r);
      }
    }
  }

  lemma {:induction false} DropKeepsSettled(overlaps: Overlap, s: seq<Detection>, i0: nat, i: nat)
    requires Settled(overlaps, s, i0) && i0 <= i < |s|
    ensures Settled(overlaps, Removed(s, i), i0)
  {
    var r := Removed(s, i);
    forall a, b | 0 <= a < i0 && a < b < |r| ensures !Conflict(overlaps, r[a], r[b]) {
      assert r[a] == s[a];
      assert r[b] == if b == i then s[|s| - 1] else s[b];
    }
  }

  /** A detection that beats everything it overlaps is never dropped. */
  ghost predicate Unbeaten(overlaps: Overlap, all: seq<Detection>, d: Detection) {
    && d in all && WellFormed(d)
    && forall e | e in all && e != d && WellFormed(e) && (Conflict(overlaps, d, e) || Conflict(overlaps, e, d)) ::
         Compare(Keys(d), Keys(e)) < 0
  }

  lemma {:induction false} UnbeatenYieldsToNone(overlaps: Overlap, all: seq<Detection>, d: Detection, e: Detection)
    requires Unbeaten(overlaps, all, d) && e in all && e != d
    ensures !Yields(overlaps, d, e)
  {
    if WellFormed(e) { CompareSwaps(Keys(d), Keys(e)); }
  }

  // What the result means

  /** a and b are of one tag and overlap, whichever comes first. */
  ghost predicate Overlapping(overlaps: Overlap, a: Detection, b: Detection) {
    a.id == b.id && a.family == b.family && (overlaps(a.corners, b.corners) || overlaps(b.corners, a.corners))
  }

  /** From a to b, each overlapping the one before and at least as good. */
  ghost predicate IsClimb(overlaps: Overlap, c: seq<Detection>, a: Detection, b: Detection) {
    && |c| > 0 && c[0] == a && c[|c| - 1] == b
    && forall i {:trigger c[i]} | 0 < i < |c| :: Overlapping(overlaps, c[i-1], c[i]) && !Better(c[i-1], c[i])
  }

  ghost predicate Climbs(overlaps: Overlap, a: Detection, b: Detection) {
    exists c :: IsClimb(overlaps, c, a, b)
  }

  lemma {:induction false} YieldsClimbs(overlaps: Overlap, a: Detection, b: Detection)
    requires Yields(overlaps, a, b)
    ensures Overlapping(overlaps, a, b) && !Better(a, b)
  {
    hide Compare, Keys, Better;
    OrderSigns(a, b);
  }

  lemma {:induction false} LinkedClimbs(overlaps: Overlap, a: Detection, b: Detection)
    requires Linked(overlaps, a, b)
    ensures Climbs(overlaps, a, b)
  {
    hide Yields, Better, Overlapping, WellFormed;
    var c :| IsChain(overlaps, c, a, b);
    forall i {:trigger c[i]} | 0 < i < |c| ensures Overlapping(overlaps, c[i-1], c[i]) && !Better(c[i-1], c[i]) {
      assert Yields(overlaps, c[i-1], c[i]);
      YieldsClimbs(overlaps, c[i-1], c[i]);
    }
    assert IsClimb(overlaps, c, a, b);
  }

  lemma {:induction false} AccountedClimbs(overlaps: Overlap, all: seq<Detection>, s: seq<Detection>)
    requires Accounted(overlaps, all, s)
    ensures forall d | d in all :: exists w :: w in s && Climbs(overlaps, d, w)
  {
    hide Linked, Climbs;
    forall d | d in all ensures exists w :: w in s && Climbs(overlaps, d, w) {
      var w :| w in s && Linked(overlaps, d, w);
      LinkedClimbs(overlaps, d, w);
    }
  }

  /** A detection better than every other one that it overlaps is unbeaten. */
  lemma {:induction false} BestIsUnbeaten(overlaps: Overlap, all: seq<Detection>, d: Detection)
    requires d in all && WellFormed(d)
    requires forall e | e in all && e != d && Overlapping(overlaps, d, e) :: Better(d, e)
    ensures Unbeaten(overlaps, all, d)
  {
    hide Compare, Better;
    forall e | e in all && e != d && WellFormed(e) && (Conflict(overlaps, d, e) || Conflict(overlaps, e, d))
      ensures Compare(Keys(d), Keys(e)) < 0
    {
      KeysOrder(d, e);
    }
  }

  method ReconcileDetections(all: seq<Detection>, overlaps: Overlap) returns (detections: seq<Detection>)
    requires forall d | d in all :: WellFormed(d)
    ensures forall a, b | 0 <= a < b < |detections| && detections[a].id == detections[b].id &&
      detections[a].family == detections[b].family :: !overlaps(detections[a].corners, detections[b].corners)
    ensures multiset(detections) <= multiset(all)
    ensures forall d | d in all :: exists w :: w in detections && Climbs(overlaps, d, w)
    ensures forall d | d in all && (forall e | e in all && e != d && Overlapping(overlaps, d, e) :: Better(d, e)) ::
      d in detections
    ensures Accounted(overlaps, all, detections)
  {
    detections := Reconciled(all, overlaps);
    NoneOverlap(overlaps, detections);
    AccountedClimbs(overlaps, all, detections);
    AccountedMultiset(overlaps, all, detections);
    hide Overlapping, Better, Unbeaten, Climbs, Accounted, WellFormed;
    forall d | d in all && (forall e | e in all && e != d && Overlapping(overlaps, d, e) :: Better(d, e))
      ensures d in detections
    {
      BestIsUnbeaten(overlaps, all, d);
    }
  }

  lemma {:induction false} NoneOverlap(overlaps: Overlap, s: seq<Detection>)
    requires forall a, b | 0 <= a < b < |s| :: !Conflict(overlaps, s[a], s[b])
    ensures forall a, b | 0 <= a < b < |s| && s[a].id == s[b].id && s[a].family == s[b].family ::
      !overlaps(s[a].corners, s[b].corners)
  {}

  lemma {:induction false} AccountedMultiset(overlaps: Overlap, all: seq<Detection>, s: seq<Detection>)
    requires Accounted(overlaps, all, s)
    ensures multiset(s) <= multiset(all)
  {}

  /** The loop over the detections. */
  method Reconciled(all: seq<Detection>, overlaps: Overlap) returns (detections: seq<Detection>)
    requires forall d | d in all :: WellFormed(d)
    ensures forall a, b | 0 <= a < b < |detections| :: !Conflict(overlaps, detections[a], detections[b])
    ensures Accounted(overlaps, all, detections)
    ensures forall d | Unbeaten(overlaps, all, d) :: d in detections
  {
    hide Conflict, Unbeaten, Removed, Accounted, Settled;
    detections := all;
    AllAccounted(overlaps, all);
    var i0: nat := 0;
    while i0 < |detections|
      invariant i0 <= |detections| && Settled(overlaps, detections, i0) && Accounted(overlaps, all, detections)
      invariant forall d | Unbeaten(overlaps, all, d) :: d in detections
      decreases |detections| - i0
    {
      var dropped;
      detections, dropped := Round(all, detections, i0, overlaps);
      if !dropped {
        i0 := i0 + 1;
      }
    }
    AllSettled(overlaps, detections);
  }

  lemma {:induction false} AllAccounted(overlaps: Overlap, all: seq<Detection>)
    requires forall d | d in all :: WellFormed(d)
    ensures Accounted(overlaps, all, all) && Settled(overlaps, all, 0)
    ensures forall d | Unbeaten(overlaps, all, d) :: d in all
  {
    hide Linked;
    forall d | d in all ensures exists w :: w in all && Linked(overlaps, d, w) {
      LinkedSelf(overlaps, d);
    }
    forall d | Unbeaten(overlaps, all, d) ensures d in all { UnbeatenIsThere(overlaps, all, d); }
  }

  lemma {:induction false} AllSettled(overlaps: Overlap, s: seq<Detection>)
    requires Settled(overlaps, s, |s|)
    ensures forall a, b | 0 <= a < b < |s| :: !Conflict(overlaps, s[a], s[b])
  {}

  lemma {:induction false} UnbeatenIsThere(overlaps: Overlap, all: seq<Detection>, d: Detection)
    requires Unbeaten(overlaps, all, d)
    ensures d in all
  {}

  lemma {:induction false} DropKeepsUnbeaten(overlaps: Overlap, all: seq<Detection>, s: seq<Detection>, lose: nat,
                                             win: nat)
    requires lose < |s| && win < |s| && lose != win && Yields(overlaps, s[lose], s[win]) && Accounted(overlaps, all, s)
    requires forall d | Unbeaten(overlaps, all, d) :: d in s
    ensures forall d | Unbeaten(overlaps, all, d) :: d in Removed(s, lose)
  {
    hide Yields;
    var r := Removed(s, lose);
    RemovedMultiset(s, lose);
    forall d | Unbeaten(overlaps, all, d) ensures d in r {
      hide Unbeaten;
      assert s[win] in multiset(s) && s[win] in multiset(all) && s[win] in all;
      if d == s[lose] && s[win] != d {
        UnbeatenYieldsToNone(overlaps, all, d, s[win]);
      }
      assert d == s[lose] ==> s[win] == d;
      assert d == s[lose] ==> multiset(s)[d] >= 2 by {
        if d == s[lose] { TwoCopies(s, lose, win); }
      }
      assert d in multiset(s);
      assert d in multiset(r);
    }
  }

  lemma {:induction false} TwoCopies<T>(s: seq<T>, i: nat, j: nat)
    requires i < |s| && j < |s| && i != j && s[i] == s[j]
    ensures multiset(s)[s[i]] >= 2
  {
    var lo, hi := if i < j then i else j, if i < j then j else i;
    assert s == s[..lo] + [s[lo]] + s[lo + 1..hi] + [s[hi]] + s[hi + 1..];
  }

  /** Compares detection i0 with all later ones; drops the loser of each conflict, and stops if
      that is i0 itself. */
  method Round(ghost all: seq<Detection>, s: seq<Detection>, i0: nat, overlaps: Overlap)
    returns (r: seq<Detection>, dropped: bool)
    requires i0 < |s| && Settled(overlaps, s, i0) && Accounted(overlaps, all, s)
    requires (forall d | d in all :: WellFormed(d)) && forall d | Unbeaten(overlaps, all, d) :: d in s
    ensures |r| <= |s| && Accounted(overlaps, all, r) && forall d | Unbeaten(overlaps, all, d) :: d in r
    ensures dropped ==> |r| < |s| && i0 <= |r| && Settled(overlaps, r, i0)
    ensures !dropped ==> i0 < |r| && Settled(overlaps, r, i0 + 1)
  {
    hide Conflict, Yields, Linked, Unbeaten, Removed, Accounted, Settled;
    r, dropped := s, false;
    var i1 := i0 + 1;
    while i1 < |r|
      invariant i0 < i1 <= |r| <= |s| && Settled(overlaps, r, i0) && Accounted(overlaps, all, r)
      invariant Scanned(overlaps, r, i0, i1) && forall d | Unbeaten(overlaps, all, d) :: d in r
      decreases |r| - i1
    {
      var det0, det1 := r[i0], r[i1];
      ConflictIs(overlaps, det0, det1);
      if det0.id == det1.id && det0.family == det1.family && overlaps(det0.corners, det1.corners) {
        AccountedWellFormed(overlaps, all, r);
        var pref := Prefer(det0, det1);
        PairYields(overlaps, det0, det1);
        if pref < 0 {
          DropKeepsAccount(overlaps, all, r, i1, i0);
          DropKeepsSettled(overlaps, r, i0, i1);
          DropKeepsUnbeaten(overlaps, all, r, i1, i0);
          DropKeepsScanned(overlaps, r, i0, i1);
          r := Removed(r, i1);
        } else {
          DropKeepsAccount(overlaps, all, r, i0, i1);
          DropKeepsSettled(overlaps, r, i0, i0);
          DropKeepsUnbeaten(overlaps, all, r, i0, i1);
          r, dropped := Removed(r, i0), true;
          return;
        }
      } else {
        i1 := i1 + 1;
      }
    }
    ScannedSettles(overlaps, r, i0);
  }

  lemma {:induction false} ConflictIs(overlaps: Overlap, a: Detection, b: Detection)
    ensures Conflict(overlaps, a, b) <==> a.id == b.id && a.family == b.family && overlaps(a.corners, b.corners)
  {}

  lemma {:induction false} DropKeepsScanned(overlaps: Overlap, s: seq<Detection>, i0: nat, i1: nat)
    requires Scanned(overlaps, s, i0, i1) && i0 < i1 < |s|
    ensures Scanned(overlaps, Removed(s, i1), i0, i1)
  {
    assert forall b | 0 <= b < i1 :: Removed(s, i1)[b] == s[b];
  }

  lemma {:induction false} ScannedSettles(overlaps: Overlap, s: seq<Detection>, i0: nat)
    requires Settled(overlaps, s, i0) && Scanned(overlaps, s, i0, |s|)
    ensures Settled(overlaps, s, i0 + 1)
  {}

  lemma {:induction false} AccountedWellFormed(overlaps: Overlap, all: seq<Detection>, s: seq<Detection>)
    requires Accounted(overlaps, all, s) && forall d | d in all :: WellFormed(d)
    ensures forall d | d in s :: WellFormed(d)
  {
    forall d | d in s ensures WellFormed(d) {
      assert d in multiset(s) && d in multiset(all);
    }
  }

  lemma {:induction false} PairYields(overlaps: Overlap, a: Detection, b: Detection)
    requires WellFormed(a) && WellFormed(b) && Conflict(overlaps, a, b)
    ensures if Compare(Keys(a), Keys(b)) < 0 then Yields(overlaps, b, a) else Yields(overlaps, a, b)
  {}

  /** Every detection, dropped or not, has a survivor of the same tag that is at least as
      preferred and that a chain of conflicts leads to. */
  lemma {:induction false} SurvivorAtLeastAsGood(overlaps: Overlap, all: seq<Detection>, s: seq<Detection>,
                                                 d: Detection) returns (w: Detection)
    requires Accounted(overlaps, all, s) && d in all
    ensures w in s && Linked(overlaps, d, w)
    ensures WellFormed(d) && WellFormed(w) && Compare(Keys(w), Keys(d)) <= 0 && w.id == d.id && w.family == d.family
  {
    w :| w in s && Linked(overlaps, d, w);
    var c :| IsChain(overlaps, c, d, w);
    ChainImproves(overlaps, c, d, w);
  }
}
