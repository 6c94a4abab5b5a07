/** Disjoint sets with union by size and path compression
    (Robot/apriltags/common/unionfind.h). */
module UnionFind {
  import opened FiniteSets
  import opened Bits

  /** One record of the table. A record that is its own parent is a root; `size` is only
      meaningful at a root. */
  datatype Rec = Rec(parent: nat, size: nat)

  // ---------------------------------------------------------------------------------------
  // The record table as a forest

  /** Parents stay in the table, and following a parent link at least doubles `size`: the size a
      record had when it stopped being a root is frozen, so it ranks the chain. */
  ghost predicate Forest(d: seq<Rec>) {
    && (forall i | 0 <= i < |d| :: d[i].parent < |d| && 1 <= d[i].size <= |d|)
    && (forall i | 0 <= i < |d| && d[i].parent != i :: 2 * d[i].size <= d[d[i].parent].size)
  }

  /** The root of the tree that holds x. */
  ghost function Rep(d: seq<Rec>, x: nat): (r: nat)
    requires Forest(d) && x < |d|
    ensures r < |d| && d[r].parent == r && d[x].size <= d[r].size
    ensures d[x].parent != x ==> 2 * d[x].size <= d[r].size
    decreases |d| - d[x].size
  {
    if d[x].parent == x then x else Rep(d, d[x].parent)
  }

  ghost function Class(d: seq<Rec>, r: nat): set<nat>
    requires Forest(d)
  {
    set y | 0 <= y < |d| && Rep(d, y) == r
  }

  /** Each root's `size` is the cardinality of its tree. */
  ghost predicate Sized(d: seq<Rec>)
    requires Forest(d)
  {
    forall r | 0 <= r < |d| && d[r].parent == r :: d[r].size == |Class(d, r)|
  }

  /** Number of parent links from x to its root. */
  ghost function Depth(d: seq<Rec>, x: nat): nat
    requires Forest(d) && x < |d|
    decreases |d| - d[x].size
  {
    if d[x].parent == x then 0 else 1 + Depth(d, d[x].parent)
  }

  lemma {:induction false} MulMono(k: nat, a: nat, b: nat)
    requires a <= b
    ensures k * a <= k * b
  {}

  lemma {:induction false} DepthDoubles(d: seq<Rec>, x: nat)
    requires Forest(d) && x < |d|
    ensures Pow2(Depth(d, x)) * d[x].size <= d[Rep(d, x)].size
    decreases |d| - d[x].size
  {
    hide Pow2;
    var p := d[x].parent;
    if p != x {
      DepthDoubles(d, p);
      MulMono(Pow2(Depth(d, p)), 2 * d[x].size, d[p].size);
      DoubleOver(Depth(d, p), d[x].size);
    } else {
      DoubleOver(0, d[x].size);
    }
  }

  lemma {:induction false} DoubleOver(k: nat, size: nat)
    ensures Pow2(0) == 1 && Pow2(k + 1) * size == Pow2(k) * (2 * size)
  {}

  /** The parent chain from x is at most log2 of the size of its class. */
  lemma {:induction false} DepthIsLogarithmic(d: seq<Rec>, x: nat)
    requires Forest(d) && Sized(d) && x < |d|
    ensures Pow2(Depth(d, x)) <= |Class(d, Rep(d, x))|
  {
    DepthDoubles(d, x);
    MulMono(Pow2(Depth(d, x)), 1, d[x].size);
    RootsAreReps(d, Rep(d, x));
  }

  // ---------------------------------------------------------------------------------------
  // Path compression: hang x directly below its root

  function Redirected(d: seq<Rec>, x: nat, r: nat): seq<Rec>
    requires x < |d|
  {
    d[x := d[x].(parent := r)]
  }

  lemma {:induction false} RedirectKeepsForest(d: seq<Rec>, x: nat)
    requires Forest(d) && x < |d|
    ensures Forest(Redirected(d, x, Rep(d, x)))
  {}

  lemma {:induction false} RedirectKeepsRep(d: seq<Rec>, x: nat, y: nat)
    requires Forest(d) && x < |d| && y < |d|
    requires Forest(Redirected(d, x, Rep(d, x)))
    ensures Rep(Redirected(d, x, Rep(d, x)), y) == Rep(d, y)
    decreases |d| - d[y].size
  {
    if d[y].parent != y && y != x {
      RedirectKeepsRep(d, x, d[y].parent);
    }
  }

  /** Same roots and sizes: all that path compression may do. */
  ghost predicate SameTrees(d: seq<Rec>, e: seq<Rec>) {
    && Forest(d) && Forest(e) && |d| == |e|
    && (forall y | 0 <= y < |d| :: Rep(e, y) == Rep(d, y))
    && (forall y | 0 <= y < |d| :: e[y].size == d[y].size)
  }

  lemma {:induction false} RedirectKeepsTrees(d: seq<Rec>, x: nat)
    requires Forest(d) && x < |d|
    ensures SameTrees(d, Redirected(d, x, Rep(d, x)))
  {
    RedirectKeepsForest(d, x);
    forall y | 0 <= y < |d| ensures Rep(Redirected(d, x, Rep(d, x)), y) == Rep(d, y) {
      RedirectKeepsRep(d, x, y);
    }
  }

  lemma {:induction false} RootsAreReps(d: seq<Rec>, r: nat)
    requires Forest(d) && r < |d|
    ensures d[r].parent == r <==> Rep(d, r) == r
  {}

  lemma {:induction false} SameTreesSized(d: seq<Rec>, e: seq<Rec>)
    requires SameTrees(d, e) && Sized(d)
    ensures Sized(e)
  {
    forall r | 0 <= r < |e| && e[r].parent == r ensures e[r].size == |Class(e, r)| {
      RootsAreReps(d, r);
      RootsAreReps(e, r);
      assert Class(e, r) == Class(d, r);
    }
  }

  // ---------------------------------------------------------------------------------------
  // Grafting one root below another

  function Linked(d: seq<Rec>, low: nat, high: nat): seq<Rec>
    requires low < |d| && high < |d|
  {
    d[low := d[low].(parent := high)][high := d[high].(size := d[high].size + d[low].size)]
  }

  lemma {:induction false} ClassesFit(d: seq<Rec>, r: nat, s: nat)
    requires Forest(d) && r != s
    ensures |Class(d, r)| + |Class(d, s)| <= |d|
    ensures |Class(d, r) + Class(d, s)| == |Class(d, r)| + |Class(d, s)|
  {
    var all := Below(|d|);
    BelowCard(|d|);
    assert Class(d, r) !! Class(d, s);
    SubsetCard(Class(d, r) + Class(d, s), all);
  }

  ghost predicate Graftable(d: seq<Rec>, low: nat, high: nat) {
    && Forest(d) && Sized(d) && low < |d| && high < |d| && low != high
    && d[low].parent == low && d[high].parent == high && d[low].size <= d[high].size
  }

  lemma {:induction false} SizesFit(d: seq<Rec>, low: nat, high: nat)
    requires Graftable(d, low, high)
    ensures d[low].size + d[high].size <= |d|
  {
    ClassesFit(d, low, high);
    RootsAreReps(d, low);
    RootsAreReps(d, high);
  }

  lemma {:induction false} GraftKeepsForest(d: seq<Rec>, low: nat, high: nat)
    requires Forest(d) && low < |d| && high < |d| && low != high && d[low].parent == low && d[high].parent == high
    requires d[low].size <= d[high].size && d[low].size + d[high].size <= |d|
    ensures Forest(Linked(d, low, high))
  {}

  lemma {:induction false} LinkKeepsForest(d: seq<Rec>, low: nat, high: nat)
    requires Graftable(d, low, high)
    ensures Forest(Linked(d, low, high))
  {
    hide Sized, Linked;
    SizesFit(d, low, high);
    GraftKeepsForest(d, low, high);
  }

  lemma {:induction false} LinkMergesRep(d: seq<Rec>, low: nat, high: nat, y: nat)
    requires Graftable(d, low, high) && y < |d|
    requires Forest(Linked(d, low, high))
    ensures Rep(Linked(d, low, high), y) == if Rep(d, y) == low then high else Rep(d, y)
    decreases |d| - d[y].size
  {
    var e := Linked(d, low, high);
    if y == low {
      assert Rep(e, high) == high;
    } else if d[y].parent != y {
      LinkMergesRep(d, low, high, d[y].parent);
    }
  }

  /** e is d with the tree of root `low` merged into the tree of root `high`. */
  ghost predicate Merged(d: seq<Rec>, e: seq<Rec>, low: nat, high: nat) {
    && Forest(d) && Forest(e) && |e| == |d|
    && forall y | 0 <= y < |d| :: Rep(e, y) == if Rep(d, y) == low then high else Rep(d, y)
  }

  lemma {:induction false} LinkMerges(d: seq<Rec>, low: nat, high: nat)
    requires Graftable(d, low, high)
    ensures Merged(d, Linked(d, low, high), low, high)
  {
    LinkKeepsForest(d, low, high);
    forall y | 0 <= y < |d|
      ensures Rep(Linked(d, low, high), y) == if Rep(d, y) == low then high else Rep(d, y)
    {
      LinkMergesRep(d, low, high, y);
    }
  }

  lemma {:induction false} LinkKeepsSized(d: seq<Rec>, low: nat, high: nat)
    requires Graftable(d, low, high) && Merged(d, Linked(d, low, high), low, high)
    ensures Sized(Linked(d, low, high))
  {
    var e := Linked(d, low, high);
    forall r | 0 <= r < |e| && e[r].parent == r ensures e[r].size == |Class(e, r)| {
      LinkedClass(d, low, high, r);
    }
  }

  lemma {:induction false} MergedClasses(d: seq<Rec>, e: seq<Rec>, low: nat, high: nat, r: nat)
    requires Merged(d, e, low, high) && low < |d| && high < |d| && low != high
    ensures Forest(d) && Forest(e)
    ensures r != low && r != high ==> Class(e, r) == Class(d, r)
    ensures Class(e, high) == Class(d, high) + Class(d, low)
  {
    hide Forest;
  }

  lemma {:induction false} OwnClassSize(d: seq<Rec>, r: nat)
    requires Forest(d) && Sized(d) && r < |d| && d[r].parent == r
    ensures d[r].size == |Class(d, r)|
  {}

  lemma {:induction false} LinkedSizes(d: seq<Rec>, low: nat, high: nat)
    requires low < |d| && high < |d| && low != high
    ensures var e := Linked(d, low, high);
      |e| == |d| && forall r | 0 <= r < |d| :: e[r].size == if r == high then d[high].size + d[low].size else d[r].size
  {}

  lemma {:induction false} LinkedClass(d: seq<Rec>, low: nat, high: nat, r: nat)
    requires Graftable(d, low, high) && Merged(d, Linked(d, low, high), low, high)
    requires r < |d| && r != low && d[r].parent == r
    ensures Linked(d, low, high)[r].size == |Class(Linked(d, low, high), r)|
  {
    hide Merged, Sized, Class, Linked, Forest, Rep;
    var e := Linked(d, low, high);
    MergedClasses(d, e, low, high, r);
    ClassesFit(d, high, low);
    OwnClassSize(d, r);
    OwnClassSize(d, low);
    LinkedSizes(d, low, high);
  }

  lemma {:induction false} LinkAll(d: seq<Rec>, low: nat, high: nat)
    requires Graftable(d, low, high)
    ensures Merged(d, Linked(d, low, high), low, high) && Sized(Linked(d, low, high))
  {
    hide Sized, Merged, Forest;
    LinkMerges(d, low, high);
    LinkKeepsSized(d, low, high);
  }

  // ---------------------------------------------------------------------------------------
  // The equivalence closure of a set of pairs, by paths

  ghost predicate Step(pairs: set<(nat, nat)>, x: nat, y: nat) {
    (x, y) in pairs || (y, x) in pairs
  }

  ghost predicate Path(pairs: set<(nat, nat)>, p: seq<nat>) {
    |p| > 0 && forall i {:trigger p[i]} | 0 < i < |p| :: Step(pairs, p[i-1], p[i])
  }

  ghost predicate PathFrom(pairs: set<(nat, nat)>, p: seq<nat>, x: nat, y: nat) {
    Path(pairs, p) && p[0] == x && p[|p| - 1] == y
  }

  /** x and y are related by the least equivalence that contains the pairs. */
  ghost predicate Related(pairs: set<(nat, nat)>, x: nat, y: nat) {
    exists p :: PathFrom(pairs, p, x, y)
  }

  lemma {:induction false} RelatedRefl(pairs: set<(nat, nat)>, x: nat)
    ensures Related(pairs, x, x)
  {
    assert PathFrom(pairs, [x], x, x);
  }

  lemma {:induction false} RelatedStep(pairs: set<(nat, nat)>, x: nat, y: nat)
    requires Step(pairs, x, y)
    ensures Related(pairs, x, y)
  {
    assert PathFrom(pairs, [x, y], x, y);
  }

  lemma {:induction false} RelatedTrans(pairs: set<(nat, nat)>, x: nat, y: nat, z: nat)
    requires Related(pairs, x, y) && Related(pairs, y, z)
    ensures Related(pairs, x, z)
  {
    var p :| PathFrom(pairs, p, x, y);
    var q :| PathFrom(pairs, q, y, z);
    var r := p + q[1..];
    forall i | 0 < i < |r| ensures Step(pairs, r[i-1], r[i]) {
      if i >= |p| { assert r[i] == q[i - |p| + 1] && r[i-1] == q[i - |p|]; }
    }
    assert PathFrom(pairs, r, x, z);
  }

  lemma {:induction false} RelatedSym(pairs: set<(nat, nat)>, x: nat, y: nat)
    requires Related(pairs, x, y)
    ensures Related(pairs, y, x)
  {
    var p :| PathFrom(pairs, p, x, y);
    var q := seq(|p|, i requires 0 <= i < |p| => p[|p| - 1 - i]);
    forall i | 0 < i < |q| ensures Step(pairs, q[i-1], q[i]) {
      assert q[i-1] == p[|p| - i] && q[i] == p[|p| - 1 - i];
    }
    assert PathFrom(pairs, q, y, x);
  }

  ghost predicate Equivalence(r: (nat, nat) -> bool) {
    && (forall x: nat :: r(x, x)) && (forall x: nat, y: nat :: r(x, y) ==> r(y, x))
    && (forall x: nat, y: nat, z: nat :: r(x, y) && r(y, z) ==> r(x, z))
  }

  /** It is an equivalence, and contained in every equivalence that contains the pairs. */
  lemma {:induction false} RelatedIsLeast(pairs: set<(nat, nat)>, r: (nat, nat) -> bool)
    ensures Equivalence((x: nat, y: nat) => Related(pairs, x, y))
    ensures Equivalence(r) && (forall q | q in pairs :: r(q.0, q.1)) ==>
      forall x: nat, y: nat | Related(pairs, x, y) :: r(x, y)
  {
    hide Related;
    forall x: nat, y: nat, z: nat
      ensures Related(pairs, x, x) && (Related(pairs, x, y) ==> Related(pairs, y, x))
      ensures Related(pairs, x, y) && Related(pairs, y, z) ==> Related(pairs, x, z)
    {
      RelatedRefl(pairs, x);
      if Related(pairs, x, y) {
        RelatedSym(pairs, x, y);
        if Related(pairs, y, z) { RelatedTrans(pairs, x, y, z); }
      }
    }
    if Equivalence(r) && forall q | q in pairs :: r(q.0, q.1) {
      forall x: nat, y: nat | Related(pairs, x, y) ensures r(x, y) {
        var p := PathOf(pairs, x, y);
        PathInEquivalence(pairs, r, p);
      }
    }
  }

  lemma {:induction false} PathOf(pairs: set<(nat, nat)>, x: nat, y: nat) returns (p: seq<nat>)
    requires Related(pairs, x, y)
    ensures PathFrom(pairs, p, x, y)
  {
    p :| PathFrom(pairs, p, x, y);
  }

  lemma {:induction false} PathInEquivalence(pairs: set<(nat, nat)>, r: (nat, nat) -> bool, p: seq<nat>)
    requires Equivalence(r) && (forall q | q in pairs :: r(q.0, q.1)) && Path(pairs, p)
    ensures r(p[0], p[|p| - 1])
    decreases |p|
  {
    if |p| > 1 {
      PathDropsLast(pairs, p);
      PathInEquivalence(pairs, r, p[..|p| - 1]);
      assert Step(pairs, p[|p| - 2], p[|p| - 1]);
    }
  }

  lemma {:induction false} PathDropsLast(pairs: set<(nat, nat)>, p: seq<nat>)
    requires Path(pairs, p) && |p| > 1
    ensures Path(pairs, p[..|p| - 1]) && p[..|p| - 1][|p| - 2] == p[|p| - 2]
  {
    var front := p[..|p| - 1];
    forall i | 0 < i < |front| ensures Step(pairs, front[i - 1], front[i]) {
      assert front[i] == p[i] && front[i - 1] == p[i - 1];
    }
  }

  lemma {:induction false} RelatedMono(pairs: set<(nat, nat)>, more: set<(nat, nat)>, x: nat, y: nat)
    requires Related(pairs, x, y) && pairs <= more
    ensures Related(more, x, y)
  {
    var p :| PathFrom(pairs, p, x, y);
    forall i | 0 < i < |p| ensures Step(more, p[i-1], p[i]) {
      assert Step(pairs, p[i-1], p[i]);
    }
    assert PathFrom(more, p, x, y);
  }

  ghost predicate InTable(pairs: set<(nat, nat)>, n: nat) {
    forall q | q in pairs :: q.0 < n && q.1 < n
  }

  /** If the two ends of every pair share a root, so do the two ends of every path. */
  lemma {:induction false} PathSharesRep(d: seq<Rec>, pairs: set<(nat, nat)>, p: seq<nat>)
    requires Forest(d) && InTable(pairs, |d|) && Path(pairs, p) && p[0] < |d|
    requires forall q | q in pairs :: Rep(d, q.0) == Rep(d, q.1)
    ensures p[|p| - 1] < |d| && Rep(d, p[0]) == Rep(d, p[|p| - 1])
    decreases |p|
  {
    if |p| > 1 {
      var front := p[..|p| - 1];
      assert front[|front| - 1] == p[|p| - 2];
      assert Path(pairs, front) by {
        forall i | 0 < i < |front| ensures Step(pairs, front[i-1], front[i]) {
          assert front[i] == p[i] && front[i-1] == p[i-1];
        }
      }
      PathSharesRep(d, pairs, front);
      assert Step(pairs, p[|p| - 2], p[|p| - 1]);
    }
  }

  /** The table represents exactly the equivalence closure of the pairs. */
  ghost predicate Represents(d: seq<Rec>, pairs: set<(nat, nat)>)
    requires Forest(d)
  {
    && InTable(pairs, |d|)
    && forall x, y | 0 <= x < |d| && 0 <= y < |d| :: Rep(d, x) == Rep(d, y) <==> Related(pairs, x, y)
  }

  lemma {:induction false} SingletonsRepresentNothing(d: seq<Rec>)
    requires forall i | 0 <= i < |d| :: d[i] == Rec(i, 1)
    ensures Forest(d) && Represents(d, {}) && Sized(d)
  {
    forall x, y | 0 <= x < |d| && 0 <= y < |d| ensures Rep(d, x) == Rep(d, y) <==> Related({}, x, y) {
      if x == y { RelatedRefl({}, x); }
      if Related({}, x, y) {
        var p :| PathFrom({}, p, x, y);
        if |p| > 1 { assert Step({}, p[0], p[1]); }
      }
    }
    forall r | 0 <= r < |d| ensures |Class(d, r)| == 1 {
      assert Class(d, r) == {r};
    }
  }

  lemma {:induction false} SameTreesRepresent(d: seq<Rec>, e: seq<Rec>, pairs: set<(nat, nat)>)
    requires SameTrees(d, e) && Represents(d, pairs)
    ensures Represents(e, pairs)
  {}

  /** A repeated or implied pair changes nothing. */
  lemma {:induction false} ImpliedPair(d: seq<Rec>, pairs: set<(nat, nat)>, a: nat, b: nat)
    requires Forest(d) && Represents(d, pairs) && a < |d| && b < |d| && Rep(d, a) == Rep(d, b)
    ensures Represents(d, pairs + {(a, b)})
  {
    var more := pairs + {(a, b)};
    PairsShareRep(d, pairs);
    forall x, y | 0 <= x < |d| && 0 <= y < |d| ensures Rep(d, x) == Rep(d, y) <==> Related(more, x, y) {
      if Related(pairs, x, y) { RelatedMono(pairs, more, x, y); }
      if Related(more, x, y) {
        var p :| PathFrom(more, p, x, y);
        PathSharesRep(d, more, p);
      }
    }
  }

  lemma {:induction false} RelatedSharesRep(d: seq<Rec>, pairs: set<(nat, nat)>, x: nat, y: nat)
    requires Forest(d) && InTable(pairs, |d|) && x < |d| && Related(pairs, x, y)
    requires forall q | q in pairs :: Rep(d, q.0) == Rep(d, q.1)
    ensures y < |d| && Rep(d, x) == Rep(d, y)
  {
    hide Rep;
    var p :| PathFrom(pairs, p, x, y);
    PathSharesRep(d, pairs, p);
  }

  lemma {:induction false} PairsShareRep(d: seq<Rec>, pairs: set<(nat, nat)>)
    requires Forest(d) && Represents(d, pairs)
    ensures forall q | q in pairs :: Rep(d, q.0) == Rep(d, q.1)
  {
    forall q | q in pairs ensures Rep(d, q.0) == Rep(d, q.1) {
      RelatedStep(pairs, q.0, q.1);
    }
  }

  /** Merging the trees of a and b is exactly adding the pair (a, b). */
  lemma {:induction false} MergeAddsPair(d: seq<Rec>, e: seq<Rec>, pairs: set<(nat, nat)>, a: nat, b: nat,
                                         low: nat, high: nat)
    requires Forest(d) && Represents(d, pairs) && Forest(e) && |e| == |d| && a < |d| && b < |d|
    requires (low == Rep(d, a) && high == Rep(d, b)) || (low == Rep(d, b) && high == Rep(d, a))
    requires Merged(d, e, low, high)
    ensures Represents(e, pairs + {(a, b)})
  {
    hide Related, Rep;
    var more := pairs + {(a, b)};
    PairsShareRep(d, pairs);
    assert forall q | q in more :: Rep(e, q.0) == Rep(e, q.1);
    forall x, y | 0 <= x < |e| && 0 <= y < |e| ensures Rep(e, x) == Rep(e, y) <==> Related(more, x, y) {
      if Related(more, x, y) { RelatedSharesRep(e, more, x, y); }
      if Rep(e, x) == Rep(e, y) { MergedAreRelated(d, pairs, a, b, low, high, x, y); }
    }
  }

  lemma {:induction false} MergedAreRelated(d: seq<Rec>, pairs: set<(nat, nat)>, a: nat, b: nat,
                                            low: nat, high: nat, x: nat, y: nat)
    requires Forest(d) && Represents(d, pairs) && a < |d| && b < |d| && x < |d| && y < |d|
    requires (low == Rep(d, a) && high == Rep(d, b)) || (low == Rep(d, b) && high == Rep(d, a))
    requires (if Rep(d, x) == low then high else Rep(d, x)) == (if Rep(d, y) == low then high else Rep(d, y))
    ensures Related(pairs + {(a, b)}, x, y)
  {
    var more := pairs + {(a, b)};
    if Rep(d, x) == Rep(d, y) {
      RelatedMono(pairs, more, x, y);
    } else {
      assert (Rep(d, x) == low && Rep(d, y) == high) || (Rep(d, x) == high && Rep(d, y) == low);
      var s, t := if Rep(d, x) == Rep(d, a) then a else b, if Rep(d, y) == Rep(d, a) then a else b;
      assert Rep(d, x) == Rep(d, s) && Rep(d, y) == Rep(d, t) && s != t;
      RelatedMono(pairs, more, x, s);
      RelatedMono(pairs, more, t, y);
      RelatedStep(more, s, t);
      RelatedTrans(more, x, s, t);
      RelatedTrans(more, x, t, y);
    }
  }

  // ---------------------------------------------------------------------------------------
  // What a lookup and a connect leave in the table

  /** k is x, or on the way from x to its root. */
  ghost predicate OnWay(d: seq<Rec>, x: nat, k: nat)
    requires Forest(d) && x < |d|
    decreases |d| - d[x].size
  {
    k == x || (d[x].parent != x && OnWay(d, d[x].parent, k))
  }

  /** All records on the way from x hang directly below the root, the others are as they were. */
  ghost function Collapsed(d: seq<Rec>, x: nat): (e: seq<Rec>)
    requires Forest(d) && x < |d|
    ensures |e| == |d|
  {
    seq(|d|, k requires 0 <= k < |d| => if OnWay(d, x, k) then d[k].(parent := Rep(d, x)) else d[k])
  }

  /** So do those from x on, but not yet those from y on. */
  ghost function CollapsedTo(d: seq<Rec>, x: nat, y: nat): (e: seq<Rec>)
    requires Forest(d) && x < |d| && y < |d|
    ensures |e| == |d|
  {
    seq(|d|, k requires 0 <= k < |d| =>
      if OnWay(d, x, k) && !OnWay(d, y, k) then d[k].(parent := Rep(d, x)) else d[k])
  }

  lemma {:induction false} WayGrows(d: seq<Rec>, x: nat, k: nat)
    requires Forest(d) && x < |d| && OnWay(d, x, k)
    ensures k < |d| && Rep(d, k) == Rep(d, x) && (k == x || d[k].size > d[x].size)
    ensures OnWay(d, x, d[k].parent)
    decreases |d| - d[x].size
  {
    if k != x { WayGrows(d, d[x].parent, k); }
  }

  lemma {:induction false} NoneCollapsed(d: seq<Rec>, x: nat)
    requires Forest(d) && x < |d|
    ensures CollapsedTo(d, x, x) == d && OnWay(d, x, x)
  {}

  lemma {:induction false} WaySplits(d: seq<Rec>, y: nat, k: nat)
    requires Forest(d) && y < |d| && d[y].parent != y
    ensures OnWay(d, y, k) <==> k == y || OnWay(d, d[y].parent, k)
    ensures !OnWay(d, d[y].parent, y)
  {
    if OnWay(d, d[y].parent, y) { WayGrows(d, d[y].parent, y); }
  }

  /** The next record on the way. */
  lemma {:induction false} CollapsedNext(d: seq<Rec>, x: nat, y: nat)
    requires Forest(d) && x < |d| && OnWay(d, x, y) && y < |d| && d[y].parent != Rep(d, x)
    ensures d[y].parent < |d| && OnWay(d, x, d[y].parent) && d[y].size < d[d[y].parent].size
    ensures CollapsedTo(d, x, y)[y] == d[y]
    ensures CollapsedTo(d, x, d[y].parent) == Redirected(CollapsedTo(d, x, y), y, Rep(d, x))
  {
    WayGrows(d, x, y);
    assert d[y].parent != y;
    forall k: nat | k < |d| ensures OnWay(d, y, k) <==> k == y || OnWay(d, d[y].parent, k) { WaySplits(d, y, k); }
    WaySplits(d, y, y);
    hide Forest, Rep, OnWay;
    var e, f := CollapsedTo(d, x, y), CollapsedTo(d, x, d[y].parent);
    assert f == Redirected(e, y, Rep(d, x));
  }

  lemma {:induction false} OwnRecord(d: seq<Rec>, x: nat, y: nat)
    requires Forest(d) && x < |d| && y < |d|
    ensures CollapsedTo(d, x, y)[y] == d[y]
  {}

  /** The last one hangs below the root already. */
  lemma {:induction false} CollapsedLast(d: seq<Rec>, x: nat, y: nat)
    requires Forest(d) && x < |d| && OnWay(d, x, y) && y < |d| && d[y].parent == Rep(d, x)
    ensures CollapsedTo(d, x, y) == Collapsed(d, x)
  {
    var r := Rep(d, x);
    forall k: nat | k < |d| && OnWay(d, y, k) ensures d[k].(parent := r) == d[k] {
      WayEnds(d, y, k, r);
    }
    hide Forest, Rep, OnWay;
    var e, f := CollapsedTo(d, x, y), Collapsed(d, x);
    assert e == f;
  }

  lemma {:induction false} WayEnds(d: seq<Rec>, y: nat, k: nat, r: nat)
    requires Forest(d) && y < |d| && d[y].parent == r && d[r].parent == r && OnWay(d, y, k)
    ensures k == y || k == r
  {
    hide Forest, Rep;
  }

  lemma {:induction false} CollapsedTrees(d: seq<Rec>, x: nat, y: nat)
    requires Forest(d) && x < |d| && OnWay(d, x, y) && y < |d| && SameTrees(d, CollapsedTo(d, x, y))
    ensures SameTrees(d, Collapsed(d, x))
    decreases |d| - d[y].size
  {
    WayGrows(d, x, y);
    var e := CollapsedTo(d, x, y);
    if d[y].parent == Rep(d, x) {
      CollapsedLast(d, x, y);
    } else {
      CollapsedNext(d, x, y);
      RedirectKeepsTrees(e, y);
      SameTreesTrans(d, e, Redirected(e, y, Rep(d, x)));
      CollapsedTrees(d, x, d[y].parent);
    }
  }

  lemma {:induction false} CollapsedSameTrees(d: seq<Rec>, x: nat)
    requires Forest(d) && x < |d|
    ensures SameTrees(d, Collapsed(d, x))
  {
    hide Forest, OnWay, SameTrees, CollapsedTo;
    NoneCollapsed(d, x);
    SameTreesRefl(d);
    CollapsedTrees(d, x, x);
  }

  /** Both ways are collapsed, and the root of the smaller set hangs below the other, of two equal ones the root of a
      below that of b. */
  ghost function Connected(d: seq<Rec>, a: nat, b: nat): (e: seq<Rec>)
    requires Forest(d) && a < |d| && b < |d|
  {
    CollapsedSameTrees(d, a);
    var f := Collapsed(Collapsed(d, a), b);
    LinkedBySize(f, Rep(d, a), Rep(d, b))
  }

  ghost function LinkedBySize(d: seq<Rec>, aroot: nat, broot: nat): (e: seq<Rec>)
    requires aroot < |d| && broot < |d|
  {
    if aroot == broot then d
    else if d[aroot].size > d[broot].size then Linked(d, broot, aroot) else Linked(d, aroot, broot)
  }

  // ---------------------------------------------------------------------------------------
  // The structure itself

  class Sets {
    const maxid: nat
    const data: array<Rec>
    /** Every pair passed to Connect so far. */
    ghost var joined: set<(nat, nat)>

    ghost predicate Valid()
      reads this, data
    {
      data.Length == maxid + 1 && Forest(data[..]) && Represents(data[..], joined) && Sized(data[..])
    }

    constructor (maxid: nat)
      ensures Valid() && fresh(data) && this.maxid == maxid && joined == {}
    {
      this.maxid := maxid;
      data := new Rec[maxid + 1];
      joined := {};
      new;
      var i := 0;
      while i <= maxid
        invariant 0 <= i <= maxid + 1
        invariant joined == {}
        invariant forall k | 0 <= k < i :: data[k] == Rec(k, 1)
      {
        data[i] := Rec(i, 1);
        i := i + 1;
      }
      SingletonsRepresentNothing(data[..]);
    }

    /** Chases the root, then hangs every record on the way directly below it. */
    method GetRepresentative(id0: nat) returns (root: nat)
      requires Valid() && id0 <= maxid
      modifies data
      ensures Valid()
      ensures SameTrees(old(data[..]), data[..])
      ensures root == Rep(old(data[..]), id0) == Rep(data[..], id0)
      ensures OnlyClassChanged(old(data[..]), data[..], root)
      ensures data[..] == Collapsed(old(data[..]), id0)
    {
      hide Sized, Represents, SameTrees, Collapsed;
      ghost var d := data[..];
      root := id0;
      while data[root].parent != root
        invariant root <= maxid && data[..] == d
        invariant Rep(d, root) == Rep(d, id0)
        decreases |d| - d[root].size
      {
        assert data[root] == d[root];
        root := data[root].parent;
      }
      assert data[root] == d[root] && Rep(d, root) == root;

      Collapse(d, id0, root);
      SameTreesSized(d, data[..]);
      SameTreesRepresent(d, data[..], joined);
      SameTreesRep(d, data[..], id0);
    }

    /** The second loop of the lookup: collapses the chain from id0 to its root. */
    method Collapse(ghost d: seq<Rec>, id0: nat, root: nat)
      requires data.Length == maxid + 1 && Forest(data[..]) && id0 <= maxid
      requires d == data[..] && root == Rep(d, id0)
      modifies data
      ensures SameTrees(d, data[..]) && OnlyClassChanged(d, data[..], root)
      ensures data[..] == Collapsed(d, id0)
    {
      hide Forest, SameTrees, OnlyClassChanged, Collapsed, CollapsedTo, OnWay;
      var id: nat := id0;
      NoneCollapsed(d, id0);
      SameTreesRefl(d);
      RootIsOwnParent(d, id);
      OnlyClassChangedRefl(d, root);
      while data[id].parent != root
        invariant |d| == maxid + 1 && id <= maxid && Forest(data[..]) && SameTrees(d, data[..])
        invariant OnlyClassChanged(d, data[..], root)
        invariant Rep(data[..], id) == root
        invariant OnWay(d, id0, id) && data[..] == CollapsedTo(d, id0, id) && data[id] == d[id]
        decreases |d| - data[id].size
      {
        ghost var e := data[..];
        assert e[id] == data[id];
        CollapsedNext(d, id0, id);
        OwnRecord(d, id0, d[id].parent);
        CollapseStep(d, e, id, root);
        var tmp := data[id].parent;
        data[id] := data[id].(parent := root);
        assert data[..] == Redirected(e, id, root);
        assert data[tmp] == data[..][tmp];
        id := tmp;
      }
      CollapsedLast(d, id0, id);
    }

    method GetSetSize(id: nat) returns (size: nat)
      requires Valid() && id <= maxid
      modifies data
      ensures Valid() && SameTrees(old(data[..]), data[..])
      ensures data[..] == Collapsed(old(data[..]), id)
      ensures size == |RelatedTo(joined, id, maxid + 1)|
    {
      hide Forest, Sized, Represents, SameTrees;
      var repid := GetRepresentative(id);
      size := data[repid].size;
      assert data[repid] == data[..][repid];
      ClassIsRelated(data[..], joined, id);
    }

    /** Joins the sets of aid and bid: adds the pair to the relation. Records outside the two
        classes are not touched. */
    method Connect(aid: nat, bid: nat) returns (root: nat)
      requires Valid() && aid <= maxid && bid <= maxid
      modifies this`joined, data
      ensures Valid() && joined == old(joined) + {(aid, bid)}
      ensures root == Rep(data[..], aid) == Rep(data[..], bid)
      ensures OthersUntouched(old(data[..]), data[..], old(joined), aid, bid)
      ensures data[..] == Connected(old(data[..]), aid, bid)
    {
      hide Forest, Sized, Represents, SameTrees, Merged, OnlyClassChanged, OthersUntouched,
        Collapsed, Connected, Linked;
      ghost var d0 := data[..];
      var aroot := GetRepresentative(aid);
      ghost var d1 := data[..];
      var broot := GetRepresentative(bid);
      ghost var d := data[..];
      TwoLookups(d0, d1, d, joined, aid, bid, aroot, broot);
      ConnectedIs(d0, aid, bid, d1, d);
      joined := joined + {(aid, bid)};

      if aroot == broot {
        ImpliedPair(d, old(joined), aid, bid);
        return aroot;
      }

      root := LinkRoots(aroot, broot);
      ghost var low := if root == aroot then broot else aroot;
      JoinsTrees(d0, d, data[..], old(joined), aid, bid, low, root);
    }

    /** The last part of a connect: hangs one of two roots below the other. */
    method LinkRoots(aroot: nat, broot: nat) returns (root: nat)
      requires aroot < data.Length && broot < data.Length && aroot != broot
      modifies data
      ensures data[..] == LinkedBySize(old(data[..]), aroot, broot)
      ensures root == if old(data[aroot].size) > old(data[broot].size) then aroot else broot
    {
      hide Linked;
      ghost var d := data[..];
      var asize := data[aroot].size;
      var bsize := data[broot].size;
      if asize > bsize {
        data[broot] := data[broot].(parent := aroot);
        data[aroot] := data[aroot].(size := data[aroot].size + bsize);
        LinkedIs(d, data[..], broot, aroot);
        return aroot;
      } else {
        data[aroot] := data[aroot].(parent := broot);
        data[broot] := data[broot].(size := data[broot].size + asize);
        LinkedIs(d, data[..], aroot, broot);
        return broot;
      }
    }
  }

  // Facts the methods use one at a time

  lemma {:induction false} ConnectedIs(d: seq<Rec>, a: nat, b: nat, e: seq<Rec>, f: seq<Rec>)
    requires Forest(d) && a < |d| && b < |d| && e == Collapsed(d, a) && Forest(e) && f == Collapsed(e, b)
    ensures |d| == |f| && Connected(d, a, b) == LinkedBySize(f, Rep(d, a), Rep(e, b))
  {
    CollapsedSameTrees(d, a);
    CollapsedSameTrees(e, b);
    hide Collapsed, LinkedBySize, SameTrees, Forest;
    SameTreesRep(d, e, b);
  }

  lemma {:induction false} LinkedIs(d: seq<Rec>, e: seq<Rec>, low: nat, high: nat)
    requires low < |d| && high < |d| && low != high
    requires e == d[low := Rec(high, d[low].size)][high := Rec(d[high].parent, d[high].size + d[low].size)]
    ensures e == Linked(d, low, high)
  {}

  ghost predicate OnlyClassChanged(d: seq<Rec>, e: seq<Rec>, root: nat)
    requires Forest(d)
  {
    |e| == |d| && forall k | 0 <= k < |d| && Rep(d, k) != root :: e[k] == d[k]
  }

  ghost function RelatedTo(pairs: set<(nat, nat)>, x: nat, n: nat): set<nat> {
    set y | y in Below(n) && Related(pairs, x, y)
  }

  lemma {:induction false} ClassIsRelated(d: seq<Rec>, pairs: set<(nat, nat)>, x: nat)
    requires Forest(d) && Represents(d, pairs) && Sized(d) && x < |d|
    ensures d[Rep(d, x)].size == |RelatedTo(pairs, x, |d|)|
  {
    RootsAreReps(d, Rep(d, x));
    assert Class(d, Rep(d, x)) == RelatedTo(pairs, x, |d|);
  }

  lemma {:induction false} SameTreesRefl(d: seq<Rec>)
    requires Forest(d)
    ensures SameTrees(d, d)
  {}

  lemma {:induction false} OnlyClassChangedRefl(d: seq<Rec>, root: nat)
    requires Forest(d)
    ensures OnlyClassChanged(d, d, root)
  {}

  lemma {:induction false} RootIsOwnParent(d: seq<Rec>, x: nat)
    requires Forest(d) && x < |d|
    ensures Rep(d, x) < |d| && d[Rep(d, x)].parent == Rep(d, x)
  {}

  lemma {:induction false} SameTreesForest(d: seq<Rec>, e: seq<Rec>)
    requires SameTrees(d, e)
    ensures Forest(d) && Forest(e) && |d| == |e|
  {}

  lemma {:induction false} OnlyThisChanged(d: seq<Rec>, e: seq<Rec>, f: seq<Rec>, x: nat, root: nat)
    requires Forest(d) && OnlyClassChanged(d, e, root) && x < |d| && Rep(d, x) == root && f == Redirected(e, x, root)
    ensures OnlyClassChanged(d, f, root)
  {}

  lemma {:induction false} ParentFacts(e: seq<Rec>, x: nat)
    requires Forest(e) && x < |e|
    ensures e[x].parent < |e| && e[x].size <= |e| && Rep(e, e[x].parent) == Rep(e, x)
    ensures e[x].parent != Rep(e, x) ==> e[x].size < e[e[x].parent].size
  {}

  lemma {:induction false} CollapseStep(d: seq<Rec>, e: seq<Rec>, id: nat, root: nat)
    requires Forest(d) && Forest(e) && SameTrees(d, e) && OnlyClassChanged(d, e, root) && id < |d|
    requires Rep(e, id) == root && e[id].parent != root
    ensures var f, tmp := Redirected(e, id, root), e[id].parent;
      && Forest(f) && SameTrees(d, f) && OnlyClassChanged(d, f, root)
      && tmp < |d| && Rep(f, tmp) == root && e[id].size < f[tmp].size <= |d|
  {
    hide OnlyClassChanged, Forest, SameTrees;
    SameTreesForest(d, e);
    var f, tmp := Redirected(e, id, root), e[id].parent;
    RedirectKeepsTrees(e, id);
    SameTreesForest(e, f);
    SameTreesTrans(d, e, f);
    SameTreesRep(d, e, id);
    OnlyThisChanged(d, e, f, id, root);
    ParentFacts(e, id);
    SameTreesRep(e, f, tmp);
    ParentFacts(f, tmp);
  }

  lemma {:induction false} SameTreesTrans(d: seq<Rec>, e: seq<Rec>, f: seq<Rec>)
    requires SameTrees(d, e) && SameTrees(e, f)
    ensures Forest(f) && |f| == |d| && SameTrees(d, f)
  {}

  lemma {:induction false} SameTreesRep(d: seq<Rec>, e: seq<Rec>, x: nat)
    requires SameTrees(d, e) && x < |d|
    ensures Forest(d) && Forest(e) && |e| == |d| && Rep(e, x) == Rep(d, x) && e[x].size == d[x].size
  {}

  /** Records outside the classes of a and b are as they were. */
  ghost predicate OthersUntouched(d: seq<Rec>, e: seq<Rec>, pairs: set<(nat, nat)>, a: nat, b: nat) {
    |e| == |d| &&
    forall k | 0 <= k < |d| && !Related(pairs, k, a) && !Related(pairs, k, b) :: e[k] == d[k]
  }

  lemma {:induction false} TwoLookups(d: seq<Rec>, e: seq<Rec>, f: seq<Rec>, pairs: set<(nat, nat)>,
                                      a: nat, b: nat, aroot: nat, broot: nat)
    requires Forest(d) && Represents(d, pairs) && a < |d| && b < |d|
    requires SameTrees(d, e) && SameTrees(e, f) && aroot == Rep(d, a) && broot == Rep(e, b)
    requires OnlyClassChanged(d, e, aroot) && OnlyClassChanged(e, f, broot)
    ensures |f| == |d| && Forest(f) && aroot == Rep(f, a) && broot == Rep(f, b)
    ensures OthersUntouched(d, f, pairs, a, b)
  {}

  lemma {:induction false} JoinsTrees(d0: seq<Rec>, d: seq<Rec>, e: seq<Rec>, pairs: set<(nat, nat)>, a: nat, b: nat,
                                      low: nat, high: nat)
    requires Forest(d) && Represents(d, pairs) && Sized(d) && a < |d| && b < |d|
    requires OthersUntouched(d0, d, pairs, a, b)
    requires low < |d| && high < |d| && low != high && d[low].size <= d[high].size
    requires (low == Rep(d, a) && high == Rep(d, b)) || (low == Rep(d, b) && high == Rep(d, a))
    requires e == Linked(d, low, high)
    ensures Forest(e) && |e| == |d| && Represents(e, pairs + {(a, b)}) && Sized(e)
    ensures Rep(e, a) == high == Rep(e, b)
    ensures OthersUntouched(d0, e, pairs, a, b)
  {
    hide Sized, Represents, OthersUntouched, Related;
    RootsAreReps(d, low);
    RootsAreReps(d, high);
    LinkAll(d, low, high);
    MergeAddsPair(d, e, pairs, a, b, low, high);
    GraftKeepsOthers(d0, d, pairs, a, b, low, high);
  }

  lemma {:induction false} GraftKeepsOthers(d0: seq<Rec>, d: seq<Rec>, pairs: set<(nat, nat)>, a: nat, b: nat,
                                            low: nat, high: nat)
    requires Forest(d) && Represents(d, pairs) && a < |d| && b < |d|
    requires OthersUntouched(d0, d, pairs, a, b) && low < |d| && high < |d|
    requires (low == Rep(d, a) && high == Rep(d, b)) || (low == Rep(d, b) && high == Rep(d, a))
    ensures OthersUntouched(d0, Linked(d, low, high), pairs, a, b)
  {
    RootsAreReps(d, low);
    RootsAreReps(d, high);
    assert Related(pairs, Rep(d, a), a) && Related(pairs, Rep(d, b), b);
  }
}
