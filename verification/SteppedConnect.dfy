/** Connecting in the union-find table one memory access at a time (Robot/apriltags/common/unionfind.h): what a thread
    that connects a list of pairs reads and writes, and that it connects them. */
module SteppedConnect {
  import opened UnionFind

  /** What a lookup is for: the first root, with the second id still to look up, or the second one. */
  datatype Goal = First(b: nat) | Second(aroot: nat)

  /** Where a thread stands. Each step makes at most one access to the table. */
  datatype Pc =
    | Idle
    | ChaseTest(goal: Goal, id: nat, root: nat)
    | ChaseMove(goal: Goal, id: nat, root: nat)
    | SquashTest(goal: Goal, id: nat, root: nat)
    | SquashRead(goal: Goal, id: nat, root: nat)
    | SquashWrite(goal: Goal, id: nat, root: nat, tmp: nat)
    | SizeA(aroot: nat, broot: nat)
    | SizeB(aroot: nat, broot: nat, asize: nat)
    | Link(low: nat, high: nat, lowSize: nat)
    | GrowRead(high: nat, lowSize: nat)
    | GrowWrite(high: nat, total: nat)

  /** A thread with the pairs it has still to connect. */
  datatype Thread = Thread(todo: seq<(nat, nat)>, pc: Pc)

  predicate Done(t: Thread) {
    t.todo == [] && t.pc == Idle
  }

  /** The record that the next step reads or writes. */
  function Address(pc: Pc): nat {
    match pc
    case Idle => 0
    case ChaseTest(_, _, root) => root
    case ChaseMove(_, _, root) => root
    case SquashTest(_, id, _) => id
    case SquashRead(_, id, _) => id
    case SquashWrite(_, id, _, _) => id
    case SizeA(aroot, _) => aroot
    case SizeB(_, broot, _) => broot
    case Link(low, _, _) => low
    case GrowRead(high, _) => high
    case GrowWrite(high, _) => high
  }

  /** After a lookup. */
  function Found(goal: Goal, root: nat): Pc {
    match goal
    case First(b) => ChaseTest(Second(root), b, b)
    case Second(aroot) => if aroot == root then Idle else SizeA(aroot, root)
  }

  /** Where the thread goes next, given the record at its address. */
  function NextPc(pc: Pc, r: Rec): Pc {
    match pc
    case Idle => Idle
    case ChaseTest(goal, id, root) => if r.parent == root then SquashTest(goal, id, root) else ChaseMove(goal, id, root)
    case ChaseMove(goal, id, root) => ChaseTest(goal, id, r.parent)
    case SquashTest(goal, id, root) => if r.parent == root then Found(goal, root) else SquashRead(goal, id, root)
    case SquashRead(goal, id, root) => SquashWrite(goal, id, root, r.parent)
    case SquashWrite(goal, id, root, tmp) => SquashTest(goal, tmp, root)
    case SizeA(aroot, broot) => SizeB(aroot, broot, r.size)
    case SizeB(aroot, broot, asize) =>
      if asize > r.size then Link(broot, aroot, r.size) else Link(aroot, broot, asize)
    case Link(low, high, lowSize) => GrowRead(high, lowSize)
    case GrowRead(high, lowSize) => GrowWrite(high, r.size + lowSize)
    case GrowWrite(high, total) => Idle
  }

  /** What it leaves there. */
  function NextRec(pc: Pc, r: Rec): Rec {
    match pc
    case SquashWrite(goal, id, root, tmp) => r.(parent := root)
    case Link(low, high, lowSize) => r.(parent := high)
    case GrowWrite(high, total) => r.(size := total)
    case _ => r
  }

  function StepOf(t: Thread, d: seq<Rec>): (r: (Thread, seq<Rec>))
    ensures |r.1| == |d|
  {
    if t.pc == Idle then
      if t.todo == [] then (t, d)
      else (Thread(t.todo[1..], ChaseTest(First(t.todo[0].1), t.todo[0].0, t.todo[0].0)), d)
    else
      var i := Address(t.pc);
      if i >= |d| then (t, d)
      else (Thread(t.todo, NextPc(t.pc, d[i])), d[i := NextRec(t.pc, d[i])])
  }

  // ---------------------------------------------------------------------------------------
  // What a thread can touch

  function GoalIds(g: Goal): set<nat> {
    match g
    case First(b) => {b}
    case Second(aroot) => {aroot}
  }

  function PcIds(pc: Pc): set<nat> {
    match pc
    case Idle => {}
    case ChaseTest(goal, id, root) => GoalIds(goal) + {id, root}
    case ChaseMove(goal, id, root) => GoalIds(goal) + {id, root}
    case SquashTest(goal, id, root) => GoalIds(goal) + {id, root}
    case SquashRead(goal, id, root) => GoalIds(goal) + {id, root}
    case SquashWrite(goal, id, root, tmp) => GoalIds(goal) + {id, root, tmp}
    case SizeA(aroot, broot) => {aroot, broot}
    case SizeB(aroot, broot, _) => {aroot, broot}
    case Link(low, high, _) => {low, high}
    case GrowRead(high, _) => {high}
    case GrowWrite(high, _) => {high}
  }

  /** The thread knows only ids in own, and links lead from own into own. */
  ghost predicate Confined(t: Thread, d: seq<Rec>, own: set<nat>) {
    && (forall q | q in t.todo :: q.0 in own && q.1 in own)
    && PcIds(t.pc) <= own
    && forall k | k in own :: k < |d| && d[k].parent in own
  }

  ghost predicate AgreeOn(d: seq<Rec>, e: seq<Rec>, own: set<nat>) {
    |d| == |e| && forall k: nat | k in own && k < |d| :: d[k] == e[k]
  }

  ghost predicate AgreeOutside(d: seq<Rec>, e: seq<Rec>, own: set<nat>) {
    |d| == |e| && forall k: nat | k !in own && k < |d| :: d[k] == e[k]
  }

  lemma {:induction false} AddressKnown(pc: Pc)
    ensures pc == Idle || Address(pc) in PcIds(pc)
  {}

  lemma {:induction false} NextIds(pc: Pc, r: Rec)
    ensures PcIds(NextPc(pc, r)) <= PcIds(pc) + {r.parent}
    ensures NextRec(pc, r).parent in PcIds(pc) + {r.parent}
  {}

  /** A step reads and writes only within own, and stays confined. */
  lemma {:induction false} StepConfined(t: Thread, d: seq<Rec>, own: set<nat>)
    requires Confined(t, d, own)
    ensures Confined(StepOf(t, d).0, StepOf(t, d).1, own) && AgreeOutside(d, StepOf(t, d).1, own)
  {
    hide PcIds, Address, NextPc, NextRec;
    if t.pc == Idle {
      StartIds(t);
    } else {
      AddressKnown(t.pc);
      NextIds(t.pc, d[Address(t.pc)]);
    }
  }

  lemma {:induction false} StartIds(t: Thread)
    ensures PcIds(Idle) == {}
    ensures t.todo != [] ==>
      PcIds(ChaseTest(First(t.todo[0].1), t.todo[0].0, t.todo[0].0)) == {t.todo[0].0, t.todo[0].1}
  {}

  /** Its effect depends on nothing else. */
  lemma {:induction false} StepLocal(t: Thread, d: seq<Rec>, e: seq<Rec>, own: set<nat>)
    requires Confined(t, d, own) && AgreeOn(d, e, own)
    ensures StepOf(t, d).0 == StepOf(t, e).0 && AgreeOn(StepOf(t, d).1, StepOf(t, e).1, own)
  {
    hide PcIds, Address, NextPc, NextRec;
    AddressKnown(t.pc);
    var i := Address(t.pc);
    assert t.pc != Idle ==> i in own && i < |d| && d[i] == e[i];
  }

  // ---------------------------------------------------------------------------------------
  // A thread alone

  function Solo(t: Thread, d: seq<Rec>, n: nat): (r: (Thread, seq<Rec>))
    ensures |r.1| == |d|
  {
    if n == 0 then (t, d) else StepOf(Solo(t, d, n - 1).0, Solo(t, d, n - 1).1)
  }

  /** In at most b steps. */
  ghost predicate Reaches(t: Thread, d: seq<Rec>, u: Thread, e: seq<Rec>, b: int) {
    exists n: nat :: n <= b && Solo(t, d, n) == (u, e)
  }

  lemma {:induction false} SoloAdds(t: Thread, d: seq<Rec>, m: nat, n: nat)
    ensures Solo(Solo(t, d, m).0, Solo(t, d, m).1, n) == Solo(t, d, m + n)
    decreases n
  {
    hide StepOf;
    if n > 0 { SoloAdds(t, d, m, n - 1); }
  }

  lemma {:induction false} ReachTrans(t: Thread, d: seq<Rec>, u: Thread, e: seq<Rec>, v: Thread, f: seq<Rec>,
                                      b: int, c: int)
    requires Reaches(t, d, u, e, b) && Reaches(u, e, v, f, c)
    ensures Reaches(t, d, v, f, b + c)
  {
    hide Solo;
    var m: nat :| m <= b && Solo(t, d, m) == (u, e);
    var n: nat :| n <= c && Solo(u, e, n) == (v, f);
    SoloAdds(t, d, m, n);
  }

  lemma {:induction false} ReachStep(t: Thread, d: seq<Rec>)
    ensures Reaches(t, d, StepOf(t, d).0, StepOf(t, d).1, 1)
  {
    hide StepOf;
    assert Solo(t, d, 0) == (t, d);
    assert Solo(t, d, 1) == StepOf(t, d);
  }

  /** A step from t. */
  lemma {:induction false} StepThen(t: Thread, d: seq<Rec>, v: Thread, f: seq<Rec>, b: int)
    requires Reaches(StepOf(t, d).0, StepOf(t, d).1, v, f, b)
    ensures Reaches(t, d, v, f, b + 1)
  {
    hide StepOf, Reaches;
    ReachStep(t, d);
    ReachTrans(t, d, StepOf(t, d).0, StepOf(t, d).1, v, f, 1, b);
  }

  lemma {:induction false} ReachSelf(t: Thread, d: seq<Rec>)
    ensures Reaches(t, d, t, d, 0)
  {
    assert Solo(t, d, 0) == (t, d);
  }

  lemma {:induction false} ReachMore(t: Thread, d: seq<Rec>, u: Thread, e: seq<Rec>, b: int, c: int)
    requires Reaches(t, d, u, e, b) && b <= c
    ensures Reaches(t, d, u, e, c)
  {
    hide Solo;
  }

  /** The first loop of a lookup finds the root. */
  lemma {:induction false} ChaseReaches(todo: seq<(nat, nat)>, g: Goal, id: nat, root: nat, d: seq<Rec>)
    requires Forest(d) && root < |d|
    ensures Reaches(Thread(todo, ChaseTest(g, id, root)), d, Thread(todo, SquashTest(g, id, Rep(d, root))), d,
                    2 * (|d| - d[root].size) + 1)
    decreases |d| - d[root].size
  {
    hide Reaches;
    var b := 2 * (|d| - d[root].size);
    var p := d[root].parent;
    var goal := Thread(todo, SquashTest(g, id, Rep(d, root)));
    assert d[root := d[root]] == d;
    if p == root {
      SizeInTable(d, root);
      ReachSelf(goal, d);
      ReachMore(goal, d, goal, d, 0, b);
    } else {
      var c := 2 * (|d| - d[p].size) + 1;
      ChaseReaches(todo, g, id, p, d);
      StepThen(Thread(todo, ChaseMove(g, id, root)), d, goal, d, c);
      ReachMore(Thread(todo, ChaseMove(g, id, root)), d, goal, d, c + 1, b);
    }
    StepThen(Thread(todo, ChaseTest(g, id, root)), d, goal, d, b);
  }

  /** The second loop compresses the path from id0, here from id on; it changes no root and no size. */
  lemma {:induction false} SquashReaches(todo: seq<(nat, nat)>, g: Goal, id0: nat, id: nat, root: nat, d0: seq<Rec>,
                                         d: seq<Rec>)
    returns (e: seq<Rec>)
    requires Forest(d0) && Forest(d) && SameTrees(d0, d) && OnlyClassChanged(d0, d, root)
    requires id < |d| == |d0| && Rep(d, id) == root && id0 < |d0| && root == Rep(d0, id0)
    requires OnWay(d0, id0, id) && d == CollapsedTo(d0, id0, id)
    ensures Reaches(Thread(todo, SquashTest(g, id, root)), d, Thread(todo, Found(g, root)), e,
                    3 * (|d| - d[id].size) + 1)
    ensures SameTrees(d0, e) && e == Collapsed(d0, id0)
    decreases |d| - d[id].size
  {
    hide Reaches, SameTrees, OnlyClassChanged, Forest, Found, StepOf, OnWay, CollapsedTo, Collapsed;
    SizeInTable(d, id);
    OwnRecord(d0, id0, id);
    var t, goal := Thread(todo, SquashTest(g, id, root)), Thread(todo, Found(g, root));
    if d[id].parent == root {
      e := d;
      CollapsedLast(d0, id0, id);
      SquashLast(todo, g, id, root, d);
      ReachMore(t, d, goal, d, 1, 3 * (|d| - d[id].size) + 1);
    } else {
      CollapseStep(d0, d, id, root);
      var tmp, f := d[id].parent, Redirected(d, id, root);
      CollapsedNext(d0, id0, id);
      e := SquashReaches(todo, g, id0, tmp, root, d0, f);
      var c := 3 * (|f| - f[tmp].size) + 1;
      SquashTurn(todo, g, id, root, d, goal, e, c);
      ReachMore(t, d, goal, e, c + 3, 3 * (|d| - d[id].size) + 1);
    }
  }

  lemma {:induction false} SquashLast(todo: seq<(nat, nat)>, g: Goal, id: nat, root: nat, d: seq<Rec>)
    requires id < |d| && d[id].parent == root
    ensures Reaches(Thread(todo, SquashTest(g, id, root)), d, Thread(todo, Found(g, root)), d, 1)
  {
    hide Reaches, Found;
    assert d[id := d[id]] == d;
    ReachSelf(Thread(todo, Found(g, root)), d);
    StepThen(Thread(todo, SquashTest(g, id, root)), d, Thread(todo, Found(g, root)), d, 0);
  }

  /** One turn of that loop takes three steps. */
  lemma {:induction false} SquashTurn(todo: seq<(nat, nat)>, g: Goal, id: nat, root: nat, d: seq<Rec>, u: Thread,
                                      e: seq<Rec>, c: int)
    requires id < |d| && d[id].parent != root
    requires Reaches(Thread(todo, SquashTest(g, d[id].parent, root)), Redirected(d, id, root), u, e, c)
    ensures Reaches(Thread(todo, SquashTest(g, id, root)), d, u, e, c + 3)
  {
    hide Reaches;
    assert d[id := d[id]] == d;
    StepThen(Thread(todo, SquashWrite(g, id, root, d[id].parent)), d, u, e, c);
    StepThen(Thread(todo, SquashRead(g, id, root)), d, u, e, c + 1);
    StepThen(Thread(todo, SquashTest(g, id, root)), d, u, e, c + 2);
  }

  lemma {:induction false} SizeInTable(d: seq<Rec>, id: nat)
    requires Forest(d) && id < |d|
    ensures d[id].size <= |d|
  {}

  lemma {:induction false} LookupReaches(todo: seq<(nat, nat)>, g: Goal, id: nat, d: seq<Rec>) returns (e: seq<Rec>)
    requires Forest(d) && id < |d|
    ensures Reaches(Thread(todo, ChaseTest(g, id, id)), d, Thread(todo, Found(g, Rep(d, id))), e, 5 * |d| + 2)
    ensures SameTrees(d, e) && e == Collapsed(d, id)
  {
    hide Reaches, SameTrees, OnlyClassChanged, Forest, Found, OnWay, CollapsedTo, Collapsed;
    NoneCollapsed(d, id);
    var root := Rep(d, id);
    ChaseReaches(todo, g, id, id, d);
    SameTreesRefl(d);
    OnlyClassChangedRefl(d, root);
    e := SquashReaches(todo, g, id, id, root, d, d);
    var b, c := 2 * (|d| - d[id].size) + 1, 3 * (|d| - d[id].size) + 1;
    var t, u := Thread(todo, ChaseTest(g, id, id)), Thread(todo, Found(g, root));
    ReachTrans(t, d, Thread(todo, SquashTest(g, id, root)), d, u, e, b, c);
    ReachMore(t, d, u, e, b + c, 5 * |d| + 2);
  }

  /** The table stands for the pairs. */
  ghost predicate Table(d: seq<Rec>, pairs: set<(nat, nat)>) {
    Forest(d) && Sized(d) && Represents(d, pairs)
  }

  /** The last part of a connect hangs one root below the other. */
  lemma {:induction false} LinkReaches(todo: seq<(nat, nat)>, aroot: nat, broot: nat, d: seq<Rec>)
    returns (e: seq<Rec>, low: nat, high: nat)
    requires aroot < |d| && broot < |d| && aroot != broot
    ensures Reaches(Thread(todo, SizeA(aroot, broot)), d, Thread(todo, Idle), e, 5)
    ensures (low, high) == (aroot, broot) || (low, high) == (broot, aroot)
    ensures d[low].size <= d[high].size && e == Linked(d, low, high)
    ensures low == if d[aroot].size > d[broot].size then broot else aroot
  {
    hide Reaches;
    var asize, bsize := d[aroot].size, d[broot].size;
    low, high := if asize > bsize then broot else aroot, if asize > bsize then aroot else broot;
    var size := d[low].size;
    var f := d[low := d[low].(parent := high)];
    e := Linked(d, low, high);
    assert d[aroot := d[aroot]] == d && d[broot := d[broot]] == d && f[high := f[high]] == f;
    ReachSelf(Thread(todo, Idle), e);
    StepThen(Thread(todo, GrowWrite(high, d[high].size + size)), f, Thread(todo, Idle), e, 0);
    StepThen(Thread(todo, GrowRead(high, size)), f, Thread(todo, Idle), e, 1);
    StepThen(Thread(todo, Link(low, high, size)), d, Thread(todo, Idle), e, 2);
    StepThen(Thread(todo, SizeB(aroot, broot, asize)), d, Thread(todo, Idle), e, 3);
    StepThen(Thread(todo, SizeA(aroot, broot)), d, Thread(todo, Idle), e, 4);
  }

  /** Steps enough to connect one pair in a table of n records. */
  function PerPair(n: nat): nat {
    10 * n + 10
  }

  /** Steps enough to connect k pairs. */
  function Enough(k: nat, n: nat): nat {
    if k == 0 then 0 else PerPair(n) + Enough(k - 1, n)
  }

  lemma {:induction false} EnoughIs(k: nat, n: nat)
    ensures Enough(k, n) == k * (10 * n + 10)
  {
    if k > 0 { EnoughIs(k - 1, n); }
  }

  /** A thread alone connects its next pair, and leaves the table that the connect of the structure leaves. */
  lemma {:induction false} ConnectReaches(todo: seq<(nat, nat)>, a: nat, b: nat, d: seq<Rec>, pairs: set<(nat, nat)>)
    returns (e: seq<Rec>)
    requires Table(d, pairs) && a < |d| && b < |d|
    ensures Reaches(Thread([(a, b)] + todo, Idle), d, Thread(todo, Idle), e, PerPair(|d|))
    ensures |e| == |d| && Table(e, pairs + {(a, b)}) && e == Connected(d, a, b)
  {
    hide Reaches, Forest, Sized, Represents, SameTrees, StepOf, Found, Collapsed, Connected, Linked;
    var d1 := LookupReaches(todo, First(b), a, d);
    SameTreesTable(d, d1, pairs);
    var aroot := Rep(d, a);
    var d2 := LookupReaches(todo, Second(aroot), b, d1);
    SameTreesTable(d1, d2, pairs);
    SameTreesRep(d, d1, a);
    SameTreesRep(d1, d2, a);
    SameTreesRep(d1, d2, b);
    var broot := Rep(d1, b);
    ConnectedIs(d, a, b, d1, d2);
    if aroot == broot {
      e := d2;
      ImpliedPair(d2, pairs, a, b);
      ReachSelf(Thread(todo, Idle), e);
      ReachMore(Thread(todo, Idle), e, Thread(todo, Idle), e, 0, 5);
    } else {
      e := JoinReaches(todo, a, b, d2, pairs);
    }
    FoundSecond(aroot, broot);
    PartsReach(todo, a, b, d, d1, d2, e, aroot, broot);
  }

  /** The part of a connect after two lookups with different results. */
  lemma {:induction false} JoinReaches(todo: seq<(nat, nat)>, a: nat, b: nat, d: seq<Rec>, pairs: set<(nat, nat)>)
    returns (e: seq<Rec>)
    requires Table(d, pairs) && a < |d| && b < |d| && Rep(d, a) != Rep(d, b)
    ensures Reaches(Thread(todo, SizeA(Rep(d, a), Rep(d, b))), d, Thread(todo, Idle), e, 5)
    ensures |e| == |d| && Table(e, pairs + {(a, b)})
    ensures var r, s := Rep(d, a), Rep(d, b);
      e == if d[r].size > d[s].size then Linked(d, s, r) else Linked(d, r, s)
  {
    hide Reaches, Forest, Sized, Represents, StepOf, Found, Linked, Merged;
    var low, high;
    RootIsOwnParent(d, a);
    RootIsOwnParent(d, b);
    e, low, high := LinkReaches(todo, Rep(d, a), Rep(d, b), d);
    LinkAll(d, low, high);
    MergedParts(d, e, low, high);
    MergeAddsPair(d, e, pairs, a, b, low, high);
  }

  /** The two lookups and what follows. */
  lemma {:induction false} PartsReach(todo: seq<(nat, nat)>, a: nat, b: nat, d: seq<Rec>, d1: seq<Rec>, d2: seq<Rec>,
                                      e: seq<Rec>, aroot: nat, broot: nat)
    requires var c := 5 * |d| + 2;
      && Reaches(Thread(todo, ChaseTest(First(b), a, a)), d, Thread(todo, Found(First(b), aroot)), d1, c)
      && Reaches(Thread(todo, ChaseTest(Second(aroot), b, b)), d1, Thread(todo, Found(Second(aroot), broot)), d2, c)
      && Reaches(Thread(todo, Found(Second(aroot), broot)), d2, Thread(todo, Idle), e, 5)
    ensures Reaches(Thread([(a, b)] + todo, Idle), d, Thread(todo, Idle), e, PerPair(|d|))
  {
    hide Reaches, StepOf, Found;
    ConnectStarts(todo, a, b, d);
    FoundFirst(b, aroot);
    var c := 5 * |d| + 2;
    ReachTrans(Thread(todo, ChaseTest(Second(aroot), b, b)), d1, Thread(todo, Found(Second(aroot), broot)), d2,
               Thread(todo, Idle), e, c, 5);
    ReachTrans(Thread(todo, ChaseTest(First(b), a, a)), d, Thread(todo, Found(First(b), aroot)), d1,
               Thread(todo, Idle), e, c, c + 5);
    StepThen(Thread([(a, b)] + todo, Idle), d, Thread(todo, Idle), e, c + c + 5);
  }

  lemma {:induction false} MergedParts(d: seq<Rec>, e: seq<Rec>, low: nat, high: nat)
    requires Merged(d, e, low, high)
    ensures Forest(e) && |e| == |d|
  {}

  lemma {:induction false} FoundFirst(b: nat, aroot: nat)
    ensures Found(First(b), aroot) == ChaseTest(Second(aroot), b, b)
  {}

  lemma {:induction false} FoundSecond(aroot: nat, broot: nat)
    ensures Found(Second(aroot), broot) == if aroot == broot then Idle else SizeA(aroot, broot)
  {}

  lemma {:induction false} ConnectStarts(todo: seq<(nat, nat)>, a: nat, b: nat, d: seq<Rec>)
    ensures StepOf(Thread([(a, b)] + todo, Idle), d) == (Thread(todo, ChaseTest(First(b), a, a)), d)
  {
    assert ([(a, b)] + todo)[1..] == todo;
  }

  lemma {:induction false} SameTreesTable(d: seq<Rec>, e: seq<Rec>, pairs: set<(nat, nat)>)
    requires Table(d, pairs) && SameTrees(d, e)
    ensures |e| == |d| && Forest(d) && Forest(e) && Table(e, pairs)
  {
    SameTreesSized(d, e);
    SameTreesRepresent(d, e, pairs);
  }

  ghost function PairSet(todo: seq<(nat, nat)>): set<(nat, nat)> {
    set q | q in todo
  }

  /** A thread alone connects all its pairs, in so many steps. */
  lemma {:induction false} AllReaches(todo: seq<(nat, nat)>, d: seq<Rec>, pairs: set<(nat, nat)>) returns (e: seq<Rec>)
    requires Table(d, pairs) && forall q | q in todo :: q.0 < |d| && q.1 < |d|
    ensures Reaches(Thread(todo, Idle), d, Thread([], Idle), e, Enough(|todo|, |d|))
    ensures |e| == |d| && Table(e, pairs + PairSet(todo))
    decreases |todo|
  {
    hide Reaches, Table, PerPair;
    if todo == [] {
      e := d;
      ReachSelf(Thread(todo, Idle), d);
      assert pairs + PairSet(todo) == pairs;
    } else {
      var q, rest := todo[0], todo[1..];
      assert todo == [(q.0, q.1)] + rest;
      var f := ConnectReaches(rest, q.0, q.1, d, pairs);
      e := AllReaches(rest, f, pairs + {q});
      ReachTrans(Thread(todo, Idle), d, Thread(rest, Idle), f, Thread([], Idle), e,
                 PerPair(|d|), Enough(|rest|, |d|));
      assert pairs + PairSet(todo) == pairs + {q} + PairSet(rest);
    }
  }
}
