/** The tasks of the parallel labelling, interleaved access by access (Robot/apriltags/apriltag_quad_thresh.c): they
    touch disjoint parts of the union-find table, so every interleaving leaves the table that some task after the other
    would leave. */
module Interleaving {
  import opened Arithmetic
  import opened FiniteSets
  import opened Segmentation
  import opened SteppedConnect
  import opened UnionFind

  /** Runs the threads in the order of the schedule, one step each time. */
  function Run(ts: seq<Thread>, d: seq<Rec>, sched: seq<nat>): (r: (seq<Thread>, seq<Rec>))
    ensures |r.0| == |ts| && |r.1| == |d|
  {
    if sched == [] then (ts, d)
    else
      var (us, e) := Run(ts, d, sched[..|sched| - 1]);
      var i := sched[|sched| - 1];
      if i >= |us| then (us, e)
      else
        var (t, f) := StepOf(us[i], e);
        (us[i := t], f)
  }

  function Count(sched: seq<nat>, i: nat): nat {
    if sched == [] then 0 else Count(sched[..|sched| - 1], i) + if sched[|sched| - 1] == i then 1 else 0
  }

  ghost predicate AllDone(ts: seq<Thread>) {
    forall i: nat | i < |ts| :: Done(ts[i])
  }

  /** Each thread has its own part of the table, and these are disjoint. */
  ghost predicate Separate(ts: seq<Thread>, d: seq<Rec>, owns: seq<set<nat>>) {
    && |owns| == |ts|
    && (forall i, j | 0 <= i < j < |owns| :: owns[i] !! owns[j])
    && forall i: nat | i < |ts| :: Confined(ts[i], d, owns[i])
  }

  /** Thread i is where it would be after n steps alone, and so is its part of the table. */
  ghost predicate AsAlone(ts: seq<Thread>, d: seq<Rec>, owns: seq<set<nat>>, us: seq<Thread>, e: seq<Rec>, i: nat,
                          n: nat)
    requires i < |ts| == |us| == |owns|
  {
    us[i] == Solo(ts[i], d, n).0 && AgreeOn(e, Solo(ts[i], d, n).1, owns[i])
  }

  ghost predicate Unowned(owns: seq<set<nat>>, k: nat) {
    forall i | 0 <= i < |owns| :: k !in owns[i]
  }

  /** However the threads are interleaved, each of them proceeds as if it were alone. */
  lemma {:induction false} EachAsAlone(ts: seq<Thread>, d: seq<Rec>, owns: seq<set<nat>>, sched: seq<nat>)
    requires Separate(ts, d, owns)
    ensures var (us, e) := Run(ts, d, sched);
      && Separate(us, e, owns)
      && (forall i: nat | i < |ts| :: AsAlone(ts, d, owns, us, e, i, Count(sched, i)))
      && forall k: nat | k < |d| && Unowned(owns, k) :: e[k] == d[k]
    decreases |sched|
  {
    hide Confined, StepOf, AgreeOn, Solo, Unowned;
    var (us, e) := Run(ts, d, sched);
    if sched == [] {
      forall i: nat | i < |ts| ensures AsAlone(ts, d, owns, us, e, i, Count(sched, i)) {
        AloneStarts(ts[i], d, owns[i]);
      }
    } else {
      var front, i := sched[..|sched| - 1], sched[|sched| - 1];
      EachAsAlone(ts, d, owns, front);
      var (vs, f) := Run(ts, d, front);
      if i < |vs| {
        StepConfined(vs[i], f, owns[i]);
        forall j: nat | j < |ts|
          ensures Confined(us[j], e, owns[j]) && AsAlone(ts, d, owns, us, e, j, Count(sched, j))
        {
          assert AsAlone(ts, d, owns, vs, f, j, Count(front, j));
          if j == i {
            AloneSteps(ts[i], d, Count(front, i), vs[i], f, owns[i]);
          } else {
            assert owns[i] !! owns[j];
            OthersStand(vs[j], f, e, owns[i], owns[j], Solo(ts[j], d, Count(front, j)).1);
          }
        }
        forall k: nat | k < |d| && Unowned(owns, k) ensures e[k] == d[k] {
          UnownedStands(f, e, owns, i, k);
        }
      }
    }
  }

  lemma {:induction false} AloneStarts(t: Thread, d: seq<Rec>, own: set<nat>)
    ensures Solo(t, d, 0) == (t, d) && AgreeOn(d, d, own)
  {}

  lemma {:induction false} AloneSteps(t: Thread, d: seq<Rec>, n: nat, v: Thread, f: seq<Rec>, own: set<nat>)
    requires v == Solo(t, d, n).0 && AgreeOn(f, Solo(t, d, n).1, own) && Confined(v, f, own)
    ensures StepOf(v, f).0 == Solo(t, d, n + 1).0 && AgreeOn(StepOf(v, f).1, Solo(t, d, n + 1).1, own)
  {
    hide StepOf, Confined, AgreeOn;
    StepLocal(v, f, Solo(t, d, n).1, own);
  }

  lemma {:induction false} OthersStand(v: Thread, f: seq<Rec>, e: seq<Rec>, own: set<nat>, other: set<nat>, g: seq<Rec>)
    requires own !! other && AgreeOutside(f, e, own) && Confined(v, f, other) && AgreeOn(f, g, other)
    ensures Confined(v, e, other) && AgreeOn(e, g, other)
  {
    hide PcIds;
    assert forall k | k in other :: k !in own && e[k] == f[k];
  }

  lemma {:induction false} UnownedStands(f: seq<Rec>, e: seq<Rec>, owns: seq<set<nat>>, i: nat, k: nat)
    requires i < |owns| && AgreeOutside(f, e, owns[i]) && Unowned(owns, k) && k < |f|
    ensures e[k] == f[k]
  {}

  lemma {:induction false} DoneStays(t: Thread, d: seq<Rec>, m: nat, n: nat)
    requires Done(Solo(t, d, m).0) && m <= n
    ensures Solo(t, d, n) == Solo(t, d, m)
    decreases n
  {
    if m < n { DoneStays(t, d, m, n - 1); }
  }

  /** All complete interleavings end with the same table. */
  lemma {:induction false} SameEnd(ts: seq<Thread>, d: seq<Rec>, owns: seq<set<nat>>, s1: seq<nat>, s2: seq<nat>)
    requires Separate(ts, d, owns) && AllDone(Run(ts, d, s1).0) && AllDone(Run(ts, d, s2).0)
    ensures Run(ts, d, s1).1 == Run(ts, d, s2).1
  {
    hide Run, Confined, Solo, Count, Done, AgreeOn, Separate, Unowned;
    EachAsAlone(ts, d, owns, s1);
    EachAsAlone(ts, d, owns, s2);
    var (us, e) := Run(ts, d, s1);
    var (vs, f) := Run(ts, d, s2);
    SeparateSizes(ts, d, owns);
    forall k: nat | k < |d| ensures e[k] == f[k] {
      if i: nat :| i < |owns| && k in owns[i] {
        assert AsAlone(ts, d, owns, us, e, i, Count(s1, i)) && AsAlone(ts, d, owns, vs, f, i, Count(s2, i));
        BothDone(ts[i], d, Count(s1, i), Count(s2, i));
        AgreeAt(e, Solo(ts[i], d, Count(s1, i)).1, owns[i], k);
        AgreeAt(f, Solo(ts[i], d, Count(s2, i)).1, owns[i], k);
      } else {
        NobodyOwns(owns, k);
      }
    }
  }

  lemma {:induction false} SeparateSizes(ts: seq<Thread>, d: seq<Rec>, owns: seq<set<nat>>)
    requires Separate(ts, d, owns)
    ensures |owns| == |ts|
  {}

  lemma {:induction false} NobodyOwns(owns: seq<set<nat>>, k: nat)
    requires forall i: nat | i < |owns| :: k !in owns[i]
    ensures Unowned(owns, k)
  {}

  lemma {:induction false} AgreeAt(d: seq<Rec>, e: seq<Rec>, own: set<nat>, k: nat)
    requires AgreeOn(d, e, own) && k in own && k < |d|
    ensures |d| == |e| && d[k] == e[k]
  {}

  lemma {:induction false} BothDone(t: Thread, d: seq<Rec>, m: nat, n: nat)
    requires Done(Solo(t, d, m).0) && Done(Solo(t, d, n).0)
    ensures Solo(t, d, m) == Solo(t, d, n)
  {
    hide Solo;
    if m <= n { DoneStays(t, d, m, n); } else { DoneStays(t, d, n, m); }
  }

  // ---------------------------------------------------------------------------------------
  // One thread after the other

  function Times(i: nat, n: nat): (s: seq<nat>)
    ensures |s| == n && forall k | 0 <= k < n :: s[k] == i
  {
    seq(n, _ => i)
  }

  lemma {:induction false} RunAppend(ts: seq<Thread>, d: seq<Rec>, s1: seq<nat>, s2: seq<nat>)
    ensures Run(Run(ts, d, s1).0, Run(ts, d, s1).1, s2) == Run(ts, d, s1 + s2)
    decreases |s2|
  {
    if s2 == [] {
      assert s1 + s2 == s1;
    } else {
      RunAppend(ts, d, s1, s2[..|s2| - 1]);
      assert (s1 + s2)[..|s1 + s2| - 1] == s1 + s2[..|s2| - 1];
    }
  }

  lemma {:induction false} RunOne(ts: seq<Thread>, d: seq<Rec>, i: nat, n: nat)
    requires i < |ts|
    ensures Run(ts, d, Times(i, n)) == (ts[i := Solo(ts[i], d, n).0], Solo(ts[i], d, n).1)
  {
    hide StepOf;
    if n == 0 {
      assert ts[i := ts[i]] == ts;
    } else {
      RunOne(ts, d, i, n - 1);
      assert Times(i, n)[..n - 1] == Times(i, n - 1) && Times(i, n)[n - 1] == i;
      var a, b := Solo(ts[i], d, n - 1).0, Solo(ts[i], d, n).0;
      assert ts[i := a][i := b] == ts[i := b];
    }
  }

  /** The pairs of the threads from k on. */
  ghost function PairsFrom(ts: seq<Thread>, k: nat): set<(nat, nat)>
    requires k <= |ts|
    decreases |ts| - k
  {
    if k == |ts| then {} else PairSet(ts[k].todo) + PairsFrom(ts, k + 1)
  }

  ghost predicate ReadyFrom(ts: seq<Thread>, d: seq<Rec>, k: nat) {
    forall i: nat | k <= i < |ts| :: ts[i].pc == Idle && forall q | q in ts[i].todo :: q.0 < |d| && q.1 < |d|
  }

  /** The threads from k on, run one after the other, connect all their pairs. */
  lemma {:induction false} OneByOne(ts: seq<Thread>, d: seq<Rec>, pairs: set<(nat, nat)>, k: nat)
    returns (sched: seq<nat>)
    requires Table(d, pairs) && k <= |ts| && ReadyFrom(ts, d, k) && forall i: nat | i < k :: Done(ts[i])
    ensures AllDone(Run(ts, d, sched).0) && Table(Run(ts, d, sched).1, pairs + PairsFrom(ts, k))
    decreases |ts| - k
  {
    hide Table, Solo;
    if k == |ts| {
      sched := [];
      assert pairs + PairsFrom(ts, k) == pairs;
    } else {
      var t := ts[k];
      assert t == Thread(t.todo, Idle);
      var e := AllReaches(t.todo, d, pairs);
      var n: nat :| n <= Enough(|t.todo|, |d|) && Solo(t, d, n) == (Thread([], Idle), e);
      RunOne(ts, d, k, n);
      var us := ts[k := Thread([], Idle)];
      var rest := OneByOne(us, e, pairs + PairSet(t.todo), k + 1);
      sched := Times(k, n) + rest;
      RunAppend(ts, d, Times(k, n), rest);
      SamePairs(ts, us, k + 1);
      assert pairs + PairSet(t.todo) + PairsFrom(us, k + 1) == pairs + PairsFrom(ts, k);
    }
  }

  /** A schedule with enough turns for each thread is complete. */
  lemma {:induction false} EnoughTurns(ts: seq<Thread>, d: seq<Rec>, owns: seq<set<nat>>, pairs: set<(nat, nat)>,
                                       sched: seq<nat>)
    requires Table(d, pairs) && ReadyFrom(ts, d, 0) && Separate(ts, d, owns)
    requires forall i: nat | i < |ts| :: Count(sched, i) >= Enough(|ts[i].todo|, |d|)
    ensures AllDone(Run(ts, d, sched).0)
  {
    hide Table, Run, Confined, Solo, Count, AgreeOn, Separate, Unowned, Enough;
    EachAsAlone(ts, d, owns, sched);
    SeparateSizes(ts, d, owns);
    var (us, e) := Run(ts, d, sched);
    forall i: nat | i < |us| ensures Done(us[i]) {
      assert AsAlone(ts, d, owns, us, e, i, Count(sched, i));
      var t := ts[i];
      assert t == Thread(t.todo, Idle);
      var f := AllReaches(t.todo, d, pairs);
      var n: nat :| n <= Enough(|t.todo|, |d|) && Solo(t, d, n) == (Thread([], Idle), f);
      DoneStays(t, d, n, Count(sched, i));
    }
  }

  lemma {:induction false} SamePairs(ts: seq<Thread>, us: seq<Thread>, k: nat)
    requires |us| == |ts| && k <= |ts| && forall i | k <= i < |ts| :: us[i] == ts[i]
    ensures PairsFrom(us, k) == PairsFrom(ts, k)
    decreases |ts| - k
  {
    if k < |ts| { SamePairs(ts, us, k + 1); }
  }

  /** Threads with separate parts of the table: every complete interleaving of their accesses connects all their
      pairs. */
  lemma {:induction false} AnyInterleavingConnects(ts: seq<Thread>, d: seq<Rec>, owns: seq<set<nat>>,
                                                   pairs: set<(nat, nat)>, sched: seq<nat>)
    requires Table(d, pairs) && ReadyFrom(ts, d, 0) && Separate(ts, d, owns) && AllDone(Run(ts, d, sched).0)
    ensures Table(Run(ts, d, sched).1, pairs + PairsFrom(ts, 0))
  {
    hide Table, Run, Separate, AllDone, ReadyFrom;
    var s := OneByOne(ts, d, pairs, 0);
    SameEnd(ts, d, owns, sched, s);
  }

  // ---------------------------------------------------------------------------------------
  // The tasks of the labelling

  function PairIf(im: Image, p: Pixel, k: nat): seq<(nat, nat)>
    requires ValidImage(im) && k < 4
  {
    if Joins(im, p, k) then [Edge(im, p, k)] else []
  }

  /** The pairs of row y up to column x, in scanning order. */
  function RowPairs(im: Image, y: nat, x: nat): seq<(nat, nat)>
    requires ValidImage(im)
  {
    if x == 0 then []
    else
      var p := Pixel(x - 1, y);
      RowPairs(im, y, x - 1) + PairIf(im, p, 0) + PairIf(im, p, 1) + PairIf(im, p, 2) + PairIf(im, p, 3)
  }

  function TaskPairs(im: Image, y0: nat, y1: nat): seq<(nat, nat)>
    requires ValidImage(im)
    decreases y1
  {
    if y1 <= y0 then [] else TaskPairs(im, y0, y1 - 1) + RowPairs(im, y1 - 1, im.w)
  }

  lemma {:induction false} PairSetIf(im: Image, p: Pixel, k: nat)
    requires ValidImage(im) && k < 4
    ensures PairSet(PairIf(im, p, k)) == EdgeIf(im, p, k)
  {}

  lemma {:induction false} PairSetAdds(a: seq<(nat, nat)>, b: seq<(nat, nat)>)
    ensures PairSet(a + b) == PairSet(a) + PairSet(b)
  {}

  lemma {:induction false} RowPairSet(im: Image, y: nat, x: nat)
    requires ValidImage(im)
    ensures PairSet(RowPairs(im, y, x)) == EdgesBefore(im, y, x)
  {
    hide PairSet, EdgesBefore, EdgeIf, PairIf;
    if x == 0 {
      NoPairs(im, y);
    } else {
      var p := Pixel(x - 1, y);
      RowPairSet(im, y, x - 1);
      EdgesBeforeNext(im, y, x - 1);
      PairSetIf(im, p, 0);
      PairSetIf(im, p, 1);
      PairSetIf(im, p, 2);
      PairSetIf(im, p, 3);
      var r := RowPairs(im, y, x - 1);
      PairSetAdds(r, PairIf(im, p, 0));
      PairSetAdds(r + PairIf(im, p, 0), PairIf(im, p, 1));
      PairSetAdds(r + PairIf(im, p, 0) + PairIf(im, p, 1), PairIf(im, p, 2));
      PairSetAdds(r + PairIf(im, p, 0) + PairIf(im, p, 1) + PairIf(im, p, 2), PairIf(im, p, 3));
    }
  }

  lemma {:induction false} NoPairs(im: Image, y: nat)
    requires ValidImage(im)
    ensures PairSet([]) == {} == EdgesBefore(im, y, 0)
  {}

  lemma {:induction false} WholeRow(im: Image, y: nat)
    requires ValidImage(im)
    ensures EdgesBefore(im, y, im.w) == Edges(im, {y})
  {}

  ghost function RowsOf(y0: nat, y1: nat): set<nat> {
    set y | y in Below(y1) && y0 <= y
  }

  lemma {:induction false} TaskPairSet(im: Image, y0: nat, y1: nat)
    requires ValidImage(im)
    ensures PairSet(TaskPairs(im, y0, y1)) == Edges(im, RowsOf(y0, y1))
    decreases y1
  {
    hide PairSet, Edges, EdgesBefore;
    if y1 <= y0 {
      NoPairs(im, 0);
      NoRowsNoEdges(im);
      assert RowsOf(y0, y1) == {};
    } else {
      TaskPairSet(im, y0, y1 - 1);
      RowPairSet(im, y1 - 1, im.w);
      WholeRow(im, y1 - 1);
      PairSetAdds(TaskPairs(im, y0, y1 - 1), RowPairs(im, y1 - 1, im.w));
      EdgesUnion(im, RowsOf(y0, y1 - 1), {y1 - 1});
      assert RowsOf(y0, y1) == RowsOf(y0, y1 - 1) + {y1 - 1};
    }
  }

  /** One thread for each task. */
  function Threads(im: Image, tasks: seq<Task>): (ts: seq<Thread>)
    requires ValidImage(im)
    ensures |ts| == |tasks|
  {
    seq(|tasks|, t requires 0 <= t < |tasks| => Thread(TaskPairs(im, tasks[t].y0, tasks[t].y1), Idle))
  }

  /** The records of the pixels of chunk t. */
  ghost function ChunkIds(im: Image, chunk: nat, t: nat): set<nat>
    requires chunk > 0
  {
    set id | id in Below(im.w * im.h) && PixelOf(im, id).y / chunk == t
  }

  lemma {:induction false} TaskConfined(im: Image, chunk: nat, tasks: seq<Task>, d: seq<Rec>, t: nat)
    requires ValidImage(im) && im.h >= 1 && chunk > 0 && IsTaskList(tasks, im.h - 1, chunk) && t < |tasks|
    requires |d| == im.w * im.h + 1 && forall i | 0 <= i < |d| :: d[i] == Rec(i, 1)
    ensures Confined(Threads(im, tasks)[t], d, ChunkIds(im, chunk, t))
  {
    hide IsTaskList, Edges, TaskPairs;
    var own, todo := ChunkIds(im, chunk, t), TaskPairs(im, tasks[t].y0, tasks[t].y1);
    TaskPairSet(im, tasks[t].y0, tasks[t].y1);
    forall q | q in todo ensures q.0 in own && q.1 in own {
      assert q in PairSet(todo);
      PairInChunk(im, chunk, tasks, t, q.0, q.1);
    }
  }

  lemma {:induction false} PairInChunk(im: Image, chunk: nat, tasks: seq<Task>, t: nat, a: nat, b: nat)
    requires ValidImage(im) && im.h >= 1 && chunk > 0 && IsTaskList(tasks, im.h - 1, chunk) && t < |tasks|
    requires (a, b) in Edges(im, RowsOf(tasks[t].y0, tasks[t].y1))
    ensures a in ChunkIds(im, chunk, t) && b in ChunkIds(im, chunk, t)
  {
    hide IsTaskList, Edges;
    EdgeJoinsNeighbours(im, RowsOf(tasks[t].y0, tasks[t].y1), a, b);
    var y := PixelOf(im, a).y;
    RowOfTask(tasks, im.h - 1, chunk, y, t);
    ChunkOfRow(tasks, im.h - 1, chunk, y, t);
    NextRowSameChunk(y, chunk);
  }

  lemma {:induction false} ChunkOfRow(tasks: seq<Task>, sz: nat, chunk: nat, y: nat, t: nat)
    requires chunk > 0 && IsTaskList(tasks, sz, chunk) && t < |tasks| && tasks[t].y0 <= y < tasks[t].y1
    ensures y / chunk == t
  {
    var u := t * chunk;
    assert tasks[t] == Task(u, if sz < u + chunk - 1 then sz else u + chunk - 1);
    assert (y / chunk) * chunk + y % chunk == u + (y - u);
    DivUnique(chunk, y / chunk, y % chunk, t, y - u);
  }

  /** The tasks know only the records of their chunks. */
  lemma {:induction false} TasksSeparate(im: Image, chunk: nat, tasks: seq<Task>, d: seq<Rec>)
    returns (owns: seq<set<nat>>)
    requires ValidImage(im) && im.h >= 1 && chunk > 0 && IsTaskList(tasks, im.h - 1, chunk)
    requires |d| == im.w * im.h + 1 && forall i | 0 <= i < |d| :: d[i] == Rec(i, 1)
    ensures Separate(Threads(im, tasks), d, owns) && ReadyFrom(Threads(im, tasks), d, 0)
  {
    hide IsTaskList, TaskPairs, Confined, ChunkIds;
    var ts := Threads(im, tasks);
    owns := seq(|tasks|, t requires 0 <= t < |tasks| => ChunkIds(im, chunk, t));
    ChunksDisjoint(im, chunk, owns);
    forall t: nat | t < |ts| ensures Confined(ts[t], d, owns[t]) {
      TaskConfined(im, chunk, tasks, d, t);
    }
    forall t: nat | t < |ts| ensures forall q | q in ts[t].todo :: q.0 < |d| && q.1 < |d| {
      ConfinedInTable(ts[t], d, owns[t]);
    }
  }

  /** While no stitching is done: every interleaving of the table accesses of all tasks, in any number of threads, joins
      exactly the pairs of the task rows. */
  lemma {:induction false} TasksInterleave(im: Image, chunk: nat, tasks: seq<Task>, d: seq<Rec>, sched: seq<nat>)
    requires ValidImage(im) && im.h >= 1 && chunk > 0
    requires IsTaskList(tasks, im.h - 1, chunk) && im.h - 1 <= |tasks| * chunk
    requires |d| == im.w * im.h + 1 && forall i | 0 <= i < |d| :: d[i] == Rec(i, 1)
    requires AllDone(Run(Threads(im, tasks), d, sched).0)
    ensures Table(Run(Threads(im, tasks), d, sched).1, Edges(im, TaskRows(im.h - 1, chunk)))
  {
    hide IsTaskList, Edges, Table, Run, AllDone, TaskPairs, Confined, ChunkIds;
    var ts := Threads(im, tasks);
    var owns := TasksSeparate(im, chunk, tasks, d);
    SingletonsAreTable(d);
    AnyInterleavingConnects(ts, d, owns, {}, sched);
    TaskPairsAll(im, chunk, tasks, 0);
    TasksCover(tasks, im.h - 1, chunk);
    assert {} + PairsFrom(ts, 0) == PairsFrom(ts, 0);
    EndsFrom(im, tasks);
  }

  /** Every schedule that gives each task so many turns per pair is complete. */
  lemma {:induction false} TasksFinish(im: Image, chunk: nat, tasks: seq<Task>, d: seq<Rec>, sched: seq<nat>)
    requires ValidImage(im) && im.h >= 1 && chunk > 0
    requires IsTaskList(tasks, im.h - 1, chunk) && im.h - 1 <= |tasks| * chunk
    requires |d| == im.w * im.h + 1 && forall i | 0 <= i < |d| :: d[i] == Rec(i, 1)
    requires forall t: nat | t < |tasks| :: Count(sched, t) >= |Threads(im, tasks)[t].todo| * (10 * |d| + 10)
    ensures AllDone(Run(Threads(im, tasks), d, sched).0)
    ensures Table(Run(Threads(im, tasks), d, sched).1, Edges(im, TaskRows(im.h - 1, chunk)))
  {
    hide IsTaskList, Edges, Table, Run, AllDone, TaskPairs, Confined, ChunkIds, Separate, Count, Enough;
    var ts := Threads(im, tasks);
    var owns := TasksSeparate(im, chunk, tasks, d);
    SingletonsAreTable(d);
    forall i: nat | i < |ts| ensures Count(sched, i) >= Enough(|ts[i].todo|, |d|) {
      EnoughIs(|ts[i].todo|, |d|);
    }
    EnoughTurns(ts, d, owns, {}, sched);
    TasksInterleave(im, chunk, tasks, d, sched);
  }

  lemma {:induction false} SingletonsAreTable(d: seq<Rec>)
    requires forall i | 0 <= i < |d| :: d[i] == Rec(i, 1)
    ensures Table(d, {})
  {
    SingletonsRepresentNothing(d);
  }

  lemma {:induction false} ChunksDisjoint(im: Image, chunk: nat, owns: seq<set<nat>>)
    requires chunk > 0 && forall t: nat | t < |owns| :: owns[t] == ChunkIds(im, chunk, t)
    ensures forall i, j | 0 <= i < j < |owns| :: owns[i] !! owns[j]
  {
    forall i: nat, j: nat | i < j < |owns| ensures owns[i] !! owns[j] {
      assert owns[i] == ChunkIds(im, chunk, i) && owns[j] == ChunkIds(im, chunk, j);
    }
  }

  lemma {:induction false} ConfinedInTable(t: Thread, d: seq<Rec>, own: set<nat>)
    requires Confined(t, d, own)
    ensures forall q | q in t.todo :: q.0 < |d| && q.1 < |d|
  {}

  /** The rows of the tasks from k on. */
  ghost function RowsFrom(tasks: seq<Task>, k: nat): set<nat>
    requires k <= |tasks|
    decreases |tasks| - k
  {
    if k == |tasks| then {} else RowsOf(tasks[k].y0, tasks[k].y1) + RowsFrom(tasks, k + 1)
  }

  lemma {:induction false} TaskPairsAll(im: Image, chunk: nat, tasks: seq<Task>, k: nat)
    requires ValidImage(im) && k <= |tasks|
    ensures PairsFrom(Threads(im, tasks), k) == Edges(im, RowsFrom(tasks, k))
    decreases |tasks| - k
  {
    hide Edges, TaskPairs, PairSet;
    if k == |tasks| {
      NoRowsNoEdges(im);
    } else {
      TaskPairsAll(im, chunk, tasks, k + 1);
      TaskPairSet(im, tasks[k].y0, tasks[k].y1);
      EdgesUnion(im, RowsOf(tasks[k].y0, tasks[k].y1), RowsFrom(tasks, k + 1));
    }
  }

  lemma {:induction false} RowsFromHas(tasks: seq<Task>, k: nat, y: nat)
    requires k <= |tasks|
    ensures y in RowsFrom(tasks, k) <==> exists t: nat :: k <= t < |tasks| && y in RowsOf(tasks[t].y0, tasks[t].y1)
    decreases |tasks| - k
  {
    if k < |tasks| { RowsFromHas(tasks, k + 1, y); }
  }

  lemma {:induction false} EndsFrom(im: Image, tasks: seq<Task>)
    ensures RowsFrom(tasks, 0) == RowsBefore(tasks, Ends(tasks))
  {
    forall y: nat ensures y in RowsFrom(tasks, 0) <==> y in RowsBefore(tasks, Ends(tasks)) {
      RowsFromHas(tasks, 0, y);
      if t: nat :| t < |tasks| && y in RowsOf(tasks[t].y0, tasks[t].y1) {
        assert y < Ends(tasks)[t] && InTask(tasks, t, y);
      }
      if t: nat :| t < |tasks| && y < Ends(tasks)[t] && InTask(tasks, t, y) {
        assert y in RowsOf(tasks[t].y0, tasks[t].y1);
      }
    }
  }
}
