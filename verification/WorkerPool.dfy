/** The worker pool protocol (Robot/apriltags/common/workerpool.c) as interleaved steps of one
    caller of `workerpool_run` and its worker threads. Each step is one access to the shared
    fields or one operation on the mutex or the condition variables. */
module WorkerPool {
  import opened Options

  /** Where a worker is inside `worker_thread`. */
  datatype WorkerAt =
    | Lock                // about to take the mutex (also: woken, taking it back)
    | Test                // holds it; about to test for the end of the task list
    | Inc                 // about to count itself as done
    | Bcast               // about to signal endcond
    | Wait                // about to wait on startcond, which releases the mutex
    | Parked              // waiting on startcond
    | Take                // about to fetch a task
    | Unlock(task: nat)   // fetched a task, about to release the mutex
    | Call(task: nat)     // running the task function

  /** Where the caller is inside `workerpool_run`. */
  datatype MainAt = Reset | MLock | Start | MTest | MWait | MParked | MRelock | MUnlock
                  | ClearPos | ClearTasks | Returned

  datatype Thread = Caller | Worker(w: nat)

  /** `done[t]` counts how often the function of task t has been called and has returned. */
  datatype State = State(workers: seq<WorkerAt>, main: MainAt, holder: Option<Thread>,
                         ntasks: nat, taskspos: nat, endCount: nat, done: seq<nat>)

  // ---------------------------------------------------------------------------------------
  // Steps

  function Moved(s: State, w: nat, at: WorkerAt): State
    requires w < |s.workers|
  {
    s.(workers := s.workers[w := at])
  }

  /** The next step of worker w, if it is not blocked. */
  function WorkerStep(s: State, w: nat): Option<State>
    requires w < |s.workers|
  {
    match s.workers[w]
    case Lock => if s.holder.None? then Some(Moved(s, w, Test).(holder := Some(Worker(w)))) else None
    case Test => Some(Moved(s, w, if s.taskspos == s.ntasks then Inc else Take))
    case Inc => Some(Moved(s, w, Bcast).(endCount := s.endCount + 1))
    case Bcast => Some(Moved(s, w, Wait).(main := if s.main == MParked then MRelock else s.main))
    case Wait => Some(Moved(s, w, Parked).(holder := None))
    case Parked => None
    case Take => Some(Moved(s, w, Unlock(s.taskspos)).(taskspos := s.taskspos + 1))
    case Unlock(t) => Some(Moved(s, w, Call(t)).(holder := None))
    case Call(t) => Some(Moved(s, w, Lock).(done := if t < |s.done| then s.done[t := s.done[t] + 1] else s.done))
  }

  function Woken(ws: seq<WorkerAt>): (r: seq<WorkerAt>)
    ensures |r| == |ws| && forall i | 0 <= i < |ws| :: r[i] == if ws[i] == Parked then Lock else ws[i]
  {
    seq(|ws|, i requires 0 <= i < |ws| => if ws[i] == Parked then Lock else ws[i])
  }

  /** The next step of the caller, if it is not blocked. */
  function CallerStep(s: State): Option<State> {
    match s.main
    case Reset => Some(s.(main := MLock, endCount := 0))
    case MLock => if s.holder.None? then Some(s.(main := Start, holder := Some(Caller))) else None
    case Start => Some(s.(main := MTest, workers := Woken(s.workers)))
    case MTest => Some(s.(main := if s.endCount < |s.workers| then MWait else MUnlock))
    case MWait => Some(s.(main := MParked, holder := None))
    case MParked => None
    case MRelock => if s.holder.None? then Some(s.(main := MTest, holder := Some(Caller))) else None
    case MUnlock => Some(s.(main := ClearPos, holder := None))
    case ClearPos => Some(s.(main := ClearTasks, taskspos := 0))
    case ClearTasks => Some(s.(main := Returned, ntasks := 0))
    case Returned => None
  }

  function Next(s: State, t: Thread): Option<State> {
    match t
    case Caller => CallerStep(s)
    case Worker(w) => if w < |s.workers| then WorkerStep(s, w) else None
  }

  // ---------------------------------------------------------------------------------------
  // Counting the workers that have reported the end of the list

  predicate Ended(at: WorkerAt) {
    at.Bcast? || at.Wait? || at.Parked?
  }

  function Count(ws: seq<WorkerAt>): nat {
    if ws == [] then 0 else Count(ws[..|ws| - 1]) + if Ended(ws[|ws| - 1]) then 1 else 0
  }

  lemma {:induction false} CountMoved(ws: seq<WorkerAt>, w: nat, at: WorkerAt)
    requires w < |ws|
    ensures Count(ws[w := at]) == Count(ws) - (if Ended(ws[w]) then 1 else 0) + (if Ended(at) then 1 else 0)
  {
    var k := |ws| - 1;
    if w < k {
      CountMoved(ws[..k], w, at);
      assert ws[w := at][..k] == ws[..k][w := at];
    } else {
      assert ws[w := at][..k] == ws[..k];
    }
  }

  lemma {:induction false} CountBounds(ws: seq<WorkerAt>)
    ensures Count(ws) <= |ws|
    ensures Count(ws) == |ws| <==> forall w | 0 <= w < |ws| :: Ended(ws[w])
    ensures (forall w | 0 <= w < |ws| :: !Ended(ws[w])) ==> Count(ws) == 0
  {
    if ws != [] {
      var k := |ws| - 1;
      CountBounds(ws[..k]);
      assert forall w | 0 <= w < k :: ws[..k][w] == ws[w];
      assert (forall w | 0 <= w < |ws| :: Ended(ws[w])) <==>
        (Ended(ws[k]) && forall w | 0 <= w < k :: Ended(ws[..k][w]));
    }
  }

  // ---------------------------------------------------------------------------------------
  // The invariant

  predicate Critical(at: WorkerAt) {
    at.Test? || at.Inc? || at.Bcast? || at.Wait? || at.Take? || at.Unlock?
  }

  predicate CriticalMain(at: MainAt) {
    at.Start? || at.MTest? || at.MWait? || at.MUnlock?
  }

  predicate Before(at: MainAt) {
    at.Reset? || at.MLock? || at.Start?
  }

  predicate After(at: MainAt) {
    at.ClearPos? || at.ClearTasks? || at.Returned?
  }

  predicate Holds(at: WorkerAt, t: nat) {
    (at.Unlock? || at.Call?) && at.task == t
  }

  /** The mutex is held exactly by the thread inside a critical section. */
  ghost predicate Exclusive(s: State) {
    && (s.holder == Some(Caller) <==> CriticalMain(s.main))
    && (forall w: nat | s.holder == Some(Worker(w)) :: w < |s.workers|)
    && (forall w | 0 <= w < |s.workers| :: s.holder == Some(Worker(w)) <==> Critical(s.workers[w]))
  }

  ghost predicate AllParked(s: State) {
    forall w | 0 <= w < |s.workers| :: s.workers[w] == Parked
  }

  ghost predicate AllDone(s: State, k: nat) {
    forall t | 0 <= t < |s.done| :: s.done[t] == k
  }

  /** Every worker has reported the end of the list and is on its way to the wait, or there. */
  ghost predicate AllEnded(s: State) {
    forall w | 0 <= w < |s.workers| :: Ended(s.workers[w])
  }

  ghost predicate InvBefore(s: State) {
    AllEnded(s) && TasksKept(s) && (s.main != Reset ==> s.endCount == 0)
  }

  /** Every fetched task is held by exactly one worker or has run exactly once. */
  ghost predicate TasksOnce(s: State) {
    && (forall w, t: nat | 0 <= w < |s.workers| && Holds(s.workers[w], t) :: t < s.taskspos)
    && (forall v, w, t: nat |
          0 <= v < |s.workers| && 0 <= w < |s.workers| && Holds(s.workers[v], t) && Holds(s.workers[w], t) :: v == w)
    && (forall t | 0 <= t < |s.done| ::
          s.done[t] == if t < s.taskspos && forall w | 0 <= w < |s.workers| :: !Holds(s.workers[w], t) then 1 else 0)
  }

  ghost predicate TasksKept(s: State) {
    && s.ntasks == |s.done| && s.taskspos <= s.ntasks && TasksOnce(s)
    && (forall w | 0 <= w < |s.workers| && s.workers[w] == Take :: s.taskspos < s.ntasks)
  }

  /** `workerpool_run` is entered with ntasks tasks added. The workers may be anywhere: they may have taken some of the
      tasks already, or have found the list empty before the last ones were added. */
  ghost predicate Initial(s: State) {
    |s.workers| >= 2 && s.main == Reset && Exclusive(s) && TasksKept(s)
  }

  ghost predicate InvDuring(s: State) {
    && TasksKept(s) && s.endCount == Count(s.workers)
    && (forall w | 0 <= w < |s.workers| && (s.workers[w] == Inc || Ended(s.workers[w])) :: s.taskspos == s.ntasks)
    && (s.main == MWait ==> s.endCount < |s.workers|)
    && (s.main == MParked ==> s.endCount < |s.workers| || exists w :: 0 <= w < |s.workers| && s.workers[w] == Bcast)
    && (s.main == MUnlock ==> s.endCount == |s.workers|)
  }

  ghost predicate InvAfter(s: State) {
    && AllParked(s) && AllDone(s, 1)
    && (s.main != ClearPos ==> s.taskspos == 0) && (s.main == Returned ==> s.ntasks == 0)
  }

  ghost predicate Inv(s: State) {
    && |s.workers| >= 2 && Exclusive(s)
    && if Before(s.main) then InvBefore(s) else if After(s.main) then InvAfter(s) else InvDuring(s)
  }

  lemma {:induction false} InitialInv(s: State)
    requires Initial(s) && AllEnded(s)
    ensures Inv(s)
  {}

  lemma {:induction false} WorkerKeepsExclusive(s: State, w: nat)
    requires Exclusive(s) && w < |s.workers| && WorkerStep(s, w).Some?
    ensures Exclusive(WorkerStep(s, w).value)
  {}

  lemma {:induction false} WorkerKeepsTasks(s: State, w: nat)
    requires w < |s.workers| && WorkerStep(s, w).Some? && TasksOnce(s)
    requires s.taskspos <= |s.done| && (s.workers[w] == Take ==> s.taskspos < |s.done|)
    ensures TasksOnce(WorkerStep(s, w).value)
  {
    var r := WorkerStep(s, w).value;
    assert forall v | 0 <= v < |r.workers| && v != w :: r.workers[v] == s.workers[v];
    forall v, t: nat | 0 <= v < |r.workers| && Holds(r.workers[v], t) ensures t < r.taskspos {
      if v != w { assert Holds(s.workers[v], t); }
      else if s.workers[w] != Take { assert Holds(s.workers[w], t); }
    }
    forall u, v, t: nat |
      0 <= u < |r.workers| && 0 <= v < |r.workers| && Holds(r.workers[u], t) && Holds(r.workers[v], t)
      ensures u == v
    {
      HeldBefore(s, w, u, t);
      HeldBefore(s, w, v, t);
    }
    forall t | 0 <= t < |r.done|
      ensures r.done[t] == if t < r.taskspos && forall v | 0 <= v < |r.workers| :: !Holds(r.workers[v], t) then 1 else 0
    {
      DoneOnce(s, w, t);
    }
  }

  lemma {:induction false} WorkerKeepsKept(s: State, w: nat)
    requires Exclusive(s) && TasksKept(s) && w < |s.workers| && WorkerStep(s, w).Some?
    ensures TasksKept(WorkerStep(s, w).value)
  {
    var r := WorkerStep(s, w).value;
    WorkerKeepsTasks(s, w);
    OnlyOneInside(s, w);
    hide TasksOnce, Exclusive;
    assert forall v | 0 <= v < |r.workers| && v != w :: r.workers[v] == s.workers[v];
  }

  /** A held task was held before the step, unless it has just been fetched. */
  lemma {:induction false} HeldBefore(s: State, w: nat, v: nat, t: nat)
    requires w < |s.workers| && WorkerStep(s, w).Some? && v < |s.workers|
    requires Holds(WorkerStep(s, w).value.workers[v], t)
    ensures Holds(s.workers[v], t) || (v == w && s.workers[w] == Take && t == s.taskspos)
  {}

  lemma {:induction false} DoneOnce(s: State, w: nat, t: nat)
    requires w < |s.workers| && WorkerStep(s, w).Some? && TasksOnce(s) && t < |s.done|
    requires s.taskspos <= |s.done|
    ensures var r := WorkerStep(s, w).value;
      && |r.done| == |s.done|
      && r.done[t] == if t < r.taskspos && forall v | 0 <= v < |r.workers| :: !Holds(r.workers[v], t) then 1 else 0
  {
    var r := WorkerStep(s, w).value;
    assert forall v | 0 <= v < |r.workers| && v != w :: r.workers[v] == s.workers[v];
    if Holds(s.workers[w], t) {
      if s.workers[w].Call? {
        assert forall v | 0 <= v < |s.workers| && Holds(s.workers[v], t) :: v == w;
        assert s.done[t] == 0;
      } else {
        assert Holds(r.workers[w], t);
      }
    } else if Holds(r.workers[w], t) {
      assert s.workers[w] == Take && t == s.taskspos;
    } else {
      assert (forall v | 0 <= v < |r.workers| :: !Holds(r.workers[v], t)) <==>
             (forall v | 0 <= v < |s.workers| :: !Holds(s.workers[v], t));
      assert r.done[t] == s.done[t];
    }
  }

  lemma {:induction false} OnlyOneInside(s: State, w: nat)
    requires Exclusive(s) && w < |s.workers|
    ensures Critical(s.workers[w]) ==> s.main != MWait && s.main != MUnlock
    ensures Critical(s.workers[w]) ==> forall v | 0 <= v < |s.workers| && v != w :: !Critical(s.workers[v])
  {}

  lemma {:induction false} WorkerKeepsDuring(s: State, w: nat)
    requires |s.workers| >= 2 && Exclusive(s) && InvDuring(s) && !Before(s.main) && !After(s.main)
    requires w < |s.workers| && WorkerStep(s, w).Some?
    ensures InvDuring(WorkerStep(s, w).value)
  {
    WorkerKeepsKept(s, w);
    hide TasksOnce, Exclusive;
    WorkerKeepsFetching(s, w);
    WorkerKeepsWaiting(s, w);
  }

  lemma {:induction false} WorkerKeepsFetching(s: State, w: nat)
    requires Exclusive(s) && InvDuring(s) && w < |s.workers| && WorkerStep(s, w).Some?
    ensures var r := WorkerStep(s, w).value;
      && r.endCount == Count(r.workers)
      && (forall v | 0 <= v < |r.workers| && (r.workers[v] == Inc || Ended(r.workers[v])) :: r.taskspos == r.ntasks)
  {
    hide TasksOnce, Exclusive, Count;
    var r := WorkerStep(s, w).value;
    CountMoved(s.workers, w, r.workers[w]);
    OnlyOneInside(s, w);
    assert forall v | 0 <= v < |r.workers| && v != w :: r.workers[v] == s.workers[v];
  }

  /** What the caller sees of the counter of finished workers. */
  lemma {:induction false} WorkerKeepsWaiting(s: State, w: nat)
    requires Exclusive(s) && InvDuring(s) && w < |s.workers| && WorkerStep(s, w).Some?
    ensures var r := WorkerStep(s, w).value;
      && (r.main == MWait ==> r.endCount < |r.workers|)
      && (r.main == MParked ==> r.endCount < |r.workers| || exists v :: 0 <= v < |r.workers| && r.workers[v] == Bcast)
      && (r.main == MUnlock ==> r.endCount == |r.workers|)
  {
    hide TasksOnce, Exclusive, Count;
    var r := WorkerStep(s, w).value;
    OnlyOneInside(s, w);
    assert forall v | 0 <= v < |r.workers| && v != w :: r.workers[v] == s.workers[v];
    if r.main == MParked && s.workers[w] == Inc {
      assert r.workers[w] == Bcast;
    }
  }

  lemma {:induction false} WorkerKeepsInv(s: State, w: nat)
    requires Inv(s) && w < |s.workers| && WorkerStep(s, w).Some?
    ensures Inv(WorkerStep(s, w).value) && |WorkerStep(s, w).value.done| == |s.done|
  {
    hide InvDuring, Exclusive, TasksKept;
    WorkerKeepsExclusive(s, w);
    if Before(s.main) {
      WorkerKeepsKept(s, w);
    } else if !After(s.main) {
      WorkerKeepsDuring(s, w);
    }
  }

  lemma {:induction false} FinishedImpliesAllDone(s: State)
    requires |s.workers| >= 2 && Exclusive(s) && InvDuring(s) && s.main == MUnlock
    ensures AllParked(s) && AllDone(s, 1)
  {
    CountBounds(s.workers);
    assert Ended(s.workers[0]);
    assert forall w | 0 <= w < |s.workers| :: s.workers[w] == Parked;
  }

  lemma {:induction false} CallerKeepsExclusive(s: State)
    requires Exclusive(s) && CallerStep(s).Some?
    ensures Exclusive(CallerStep(s).value)
  {}

  /** Nobody is counted while the caller wakes the workers. */
  lemma {:induction false} CallerInside(s: State)
    requires Exclusive(s) && s.main == Start
    ensures forall w | 0 <= w < |s.workers| :: !Critical(s.workers[w])
    ensures forall w | 0 <= w < |s.workers| :: !Ended(Woken(s.workers)[w])
  {}

  lemma {:induction false} WokenTasks(s: State)
    requires TasksKept(s)
    ensures TasksKept(s.(workers := Woken(s.workers), main := MTest))
  {
    var r := s.(workers := Woken(s.workers), main := MTest);
    assert forall v, t: nat | 0 <= v < |r.workers| :: Holds(r.workers[v], t) <==> Holds(s.workers[v], t);
  }

  lemma {:induction false} StartDuring(s: State)
    requires InvBefore(s) && Exclusive(s) && s.main == Start
    ensures InvDuring(CallerStep(s).value)
  {
    CallerInside(s);
    WokenTasks(s);
    hide TasksKept, Exclusive;
    CountBounds(Woken(s.workers));
    assert forall w | 0 <= w < |s.workers| :: Woken(s.workers)[w] == Lock;
  }

  lemma {:induction false} CallerKeepsDuring(s: State)
    requires |s.workers| >= 2 && Exclusive(s) && InvDuring(s) && CallerStep(s).Some?
    requires s.main == MTest || s.main == MWait || s.main == MRelock
    ensures InvDuring(CallerStep(s).value)
  {
    hide Exclusive;
    CountBounds(s.workers);
    assert TasksOnce(CallerStep(s).value);
  }

  lemma {:induction false} CallerKeepsKept(s: State)
    requires TasksKept(s) && (s.main == Reset || s.main == MLock) && CallerStep(s).Some?
    ensures TasksKept(CallerStep(s).value)
  {}

  lemma {:induction false} CallerKeepsInv(s: State)
    requires Inv(s) && CallerStep(s).Some?
    ensures Inv(CallerStep(s).value) && |CallerStep(s).value.done| == |s.done|
  {
    hide InvDuring, Exclusive, TasksKept;
    CallerKeepsExclusive(s);
    if s.main == Start {
      StartDuring(s);
    } else if s.main == MUnlock {
      FinishedImpliesAllDone(s);
    } else if Before(s.main) {
      CallerKeepsKept(s);
    } else if !After(s.main) {
      CallerKeepsDuring(s);
    }
  }

  lemma {:induction false} StepKeepsInv(s: State, t: Thread)
    requires Inv(s) && Next(s, t).Some?
    ensures Inv(Next(s, t).value) && |Next(s, t).value.done| == |s.done|
  {
    hide Inv;
    match t
    case Caller => CallerKeepsInv(s);
    case Worker(w) => WorkerKeepsInv(s, w);
  }

  // ---------------------------------------------------------------------------------------
  // Wherever the workers are at entry, the call returns

  predicate Inside(at: MainAt) {
    !Before(at) && !After(at)
  }

  /** What holds from every entry until the call returns. A worker may have been counted more than once. */
  ghost predicate Sound(s: State) {
    && |s.workers| >= 2 && Exclusive(s) && s.taskspos <= s.ntasks
    && (forall w | 0 <= w < |s.workers| && s.workers[w] == Take :: s.taskspos < s.ntasks)
    && (Inside(s.main) ==> s.endCount >= Count(s.workers))
    && (s.main == MWait ==> s.endCount < |s.workers|)
    && (s.main == MParked ==> s.endCount < |s.workers| || SomeoneSignals(s))
  }

  ghost predicate SomeoneSignals(s: State) {
    exists w :: 0 <= w < |s.workers| && s.workers[w] == Bcast
  }

  lemma {:induction false} InitialSound(s: State)
    requires Initial(s)
    ensures Sound(s)
  {}

  lemma {:induction false} WorkerKeepsSound(s: State, w: nat)
    requires Sound(s) && w < |s.workers| && WorkerStep(s, w).Some?
    ensures Sound(WorkerStep(s, w).value)
  {
    hide Exclusive, Count;
    var r := WorkerStep(s, w).value;
    WorkerKeepsExclusive(s, w);
    CountMoved(s.workers, w, r.workers[w]);
    OnlyOneInside(s, w);
    assert forall v | 0 <= v < |r.workers| && v != w :: r.workers[v] == s.workers[v];
    if r.main == MParked && s.workers[w] == Inc {
      assert r.workers[w] == Bcast;
    }
  }

  lemma {:induction false} CallerKeepsSound(s: State)
    requires Sound(s) && CallerStep(s).Some? && CallerStep(s).value.main != Returned
    ensures Sound(CallerStep(s).value)
  {
    hide Exclusive, Count;
    CallerKeepsExclusive(s);
    if s.main == Start { CallerInside(s); }
    CountBounds(CallerStep(s).value.workers);
  }

  lemma {:induction false} StepKeepsSound(s: State, t: Thread)
    requires Sound(s) && Next(s, t).Some? && Next(s, t).value.main != Returned
    ensures Sound(Next(s, t).value)
  {
    hide Sound;
    match t
    case Caller => CallerKeepsSound(s);
    case Worker(w) => WorkerKeepsSound(s, w);
  }

  /** Some thread can always move until `workerpool_run` has returned. */
  lemma {:induction false} NoDeadlock(s: State)
    requires Sound(s) && s.main != Returned
    ensures exists t :: Next(s, t).Some?
  {
    match s.holder
    case Some(t) => assert Next(s, t).Some?;
    case None =>
      if s.main == MParked {
        CountBounds(s.workers);
        var w :| 0 <= w < |s.workers| && !Ended(s.workers[w]);
        assert Next(s, Worker(w)).Some?;
      } else {
        assert Next(s, Caller).Some?;
      }
  }

  // ---------------------------------------------------------------------------------------
  // How a call can be entered

  /** A pool just created. */
  ghost predicate Created(s: State) {
    && |s.workers| >= 2 && (forall w | 0 <= w < |s.workers| :: s.workers[w] == Lock)
    && s.main == Reset && s.holder == None && s.ntasks == s.taskspos == 0 && s.done == []
  }

  /** The caller adds a task. */
  function Added(s: State): State {
    s.(ntasks := s.ntasks + 1, done := s.done + [0])
  }

  /** Before the call the caller adds tasks, and the workers run. */
  ghost predicate Prepares(s: State, r: State) {
    r == Added(s) || exists w: nat :: w < |s.workers| && WorkerStep(s, w) == Some(r)
  }

  /** Whenever the caller enters the call, with a pool just created or one that was in such a state before, the state is
      one of these. */
  lemma {:induction false} EntriesReached(tr: seq<State>, i: nat)
    requires i < |tr| && (Created(tr[0]) || Initial(tr[0]))
    requires forall i {:trigger tr[i]} | 0 < i < |tr| :: Prepares(tr[i-1], tr[i])
    ensures Initial(tr[i])
  {
    hide Initial, WorkerStep;
    if i == 0 {
      CreatedInitial(tr[0]);
    } else {
      EntriesReached(tr, i - 1);
      assert Prepares(tr[i-1], tr[i]);
      if tr[i] == Added(tr[i-1]) {
        AddedInitial(tr[i-1]);
      } else {
        var w: nat :| w < |tr[i-1].workers| && WorkerStep(tr[i-1], w) == Some(tr[i]);
        WorkerKeepsInitial(tr[i-1], w);
      }
    }
  }

  lemma {:induction false} CreatedInitial(s: State)
    ensures Created(s) ==> Initial(s)
  {}

  lemma {:induction false} AddedInitial(s: State)
    requires Initial(s)
    ensures Initial(Added(s))
  {}

  lemma {:induction false} WorkerKeepsInitial(s: State, w: nat)
    requires Initial(s) && w < |s.workers| && WorkerStep(s, w).Some?
    ensures Initial(WorkerStep(s, w).value)
  {
    hide Exclusive, TasksKept;
    WorkerKeepsExclusive(s, w);
    WorkerKeepsKept(s, w);
  }

  // ---------------------------------------------------------------------------------------
  // Every step makes progress

  function Rank(at: WorkerAt): nat {
    match at
    case Unlock(_) => 12
    case Call(_) => 11
    case Lock => 10
    case Test => 9
    case Take => 8
    case Inc => 8
    case Bcast => 7
    case Wait => 1
    case Parked => 0
  }

  function Ranks(ws: seq<WorkerAt>): nat {
    if ws == [] then 0 else Ranks(ws[..|ws| - 1]) + Rank(ws[|ws| - 1])
  }

  function MainRank(s: State): nat {
    match s.main
    case Reset => 10 * |s.workers| + 10
    case MLock => 10 * |s.workers| + 9
    case Start => 10 * |s.workers| + 8
    case MRelock => 7
    case MTest => 6
    case MWait => 5
    case MParked => 4
    case MUnlock => 3
    case ClearPos => 2
    case ClearTasks => 1
    case Returned => 0
  }

  /** An upper bound on the steps still possible before the call returns; while the list is being cleared,
      workers that are not parked may fetch tasks a second time. */
  ghost function Remaining(s: State): int {
    MainRank(s) + Ranks(s.workers) + 5 * (s.ntasks - s.taskspos)
    + if s.main == ClearTasks || s.main == Returned then 0 else 5 * s.ntasks
  }

  lemma {:induction false} RanksMoved(ws: seq<WorkerAt>, w: nat, at: WorkerAt)
    requires w < |ws|
    ensures Ranks(ws[w := at]) == Ranks(ws) - Rank(ws[w]) + Rank(at)
  {
    var k := |ws| - 1;
    if w < k {
      RanksMoved(ws[..k], w, at);
      assert ws[w := at][..k] == ws[..k][w := at];
    } else {
      assert ws[w := at][..k] == ws[..k];
    }
  }

  lemma {:induction false} RanksWoken(ws: seq<WorkerAt>)
    ensures Ranks(Woken(ws)) <= Ranks(ws) + 10 * |ws|
  {
    if ws != [] {
      var k := |ws| - 1;
      RanksWoken(ws[..k]);
      assert Woken(ws)[..k] == Woken(ws[..k]);
    }
  }

  lemma {:induction false} WorkerKeepsMainRank(s: State, w: nat)
    requires w < |s.workers| && WorkerStep(s, w).Some?
    ensures var r := WorkerStep(s, w).value;
      && |r.workers| == |s.workers| && r.workers == s.workers[w := r.workers[w]]
      && MainRank(r) <= MainRank(s) + (if s.workers[w] == Bcast && s.main == MParked then 3 else 0)
      && (r.main == s.main || r.main == MRelock)
  {}

  lemma {:induction false} WorkerMakesProgress(s: State, w: nat)
    requires Sound(s) && w < |s.workers| && WorkerStep(s, w).Some? && s.main != Returned
    ensures Remaining(WorkerStep(s, w).value) < Remaining(s)
  {
    hide Exclusive, Count, Ranks, MainRank;
    RanksMoved(s.workers, w, WorkerStep(s, w).value.workers[w]);
    WorkerKeepsMainRank(s, w);
  }

  lemma {:induction false} CallerMakesProgress(s: State)
    requires Sound(s) && CallerStep(s).Some? && CallerStep(s).value.main != Returned
    ensures Remaining(CallerStep(s).value) < Remaining(s)
  {
    hide Exclusive, Count, Ranks;
    if s.main == Start { RanksWoken(s.workers); }
  }

  lemma {:induction false} StepMakesProgress(s: State, t: Thread)
    requires Sound(s) && Next(s, t).Some? && Next(s, t).value.main != Returned
    ensures Remaining(Next(s, t).value) < Remaining(s)
  {
    hide Sound, Remaining;
    match t
    case Caller => CallerMakesProgress(s);
    case Worker(w) =>
      WorkerReturns(s, w);
      WorkerMakesProgress(s, w);
  }

  /** Only the caller's own last step returns. */
  lemma {:induction false} WorkerReturns(s: State, w: nat)
    requires w < |s.workers| && WorkerStep(s, w).Some?
    ensures s.main == Returned <==> WorkerStep(s, w).value.main == Returned
  {}

  lemma {:induction false} ReturnedStays(s: State, t: Thread)
    requires Next(s, t).Some? && s.main == Returned
    ensures Next(s, t).value.main == Returned
  {}

  // ---------------------------------------------------------------------------------------
  // Whole runs, under any scheduler

  ghost predicate Follows(s: State, r: State) {
    exists t :: Next(s, t) == Some(r)
  }

  /** A finite execution without spurious wakeups. */
  ghost predicate Run(tr: seq<State>) {
    && |tr| > 0 && Initial(tr[0])
    && forall i {:trigger tr[i]} | 0 < i < |tr| :: Follows(tr[i-1], tr[i])
  }

  lemma {:induction false} RunKeepsInv(tr: seq<State>, i: nat)
    requires Run(tr) && AllEnded(tr[0]) && i < |tr|
    ensures Inv(tr[i]) && |tr[i].done| == tr[0].ntasks
  {
    hide Inv, Next;
    if i == 0 {
      InitialInv(tr[0]);
    } else {
      RunKeepsInv(tr, i - 1);
      assert Follows(tr[i-1], tr[i]);
      var t :| Next(tr[i-1], t) == Some(tr[i]);
      StepKeepsInv(tr[i-1], t);
    }
  }

  lemma {:induction false} RunKeepsSound(tr: seq<State>, i: nat)
    requires Run(tr) && i < |tr| && tr[i].main != Returned
    ensures Sound(tr[i]) && Remaining(tr[i]) <= Remaining(tr[0]) - i
  {
    hide Sound, Remaining, Next;
    if i == 0 {
      InitialSound(tr[0]);
    } else {
      assert Follows(tr[i-1], tr[i]);
      var t :| Next(tr[i-1], t) == Some(tr[i]);
      if tr[i-1].main == Returned { ReturnedStays(tr[i-1], t); }
      RunKeepsSound(tr, i - 1);
      StepKeepsSound(tr[i-1], t);
      StepMakesProgress(tr[i-1], t);
    }
  }

  lemma {:induction false} InvMeaning(s: State)
    requires Inv(s)
    ensures |s.workers| >= 2 && forall t | 0 <= t < |s.done| :: s.done[t] <= 1
    ensures s.main == Returned ==> AllDone(s, 1) && AllParked(s) && s.holder == None && s.ntasks == s.taskspos == 0
  {
    assert s.main == Returned ==> forall w | 0 <= w < |s.workers| :: !Critical(s.workers[w]);
    assert s.holder.None? || s.holder.value.Caller? || s.holder == Some(Worker(s.holder.value.w));
  }

  /** If every worker has reported the end of the list at entry: at no point of any run has a task been called twice;
      and once `workerpool_run` has returned, every task has been called exactly once and every worker is parked. */
  lemma {:induction false} EachTaskRunsExactlyOnce(tr: seq<State>, i: nat)
    requires Run(tr) && AllEnded(tr[0]) && i < |tr|
    ensures |tr[i].done| == tr[0].ntasks && forall t | 0 <= t < |tr[i].done| :: tr[i].done[t] <= 1
    ensures tr[i].main == Returned ==> AllDone(tr[i], 1) && AllParked(tr[i]) && tr[i].holder == None
  {
    hide Inv, Run;
    RunKeepsInv(tr, i);
    InvMeaning(tr[i]);
  }

  ghost predicate Stuck(s: State) {
    forall t :: !CanMove(s, t)
  }

  ghost predicate CanMove(s: State, t: Thread) {
    Next(s, t).Some?
  }

  /** From every entry and under every scheduler `workerpool_run` returns: a run that has not returned is no
      longer than a bound fixed at its start, and some thread can still move. */
  lemma {:induction false} RunTerminates(tr: seq<State>)
    requires Run(tr) && tr[|tr| - 1].main != Returned
    ensures |tr| <= 22 * |tr[0].workers| + 10 * tr[0].ntasks + 11 && !Stuck(tr[|tr| - 1])
  {
    hide Sound, Next, Remaining;
    var last := tr[|tr| - 1];
    RunKeepsSound(tr, |tr| - 1);
    RemainingBounded(last);
    RemainingAtStart(tr[0]);
    NoDeadlock(last);
    var t :| Next(last, t).Some?;
    assert CanMove(last, t);
  }

  lemma {:induction false} RemainingBounded(s: State)
    requires Sound(s)
    ensures Remaining(s) >= 0
  {
    hide Exclusive, Count;
  }

  lemma {:induction false} RemainingAtStart(s: State)
    requires Initial(s)
    ensures Remaining(s) <= 22 * |s.workers| + 10 + 10 * s.ntasks
  {
    RanksAtStart(s.workers);
  }

  lemma {:induction false} RanksAtStart(ws: seq<WorkerAt>)
    ensures Ranks(ws) <= 12 * |ws|
  {
    if ws != [] { RanksAtStart(ws[..|ws| - 1]); }
  }

  /** A run that began after every worker had reported the end is over exactly when the call has returned. */
  lemma {:induction false} StuckWhenReturned(tr: seq<State>)
    requires Run(tr) && AllEnded(tr[0])
    ensures Stuck(tr[|tr| - 1]) <==> tr[|tr| - 1].main == Returned
  {
    hide Inv, Next, Stuck;
    var last := tr[|tr| - 1];
    if last.main != Returned {
      RunTerminates(tr);
    } else {
      RunKeepsInv(tr, |tr| - 1);
      InvMeaning(last);
      ParkedIsStuck(last);
    }
  }

  lemma {:induction false} ParkedIsStuck(s: State)
    requires AllParked(s) && s.main == Returned
    ensures Stuck(s)
  {
    assert forall w | 0 <= w < |s.workers| :: WorkerStep(s, w).None?;
  }

  /** After a run the pool is ready for the next one, whatever tasks are added. */
  lemma {:induction false} ReadyForNextRun(tr: seq<State>, n: nat)
    requires Run(tr) && AllEnded(tr[0]) && tr[|tr| - 1].main == Returned
    ensures var s := tr[|tr| - 1];
      s.ntasks == 0 && AllParked(s) && Initial(s.(main := Reset, ntasks := n, done := seq(n, _ => 0)))
  {
    hide Inv, Next;
    var s := tr[|tr| - 1];
    RunKeepsInv(tr, |tr| - 1);
    InvMeaning(s);
  }

  // ---------------------------------------------------------------------------------------
  // Schedules

  ghost predicate Trace(tr: seq<State>, s: State, r: State) {
    && |tr| > 0 && tr[0] == s && tr[|tr| - 1] == r
    && forall i {:trigger tr[i]} | 0 < i < |tr| :: Follows(tr[i-1], tr[i])
  }

  /** Some schedule leads from s to r. */
  ghost predicate Leads(s: State, r: State) {
    exists tr :: Trace(tr, s, r)
  }

  lemma {:induction false} NextFollows(r: State, t: Thread, n: State)
    requires Next(r, t) == Some(n)
    ensures Follows(r, n)
  {}

  lemma {:induction false} NextKeepsWorkers(r: State, t: Thread)
    requires Next(r, t).Some?
    ensures |Next(r, t).value.workers| == |r.workers|
  {}

  lemma {:induction false} LeadsNowhere(s: State)
    ensures Leads(s, s)
  {
    assert Trace([s], s, s);
  }

  /** Extends a schedule by a step of t. */
  lemma {:induction false} Go(s: State, r: State, t: Thread, n: State)
    requires Leads(s, r) && Next(r, t) == Some(n)
    ensures Leads(s, n)
  {
    hide Next, Follows;
    var tr :| Trace(tr, s, r);
    NextFollows(r, t, n);
    assert Trace(tr + [n], s, n);
  }

  /** A schedule from an entry is a run. */
  lemma {:induction false} ScheduleIsRun(tr: seq<State>, s: State, r: State)
    requires Initial(s) && Trace(tr, s, r)
    ensures Run(tr)
  {}

  /** Worker w finds the list empty, counts itself and parks. */
  lemma {:induction false} CountAndPark(s: State, r: State, w: nat)
    requires Leads(s, r) && w < |r.workers| && r.workers[w] == Lock && r.holder.None? && r.taskspos == r.ntasks
    ensures Leads(s, Counted(r, w))
  {
    hide Leads;
    var h := r.(holder := Some(Worker(w)));
    var test, inc, bcast, wait := Moved(h, w, Test), Moved(h, w, Inc), Moved(h, w, Bcast).(endCount := r.endCount + 1),
      Moved(h, w, Wait).(endCount := r.endCount + 1, main := if r.main == MParked then MRelock else r.main);
    Go(s, r, Worker(w), test);
    SetTwice(r.workers, w, Test, Inc);
    Go(s, test, Worker(w), inc);
    SetTwice(r.workers, w, Inc, Bcast);
    Go(s, inc, Worker(w), bcast);
    SetTwice(r.workers, w, Bcast, Wait);
    Go(s, bcast, Worker(w), wait);
    SetTwice(r.workers, w, Wait, Parked);
    Go(s, wait, Worker(w), Counted(r, w));
  }

  function Counted(r: State, w: nat): State
    requires w < |r.workers|
  {
    Moved(r, w, Parked).(endCount := r.endCount + 1, main := if r.main == MParked then MRelock else r.main)
  }

  lemma {:induction false} SetTwice<T>(ws: seq<T>, w: nat, a: T, b: T)
    requires w < |ws|
    ensures ws[w := a][w := b] == ws[w := b]
  {}

  /** Worker w fetches the next task and begins to run it. */
  lemma {:induction false} Fetch(s: State, r: State, w: nat)
    requires Leads(s, r) && w < |r.workers| && r.workers[w] == Lock && r.holder.None? && r.taskspos < r.ntasks
    ensures Leads(s, Moved(r, w, Call(r.taskspos)).(taskspos := r.taskspos + 1))
  {
    hide Leads;
    var h := r.(holder := Some(Worker(w)));
    var test, take, unlock := Moved(h, w, Test), Moved(h, w, Take),
      Moved(h, w, Unlock(r.taskspos)).(taskspos := r.taskspos + 1);
    Go(s, r, Worker(w), test);
    SetTwice(r.workers, w, Test, Take);
    Go(s, test, Worker(w), take);
    SetTwice(r.workers, w, Take, Unlock(r.taskspos));
    Go(s, take, Worker(w), unlock);
    SetTwice(r.workers, w, Unlock(r.taskspos), Call(r.taskspos));
    Go(s, unlock, Worker(w), Moved(r, w, Call(r.taskspos)).(taskspos := r.taskspos + 1));
  }

  /** Worker w runs all tasks up to number k by itself. */
  lemma {:induction false} RunAlone(s: State, r: State, w: nat, k: nat) returns (n: State)
    requires Leads(s, r) && w < |r.workers| && r.workers[w] == Lock && r.holder.None? && r.taskspos <= k <= r.ntasks
    ensures Leads(s, n) && n == r.(taskspos := k, done := n.done) && |n.done| == |r.done|
    ensures forall t | k <= t < |r.done| :: n.done[t] == r.done[t]
    decreases k - r.taskspos
  {
    hide Leads;
    n := r;
    if r.taskspos < k {
      Fetch(s, r, w);
      var t := r.taskspos;
      var call := Moved(r, w, Call(t)).(taskspos := t + 1);
      var back := r.(taskspos := t + 1, done := if t < |r.done| then r.done[t := r.done[t] + 1] else r.done);
      SetTwice(r.workers, w, Call(t), Lock);
      assert r.workers[w := Lock] == r.workers;
      Go(s, call, Worker(w), back);
      n := RunAlone(s, back, w, k);
    }
  }

  /** Apart from y, the first j workers are parked and the others about to take the mutex or running a task. */
  ghost predicate Behind(ws: seq<WorkerAt>, j: nat, y: nat) {
    forall i | 0 <= i < |ws| && i != y :: if i < j then ws[i] == Parked else ws[i] == Lock || ws[i].Call?
  }

  /** Nobody but y has task k. */
  ghost predicate OnlyHas(ws: seq<WorkerAt>, y: nat, k: nat) {
    forall i | 0 <= i < |ws| && i != y :: !Holds(ws[i], k)
  }

  /** Workers among the first j other than y. */
  function Others(j: nat, y: nat): nat {
    if y < j then j - 1 else j
  }

  /** The function worker w is running returns, if it is running one. */
  lemma {:induction false} EndCall(s: State, r: State, w: nat) returns (n: State)
    requires Leads(s, r) && w < |r.workers| && (r.workers[w] == Lock || r.workers[w].Call?)
    ensures Leads(s, n) && n == r.(workers := r.workers[w := Lock], done := n.done) && |n.done| == |r.done|
    ensures forall t | 0 <= t < |r.done| && !Holds(r.workers[w], t) :: n.done[t] == r.done[t]
  {
    hide Leads;
    if r.workers[w] == Lock {
      n := r;
      assert r.workers[w := Lock] == r.workers;
    } else {
      n := WorkerStep(r, w).value;
      Go(s, r, Worker(w), n);
    }
  }

  /** The workers other than y come back from their tasks and count themselves, one after the other. */
  lemma {:induction false} AllOthersPark(s: State, r: State, j: nat, y: nat, k: nat) returns (n: State)
    requires y < |r.workers| && j <= |r.workers| && Behind(r.workers, j, y) && OnlyHas(r.workers, y, k)
    requires Leads(s, r) && r.holder.None? && r.taskspos == r.ntasks && (r.main == MParked || r.main == MRelock)
    ensures Leads(s, n) && n.holder.None? && |n.workers| == |r.workers| && n.workers[y] == r.workers[y]
    ensures n.endCount == r.endCount + Others(|r.workers|, y) - Others(j, y) && Others(|r.workers|, y) >= Others(j, y)
    ensures Others(|r.workers|, y) > Others(j, y) || r.main == MRelock ==> n.main == MRelock
    ensures |n.done| == |r.done| && (k < |r.done| ==> n.done[k] == r.done[k])
    decreases |r.workers| - j
  {
    hide Leads;
    if j == |r.workers| {
      n := r;
    } else if j == y {
      n := AllOthersPark(s, r, j + 1, y, k);
    } else {
      var m := EndCall(s, r, j);
      CountAndPark(s, m, j);
      n := AllOthersPark(s, Counted(m, j), j + 1, y, k);
    }
  }

  /** The caller wakes the workers and waits for them. */
  lemma {:induction false} Wakes(s: State, r: State)
    requires Leads(s, r) && r.main == MLock && r.holder.None? && r.endCount < |r.workers|
    ensures Leads(s, r.(main := MParked, workers := Woken(r.workers)))
  {
    hide Leads;
    var ws, h := Woken(r.workers), Some(Caller);
    Go(s, r, Caller, r.(main := Start, holder := h));
    Go(s, r.(main := Start, holder := h), Caller, r.(main := MTest, holder := h, workers := ws));
    Go(s, r.(main := MTest, holder := h, workers := ws), Caller, r.(main := MWait, holder := h, workers := ws));
    Go(s, r.(main := MWait, holder := h, workers := ws), Caller, r.(main := MParked, holder := None, workers := ws));
  }

  /** If one worker too many has been counted, the call returns while worker y is still at its place. */
  lemma {:induction false} EarlyReturn(s: State, r: State, y: nat, k: nat) returns (e: State)
    requires y < |r.workers| && |r.workers| >= 2 && Behind(r.workers, 0, y) && OnlyHas(r.workers, y, k)
    requires Leads(s, r) && r.holder.None? && r.taskspos == r.ntasks && r.main == MParked && r.endCount == 1
    ensures Leads(s, e) && e.main == Returned && |e.workers| == |r.workers| && e.workers[y] == r.workers[y]
    ensures |e.done| == |r.done| && (k < |r.done| ==> e.done[k] == r.done[k])
  {
    hide Leads, Behind, OnlyHas;
    var n := AllOthersPark(s, r, 0, y, k);
    ReturnsNow(s, n);
    e := n.(main := Returned, taskspos := 0, ntasks := 0);
  }

  lemma {:induction false} ReturnsNow(s: State, r: State)
    requires Leads(s, r) && r.main == MRelock && r.holder.None? && r.endCount == |r.workers|
    ensures Leads(s, r.(main := Returned, taskspos := 0, ntasks := 0))
  {
    hide Leads;
    var h := Some(Caller);
    Go(s, r, Caller, r.(main := MTest, holder := h));
    Go(s, r.(main := MTest, holder := h), Caller, r.(main := MUnlock, holder := h));
    Go(s, r.(main := MUnlock, holder := h), Caller, r.(main := ClearPos));
    Go(s, r.(main := ClearPos), Caller, r.(main := ClearTasks, taskspos := 0));
    Go(s, r.(main := ClearTasks, taskspos := 0), Caller, r.(main := Returned, taskspos := 0, ntasks := 0));
  }

  // ---------------------------------------------------------------------------------------
  // Which entries are safe

  /** A worker that holds no mutex: about to take it, parked or running a task. */
  predicate Outside(at: WorkerAt) {
    at.Lock? || at.Call? || at.Parked?
  }

  ghost predicate AllOutside(s: State) {
    forall w | 0 <= w < |s.workers| :: Outside(s.workers[w])
  }

  /** Before the broadcast, with the counter reset and nobody in the way. */
  ghost predicate Ready(s: State, r: State) {
    && Leads(s, r) && r.main == MLock && r.holder.None? && |r.workers| == |s.workers| && AllOutside(r)
    && r.ntasks == s.ntasks && |r.done| == |s.done| && TasksKept(r)
  }

  /** Until the broadcast every schedule keeps the account of the tasks. */
  lemma {:induction false} LeadsKeepsTasks(s: State, tr: seq<State>, i: nat)
    requires Initial(s) && i < |tr| && Trace(tr, s, tr[|tr| - 1]) && Before(tr[i].main)
    ensures Exclusive(tr[i]) && TasksKept(tr[i]) && |tr[i].workers| == |s.workers|
    ensures tr[i].ntasks == s.ntasks
  {
    hide Exclusive, TasksKept, Next;
    if i > 0 {
      assert Follows(tr[i-1], tr[i]);
      var t :| Next(tr[i-1], t) == Some(tr[i]);
      StaysBefore(tr[i-1], t);
      LeadsKeepsTasks(s, tr, i - 1);
      BeforeKeepsTasks(tr[i-1], t);
    }
  }

  lemma {:induction false} StaysBefore(s: State, t: Thread)
    requires Next(s, t).Some? && Before(Next(s, t).value.main)
    ensures Before(s.main)
  {}

  lemma {:induction false} BeforeKeepsTasks(s: State, t: Thread)
    requires Exclusive(s) && TasksKept(s) && Next(s, t).Some? && Before(Next(s, t).value.main)
    ensures Exclusive(Next(s, t).value) && TasksKept(Next(s, t).value)
    ensures |Next(s, t).value.workers| == |s.workers| && Next(s, t).value.ntasks == s.ntasks
  {
    StaysBefore(s, t);
    match t
    case Caller =>
      CallerKeepsExclusive(s);
      hide Exclusive;
    case Worker(w) =>
      WorkerKeepsExclusive(s, w);
      WorkerKeepsKept(s, w);
      hide Exclusive, TasksKept;
  }

  lemma {:induction false} IsReady(s: State, r: State)
    requires Initial(s) && Leads(s, r) && r.main == MLock && r.holder.None?
    ensures Ready(s, r)
  {
    var tr :| Trace(tr, s, r);
    LeadsKeepsTasks(s, tr, |tr| - 1);
    hide TasksOnce;
    forall w | 0 <= w < |r.workers| ensures Outside(r.workers[w]) {
      assert !Critical(r.workers[w]) ==> Outside(r.workers[w]);
    }
  }

  /** The caller resets the counter, and the worker that holds the mutex releases it. If it has been counted on the way,
      it had found the list empty. Every other worker stays where it was. */
  lemma {:induction false} HolderLeaves(s: State) returns (r: State)
    requires Initial(s)
    ensures Ready(s, r) && r.done == s.done
    ensures forall w | 0 <= w < |s.workers| :: s.workers[w].Call? ==> r.workers[w] == s.workers[w]
    ensures if r.endCount == 0 then
        forall w | 0 <= w < |s.workers| :: Ended(s.workers[w]) <==> r.workers[w] == Parked
      else
        r.endCount == 1 && r.taskspos == s.taskspos && (r.taskspos == r.ntasks || Hasty(s))
    ensures Hasty(s) ==> r.endCount == 1
  {
    hide Leads, TasksOnce, Ready;
    LeadsNowhere(s);
    var s1 := s.(main := MLock, endCount := 0);
    Go(s, s, Caller, s1);
    if s.holder.None? {
      r := s1;
    } else {
      var z := s.holder.value.w;
      r := Releases(s, s1, z);
    }
    IsReady(s, r);
  }

  /** Some worker found the list empty before the last tasks were added, and is about to count itself. */
  ghost predicate Hasty(s: State) {
    s.taskspos < s.ntasks && exists w :: 0 <= w < |s.workers| && s.workers[w] == Inc
  }

  /** The worker counts itself before it releases the mutex. */
  predicate WillCount(s: State, z: nat)
    requires z < |s.workers|
  {
    s.workers[z] == Inc || (s.workers[z] == Test && s.taskspos == s.ntasks)
  }

  function StepsInside(at: WorkerAt): nat {
    match at
    case Test => 4
    case Take => 3
    case Inc => 3
    case Bcast => 2
    case Unlock(_) => 2
    case Wait => 1
    case _ => 0
  }

  /** Worker z goes on until it releases the mutex. */
  lemma {:induction false} Releases(s: State, r: State, z: nat) returns (n: State)
    requires Leads(s, r) && r.main == MLock
    requires z < |r.workers| && Critical(r.workers[z]) && r.holder == Some(Worker(z))
    ensures Leads(s, n) && n.main == MLock && n.holder.None? && n.done == r.done && n.ntasks == r.ntasks
    ensures |n.workers| == |r.workers| && n.workers == r.workers[z := n.workers[z]]
    ensures if WillCount(r, z) || Ended(r.workers[z]) then
        n.workers[z] == Parked && n.taskspos == r.taskspos
      else
        n.workers[z].Call?
    ensures n.endCount == r.endCount + (if WillCount(r, z) then 1 else 0)
    decreases StepsInside(r.workers[z])
  {
    hide Leads;
    var m := WorkerStep(r, z).value;
    Go(s, r, Worker(z), m);
    if Critical(m.workers[z]) {
      n := Releases(s, m, z);
      SetTwice(r.workers, z, m.workers[z], n.workers[z]);
    } else {
      n := m;
    }
  }

  /** One worker has been counted already: the call can return before worker y has parked, and before a task has
      returned that is not fetched yet or that y is running. */
  lemma {:induction false} CountedTooEarly(s: State, r: State, y: nat) returns (e: State)
    requires Ready(s, r) && r.endCount == 1 && y < |r.workers| && |r.workers| >= 2
    ensures Leads(s, e) && e.main == Returned && |e.workers| == |s.workers| && e.workers[y] != Parked
    ensures r.taskspos < r.ntasks || r.workers[y].Call? ==> !AllRun(e)
  {
    hide Leads;
    var p := r.(main := MParked, workers := Woken(r.workers));
    Wakes(s, r);
    var k: nat := if r.taskspos < r.ntasks then r.ntasks - 1 else if r.workers[y].Call? then r.workers[y].task
                  else r.ntasks;
    OpenTask(r, y, k);
    if r.taskspos < r.ntasks {
      var p1 := EndCall(s, p, y);
      var p2 := RunAlone(s, p1, y, k);
      Fetch(s, p2, y);
      var p3 := Moved(p2, y, Call(k)).(taskspos := k + 1);
      e := EarlyReturn(s, p3, y, k);
    } else {
      e := EarlyReturn(s, p, y, k);
    }
  }

  /** Task k, which nobody has fetched or y is running, has not been run. */
  lemma {:induction false} OpenTask(r: State, y: nat, k: nat)
    requires TasksKept(r) && AllOutside(r) && y < |r.workers|
    requires k >= r.taskspos || r.workers[y] == Call(k)
    ensures Behind(Woken(r.workers), 0, y) && OnlyHas(Woken(r.workers), y, k)
    ensures Woken(r.workers)[y] == Lock || Woken(r.workers)[y].Call?
    ensures k < |r.done| ==> r.done[k] == 0
    ensures k >= r.taskspos ==> !Holds(Woken(r.workers)[y], k)
    ensures r.workers[y] == Call(k) ==> k < |r.done| && Woken(r.workers)[y] == r.workers[y]
  {
    forall i: nat | i < |r.workers| ensures Holds(Woken(r.workers)[i], k) <==> Holds(r.workers[i], k) {
      WokenHolds(r.workers, i, k);
    }
  }

  lemma {:induction false} WokenHolds(ws: seq<WorkerAt>, i: nat, k: nat)
    requires i < |ws|
    ensures Holds(Woken(ws)[i], k) <==> Holds(ws[i], k)
  {}

  /** Between the reset of the counter and the broadcast, worker x runs all tasks and counts itself; it is woken
      and counted again, and the call returns while worker y has not parked. */
  lemma {:induction false} UnparkedEntryFails(s: State, x: nat, y: nat)
    requires Initial(s) && x < |s.workers| && y < |s.workers| && !Ended(s.workers[x])
    ensures exists e :: Leads(s, e) && e.main == Returned && |e.workers| == |s.workers| && e.workers[y] != Parked
  {
    hide Leads;
    var r := HolderLeaves(s);
    if r.endCount == 0 {
      var r1 := EndCall(s, r, x);
      var r2 := RunAlone(s, r1, x, r.ntasks);
      CountAndPark(s, r2, x);
      r := Counted(r2, x);
      IsReady(s, r);
    }
    var e := CountedTooEarly(s, r, y);
  }

  /** The same while worker y, or another one, runs the last task: the call returns before that task does. */
  lemma {:induction false} TwoUnparkedFail(s: State, x: nat, y: nat)
    requires Initial(s) && x < |s.workers| && y < |s.workers| && x != y && !Ended(s.workers[x]) && !Ended(s.workers[y])
    requires !AllRun(s)
    ensures exists e :: Leads(s, e) && e.main == Returned && !AllRun(e)
  {
    hide Leads, AllRun, TasksOnce, Initial;
    var r := HolderLeaves(s);
    SameRun(s, r);
    if r.taskspos == r.ntasks {
      var h := Unfinished(r);
      if r.endCount == 0 { r := CountsItself(s, r, if x == h then y else x, h); }
      var e := CountedTooEarly(s, r, h);
    } else {
      if r.endCount == 0 { r := LastTaskTaken(s, r, x, y); }
      var e := CountedTooEarly(s, r, y);
    }
  }

  lemma {:induction false} SameRun(s: State, r: State)
    requires r.done == s.done
    ensures AllRun(r) == AllRun(s)
  {}

  /** If all tasks have been fetched but not all have returned, some worker is running one. */
  lemma {:induction false} Unfinished(r: State) returns (h: nat)
    requires TasksKept(r) && AllOutside(r) && !AllRun(r) && r.taskspos == r.ntasks
    ensures h < |r.workers| && r.workers[h].Call?
  {
    var t: nat :| t < |r.done| && r.done[t] < 1;
    h :| 0 <= h < |r.workers| && Holds(r.workers[h], t);
  }

  /** Worker x comes back from its task, if it has one, finds the list empty and counts itself. */
  lemma {:induction false} CountsItself(s: State, r: State, x: nat, y: nat) returns (n: State)
    requires Initial(s) && Ready(s, r) && x < |r.workers| && y < |r.workers| && x != y && r.workers[x] != Parked
    requires r.endCount == 0 && r.taskspos == r.ntasks
    ensures Ready(s, n) && n.endCount == 1 && n.workers[y] == r.workers[y]
  {
    hide Leads, TasksKept, Initial;
    var r1 := EndCall(s, r, x);
    CountAndPark(s, r1, x);
    n := Counted(r1, x);
    IsReady(s, n);
  }

  /** Worker y runs all tasks but the last, which it begins, and worker x counts itself. */
  lemma {:induction false} LastTaskTaken(s: State, r: State, x: nat, y: nat) returns (n: State)
    requires Initial(s) && Ready(s, r) && x < |r.workers| && y < |r.workers| && x != y
    requires r.workers[x] != Parked && r.workers[y] != Parked
    requires r.endCount == 0 && r.taskspos < r.ntasks
    ensures Ready(s, n) && n.endCount == 1 && n.workers[y].Call?
  {
    hide Leads, TasksKept, Initial;
    var k: nat := r.ntasks - 1;
    var r1 := EndCall(s, r, y);
    var r2 := RunAlone(s, r1, y, k);
    Fetch(s, r2, y);
    var r3 := Moved(r2, y, Call(k)).(taskspos := k + 1);
    IsReady(s, r3);
    n := CountsItself(s, r3, x, y);
  }

  /** A worker that has found the list empty too soon counts itself and takes the last task after the broadcast. */
  lemma {:induction false} HastyFails(s: State)
    requires Initial(s) && Hasty(s)
    ensures exists e :: Leads(s, e) && e.main == Returned && !AllRun(e)
  {
    hide Leads;
    var z: nat :| z < |s.workers| && s.workers[z] == Inc;
    var r := HolderLeaves(s);
    var e := CountedTooEarly(s, r, z);
  }

  /** Every run returns with each task run once and every worker parked exactly if every worker had reported the end
      of the list when the call was entered. */
  lemma {:induction false} SafeEntries(s: State)
    requires Initial(s)
    ensures (forall e | Leads(s, e) && e.main == Returned :: AllDone(e, 1) && AllParked(e)) <==> AllEnded(s)
  {
    hide Next, Initial, Leads;
    if AllEnded(s) {
      forall e | Leads(s, e) && e.main == Returned ensures AllDone(e, 1) && AllParked(e) {
        SafeRun(s, e);
      }
    } else {
      var x: nat :| x < |s.workers| && !Ended(s.workers[x]);
      UnparkedEntryFails(s, x, x);
    }
  }

  lemma {:induction false} SafeRun(s: State, e: State)
    requires Initial(s) && AllEnded(s) && Leads(s, e) && e.main == Returned
    ensures AllDone(e, 1) && AllParked(e)
  {
    hide Next, Initial;
    var tr :| Trace(tr, s, e);
    ScheduleIsRun(tr, s, e);
    EachTaskRunsExactlyOnce(tr, |tr| - 1);
  }

  ghost predicate AllRun(s: State) {
    forall t | 0 <= t < |s.done| :: s.done[t] >= 1
  }

  ghost predicate AtMostOneLeft(s: State) {
    forall v, w | 0 <= v < |s.workers| && 0 <= w < |s.workers| && !Ended(s.workers[v]) && !Ended(s.workers[w]) :: v == w
  }

  /** Before the broadcast, with at most one worker about. */
  ghost predicate EarlyPart(s: State) {
    && AtMostOneLeft(s) && TasksKept(s) && (s.main != Reset ==> s.endCount == 0)
    && forall w | 0 <= w < |s.workers| :: s.workers[w] != Inc
  }

  ghost predicate OneInv(s: State) {
    && |s.workers| >= 2 && Exclusive(s)
    && (AllRun(s) || (Before(s.main) && EarlyPart(s)) || (Inside(s.main) && InvDuring(s)))
  }

  lemma {:induction false} InitialOneInv(s: State)
    requires Initial(s) && (AllRun(s) || (AtMostOneLeft(s) && !Hasty(s)))
    ensures OneInv(s)
  {
    if w: nat :| w < |s.workers| && s.workers[w] == Inc {
      hide Exclusive, AllRun;
      if !AllRun(s) { NobodyHolds(s, w); }
    }
  }

  /** The only worker about holds no task and all have been fetched: all tasks have run. */
  lemma {:induction false} NobodyHolds(s: State, w: nat)
    requires TasksKept(s) && s.taskspos == s.ntasks && w < |s.workers| && AtMostOneLeft(s)
    requires s.workers[w] == Test || s.workers[w] == Inc
    ensures AllRun(s)
  {
    forall t: nat, v | 0 <= v < |s.workers| ensures !Holds(s.workers[v], t) {
      assert v == w || Ended(s.workers[v]);
    }
  }

  /** A task function that has returned stays counted. */
  lemma {:induction false} RunStays(s: State, t: Thread)
    requires Next(s, t).Some? && AllRun(s)
    ensures AllRun(Next(s, t).value)
  {}

  lemma {:induction false} WorkerKeepsEarly(s: State, w: nat)
    requires Exclusive(s) && Before(s.main) && EarlyPart(s) && w < |s.workers| && WorkerStep(s, w).Some?
    ensures var r := WorkerStep(s, w).value; AllRun(r) || (r.main == s.main && EarlyPart(r))
  {
    hide Exclusive, TasksKept, AllRun;
    if s.workers[w] == Test && s.taskspos == s.ntasks {
      NobodyHolds(s, w);
      RunStays(s, Worker(w));
    } else {
      WorkerKeepsKept(s, w);
      OneStaysEarly(s, w);
    }
  }

  lemma {:induction false} OneStaysEarly(s: State, w: nat)
    requires Before(s.main) && EarlyPart(s) && w < |s.workers| && WorkerStep(s, w).Some?
    requires TasksKept(WorkerStep(s, w).value) && !(s.workers[w] == Test && s.taskspos == s.ntasks)
    ensures WorkerStep(s, w).value.main == s.main && EarlyPart(WorkerStep(s, w).value)
  {
    hide TasksKept;
    var r := WorkerStep(s, w).value;
    assert forall v | 0 <= v < |r.workers| && v != w :: r.workers[v] == s.workers[v];
    assert Ended(s.workers[w]) ==> Ended(r.workers[w]);
  }

  lemma {:induction false} CallerKeepsOne(s: State)
    requires OneInv(s) && CallerStep(s).Some? && !AllRun(s)
    ensures OneInv(CallerStep(s).value)
  {
    hide AllRun, InvDuring, EarlyPart, Exclusive;
    CallerKeepsExclusive(s);
    if s.main == Start {
      EarlyStart(s);
    } else if s.main == MUnlock {
      FinishedImpliesAllDone(s);
      OnceIsRun(s);
      RunStays(s, Caller);
    } else if Inside(s.main) {
      CallerKeepsDuring(s);
    } else {
      EarlyCaller(s);
    }
  }

  lemma {:induction false} OnceIsRun(s: State)
    requires AllDone(s, 1)
    ensures AllRun(s)
  {}

  lemma {:induction false} EarlyCaller(s: State)
    requires EarlyPart(s) && (s.main == Reset || s.main == MLock) && CallerStep(s).Some?
    ensures EarlyPart(CallerStep(s).value) && Before(CallerStep(s).value.main)
  {}

  lemma {:induction false} EarlyStart(s: State)
    requires EarlyPart(s) && s.main == Start && Exclusive(s)
    ensures InvDuring(CallerStep(s).value) && Inside(CallerStep(s).value.main)
  {
    CallerInside(s);
    WokenTasks(s);
    hide Exclusive, TasksKept;
    CountBounds(Woken(s.workers));
    assert forall w | 0 <= w < |s.workers| :: Woken(s.workers)[w] != Inc;
  }

  lemma {:induction false} WorkerKeepsOne(s: State, w: nat)
    requires OneInv(s) && w < |s.workers| && WorkerStep(s, w).Some? && !AllRun(s)
    ensures OneInv(WorkerStep(s, w).value)
  {
    hide AllRun, InvDuring, EarlyPart, Exclusive;
    WorkerKeepsExclusive(s, w);
    if Before(s.main) {
      WorkerKeepsEarly(s, w);
    } else {
      WorkerKeepsDuring(s, w);
    }
  }

  lemma {:induction false} RunKeepsOne(tr: seq<State>, i: nat)
    requires Run(tr) && (AllRun(tr[0]) || (AtMostOneLeft(tr[0]) && !Hasty(tr[0]))) && i < |tr|
    ensures OneInv(tr[i])
  {
    hide OneInv, Next, AllRun;
    if i == 0 {
      InitialOneInv(tr[0]);
    } else {
      RunKeepsOne(tr, i - 1);
      assert Follows(tr[i-1], tr[i]);
      var t :| Next(tr[i-1], t) == Some(tr[i]);
      StepKeepsOne(tr[i-1], t);
    }
  }

  lemma {:induction false} StepKeepsOne(s: State, t: Thread)
    requires OneInv(s) && Next(s, t).Some?
    ensures OneInv(Next(s, t).value)
  {
    if AllRun(s) {
      RunStays(s, t);
      hide AllRun, InvDuring, EarlyPart, Exclusive;
      match t
      case Caller => CallerKeepsExclusive(s);
      case Worker(w) => WorkerKeepsExclusive(s, w);
    } else {
      hide OneInv, AllRun;
      match t
      case Caller => CallerKeepsOne(s);
      case Worker(w) => WorkerKeepsOne(s, w);
    }
  }

  /** Every run returns only after all task functions have returned exactly if they had before, or if at most one worker
      had not yet reported the end of the list, and none was about to although tasks were left. */
  lemma {:induction false} FinishingEntries(s: State)
    requires Initial(s)
    ensures (forall e | Leads(s, e) && e.main == Returned :: AllRun(e)) <==>
      (AllRun(s) || (AtMostOneLeft(s) && !Hasty(s)))
  {
    hide Next, Initial, Leads, AllRun, Hasty;
    if AllRun(s) || (AtMostOneLeft(s) && !Hasty(s)) {
      forall e | Leads(s, e) && e.main == Returned ensures AllRun(e) {
        FinishedRun(s, e);
      }
    } else if Hasty(s) {
      HastyFails(s);
    } else {
      var x: nat, y: nat :| x < |s.workers| && y < |s.workers| && x != y &&
        !Ended(s.workers[x]) && !Ended(s.workers[y]);
      TwoUnparkedFail(s, x, y);
    }
  }

  lemma {:induction false} FinishedRun(s: State, e: State)
    requires Initial(s) && (AllRun(s) || (AtMostOneLeft(s) && !Hasty(s))) && Leads(s, e) && e.main == Returned
    ensures AllRun(e)
  {
    hide Next, Initial, AllRun, Hasty, AtMostOneLeft;
    var tr :| Trace(tr, s, e);
    ScheduleIsRun(tr, s, e);
    RunKeepsOne(tr, |tr| - 1);
    ReturnedRun(e);
  }

  lemma {:induction false} ReturnedRun(s: State)
    requires OneInv(s) && s.main == Returned
    ensures AllRun(s)
  {
    hide AllRun, Exclusive, EarlyPart, InvDuring;
  }

  // ---------------------------------------------------------------------------------------
  // Two workers and one task

  function Two(a: WorkerAt, b: WorkerAt, main: MainAt, holder: Option<Thread>, ntasks: nat, pos: nat, end: nat): State {
    State([a, b], main, holder, ntasks, pos, end, [0])
  }

  /** Extends a schedule of two workers by the step of t. */
  lemma {:induction false} GoTwo(s: State, r: State, t: Thread, n: State)
    requires Leads(s, r) && Next(r, t).Some? && |r.workers| == |n.workers| == 2
    requires var m := Next(r, t).value;
      m.(workers := n.workers) == n && m.workers[0] == n.workers[0] && m.workers[1] == n.workers[1]
    ensures Leads(s, n)
  {
    hide Next, Leads;
    NextKeepsWorkers(r, t);
    assert Next(r, t).value.workers == n.workers;
    Go(s, r, t, n);
  }

  /** A pool just created, both workers on their way to the mutex: the call returns while the task still runs,
      without any spurious wakeup. */
  lemma {:induction false} FreshPoolReturnsEarly(start: State, end: State)
    requires start == Two(Lock, Lock, Reset, None, 1, 0, 0) && end == Two(Call(0), Parked, Returned, None, 0, 0, 2)
    ensures Initial(start) && Leads(start, end)
  {
    hide Leads;
    var h := Some(Caller);
    LeadsNowhere(start);
    var s1 := Two(Lock, Lock, MLock, None, 1, 0, 0);
    GoTwo(start, start, Caller, s1);
    Fetch(start, s1, 0);
    var s2 := Two(Call(0), Lock, MLock, None, 1, 1, 0);
    assert [Lock, Lock][0 := Call(0)] == [Call(0), Lock];
    CountAndPark(start, s2, 1);
    var s3 := Two(Call(0), Parked, MLock, None, 1, 1, 1);
    assert [Call(0), Lock][1 := Parked] == [Call(0), Parked];
    GoTwo(start, s3, Caller, Two(Call(0), Parked, Start, h, 1, 1, 1));
    GoTwo(start, Two(Call(0), Parked, Start, h, 1, 1, 1), Caller, Two(Call(0), Lock, MTest, h, 1, 1, 1));
    GoTwo(start, Two(Call(0), Lock, MTest, h, 1, 1, 1), Caller, Two(Call(0), Lock, MWait, h, 1, 1, 1));
    GoTwo(start, Two(Call(0), Lock, MWait, h, 1, 1, 1), Caller, Two(Call(0), Lock, MParked, None, 1, 1, 1));
    CountAndPark(start, Two(Call(0), Lock, MParked, None, 1, 1, 1), 1);
    ReturnsNow(start, Two(Call(0), Parked, MRelock, None, 1, 1, 2));
  }

  /** Waiters on startcond may also be woken without a signal, which POSIX permits. */
  function SpuriousWake(s: State, w: nat): State
    requires w < |s.workers| && s.workers[w] == Parked
  {
    Moved(s, w, Lock)
  }

  /** The caller wakes both workers and waits; worker 0 takes the only task, worker 1 finds none and parks. */
  lemma {:induction false} OneWorksOneParks(s: State)
    requires s == Two(Parked, Parked, Reset, None, 1, 0, 0)
    ensures Leads(s, Two(Call(0), Parked, MRelock, None, 1, 1, 1))
  {
    hide Leads;
    var h := Some(Caller);
    LeadsNowhere(s);
    GoTwo(s, s, Caller, Two(Parked, Parked, MLock, None, 1, 0, 0));
    GoTwo(s, Two(Parked, Parked, MLock, None, 1, 0, 0), Caller, Two(Parked, Parked, Start, h, 1, 0, 0));
    GoTwo(s, Two(Parked, Parked, Start, h, 1, 0, 0), Caller, Two(Lock, Lock, MTest, h, 1, 0, 0));
    GoTwo(s, Two(Lock, Lock, MTest, h, 1, 0, 0), Caller, Two(Lock, Lock, MWait, h, 1, 0, 0));
    GoTwo(s, Two(Lock, Lock, MWait, h, 1, 0, 0), Caller, Two(Lock, Lock, MParked, None, 1, 0, 0));
    Fetch(s, Two(Lock, Lock, MParked, None, 1, 0, 0), 0);
    assert [Lock, Lock][0 := Call(0)] == [Call(0), Lock];
    CountAndPark(s, Two(Call(0), Lock, MParked, None, 1, 1, 0), 1);
    assert [Call(0), Lock][1 := Parked] == [Call(0), Parked];
  }

  lemma {:induction false} BothParked()
    ensures Initial(Two(Parked, Parked, Reset, None, 1, 0, 0)) && AllParked(Two(Parked, Parked, Reset, None, 1, 0, 0))
  {}

  /** Even with both workers parked at entry, one spurious wakeup lets one of them be counted twice. */
  lemma {:induction false} SpuriousWakeReturnsEarly() returns (start: State, before: State, end: State)
    ensures Initial(start) && AllParked(start) && start.ntasks == 1 && Leads(start, before)
    ensures |before.workers| == 2 && before.workers[1] == Parked && Leads(SpuriousWake(before, 1), end)
    ensures end.main == Returned && end.workers == [Call(0), Parked] && end.done == [0]
  {
    hide Next, Initial, Leads;
    start, before := Two(Parked, Parked, Reset, None, 1, 0, 0), Two(Call(0), Parked, MRelock, None, 1, 1, 1);
    end := Two(Call(0), Parked, Returned, None, 0, 0, 2);
    BothParked();
    OneWorksOneParks(start);
    var woken := Two(Call(0), Lock, MRelock, None, 1, 1, 1);
    assert [Call(0), Parked][1 := Lock] == [Call(0), Lock];
    LeadsNowhere(woken);
    CountAndPark(woken, woken, 1);
    assert [Call(0), Lock][1 := Parked] == [Call(0), Parked];
    ReturnsNow(woken, Two(Call(0), Parked, MRelock, None, 1, 1, 2));
  }
}
