/** The condition-variable worker with any number of threads calling AddTask.

    Waiting on the condition variable releases the mutex and falls asleep in one step; a woken
    worker has to take the mutex again. Stopping is not part of this model: the wait does not
    look at the stop token. */
module Worker {
  import opened Sums
  import Runs

  datatype Adder =
    | AIdle
    | ALock(task: int)
    | APush(task: int)       // holds the mutex
    | AUnlock                // holds the mutex, has pushed
    | ANotify

  datatype WorkerPc =
    | WLock
    | WTest                  // holds the mutex, before the predicate
    | WSleeping
    | WWoken                 // before taking the mutex again
    | WSwap                  // holds the mutex
    | WUnlock(batch: seq<int>)
    | WRun(rest: seq<int>)

  const FREE := -1
  const WORKER := -2

  datatype Machine = Machine(owner: int, tasks: seq<int>, worker: WorkerPc, adders: seq<Adder>, executed: seq<int>)

  datatype Step = AddTask(t: nat, task: int) | AdderStep(t: nat) | WorkerStep | SpuriousWake

  predicate Enabled(m: Machine, a: Step) {
    match a
    case AddTask(t, _) => t < |m.adders| && m.adders[t].AIdle?
    case AdderStep(t) => t < |m.adders| && !m.adders[t].AIdle? && (m.adders[t].ALock? ==> m.owner == FREE)
    case WorkerStep => !m.worker.WSleeping? && (m.worker.WLock? || m.worker.WWoken? ==> m.owner == FREE)
    case SpuriousWake => m.worker.WSleeping?
  }

  function Adding(m: Machine, t: nat): Machine
    requires t < |m.adders|
  {
    match m.adders[t]
    case AIdle => m
    case ALock(task) => m.(owner := t, adders := m.adders[t := APush(task)])
    case APush(task) => m.(tasks := m.tasks + [task], adders := m.adders[t := AUnlock])
    case AUnlock => m.(owner := FREE, adders := m.adders[t := ANotify])
    case ANotify => m.(worker := if m.worker.WSleeping? then WWoken else m.worker, adders := m.adders[t := AIdle])
  }

  function Working(m: Machine): Machine {
    match m.worker
    case WLock => m.(owner := WORKER, worker := WTest)
    case WTest => if m.tasks == [] then m.(owner := FREE, worker := WSleeping) else m.(worker := WSwap)
    case WSleeping => m
    case WWoken => m.(owner := WORKER, worker := WTest)
    case WSwap => m.(tasks := [], worker := WUnlock(m.tasks))
    case WUnlock(batch) => m.(owner := FREE, worker := WRun(batch))
    case WRun(rest) =>
      if rest == [] then m.(worker := WLock)
      else m.(executed := m.executed + [rest[0]], worker := WRun(rest[1..]))
  }

  function Apply(m: Machine, a: Step): Machine
    requires Enabled(m, a)
  {
    match a
    case AddTask(t, task) => m.(adders := m.adders[t := ALock(task)])
    case AdderStep(t) => Adding(m, t)
    case WorkerStep => Working(m)
    case SpuriousWake => m.(worker := WWoken)
  }

  /** A task and the thread that adds it. */
  datatype Task = Task(t: nat, task: int)

  /** `called` lists the arguments of the AddTask calls in the order of the calls, `added` the
      tasks in the order in which they were appended under the mutex. */
  datatype State = State(m: Machine, called: seq<Task>, added: seq<Task>, spurious: nat)

  function Do(s: State, a: Step): State
    requires Enabled(s.m, a)
  {
    State(Apply(s.m, a),
          if a.AddTask? then s.called + [Task(a.t, a.task)] else s.called,
          if a.AdderStep? && s.m.adders[a.t].APush? then s.added + [Task(a.t, s.m.adders[a.t].task)] else s.added,
          if a.SpuriousWake? then s.spurious + 1 else s.spurious)
  }

  ghost predicate Init(s: State) {
    && s.m.owner == FREE && s.m.tasks == [] && s.m.worker == WLock && s.m.executed == []
    && (forall t :: 0 <= t < |s.m.adders| ==> s.m.adders[t] == AIdle)
    && s.called == [] && s.added == [] && s.spurious == 0
  }

  ghost predicate Next(s: State, s': State) {
    exists a :: Enabled(s.m, a) && s' == Do(s, a)
  }

  ghost predicate Reachable(s: State) {
    Runs.Reachable(Init, Next, s)
  }

  // ----- Delivery and wakeup -----

  /** The tasks the worker has taken and not yet executed. */
  function Batch(w: WorkerPc): seq<int> {
    if w.WUnlock? then w.batch else if w.WRun? then w.rest else []
  }

  function Numbered(tasks: seq<Task>): seq<int> {
    seq(|tasks|, i requires 0 <= i < |tasks| => tasks[i].task)
  }

  /** The tasks of thread `t`, in order. */
  function By(tasks: seq<Task>, t: nat): seq<int> {
    if tasks == [] then []
    else By(tasks[..|tasks| - 1], t) + if tasks[|tasks| - 1].t == t then [tasks[|tasks| - 1].task] else []
  }

  /** Called with and not yet appended. */
  function Pending(p: Adder): seq<int> {
    if p.ALock? || p.APush? then [p.task] else []
  }

  /** How often the task is pending with this thread, and how often it occurs in a list. */
  function Pends(x: int): Adder -> int {
    (p: Adder) => if Pending(p) == [x] then 1 else 0
  }

  function Count(tasks: seq<Task>, x: int): nat {
    multiset(Numbered(tasks))[x]
  }

  ghost predicate Delivery(s: State) {
    Numbered(s.added) == s.m.executed + Batch(s.m.worker) + s.m.tasks
  }

  /** Each thread's calls have been appended in the order of the calls, up to one. */
  ghost predicate Called(s: State) {
    && (forall t :: 0 <= t < |s.m.adders| ==> By(s.called, t) == By(s.added, t) + Pending(s.m.adders[t]))
    && (forall x :: Count(s.called, x) == Count(s.added, x) + Sum(Pends(x), s.m.adders))
  }

  lemma ByAppend(tasks: seq<Task>, x: Task, t: nat)
    ensures By(tasks + [x], t) == By(tasks, t) + if x.t == t then [x.task] else []
  {
    assert (tasks + [x])[..|tasks|] == tasks;
  }

  lemma NumberedAppend(tasks: seq<Task>, x: Task)
    ensures Numbered(tasks + [x]) == Numbered(tasks) + [x.task]
    ensures forall y :: Count(tasks + [x], y) == Count(tasks, y) + if x.task == y then 1 else 0
  {
    assert Numbered(tasks + [x]) == Numbered(tasks) + [x.task];
  }

  predicate WorkerHolds(w: WorkerPc) { w.WTest? || w.WSwap? || w.WUnlock? }

  predicate AdderHolds(p: Adder) { p.APush? || p.AUnlock? }

  ghost predicate Mutex(m: Machine) {
    && (WorkerHolds(m.worker) <==> m.owner == WORKER)
    && (forall t :: 0 <= t < |m.adders| ==> (AdderHolds(m.adders[t]) <==> m.owner == t))
    && (m.owner == FREE || m.owner == WORKER || 0 <= m.owner < |m.adders|)
  }

  /** The adder has appended its task and not yet notified. */
  predicate WillNotify(p: Adder) { p.AUnlock? || p.ANotify? }

  ghost predicate WakeIsComing(m: Machine) {
    && (m.worker.WSleeping? && m.tasks != [] ==> exists t :: 0 <= t < |m.adders| && WillNotify(m.adders[t]))
    && (m.worker.WSwap? ==> m.tasks != [])
    && (m.worker.WUnlock? ==> m.worker.batch != [] && m.tasks == [])
  }

  ghost predicate Inv(s: State) {
    Delivery(s) && Called(s) && Mutex(s.m) && WakeIsComing(s.m)
  }

  lemma DeliveryStep(s: State, a: Step, s': State)
    requires Delivery(s) && Enabled(s.m, a) && s' == Do(s, a)
    ensures Delivery(s')
  {
    if s'.added != s.added { NumberedAppend(s.added, s'.added[|s.added|]); }
  }

  /** The step is the append of thread `a.t`. */
  predicate Appends(m: Machine, a: Step)
    requires Enabled(m, a)
  {
    a.AdderStep? && m.adders[a.t].APush?
  }

  /** A step calls with a task, which is then pending, appends a pending task, or does neither. */
  ghost predicate Moves(s: State, a: Step, s': State)
    requires Enabled(s.m, a)
  {
    && |s'.m.adders| == |s.m.adders|
    && (if a.AddTask? || a.AdderStep?
        then a.t < |s.m.adders| && s'.m.adders == s.m.adders[a.t := s'.m.adders[a.t]]
        else s'.m.adders == s.m.adders)
    && s'.called == (if a.AddTask? then s.called + [Task(a.t, a.task)] else s.called)
    && s'.added == (if Appends(s.m, a) then s.added + [Task(a.t, s.m.adders[a.t].task)] else s.added)
    && (a.AddTask? ==> Pending(s.m.adders[a.t]) == [] && Pending(s'.m.adders[a.t]) == [a.task])
    && (Appends(s.m, a) ==>
      Pending(s.m.adders[a.t]) == [s.m.adders[a.t].task] && Pending(s'.m.adders[a.t]) == [])
    && (a.AdderStep? && !Appends(s.m, a) ==> Pending(s'.m.adders[a.t]) == Pending(s.m.adders[a.t]))
  }

  lemma TasksMove(s: State, a: Step, s': State)
    requires Enabled(s.m, a) && s' == Do(s, a)
    ensures Moves(s, a, s')
  {}

  lemma CallersTasks(s: State, a: Step, s': State, t: nat)
    requires Enabled(s.m, a) && Moves(s, a, s') && t < |s.m.adders|
    requires By(s.called, t) == By(s.added, t) + Pending(s.m.adders[t])
    ensures By(s'.called, t) == By(s'.added, t) + Pending(s'.m.adders[t])
  {
    if a.AddTask? {
      ByAppend(s.called, Task(a.t, a.task), t);
    } else if Appends(s.m, a) {
      ByAppend(s.added, Task(a.t, s.m.adders[a.t].task), t);
    }
  }

  lemma PendingCount(s: State, a: Step, s': State, x: int)
    requires Enabled(s.m, a) && Moves(s, a, s')
    ensures Sum(Pends(x), s'.m.adders) + (if Appends(s.m, a) && s.m.adders[a.t].task == x then 1 else 0)
         == Sum(Pends(x), s.m.adders) + if a.AddTask? && a.task == x then 1 else 0
  {
    if a.AddTask? || a.AdderStep? { SumUpdate(Pends(x), s.m.adders, a.t, s'.m.adders[a.t]); }
  }

  lemma TaskCount(s: State, a: Step, s': State, x: int)
    requires Enabled(s.m, a) && Moves(s, a, s')
    requires Count(s.called, x) == Count(s.added, x) + Sum(Pends(x), s.m.adders)
    ensures Count(s'.called, x) == Count(s'.added, x) + Sum(Pends(x), s'.m.adders)
  {
    PendingCount(s, a, s', x);
    if a.AddTask? {
      NumberedAppend(s.called, Task(a.t, a.task));
    } else if Appends(s.m, a) {
      NumberedAppend(s.added, Task(a.t, s.m.adders[a.t].task));
    }
  }

  lemma CalledStep(s: State, a: Step, s': State)
    requires Called(s) && Enabled(s.m, a) && s' == Do(s, a)
    ensures Called(s')
  {
    TasksMove(s, a, s');
    forall t | 0 <= t < |s'.m.adders|
      ensures By(s'.called, t) == By(s'.added, t) + Pending(s'.m.adders[t])
    {
      CallersTasks(s, a, s', t);
    }
    forall x
      ensures Count(s'.called, x) == Count(s'.added, x) + Sum(Pends(x), s'.m.adders)
    {
      TaskCount(s, a, s', x);
    }
  }

  lemma MutexStep(s: State, a: Step, s': State)
    requires Mutex(s.m) && Enabled(s.m, a) && s' == Do(s, a)
    ensures Mutex(s'.m)
  {}

  lemma WakeStep(s: State, a: Step, s': State)
    requires Mutex(s.m) && WakeIsComing(s.m) && Enabled(s.m, a) && s' == Do(s, a)
    ensures WakeIsComing(s'.m)
  {
    if s'.m.worker.WSleeping? && s'.m.tasks != [] {
      if a.AdderStep? && s.m.adders[a.t].APush? {
        assert WillNotify(s'.m.adders[a.t]);
      } else {
        var t :| 0 <= t < |s.m.adders| && WillNotify(s.m.adders[t]);
        assert WillNotify(s'.m.adders[t]);
      }
    }
  }

  lemma InvOfReachable(s: State)
    requires Reachable(s)
    ensures Inv(s)
  {
    forall s | Init(s)
      ensures Inv(s)
    {
      forall x { SumConstant(Pends(x), s.m.adders, 0); }
    }
    forall s, s' | Inv(s) && Next(s, s')
      ensures Inv(s')
    {
      var a :| Enabled(s.m, a) && s' == Do(s, a);
      DeliveryStep(s, a, s');
      CalledStep(s, a, s');
      MutexStep(s, a, s');
      WakeStep(s, a, s');
    }
    Runs.InvariantOfReachable(Init, Next, Inv, s);
  }

  /** In every state of every run: each thread's calls of AddTask have been appended in the order
      of its calls, up to the one it is in; the tasks appended are those executed, then the rest of
      the batch, then those waiting, in this order; and each task occurs among these and in the
      calls before their append as often as in the arguments of all calls. */
  lemma TasksAreDeliveredInOrder(s: State, t: nat, x: int)
    requires Reachable(s)
    ensures t < |s.m.adders| ==> By(s.called, t) == By(s.added, t) + Pending(s.m.adders[t])
    ensures Numbered(s.added) == s.m.executed + Batch(s.m.worker) + s.m.tasks
    ensures multiset(Numbered(s.called))[x]
         == multiset(s.m.executed + Batch(s.m.worker) + s.m.tasks)[x] + Sum(Pends(x), s.m.adders)
  {
    InvOfReachable(s);
  }

  /** Only one thread at a time is between lock and unlock of the mutex. */
  lemma OneHoldsMutex(s: State, t: nat, u: nat)
    requires Reachable(s) && t < |s.m.adders| && u < |s.m.adders| && AdderHolds(s.m.adders[t])
    ensures !WorkerHolds(s.m.worker) && (AdderHolds(s.m.adders[u]) ==> t == u)
  {
    InvOfReachable(s);
  }

  /** The worker takes all the tasks there are, and never none. */
  lemma BatchIsWhole(s: State)
    requires Reachable(s) && s.m.worker.WUnlock?
    ensures s.m.worker.batch != [] && s.m.tasks == []
  {
    InvOfReachable(s);
  }

  /** A worker that sleeps although tasks are waiting will be notified by an AddTask that has
      appended its task (and, if the mutex is free, has released it). */
  lemma WakeupIsOnItsWay(s: State)
    requires Reachable(s) && s.m.worker.WSleeping? && s.m.tasks != []
    ensures exists t :: 0 <= t < |s.m.adders| && WillNotify(s.m.adders[t])
              && (s.m.owner == FREE ==> s.m.adders[t].ANotify?)
  {
    InvOfReachable(s);
    var t :| 0 <= t < |s.m.adders| && WillNotify(s.m.adders[t]);
  }

  // ----- Termination -----

  function AdderRank(): Adder -> int {
    (p: Adder) =>
      match p
      case AIdle => 0
      case ALock(_) => 13
      case APush(_) => 12
      case AUnlock => 4
      case ANotify => 3
  }

  function WorkerRank(m: Machine): int {
    7 * |m.tasks| +
    match m.worker
    case WLock => 2
    case WTest => 1
    case WSleeping => 0
    case WWoken => 2
    case WSwap => 0
    case WUnlock(batch) => |batch| + 5
    case WRun(rest) => |rest| + 4
  }

  /** Falls with every step: an AddTask is credited 14 steps, a spurious wake 3. */
  function Measure(s: State): int {
    Sum(AdderRank(), s.m.adders) + WorkerRank(s.m) - 14 * |s.called| - 3 * s.spurious
  }

  lemma MeasureFalls(s: State, a: Step, s': State)
    requires WakeIsComing(s.m) && Enabled(s.m, a) && s' == Do(s, a)
    ensures Measure(s') < Measure(s)
  {
    if a.AddTask? || a.AdderStep? {
      SumUpdate(AdderRank(), s.m.adders, a.t, s'.m.adders[a.t]);
      assert s'.m.adders == s.m.adders[a.t := s'.m.adders[a.t]];
    }
  }

  /** A run of k steps has k at most 14 per AddTask call and 3 per spurious wake, and 2. */
  lemma RunsAreBounded(run: seq<State>, k: nat)
    requires Runs.IsRun(Init, Next, run) && k < |run|
    ensures k <= 2 + 14 * |run[k].called| + 3 * run[k].spurious
  {
    forall s, s' | Runs.Reachable(Init, Next, s) && Next(s, s')
      ensures Measure(s') < Measure(s)
    {
      InvOfReachable(s);
      var a :| Enabled(s.m, a) && s' == Do(s, a);
      MeasureFalls(s, a, s');
    }
    Runs.BoundOfRun(Init, Next, Measure, run, k);
    SumConstant(AdderRank(), run[0].m.adders, 0);
    SumNonNegative(AdderRank(), run[k].m.adders);
  }

  /** A step that is not a spurious wake. */
  ghost predicate PlainNext(s: State, s': State) {
    exists a :: Enabled(s.m, a) && !a.SpuriousWake? && s' == Do(s, a)
  }

  /** Only spurious wakes are counted as such: without them a run has at most 14 steps per AddTask
      call, and 2. */
  lemma PlainRunsAreBounded(run: seq<State>, k: nat)
    requires Runs.IsRun(Init, PlainNext, run) && k < |run|
    ensures run[k].spurious == 0 && k <= 2 + 14 * |run[k].called|
  {
    Runs.InvariantOfRun(Init, PlainNext, (s: State) => s.spurious == 0, run, k);
    Runs.RunOfLarger(Init, PlainNext, Next, run);
    RunsAreBounded(run, k);
  }

  lemma AnyNumberOfThreads(n: nat) returns (s: State)
    ensures Init(s) && |s.m.adders| == n
  {
    s := State(Machine(FREE, [], WLock, seq(n, _ => AIdle), []), [], [], 0);
  }

  /** An idle thread may call AddTask with any task; a sleeping worker may wake spuriously, and a
      notification wakes it whether tasks are waiting or not. */
  lemma WhatMayHappen(s: State, t: nat, task: int)
    requires t < |s.m.adders| && s.m.adders[t] == AIdle
    ensures Enabled(s.m, AddTask(t, task)) && Do(s, AddTask(t, task)).called == s.called + [Task(t, task)]
    ensures s.m.worker == WSleeping ==> Enabled(s.m, SpuriousWake)
    ensures forall u :: 0 <= u < |s.m.adders| && s.m.adders[u] == ANotify && s.m.worker == WSleeping ==>
      Apply(s.m, AdderStep(u)).worker == WWoken
  {}

  /** When nothing can move but a new AddTask or a spurious wake, the worker sleeps and has executed
      the arguments of all calls: each once, and those of each thread in the order of its calls. */
  lemma QuietMeansAllExecuted(s: State)
    requires Reachable(s)
    requires forall a :: Enabled(s.m, a) ==> a.AddTask? || a.SpuriousWake?
    ensures s.m.worker == WSleeping && s.m.tasks == [] && s.m.executed == Numbered(s.added)
    ensures forall t :: 0 <= t < |s.m.adders| ==> By(s.added, t) == By(s.called, t)
    ensures multiset(s.m.executed) == multiset(Numbered(s.called))
    ensures s.m.owner == FREE && forall t :: 0 <= t < |s.m.adders| ==> s.m.adders[t] == AIdle
  {
    InvOfReachable(s);
    QuietMeansIdle(s);
    forall x
      ensures multiset(s.m.executed)[x] == Count(s.called, x)
    {
      SumConstant(Pends(x), s.m.adders, 0);
    }
  }

  lemma QuietMeansIdle(s: State)
    requires Mutex(s.m) && WakeIsComing(s.m)
    requires forall a :: Enabled(s.m, a) ==> a.AddTask? || a.SpuriousWake?
    ensures s.m.worker == WSleeping && s.m.tasks == []
    ensures s.m.owner == FREE && forall t :: 0 <= t < |s.m.adders| ==> s.m.adders[t] == AIdle
  {
    assert 0 <= s.m.owner < |s.m.adders| ==> AdderHolds(s.m.adders[s.m.owner]);
    assert !Enabled(s.m, WorkerStep);
    forall t | 0 <= t < |s.m.adders|
      ensures !AdderHolds(s.m.adders[t])
    {
      assert !Enabled(s.m, AdderStep(t));
    }
    forall t | 0 <= t < |s.m.adders|
      ensures s.m.adders[t] == AIdle
    {
      assert !Enabled(s.m, AdderStep(t));
    }
  }
}
