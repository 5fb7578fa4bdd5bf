/** The two-process driver: the producer retries each Push until it succeeds, the consumer
    calls Pop until it has received n values. */
module BufferedDriver {
  import opened StackSpec
  import opened Linearizability
  import opened BufferedStack
  import opened BufferedOrder
  import opened BufferedSpsc
  import opened BufferedProgress
  import opened BufferedValues
  import opened OutputShape
  import opened DriverLoops
  import opened Sums
  import Runs

  datatype Driver = Driver(s: State, loops: Loops)

  predicate DriverEnabled(d: Driver, a: Step) {
    && Enabled(d.s.m, a)
    && ByRole(a)
    && (a.Call? && a.t == PRODUCER ==> d.loops.i < d.loops.n && a.op == Push(d.loops.i))
    && (a.Call? && a.t == CONSUMER ==> d.loops.consumed < d.loops.n)
  }

  ghost function Drive(d: Driver, a: Step): Driver
    requires DriverEnabled(d, a)
  {
    var l, threads := d.loops, d.s.m.threads;
    Driver(Do(d.s, a),
           l.(i := if a == Leave(PRODUCER) && threads[PRODUCER].result == Done then l.i + 1 else l.i,
              consumed := if a == Leave(CONSUMER) && threads[CONSUMER].result.Value? then l.consumed + 1
                          else l.consumed))
  }

  ghost predicate Start(d: Driver) {
    SpscInit(d.s) && |d.s.m.buffer| > 0 && d.loops.i == d.loops.consumed == 0
  }

  ghost predicate DriverNext(d: Driver, d': Driver) {
    exists a :: DriverEnabled(d, a) && d' == Drive(d, a)
  }

  ghost predicate DriverReachable(d: Driver) {
    Runs.Reachable(Start, DriverNext, d)
  }

  ghost predicate Finished(d: Driver) {
    d.loops.i == d.loops.consumed == d.loops.n && d.s.m.threads == [Idle, Idle]
  }

  /** 1 if the current call has taken a value across and not yet returned. */
  function Underway(p: Thread): nat {
    if Open(p) || (p.Answer? && (p.result == Done || p.result.Value?)) then 1 else 0
  }

  ghost predicate Looping(d: Driver) {
    && |d.s.m.threads| == 2 && Pushing(d.s.m.threads[PRODUCER]) && Popping(d.s.m.threads[CONSUMER])
    && d.loops.i <= d.loops.n && d.loops.consumed <= d.loops.n
    && (d.s.m.threads[PRODUCER] != Idle ==> d.loops.i < d.loops.n)
    && (d.s.m.threads[CONSUMER] != Idle ==> d.loops.consumed < d.loops.n)
    && d.s.m.head == d.loops.i + Underway(d.s.m.threads[PRODUCER])
                   - d.loops.consumed - Underway(d.s.m.threads[CONSUMER])
  }

  ghost predicate PushCount(d: Driver) {
    |d.s.m.threads| == 2 && |Pushed(d.s.h.rec.trace)| == d.loops.i + Underway(d.s.m.threads[PRODUCER])
  }

  ghost predicate DriverInv(d: Driver) {
    Counted(d.s) && Looping(d) && PushCount(d) && |d.s.m.buffer| > 0
  }

  lemma UnderwayMoves(d: Driver, a: Step, d': Driver)
    requires Looping(d) && DriverEnabled(d, a) && d' == Drive(d, a)
    ensures |d'.s.m.threads| == 2
    ensures d'.loops.i + Underway(d'.s.m.threads[PRODUCER])
         == d.loops.i + Underway(d.s.m.threads[PRODUCER]) + |PushedNow(d.s.m, a)|
  {}

  lemma PushCountStep(d: Driver, a: Step, d': Driver)
    requires DriverEnabled(d, a) && d' == Drive(d, a)
    requires Sized(d.s) && LocalBounds(d.s.m, d.s.m.threads[a.t]) && Looping(d) && PushCount(d)
    ensures PushCount(d')
  {
    UnderwayMoves(d, a, d');
    PushedOfStep(d.s, a, d'.s);
  }

  lemma LoopingStep(d: Driver, a: Step, d': Driver)
    requires Looping(d) && DriverEnabled(d, a) && d' == Drive(d, a)
    ensures Looping(d')
  {}

  lemma DriverInvStep(d: Driver, a: Step, d': Driver)
    requires DriverInv(d) && DriverEnabled(d, a) && d' == Drive(d, a)
    ensures DriverInv(d')
  {
    CountedStep(d.s, a, d'.s);
    OneEvent(d.s, a, d'.s);
    LoopingStep(d, a, d');
    PushCountStep(d, a, d');
  }

  lemma DriverInvOfReachable(d: Driver)
    requires DriverReachable(d)
    ensures DriverInv(d)
  {
    forall d, d' | DriverInv(d) && DriverNext(d, d')
      ensures DriverInv(d')
    {
      var a :| DriverEnabled(d, a) && d' == Drive(d, a);
      DriverInvStep(d, a, d');
    }
    Runs.InvariantOfReachable(Start, DriverNext, DriverInv, d);
  }

  /** How far a call has got; a stale compare-exchange has to start over. */
  function Stage(m: Machine, p: Thread): int {
    match p
    case Idle => 0
    case PushCalled(_) => 1
    case PopCalled => 1
    case PushCas(_, top) => if top == m.head then 2 else 0
    case PopCas(top) => if top == m.head then 2 else 0
    case PushSlot(_, _) => 5
    case PopSlot(_) => 5
    case Answer(r) => if r == Full || r == Empty then -1 else 6
  }

  function Work(d: Driver): int {
    if |d.s.m.threads| != 2 then 0 else
    10 * (d.loops.n - d.loops.i) - Stage(d.s.m, d.s.m.threads[PRODUCER])
    + 10 * (d.loops.n - d.loops.consumed) - Stage(d.s.m, d.s.m.threads[CONSUMER])
  }

  /** A step that brings one side closer to completing its operation. */
  function Helpful(d: Driver): Step
    requires |d.s.m.threads| == 2
  {
    var p, c := d.s.m.threads[PRODUCER], d.s.m.threads[CONSUMER];
    if Open(p) || p.Answer? then Onward(PRODUCER, p, Push(d.loops.i))
    else if Open(c) || c.Answer? then Onward(CONSUMER, c, Pop)
    else if d.loops.i < d.loops.n && d.s.m.head < |d.s.m.buffer| then Onward(PRODUCER, p, Push(d.loops.i))
    else Onward(CONSUMER, c, Pop)
  }

  function Onward(t: nat, p: Thread, op: Op): Step {
    if p.Idle? then Call(t, op)
    else if p.PushCalled? || p.PopCalled? then Load(t)
    else if p.PushCas? || p.PopCas? then Cas(t, false)
    else if Open(p) then Slot(t)
    else Leave(t)
  }

  lemma ProducerOnward(d: Driver, a: Step)
    requires Sized(d.s) && Looping(d) && a == Onward(PRODUCER, d.s.m.threads[PRODUCER], Push(d.loops.i))
    requires || Open(d.s.m.threads[PRODUCER]) || d.s.m.threads[PRODUCER].Answer?
             || (d.loops.i < d.loops.n && d.s.m.head < |d.s.m.buffer|)
    ensures DriverEnabled(d, a) && Work(Drive(d, a)) < Work(d)
  {}

  lemma ConsumerOnward(d: Driver, a: Step)
    requires Sized(d.s) && Looping(d) && a == Onward(CONSUMER, d.s.m.threads[CONSUMER], Pop)
    requires || Open(d.s.m.threads[CONSUMER]) || d.s.m.threads[CONSUMER].Answer?
             || (d.loops.consumed < d.loops.n && d.s.m.head > 0)
    ensures DriverEnabled(d, a) && Work(Drive(d, a)) < Work(d)
  {}

  lemma HelpfulHelps(d: Driver)
    requires Sized(d.s) && Looping(d) && |d.s.m.buffer| > 0 && !Finished(d)
    ensures DriverEnabled(d, Helpful(d))
    ensures Work(Drive(d, Helpful(d))) < Work(d)
  {
    var p, c := d.s.m.threads[PRODUCER], d.s.m.threads[CONSUMER];
    if Open(p) || p.Answer? || (!(Open(c) || c.Answer?) && d.loops.i < d.loops.n && d.s.m.head < |d.s.m.buffer|) {
      ProducerOnward(d, Helpful(d));
    } else {
      assert d.s.m.threads == [p, c];
      ConsumerOnward(d, Helpful(d));
    }
  }

  lemma WorkNonNegative(d: Driver)
    requires Looping(d)
    ensures Work(d) >= 0
  {}

  /** The driver never sticks: whatever the two processes have done so far, both can still
      finish; for every n and every positive capacity. */
  lemma CanAlwaysFinish(d: Driver)
    requires DriverReachable(d)
    ensures Runs.CanReach(DriverNext, Finished, d)
  {
    DriverInvOfReachable(d);
    forall d, d' | DriverInv(d) && DriverNext(d, d')
      ensures DriverInv(d')
    {
      var a :| DriverEnabled(d, a) && d' == Drive(d, a);
      DriverInvStep(d, a, d');
    }
    forall d | DriverInv(d)
      ensures Work(d) >= 0
      ensures !Finished(d) ==> exists d' :: DriverNext(d, d') && Work(d') < Work(d)
    {
      WorkNonNegative(d);
      if !Finished(d) {
        HelpfulHelps(d);
        assert DriverNext(d, Drive(d, Helpful(d)));
      }
    }
    Runs.GoalStaysInReach(DriverNext, DriverInv, Finished, Work, d);
  }

  /** At the end exactly n pushes and n pops have happened and the index is back at 0. */
  lemma EndState(d: Driver)
    requires DriverReachable(d) && Finished(d)
    ensures |Pushed(d.s.h.rec.trace)| == |Popped(d.s.h.rec.trace)| && d.s.m.head == 0 && !d.s.m.fault
    ensures |Pushed(d.s.h.rec.trace)| == d.loops.n
  {
    DriverInvOfReachable(d);
    ConservedCount(Bound(d.s), d.s.h.rec.trace);
  }

  // ----- The values received -----

  lemma DriverIsSpsc(d: Driver)
    requires DriverReachable(d)
    ensures SpscReachable(d.s)
  {
    forall d | Start(d)
      ensures SpscReachable(d.s)
    {
      Runs.ReachableInitially(SpscInit, SpscNext, d.s);
    }
    forall d: Driver, d': Driver | SpscReachable(d.s) && DriverNext(d, d')
      ensures SpscReachable(d'.s)
    {
      var a :| DriverEnabled(d, a) && d' == Drive(d, a);
      assert SpscNext(d.s, d'.s);
      Runs.ReachableByStep(SpscInit, SpscNext, d.s, d'.s);
    }
    Runs.InvariantOfReachable(Start, DriverNext, (d: Driver) => SpscReachable(d.s), d);
  }

  ghost predicate Receiving(d: Driver) {
    && Inv(d.s) && Roles(d.s)
    && (!d.s.h.spoiled ==> InLoops(d.s.h.rec.trace, d.loops, PRODUCER, CONSUMER))
  }

  /** A step of the driver is nothing to the loops, or an event that they allow and count. */
  lemma StepFits(d: Driver, a: Step, d': Driver)
    requires Roles(d.s) && DriverEnabled(d, a) && d' == Drive(d, a)
    ensures if d'.s.h.rec == d.s.h.rec then d'.loops == d.loops
            else Fits(d.loops, d'.s.h.rec.Last(), PRODUCER, CONSUMER)
                 && d'.loops == CountUp(d.loops, d'.s.h.rec.Last(), PRODUCER, CONSUMER)
  {}

  lemma ReceivingStep(d: Driver, a: Step, d': Driver)
    requires Receiving(d) && DriverEnabled(d, a) && d' == Drive(d, a)
    ensures Receiving(d')
  {
    InvStep(d.s, a, d'.s);
    RolesStep(d.s, a, d'.s);
    OneEvent(d.s, a, d'.s);
    StepFits(d, a, d');
    if !d'.s.h.spoiled && d'.s.h.rec != d.s.h.rec {
      assert Agrees(d'.s.m.threads[a.t], PhaseOf(d'.s.h.rec.trace, a.t));
      LoopsMove(d.s.h.rec.trace, d.loops, d'.s.h.rec.Last(), PRODUCER, CONSUMER);
    }
  }

  lemma ReceivingOfReachable(d: Driver)
    requires DriverReachable(d)
    ensures Receiving(d)
  {
    forall d, d' | Receiving(d) && DriverNext(d, d')
      ensures Receiving(d')
    {
      var a :| DriverEnabled(d, a) && d' == Drive(d, a);
      ReceivingStep(d, a, d');
    }
    Runs.InvariantOfReachable(Start, DriverNext, Receiving, d);
  }

  /** As long as no access out of turn has spoiled a slot, what the consumer has received is
      stack-realisable and the pushes so far are a prefix of 0, 1, .., n - 1. */
  lemma OutputIsStackRealisable(d: Driver)
    requires DriverReachable(d) && !d.s.h.spoiled
    ensures StackRealisable(Output(d.s.h.rec.trace, CONSUMER))
    ensures |Output(d.s.h.rec.trace, CONSUMER)| == d.loops.consumed
    ensures exists k: nat :: k <= d.loops.n && Pushed(d.s.h.rec.trace) == Numbers(k)
  {
    ReceivingOfReachable(d);
    OutputOfLoops(Bound(d.s), d.s.h.rec.trace, d.loops, PRODUCER, CONSUMER);
  }

  /** At the end the run refines the bounded stack if and only if nothing was spoiled, and then
      the output is a permutation of 0, 1, .., n - 1. */
  lemma FinishedOutputIsPermutation(d: Driver)
    requires DriverReachable(d) && Finished(d)
    ensures Linearizable(Bound(d.s), d.s.h.rec.trace) <==> !d.s.h.spoiled
    ensures !d.s.h.spoiled ==> multiset(Output(d.s.h.rec.trace, CONSUMER)) == multiset(Numbers(d.loops.n))
  {
    DriverIsSpsc(d);
    RightValuesIffUnspoiled(d.s);
    if !d.s.h.spoiled {
      ReceivingOfReachable(d);
      assert Agrees(d.s.m.threads[PRODUCER], PhaseOf(d.s.h.rec.trace, PRODUCER));
      assert Agrees(d.s.m.threads[CONSUMER], PhaseOf(d.s.h.rec.trace, CONSUMER));
      EndOfLoops(Bound(d.s), d.s.h.rec.trace, d.loops, PRODUCER, CONSUMER);
    }
  }

  lemma SameProgram(run: seq<Driver>, k: nat)
    requires Runs.IsRun(Start, DriverNext, run) && k < |run|
    ensures run[k].loops.n == run[0].loops.n && |run[k].s.m.buffer| == |run[0].s.m.buffer|
  {
    var init := (d: Driver) => d == run[0];
    assert Runs.IsRun(init, DriverNext, run);
    Runs.InvariantOfRun(init, DriverNext,
      (d: Driver) => d.loops.n == run[0].loops.n && |d.s.m.buffer| == |run[0].s.m.buffer|, run, k);
  }

  /** For every n and every positive capacity that an int can index some run of the driver ends, with
      n values passed. */
  lemma EveryLengthCanEnd(n: nat, capacity: nat) returns (run: seq<Driver>)
    requires 1 <= capacity <= 2147483647
    ensures Runs.IsRun(Start, DriverNext, run) && run[0].loops.n == n && |run[0].s.m.buffer| == capacity
    ensures Finished(run[|run| - 1]) && |Popped(run[|run| - 1].s.h.rec.trace)| == n
  {
    var s := AnyCapacity(capacity, 2);
    var d := Driver(s, Loops(n, 0, 0));
    Runs.ReachableInitially(Start, DriverNext, d);
    CanAlwaysFinish(d);
    run :| Runs.IsPath(DriverNext, run) && run[0] == d && Finished(run[|run| - 1]);
    Runs.ReachableInRun(Start, DriverNext, run, |run| - 1);
    SameProgram(run, |run| - 1);
    EndState(run[|run| - 1]);
  }
}
