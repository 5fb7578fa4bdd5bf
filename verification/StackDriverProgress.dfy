/** The driver of the linked stack never sticks: both loops can always still end. */
module StackDriverProgress {
  import opened StackSpec
  import opened Linearizability
  import opened LockFreeStack
  import opened LockFreeStackProof
  import opened StackProgress
  import opened StackCompletion
  import opened StackDriver
  import opened DriverLoops
  import opened Sums
  import Runs

  function PushLeft(m: Machine, p: Producer): int {
    3 * Stale(m, p) +
    match p
    case PIdle => 20
    case PCalled(_) => 12
    case PAllocated(_) => 11
    case PLoaded(_, _) => 10
    case PReady(_) => 9
    case PCas(_, _) => 8
    case PFailed(_, _) => 10
    case PDone => 1
  }

  function PopLeft(m: Machine): int {
    3 * ConsumerStale(m) +
    match m.consumer
    case CIdle => 20
    case CCalled => 7
    case CLoaded(_) => 5
    case CCas(_, _) => 4
    case CWon(_) => 3
    case CMoved(_, _) => 2
    case CDone(r) => if r.Value? then 1 else 21
  }

  /** What is left to do: 20 for each iteration to come, and what is left of the current ones. */
  function Work(d: Driver): int {
    if |d.s.m.producers| != 1 then 0 else
    20 * (d.loops.n - d.loops.i) + PushLeft(d.s.m, d.s.m.producers[0])
    + 20 * (d.loops.n - d.loops.consumed) + PopLeft(d.s.m)
  }

  /** The next step of each side; the compare-exchange does not fail spuriously. */
  ghost function Onward(d: Driver): Step
    requires |d.s.m.producers| == 1
  {
    if d.s.m.producers[0] == PIdle then CallPush(0, d.loops.i) else PushOnward(d.s.m, 0)
  }

  function ConsumerOnward(m: Machine): Step {
    if m.consumer == CIdle then CallPop else PopOnward(m)
  }

  lemma PushAdvances(d: Driver, a: Step, m: Machine)
    requires Memory(d.s.m, d.s.h.chain) && |d.s.m.producers| == 1 && a == Onward(d)
    requires DriverEnabled(d, a) && m == Apply(d.s.m, a)
    ensures |m.producers| == 1
    ensures PushLeft(m, m.producers[0]) - (if a.ReturnPush? then 20 else 0)
          < PushLeft(d.s.m, d.s.m.producers[0]) - if m.head != d.s.m.head then 3 else 0
  {}

  lemma PopUndisturbed(d: Driver, a: Step, m: Machine)
    requires Memory(d.s.m, d.s.h.chain) && DriverEnabled(d, a) && ByProducer(a) && m == Apply(d.s.m, a)
    ensures PopLeft(m) <= PopLeft(d.s.m) + if m.head != d.s.m.head then 3 else 0
  {}

  lemma ProducerAdvances(d: Driver, a: Step)
    requires Memory(d.s.m, d.s.h.chain) && |d.s.m.producers| == 1 && a == Onward(d)
    requires d.s.m.producers[0] == PIdle ==> d.loops.i < d.loops.n
    ensures DriverEnabled(d, a) && Work(Drive(d, a)) < Work(d)
  {
    PushAdvances(d, a, Apply(d.s.m, a));
    PopUndisturbed(d, a, Apply(d.s.m, a));
  }

  lemma PopAdvances(d: Driver, a: Step, m: Machine)
    requires Memory(d.s.m, d.s.h.chain) && d.s.m.producers == [PIdle] && a == ConsumerOnward(d.s.m)
    requires DriverEnabled(d, a) && m == Apply(d.s.m, a)
    requires d.s.m.consumer == CCalled ==> d.s.m.head != NULL
    ensures m.producers == d.s.m.producers
    ensures PopLeft(m) - (if a.ReturnPop? && d.s.m.consumer.result.Value? then 20 else 0) < PopLeft(d.s.m)
  {}

  lemma ConsumerAdvances(d: Driver, a: Step)
    requires Memory(d.s.m, d.s.h.chain) && d.s.m.producers == [PIdle] && a == ConsumerOnward(d.s.m)
    requires d.s.m.consumer == CIdle ==> d.loops.consumed < d.loops.n
    requires d.s.m.consumer == CCalled ==> d.s.m.head != NULL
    ensures DriverEnabled(d, a) && Work(Drive(d, a)) < Work(d)
  {
    PopAdvances(d, a, Apply(d.s.m, a));
  }

  /** With the producer done, what the consumer still has to receive is on the stack. */
  lemma RestIsOnStack(d: Driver)
    requires DriverInv(d) && d.s.m.producers[0] == PIdle && d.loops.i == d.loops.n && d.s.m.consumer == CCalled
    ensures d.s.m.head != NULL
  {
    assert ProducerAgrees(d.s.m, d.s.m.producers[0], PhaseOf(d.s.h.rec.trace, 0));
    ConservedCount(Unbounded, d.s.h.rec.trace);
    assert |Popped(d.s.h.rec.trace)| == d.loops.consumed < d.loops.n == |Pushed(d.s.h.rec.trace)|;
  }

  lemma SomeoneAdvances(d: Driver) returns (d': Driver)
    requires DriverInv(d) && !Finished(d)
    ensures DriverNext(d, d') && Work(d') < Work(d)
  {
    var a;
    if d.s.m.producers[0] != PIdle || d.loops.i < d.loops.n {
      a := Onward(d);
      ProducerAdvances(d, a);
    } else {
      a := ConsumerOnward(d.s.m);
      assert d.s.m.producers == [PIdle];
      if d.s.m.consumer == CCalled { RestIsOnStack(d); }
      ConsumerAdvances(d, a);
    }
    d' := Drive(d, a);
  }

  lemma WorkNonNegative(d: Driver)
    requires d.loops.i <= d.loops.n && d.loops.consumed <= d.loops.n
    ensures Work(d) >= 0
  {}

  /** From every reachable state of the driver both loops can still end. */
  lemma CanAlwaysFinish(d: Driver)
    requires DriverReachable(d)
    ensures Runs.CanReach(DriverNext, Finished, d)
  {
    DriverInvOfReachable(d);
    forall d, d' | DriverInv(d) && DriverNext(d, d')
      ensures DriverInv(d')
    {
      var a :| DriverEnabled(d, a) && d' == Drive(d, a);
      DriverInvStep(d, a, d');
    }
    forall d | DriverInv(d)
      ensures Work(d) >= 0
    {
      WorkNonNegative(d);
    }
    forall d | DriverInv(d) && !Finished(d)
      ensures exists d' :: DriverNext(d, d') && Work(d') < Work(d)
    {
      var d' := SomeoneAdvances(d);
    }
    Runs.GoalStaysInReach(DriverNext, DriverInv, Finished, Work, d);
  }

  lemma SameLength(run: seq<Driver>, k: nat)
    requires Runs.IsRun(Start, DriverNext, run) && k < |run|
    ensures run[k].loops.n == run[0].loops.n
  {
    var init := (d: Driver) => d == run[0];
    assert Runs.IsRun(init, DriverNext, run);
    Runs.InvariantOfRun(init, DriverNext, (d: Driver) => d.loops.n == run[0].loops.n, run, k);
  }

  /** For every n some run of the driver ends, with a permutation of 0, 1, .., n - 1 received. */
  lemma EveryLengthCanEnd(n: nat) returns (run: seq<Driver>)
    ensures Runs.IsRun(Start, DriverNext, run) && run[0].loops.n == n && Finished(run[|run| - 1])
    ensures multiset(Output(run[|run| - 1].s.h.rec.trace, CONSUMER)) == multiset(Numbers(n))
  {
    var d := Driver(State(Machine(NULL, map[], [PIdle], CIdle, false), History(BLANK, [], 0)), Loops(n, 0, 0));
    Runs.ReachableInitially(Start, DriverNext, d);
    CanAlwaysFinish(d);
    run :| Runs.IsPath(DriverNext, run) && run[0] == d && Finished(run[|run| - 1]);
    Runs.ReachableInRun(Start, DriverNext, run, |run| - 1);
    SameLength(run, |run| - 1);
    FinishedOutputIsPermutation(run[|run| - 1]);
  }
}
