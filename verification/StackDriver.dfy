/** The driver of the linked stack: one producer loop and one consumer loop. */
module StackDriver {
  import opened StackSpec
  import opened Linearizability
  import opened LockFreeStack
  import opened LockFreeStackProof
  import opened OutputShape
  import opened DriverLoops
  import opened Sums
  import Runs

  datatype Driver = Driver(s: State, loops: Loops)

  predicate DriverEnabled(d: Driver, a: Step) {
    && Enabled(d.s.m, a)
    && (a.CallPush? ==> d.loops.i < d.loops.n && a.value == d.loops.i)
    && (a.CallPop? ==> d.loops.consumed < d.loops.n)
  }

  function Drive(d: Driver, a: Step): Driver
    requires DriverEnabled(d, a)
  {
    var l := d.loops;
    Driver(Do(d.s, a),
           l.(i := if a.ReturnPush? then l.i + 1 else l.i,
              consumed := if a.ReturnPop? && d.s.m.consumer.result.Value? then l.consumed + 1 else l.consumed))
  }

  ghost predicate Start(d: Driver) {
    Init(d.s) && |d.s.m.producers| == 1 && d.loops.i == d.loops.consumed == 0
  }

  ghost predicate DriverNext(d: Driver, d': Driver) {
    exists a :: DriverEnabled(d, a) && d' == Drive(d, a)
  }

  ghost predicate DriverReachable(d: Driver) {
    Runs.Reachable(Start, DriverNext, d)
  }

  /** Both loops have ended. */
  ghost predicate Finished(d: Driver) {
    d.loops.i == d.loops.consumed == d.loops.n && d.s.m.producers == [PIdle] && d.s.m.consumer == CIdle
  }

  ghost predicate DriverInv(d: Driver) {
    Inv(d.s) && |d.s.m.producers| == 1 && InLoops(d.s.h.rec.trace, d.loops, 0, CONSUMER)
  }

  /** A step of the driver is nothing to the loops, or an event that they allow and count. */
  lemma StepFits(d: Driver, a: Step, d': Driver)
    requires |d.s.m.producers| == 1 && DriverEnabled(d, a) && d' == Drive(d, a)
    ensures |d'.s.m.producers| == 1
    ensures if d'.s.h.rec == d.s.h.rec then d'.loops == d.loops
            else Fits(d.loops, d'.s.h.rec.Last(), 0, CONSUMER)
                 && d'.loops == CountUp(d.loops, d'.s.h.rec.Last(), 0, CONSUMER)
  {}

  lemma DriverInvStep(d: Driver, a: Step, d': Driver)
    requires DriverInv(d) && DriverEnabled(d, a) && d' == Drive(d, a)
    ensures DriverInv(d')
  {
    InvStep(d.s, a, d'.s);
    OneEvent(d.s, a, d'.s);
    StepFits(d, a, d');
    if d'.s.h.rec != d.s.h.rec {
      NeverBroken(d'.s, d'.s.h.rec.Last().who);
      LoopsMove(d.s.h.rec.trace, d.loops, d'.s.h.rec.Last(), 0, CONSUMER);
    }
  }

  lemma DriverInvInitially(d: Driver)
    requires Start(d)
    ensures DriverInv(d)
  {}

  lemma DriverInvOfReachable(d: Driver)
    requires DriverReachable(d)
    ensures DriverInv(d)
  {
    forall d | Start(d)
      ensures DriverInv(d)
    {
      DriverInvInitially(d);
    }
    forall d, d' | DriverInv(d) && DriverNext(d, d')
      ensures DriverInv(d')
    {
      var a :| DriverEnabled(d, a) && d' == Drive(d, a);
      DriverInvStep(d, a, d');
    }
    Runs.InvariantOfReachable(Start, DriverNext, DriverInv, d);
  }

  /** In every state of every run of the driver, what the consumer loop has received is
      stack-realisable and the pushes so far are a prefix of 0, 1, .., n - 1. */
  lemma OutputIsStackRealisable(d: Driver)
    requires DriverReachable(d)
    ensures StackRealisable(Output(d.s.h.rec.trace, CONSUMER))
    ensures |Output(d.s.h.rec.trace, CONSUMER)| == d.loops.consumed
    ensures exists k: nat :: k <= d.loops.n && Pushed(d.s.h.rec.trace) == Numbers(k)
  {
    DriverInvOfReachable(d);
    OutputOfLoops(Unbounded, d.s.h.rec.trace, d.loops, 0, CONSUMER);
  }

  lemma ReceivedAll(d: Driver)
    requires DriverInv(d) && Finished(d)
    ensures multiset(Output(d.s.h.rec.trace, CONSUMER)) == multiset(Numbers(d.loops.n)) && d.s.h.rec.stack == []
  {
    assert ProducerAgrees(d.s.m, d.s.m.producers[0], PhaseOf(d.s.h.rec.trace, 0));
    EndOfLoops(Unbounded, d.s.h.rec.trace, d.loops, 0, CONSUMER);
  }

  /** When both loops have ended, the output is a permutation of 0, 1, .., n - 1, the stack is
      empty and no node is left allocated. */
  lemma FinishedOutputIsPermutation(d: Driver)
    requires DriverReachable(d) && Finished(d)
    ensures multiset(Output(d.s.h.rec.trace, CONSUMER)) == multiset(Numbers(d.loops.n))
    ensures d.s.m.head == NULL && d.s.m.heap == map[]
  {
    DriverInvOfReachable(d);
    ReceivedAll(d);
  }
}
