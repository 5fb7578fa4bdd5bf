/** Retries of the compare-exchange loops are paid for by other threads' successes. */
module StackProgress {
  import opened StackSpec
  import opened Linearizability
  import opened LockFreeStack
  import opened LockFreeStackProof
  import Runs

  /** Compare-exchanges of `who` that failed because the head had changed. */
  function Retries(trace: seq<Event>, who: int): nat {
    if trace == [] then 0
    else Retries(trace[..|trace| - 1], who) + (if trace[|trace| - 1] == Retry(who) then 1 else 0)
  }

  function PushIsBy(e: Event, who: int): nat {
    if e.who == who then |PushedBy(e)| else 0
  }

  /** Successful pushes of `who`. */
  function PushesBy(trace: seq<Event>, who: int): nat {
    if trace == [] then 0
    else PushesBy(trace[..|trace| - 1], who) + PushIsBy(trace[|trace| - 1], who)
  }

  /** 1 if the head is no longer what the producer will compare it with. */
  function Stale(m: Machine, p: Producer): nat {
    match p
    case PLoaded(_, seen) => if seen != m.head then 1 else 0
    case PReady(node) => if Read(m, node).next != m.head then 1 else 0
    case PCas(_, expected) => if expected != m.head then 1 else 0
    case PFailed(_, seen) => if seen != m.head then 1 else 0
    case _ => 0
  }

  function ConsumerStale(m: Machine): nat {
    if Watches(m.consumer) && m.consumer.node != m.head then 1 else 0
  }

  ghost predicate ProducerPaid(s: State, t: nat)
    requires t < |s.m.producers|
  {
    Retries(s.h.rec.trace, t) + Stale(s.m, s.m.producers[t]) + PushesBy(s.h.rec.trace, t)
      <= |Popped(s.h.rec.trace)| + |Pushed(s.h.rec.trace)|
  }

  ghost predicate ConsumerPaid(s: State) {
    Retries(s.h.rec.trace, CONSUMER) + ConsumerStale(s.m) <= |Pushed(s.h.rec.trace)|
  }

  ghost predicate Paid(s: State) {
    && Inv(s)
    && (forall t :: 0 <= t < |s.m.producers| ==> ProducerPaid(s, t))
    && ConsumerPaid(s)
  }

  /** With a single producer all pushes are its own. */
  ghost predicate PushesAreFirsts(s: State) {
    |s.m.producers| == 1 ==> PushesBy(s.h.rec.trace, 0) == |Pushed(s.h.rec.trace)|
  }

  /** How the counts move with one event. */
  ghost predicate CountsMove(before: seq<Event>, after: seq<Event>, e: Event, who: int) {
    && Retries(after, who) == Retries(before, who) + (if e == Retry(who) then 1 else 0)
    && PushesBy(after, who) == PushesBy(before, who) + PushIsBy(e, who)
    && |Pushed(after)| == |Pushed(before)| + |PushedBy(e)|
    && |Popped(after)| == |Popped(before)| + |PoppedBy(e)|
  }

  lemma CountsAppend(trace: seq<Event>, e: Event, who: int)
    ensures CountsMove(trace, trace + [e], e, who)
  {
    assert (trace + [e])[..|trace|] == trace;
  }

  lemma CountsOfStep(s: State, a: Step, s': State, who: int)
    requires Enabled(s.m, a) && s' == Do(s, a)
    ensures s'.h.rec.trace == s.h.rec.trace || s'.h.rec.trace == s.h.rec.trace + [s'.h.rec.Last()]
    ensures s'.h.rec.trace != s.h.rec.trace ==>
      s'.h.rec.Last().who == Mover(a) && CountsMove(s.h.rec.trace, s'.h.rec.trace, s'.h.rec.Last(), who)
  {
    OneEvent(s, a, s');
    if s'.h.rec.trace != s.h.rec.trace {
      CountsAppend(s.h.rec.trace, s'.h.rec.Last(), who);
    }
  }

  /** The head moves only with a successful operation, which pays for every thread it makes stale. */
  lemma HeadMoves(s: State, a: Step, s': State)
    requires Inv(s) && Enabled(s.m, a) && s' == Do(s, a) && s'.m.head != s.m.head
    ensures s'.h.rec.trace == s.h.rec.trace + [s'.h.rec.Last()] && s'.h.rec.Last().Effect?
    ensures s'.h.rec.Last().result == (if a.PushCas? then Done else Value(s.h.rec.stack[|s.h.rec.stack| - 1]))
    ensures (a.PushCas? && s'.h.rec.Last().op.Push?) || (a.PopCas? && s'.h.rec.Last().op.Pop?)
  {}

  /** 1 if the step is recorded as a retry. */
  function Retried(s: State, s': State): nat {
    if s'.h.rec.trace != s.h.rec.trace && s'.h.rec.Last().Retry? then 1 else 0
  }

  /** Its own steps make a producer less stale by every retry, and never staler. */
  lemma StaleOfMoving(s: State, a: Step, s': State)
    requires Memory(s.m, s.h.chain) && Enabled(s.m, a) && s' == Do(s, a) && ByProducer(a)
    ensures |s'.m.producers| == |s.m.producers|
    ensures Stale(s'.m, s'.m.producers[a.t]) + Retried(s, s') <= Stale(s.m, s.m.producers[a.t])
  {}

  lemma MovingProducerPaid(s: State, a: Step, s': State)
    requires Memory(s.m, s.h.chain) && Enabled(s.m, a) && s' == Do(s, a) && ByProducer(a) && ProducerPaid(s, a.t)
    ensures |s'.m.producers| == |s.m.producers| && ProducerPaid(s', a.t)
  {
    StaleOfMoving(s, a, s');
    CountsOfStep(s, a, s', a.t);
  }

  /** A producer that does not move becomes stale only if the head moves. */
  lemma StaleOfWaiting(s: State, a: Step, s': State, t: nat)
    requires Memory(s.m, s.h.chain) && Enabled(s.m, a) && s' == Do(s, a) && t < |s.m.producers| && t != Mover(a)
    ensures |s'.m.producers| == |s.m.producers| && s'.m.producers[t] == s.m.producers[t]
    ensures Stale(s'.m, s'.m.producers[t]) <= Stale(s.m, s.m.producers[t]) + if s'.m.head != s.m.head then 1 else 0
  {
    if s.m.producers[t].PReady? {
      assert Read(s'.m, s.m.producers[t].node).next == Read(s.m, s.m.producers[t].node).next;
    }
  }

  /** A successful operation of another thread pays for one unit of staleness. */
  lemma OthersSuccessPays(s: State, a: Step, s': State, t: nat)
    requires Inv(s) && Enabled(s.m, a) && s' == Do(s, a) && t != Mover(a)
    ensures |Popped(s'.h.rec.trace)| + |Pushed(s'.h.rec.trace)| - PushesBy(s'.h.rec.trace, t)
         >= |Popped(s.h.rec.trace)| + |Pushed(s.h.rec.trace)| - PushesBy(s.h.rec.trace, t)
          + if s'.m.head != s.m.head then 1 else 0
    ensures Retries(s'.h.rec.trace, t) == Retries(s.h.rec.trace, t)
  {
    CountsOfStep(s, a, s', t);
    if s'.m.head != s.m.head { HeadMoves(s, a, s'); }
  }

  lemma WaitingProducerPaid(s: State, a: Step, s': State, t: nat)
    requires Inv(s) && Enabled(s.m, a) && s' == Do(s, a)
    requires t < |s.m.producers| && t != Mover(a) && ProducerPaid(s, t)
    ensures |s'.m.producers| == |s.m.producers| && ProducerPaid(s', t)
  {
    StaleOfWaiting(s, a, s', t);
    OthersSuccessPays(s, a, s', t);
  }

  lemma StaleConsumer(s: State, a: Step, s': State)
    requires Inv(s) && Enabled(s.m, a) && s' == Do(s, a)
    ensures ByProducer(a) ==> ConsumerStale(s'.m) <= ConsumerStale(s.m) + if s'.m.head != s.m.head then 1 else 0
    ensures !ByProducer(a) ==> ConsumerStale(s'.m) + Retried(s, s') <= ConsumerStale(s.m)
  {}

  lemma ConsumerPaidStep(s: State, a: Step, s': State)
    requires Inv(s) && ConsumerPaid(s) && Enabled(s.m, a) && s' == Do(s, a)
    ensures ConsumerPaid(s')
  {
    StaleConsumer(s, a, s');
    CountsOfStep(s, a, s', CONSUMER);
    if s'.m.head != s.m.head { HeadMoves(s, a, s'); }
  }

  lemma PaidStep(s: State, a: Step, s': State)
    requires Paid(s) && Enabled(s.m, a) && s' == Do(s, a)
    ensures Paid(s')
  {
    InvStep(s, a, s');
    forall t | 0 <= t < |s'.m.producers|
      ensures ProducerPaid(s', t)
    {
      if t == Mover(a) { MovingProducerPaid(s, a, s'); } else { WaitingProducerPaid(s, a, s', t); }
    }
    ConsumerPaidStep(s, a, s');
  }

  lemma PushesAreFirstsStep(s: State, a: Step, s': State)
    requires PushesAreFirsts(s) && Enabled(s.m, a) && s' == Do(s, a)
    ensures PushesAreFirsts(s')
  {
    CountsOfStep(s, a, s', 0);
  }

  lemma RecordedRetriesArePaidFor(s: State, t: nat)
    requires Reachable(s) && t < |s.m.producers|
    ensures Retries(s.h.rec.trace, t)
         <= |Popped(s.h.rec.trace)| + (|Pushed(s.h.rec.trace)| - PushesBy(s.h.rec.trace, t))
    ensures Retries(s.h.rec.trace, CONSUMER) <= |Pushed(s.h.rec.trace)|
    ensures |s.m.producers| == 1 ==> Retries(s.h.rec.trace, t) <= |Popped(s.h.rec.trace)|
  {
    forall s, s' | Next(s, s')
      ensures Paid(s) ==> Paid(s')
      ensures PushesAreFirsts(s) ==> PushesAreFirsts(s')
    {
      var a :| Enabled(s.m, a) && s' == Do(s, a);
      if Paid(s) { PaidStep(s, a, s'); }
      if PushesAreFirsts(s) { PushesAreFirstsStep(s, a, s'); }
    }
    Runs.InvariantOfReachable(Init, Next, Paid, s);
    Runs.InvariantOfReachable(Init, Next, PushesAreFirsts, s);
    assert ProducerPaid(s, t);
  }

  // ----- The same, told by the steps of the run -----

  /** The step is a compare-exchange of Push that fails because the head has changed. */
  predicate PushFails(s: State, s': State, t: int) {
    && 0 <= t < |s.m.producers| && t < |s'.m.producers|
    && s.m.producers[t].PCas? && s'.m.producers[t].PFailed? && s.m.head != s.m.producers[t].expected
  }

  predicate PopFails(s: State, s': State) {
    s.m.consumer.CCas? && !Holds(s'.m.consumer) && s'.m.consumer != s.m.consumer && s.m.head != s.m.consumer.node
  }

  predicate Fails(s: State, s': State, who: int) {
    if who == CONSUMER then PopFails(s, s') else PushFails(s, s', who)
  }

  /** How often this has happened to `who` in the first `k` steps. */
  function Failures(run: seq<State>, who: int, k: nat): nat
    requires k < |run|
  {
    if k == 0 then 0 else Failures(run, who, k - 1) + if Fails(run[k - 1], run[k], who) then 1 else 0
  }

  lemma PushFailureIsRecorded(s: State, a: Step, s': State, t: int)
    requires Enabled(s.m, a) && s' == Do(s, a) && t != CONSUMER
    ensures PushFails(s, s', t) <==> s'.h.rec != s.h.rec && s'.h.rec.Last() == Retry(t)
  {
    assert PushFails(s, s', t) ==> a.PushCas? && a.t == t;
  }

  lemma PopFailureIsRecorded(s: State, a: Step, s': State)
    requires Linked(s.m.heap, s.m.head, s.h.chain) && Consuming(s.m, s.h.chain) && Enabled(s.m, a) && s' == Do(s, a)
    ensures PopFails(s, s') <==> s'.h.rec != s.h.rec && s'.h.rec.Last() == Retry(CONSUMER)
  {
    assert PopFails(s, s') ==> a.PopCas?;
  }

  lemma {:induction false} FailuresAreRetries(run: seq<State>, who: int, k: nat)
    requires Runs.IsRun(Init, Next, run) && k < |run|
    ensures Failures(run, who, k) == Retries(run[k].h.rec.trace, who)
  {
    if k > 0 {
      FailuresAreRetries(run, who, k - 1);
      Runs.ReachableInRun(Init, Next, run, k - 1);
      RetryOfNext(run[k - 1], run[k], who);
    }
  }

  lemma RetryOfNext(s: State, s': State, who: int)
    requires Reachable(s) && Next(s, s')
    ensures Retries(s'.h.rec.trace, who) == Retries(s.h.rec.trace, who) + if Fails(s, s', who) then 1 else 0
  {
    InvOfReachable(s);
    var a :| Enabled(s.m, a) && s' == Do(s, a);
    if who == CONSUMER { PopFailureIsRecorded(s, a, s'); } else { PushFailureIsRecorded(s, a, s', who); }
    CountsOfStep(s, a, s', who);
  }

  /** Over any run, the compare-exchanges of a producer that fail because the head has changed are
      at most the successful pops plus the successful pushes of the others, and those of the
      consumer at most the successful pushes. With a single producer its failures are at most the
      successful pops. */
  lemma RetriesArePaidFor(run: seq<State>, t: nat, k: nat)
    requires Runs.IsRun(Init, Next, run) && k < |run| && t < |run[k].m.producers|
    ensures var trace := run[k].h.rec.trace;
            && Failures(run, t, k) <= |Popped(trace)| + (|Pushed(trace)| - PushesBy(trace, t))
            && Failures(run, CONSUMER, k) <= |Pushed(trace)|
            && (|run[k].m.producers| == 1 ==> Failures(run, t, k) <= |Popped(trace)|)
  {
    FailuresAreRetries(run, t, k);
    FailuresAreRetries(run, CONSUMER, k);
    Runs.ReachableInRun(Init, Next, run, k);
    RecordedRetriesArePaidFor(run[k], t);
  }
}
