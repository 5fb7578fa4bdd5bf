/** Lock-freedom with a number: how many steps a run can take for the operations it calls. */
module StackStepBound {
  import opened Linearizability
  import opened LockFreeStack
  import opened LockFreeStackProof
  import opened StackProgress
  import opened Sums
  import Runs

  /** Steps left to the current Push when nobody interferes. Until it succeeds it also carries
      what its success may cost: three steps for each thread whose expectation it spoils. */
  function ProducerRank(m: Machine, p: Producer): int {
    var cost := 3 * |m.producers|;
    3 * Stale(m, p) +
    match p
    case PIdle => 0
    case PCalled(_) => 7 + cost
    case PAllocated(_) => 6 + cost
    case PLoaded(_, _) => 5 + cost
    case PReady(_) => 4 + cost
    case PCas(_, _) => 3 + cost
    case PFailed(_, _) => 5 + cost
    case PDone => 1
  }

  function ConsumerRank(m: Machine): int {
    var cost := 3 * |m.producers|;
    3 * ConsumerStale(m) +
    match m.consumer
    case CIdle => 0
    case CCalled => 6 + cost
    case CLoaded(_) => 5 + cost
    case CCas(_, _) => 4 + cost
    case CWon(_) => 3
    case CMoved(_, _) => 2
    case CDone(_) => 1
  }

  function Ranks(m: Machine): int -> int {
    t => if 0 <= t < |m.producers| then ProducerRank(m, m.producers[t]) else 0
  }

  function Total(m: Machine): int {
    Sum(Ranks(m), Numbers(|m.producers|)) + ConsumerRank(m)
  }

  /** What a step may cost the ranks of the threads that do not move. */
  function Spoils(m: Machine, m': Machine): int { if m'.head != m.head then 3 else 0 }

  lemma OtherProducerRank(s: State, a: Step, s': State, t: nat)
    requires Memory(s.m, s.h.chain) && Enabled(s.m, a) && s' == Do(s, a) && t < |s.m.producers| && t != Mover(a)
    ensures |s'.m.producers| == |s.m.producers|
    ensures ProducerRank(s'.m, s'.m.producers[t]) <= ProducerRank(s.m, s.m.producers[t]) + Spoils(s.m, s'.m)
  {
    StaleOfWaiting(s, a, s', t);
  }

  /** 8 + 3T steps of credit for a call, 3 for a spurious failure. */
  function Credit(s: State, a: Step): int
    requires Enabled(s.m, a)
  {
    if a.CallPush? || a.CallPop? then 8 + 3 * |s.m.producers|
    else if Do(s, a).h.spurious != s.h.spurious then 3
    else 0
  }

  lemma MovingProducerRank(s: State, a: Step, s': State)
    requires Memory(s.m, s.h.chain) && Enabled(s.m, a) && s' == Do(s, a) && ByProducer(a)
    ensures ProducerRank(s'.m, s'.m.producers[a.t]) + Spoils(s.m, s'.m) * |s.m.producers|
          < ProducerRank(s.m, s.m.producers[a.t]) + Credit(s, a)
  {}

  lemma WaitingConsumerRank(s: State, a: Step, s': State)
    requires Memory(s.m, s.h.chain) && Enabled(s.m, a) && s' == Do(s, a) && ByProducer(a)
    ensures ConsumerRank(s'.m) <= ConsumerRank(s.m) + Spoils(s.m, s'.m)
  {}

  lemma MovingConsumerRank(s: State, a: Step, s': State)
    requires Memory(s.m, s.h.chain) && Enabled(s.m, a) && s' == Do(s, a) && !ByProducer(a)
    ensures |s'.m.producers| == |s.m.producers|
    ensures ConsumerRank(s'.m) + Spoils(s.m, s'.m) * |s.m.producers| < ConsumerRank(s.m) + Credit(s, a)
  {}

  /** All ranks but that of thread `i` grow by at most `c`. */
  ghost predicate OthersGrow(m: Machine, m': Machine, i: int, c: int)
    requires |m'.producers| == |m.producers|
  {
    forall t :: 0 <= t < |m.producers| && t != i ==>
      ProducerRank(m', m'.producers[t]) <= ProducerRank(m, m.producers[t]) + c
  }

  lemma TotalAfterProducer(m: Machine, m': Machine, i: nat, c: int, credit: int)
    requires |m'.producers| == |m.producers| && i < |m.producers| && OthersGrow(m, m', i, c)
    requires ProducerRank(m', m'.producers[i]) + c * |m.producers| < ProducerRank(m, m.producers[i]) + credit
    requires ConsumerRank(m') <= ConsumerRank(m) + c
    ensures Total(m') < Total(m) + credit
  {
    var numbers := Numbers(|m.producers|);
    assert forall t :: 0 <= t < |numbers| && t != i ==> Ranks(m')(numbers[t]) <= Ranks(m)(numbers[t]) + c;
    SumShiftButOne(Ranks(m), Ranks(m'), numbers, i, c);
    Distributes(c, |numbers| - 1, 1);
  }

  lemma TotalAfterConsumer(m: Machine, m': Machine, c: int, credit: int)
    requires |m'.producers| == |m.producers| && OthersGrow(m, m', CONSUMER, c)
    requires ConsumerRank(m') + c * |m.producers| < ConsumerRank(m) + credit
    ensures Total(m') < Total(m) + credit
  {
    var numbers := Numbers(|m.producers|);
    assert forall t :: 0 <= t < |numbers| ==> Ranks(m')(numbers[t]) <= Ranks(m)(numbers[t]) + c;
    SumShift(Ranks(m), Ranks(m'), numbers, c);
  }

  lemma OthersGrowBySpoils(s: State, a: Step, s': State)
    requires Memory(s.m, s.h.chain) && Enabled(s.m, a) && s' == Do(s, a)
    ensures |s'.m.producers| == |s.m.producers|
    ensures OthersGrow(s.m, s'.m, Mover(a), Spoils(s.m, s'.m))
  {
    SameProducers(s, a, s');
    forall t | 0 <= t < |s.m.producers| && t != Mover(a)
      ensures ProducerRank(s'.m, s'.m.producers[t]) <= ProducerRank(s.m, s.m.producers[t]) + Spoils(s.m, s'.m)
    {
      OtherProducerRank(s, a, s', t);
    }
  }

  lemma SameProducers(s: State, a: Step, s': State)
    requires Enabled(s.m, a) && s' == Do(s, a)
    ensures |s'.m.producers| == |s.m.producers|
  {}

  lemma TotalFalls(s: State, a: Step, s': State)
    requires Memory(s.m, s.h.chain) && Enabled(s.m, a) && s' == Do(s, a)
    ensures |s'.m.producers| == |s.m.producers|
    ensures Total(s'.m) < Total(s.m) + Credit(s, a)
  {
    OthersGrowBySpoils(s, a, s');
    if ByProducer(a) {
      MovingProducerRank(s, a, s');
      WaitingConsumerRank(s, a, s');
      TotalAfterProducer(s.m, s'.m, a.t, Spoils(s.m, s'.m), Credit(s, a));
    } else {
      MovingConsumerRank(s, a, s');
      TotalAfterConsumer(s.m, s'.m, Spoils(s.m, s'.m), Credit(s, a));
    }
  }

  lemma CallsOfStep(s: State, a: Step, s': State)
    requires Enabled(s.m, a) && s' == Do(s, a)
    ensures Calls(s'.h.rec.trace) == Calls(s.h.rec.trace) + if a.CallPush? || a.CallPop? then 1 else 0
  {
    OneEvent(s, a, s');
    if s'.h.rec.trace != s.h.rec.trace { CallsAppend(s.h.rec.trace, s'.h.rec.Last()); }
  }

  /** A step that is not a spurious failure of a compare-exchange. */
  predicate Plain(a: Step) {
    (a.PushCas? || a.PopCas?) ==> !a.spurious
  }

  ghost predicate PlainNext(s: State, s': State) {
    exists a :: Enabled(s.m, a) && Plain(a) && s' == Do(s, a)
  }

  /** Only failures that the environment chose are counted as spurious. */
  lemma SpuriousOfStep(s: State, a: Step, s': State)
    requires Enabled(s.m, a) && s' == Do(s, a)
    ensures s'.h.spurious == s.h.spurious || s'.h.spurious == s.h.spurious + 1
    ensures Plain(a) ==> s'.h.spurious == s.h.spurious
  {}

  ghost predicate Bounded(s: State, k: nat) {
    k + Total(s.m) <= (8 + 3 * |s.m.producers|) * Calls(s.h.rec.trace) + 3 * s.h.spurious
  }

  /** The books balance: `rate` for each call and 3 for each spurious failure. */
  lemma BoundedMove(s: State, s': State, k: nat, calls: nat, failures: nat)
    requires Bounded(s, k) && |s'.m.producers| == |s.m.producers|
    requires Calls(s'.h.rec.trace) == Calls(s.h.rec.trace) + calls && s'.h.spurious == s.h.spurious + failures
    requires Total(s'.m) < Total(s.m) + (8 + 3 * |s.m.producers|) * calls + 3 * failures
    ensures Bounded(s', k + 1)
  {
    Distributes(8 + 3 * |s.m.producers|, Calls(s.h.rec.trace), calls);
  }

  lemma BoundedStep(s: State, a: Step, s': State, k: nat)
    requires Memory(s.m, s.h.chain) && Enabled(s.m, a) && s' == Do(s, a) && Bounded(s, k)
    ensures Bounded(s', k + 1) && |s'.m.producers| == |s.m.producers|
  {
    TotalFalls(s, a, s');
    CallsOfStep(s, a, s');
    SpuriousOfStep(s, a, s');
    BoundedMove(s, s', k, if a.CallPush? || a.CallPop? then 1 else 0, s'.h.spurious - s.h.spurious);
  }

  lemma TotalAtRest(m: Machine)
    requires m.consumer == CIdle && forall t :: 0 <= t < |m.producers| ==> m.producers[t] == PIdle
    ensures Total(m) == 0
  {
    SumConstant(Ranks(m), Numbers(|m.producers|), 0);
  }

  lemma {:induction false} RunIsBounded(run: seq<State>, k: nat)
    requires Runs.IsRun(Init, Next, run) && k < |run|
    ensures Bounded(run[k], k) && |run[k].m.producers| == |run[0].m.producers|
  {
    if k == 0 {
      TotalAtRest(run[0].m);
    } else {
      RunIsBounded(run, k - 1);
      assert Next(run[k - 1], run[k]);
      var a :| Enabled(run[k - 1].m, a) && run[k] == Do(run[k - 1], a);
      Runs.ReachableInRun(Init, Next, run, k - 1);
      InvOfReachable(run[k - 1]);
      BoundedStep(run[k - 1], a, run[k], k - 1);
    }
  }

  lemma TotalNonNegative(m: Machine)
    ensures Total(m) >= 0
  {
    SumNonNegative(Ranks(m), Numbers(|m.producers|));
  }

  /** Lock-freedom with a bound: with T producers and one consumer, a run in which n operations
      have been called takes at most (8 + 3T) n steps, all retries included, plus three for each
      spurious failure; the retry loops cannot run on without operations completing. */
  lemma StepsAreBoundedByCalls(run: seq<State>, k: nat)
    requires Runs.IsRun(Init, Next, run) && k < |run|
    ensures k <= (8 + 3 * |run[0].m.producers|) * Calls(run[k].h.rec.trace) + 3 * run[k].h.spurious
  {
    RunIsBounded(run, k);
    TotalNonNegative(run[k].m);
  }

  /** With strong compare-exchanges the bound is in the calls alone. */
  lemma PlainStepsAreBoundedByCalls(run: seq<State>, k: nat)
    requires Runs.IsRun(Init, PlainNext, run) && k < |run|
    ensures run[k].h.spurious == 0
    ensures k <= (8 + 3 * |run[0].m.producers|) * Calls(run[k].h.rec.trace)
  {
    forall s, s' | PlainNext(s, s')
      ensures s'.h.spurious == s.h.spurious
    {
      var a :| Enabled(s.m, a) && Plain(a) && s' == Do(s, a);
      SpuriousOfStep(s, a, s');
    }
    Runs.InvariantOfRun(Init, PlainNext, (s: State) => s.h.spurious == 0, run, k);
    Runs.RunOfLarger(Init, PlainNext, Next, run);
    StepsAreBoundedByCalls(run, k);
  }
}
