/** No thread of the linked stack ever blocks another, and every call can and must return.

    For any number of producers and from every reachable state. */
module StackCompletion {
  import opened StackSpec
  import opened Linearizability
  import opened LockFreeStack
  import opened LockFreeStackProof
  import opened StackStepBound
  import opened Sums
  import Runs

  /** All threads are between operations. */
  ghost predicate AtRest(s: State) {
    s.m.consumer == CIdle && forall t :: 0 <= t < |s.m.producers| ==> s.m.producers[t] == PIdle
  }

  ghost function Fresh(heap: map<Addr, Node>): (a: Addr)
    ensures a != NULL && a !in heap
  {
    FreshExists(heap.Keys);
    var a: Addr :| a != NULL && a !in heap;
    a
  }

  lemma {:induction false} FreshExists(used: set<Addr>)
    ensures exists a: Addr :: a != NULL && a !in used && forall b :: b in used ==> b < a
  {
    if used == {} {
      var a: Addr := 1;
      assert a != NULL && a !in used && forall b :: b in used ==> b < a;
    } else {
      var x :| x in used;
      FreshExists(used - {x});
      var a: Addr :| a != NULL && a !in used - {x} && forall b :: b in used - {x} ==> b < a;
      var c: Addr := if a > x then a else x + 1;
      forall b | b in used
        ensures b < c
      {
        if b != x { assert b in used - {x}; }
      }
      assert c != NULL && c !in used;
    }
  }

  /** The next step of a Push; the compare-exchange does not fail spuriously. */
  ghost function PushOnward(m: Machine, t: nat): Step
    requires t < |m.producers| && m.producers[t] != PIdle
  {
    match m.producers[t]
    case PCalled(_) => New(t, Fresh(m.heap))
    case PAllocated(_) => LoadHead(t)
    case PLoaded(_, _) => StoreNext(t)
    case PReady(_) => ReadExpected(t)
    case PCas(_, _) => PushCas(t, false)
    case PFailed(_, _) => WriteBack(t)
    case PDone => ReturnPush(t)
  }

  function PopOnward(m: Machine): Step
    requires m.consumer != CIdle
  {
    match m.consumer
    case CCalled => PopLoad
    case CLoaded(_) => ReadNext
    case CCas(_, _) => PopCas(false)
    case CWon(_) => MoveData
    case CMoved(_, _) => Delete
    case CDone(_) => ReturnPop
  }

  /** A step of an operation under way that is not a spurious failure. */
  predicate Completes(a: Step) {
    Plain(a) && !a.CallPush? && !a.CallPop?
  }

  ghost predicate CompletingNext(s: State, s': State) {
    exists a :: Enabled(s.m, a) && Completes(a) && s' == Do(s, a)
  }

  ghost predicate Stuck(s: State) {
    forall s' :: !CompletingNext(s, s')
  }

  /** A thread inside an operation always has a step to go on with, whatever the others do. */
  lemma NeverBlocked(m: Machine, t: int)
    requires t == CONSUMER || 0 <= t < |m.producers|
    requires if t == CONSUMER then m.consumer != CIdle else m.producers[t] != PIdle
    ensures exists a :: Enabled(m, a) && Completes(a) && Mover(a) == t
  {
    var a := if t == CONSUMER then PopOnward(m) else PushOnward(m, t);
    assert Enabled(m, a) && Completes(a) && Mover(a) == t;
  }

  lemma SomeoneCompletes(s: State)
    requires !AtRest(s)
    ensures exists s' :: CompletingNext(s, s')
  {
    var t := CONSUMER;
    if s.m.consumer == CIdle { t :| 0 <= t < |s.m.producers| && s.m.producers[t] != PIdle; }
    NeverBlocked(s.m, t);
    var a :| Enabled(s.m, a) && Completes(a) && Mover(a) == t;
    assert CompletingNext(s, Do(s, a));
  }

  lemma CompletingStep(s: State, s': State)
    requires Inv(s) && CompletingNext(s, s')
    ensures Inv(s') && |s'.m.producers| == |s.m.producers| && Total(s'.m) < Total(s.m)
  {
    var a :| Enabled(s.m, a) && Completes(a) && s' == Do(s, a);
    InvStep(s, a, s');
    TotalFalls(s, a, s');
    SpuriousOfStep(s, a, s');
  }

  /** Whatever the threads have done so far, all calls under way can return. */
  lemma CallsCanReturn(s: State)
    requires Reachable(s)
    ensures Runs.CanReach(CompletingNext, AtRest, s)
  {
    InvOfReachable(s);
    forall s, s' | Inv(s) && CompletingNext(s, s')
      ensures Inv(s') && Total(s'.m) < Total(s.m)
    {
      CompletingStep(s, s');
    }
    forall s | Inv(s)
      ensures Total(s.m) >= 0
      ensures !AtRest(s) ==> exists s' :: CompletingNext(s, s') && Total(s'.m) < Total(s.m)
    {
      TotalNonNegative(s.m);
      if !AtRest(s) {
        SomeoneCompletes(s);
        var s' :| CompletingNext(s, s');
        assert Total(s'.m) < Total(s.m);
      }
    }
    Runs.GoalStaysInReach(CompletingNext, Inv, AtRest, (s: State) => Total(s.m), s);
  }

  lemma TotalAtMost(m: Machine)
    ensures Total(m) <= (|m.producers| + 1) * (8 + 3 * |m.producers|)
  {
    var most := 8 + 3 * |m.producers|;
    SumAtMost(Ranks(m), Numbers(|m.producers|), most);
    Distributes(most, |m.producers|, 1);
  }

  lemma CompletionIsShort(path: seq<State>, k: nat)
    requires Runs.IsPath(CompletingNext, path) && Inv(path[0]) && k < |path|
    ensures k <= Total(path[0].m)
  {
    forall s, s' | Inv(s) && CompletingNext(s, s')
      ensures Inv(s') && Total(s'.m) < Total(s.m)
    {
      CompletingStep(s, s');
    }
    Runs.BoundOfPath(CompletingNext, Inv, (s: State) => Total(s.m), path, k);
    TotalNonNegative(path[k].m);
  }

  /** And they must: once no new call is made, T producers and the consumer take at most
      (T + 1)(8 + 3T) further steps, spurious failures apart, and only stop with all calls returned. */
  lemma CallsMustReturn(path: seq<State>)
    requires Runs.IsPath(CompletingNext, path) && Reachable(path[0])
    ensures |path| - 1 <= (|path[0].m.producers| + 1) * (8 + 3 * |path[0].m.producers|)
    ensures Stuck(path[|path| - 1]) ==> AtRest(path[|path| - 1])
  {
    InvOfReachable(path[0]);
    CompletionIsShort(path, |path| - 1);
    TotalAtMost(path[0].m);
    if !AtRest(path[|path| - 1]) { SomeoneCompletes(path[|path| - 1]); }
  }

  /** An idle thread may call at any time and with any value, and the call can return. */
  lemma EveryCallCanReturn(s: State, t: int, op: Op)
    requires Reachable(s) && if t == CONSUMER then s.m.consumer == CIdle && op == Pop
                             else 0 <= t < |s.m.producers| && s.m.producers[t] == PIdle && op.Push?
    ensures exists s' :: && Next(s, s') && s'.h.rec.trace == s.h.rec.trace + [Invoke(t, op)]
                         && Runs.CanReach(CompletingNext, AtRest, s')
  {
    var a := if t == CONSUMER then CallPop else CallPush(t, op.value);
    var s' := Do(s, a);
    assert Next(s, s');
    Runs.ReachableByStep(Init, Next, s, s');
    CallsCanReturn(s');
    assert s'.h.rec.trace == s.h.rec.trace + [Invoke(t, op)];
  }

  /** A weak compare-exchange may fail although the head is as expected. */
  lemma SpuriousFailure(m: Machine, t: nat)
    ensures t < |m.producers| && m.producers[t].PCas? ==>
      Enabled(m, PushCas(t, true)) && Apply(m, PushCas(t, true)).head == m.head
    ensures m.consumer.CCas? ==> Enabled(m, PopCas(true)) && Apply(m, PopCas(true)).head == m.head
  {}

  lemma AnyNumberOfProducers(n: nat) returns (s: State)
    ensures Init(s) && |s.m.producers| == n
  {
    s := State(Machine(NULL, map[], seq(n, _ => PIdle), CIdle, false), History(BLANK, [], 0));
  }
}
