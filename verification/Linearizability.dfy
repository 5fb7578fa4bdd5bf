/** Linearizability: each operation takes effect at one instant between its call and its return.

    A trace records calls, effects and returns of all threads in the order in which they
    happen. `Retry` marks a compare-exchange that failed because the shared word had changed. */
module Linearizability {
  import opened StackSpec

  datatype Event =
    | Invoke(who: int, op: Op)
    | Effect(who: int, op: Op, result: Result)
    | Return(who: int, result: Result)
    | Retry(who: int)

  /** Where a thread stands in its current operation, as far as the trace tells. */
  datatype Phase = Free | Pending(op: Op) | Applied(op: Op, result: Result) | Broken

  function Advance(phase: Phase, e: Event, who: int): Phase {
    if e.who != who then phase else
    match e
    case Invoke(_, op) => if phase == Free then Pending(op) else Broken
    case Effect(_, op, r) => if phase == Pending(op) then Applied(op, r) else Broken
    case Return(_, r) => if phase.Applied? && phase.result == r then Free else Broken
    case Retry(_) => if phase.Pending? then phase else Broken
  }

  function PhaseOf(trace: seq<Event>, who: int): Phase {
    if trace == [] then Free
    else Advance(PhaseOf(trace[..|trace| - 1], who), trace[|trace| - 1], who)
  }

  /** The effects of a trace, run one after the other on the sequential stack. */
  datatype Replayed = Illegal | Stack(items: seq<int>)

  function Replay(limit: Limit, trace: seq<Event>): Replayed {
    if trace == [] then Stack([])
    else ReplayStep(limit, Replay(limit, trace[..|trace| - 1]), trace[|trace| - 1])
  }

  function ReplayStep(limit: Limit, before: Replayed, e: Event): Replayed {
    if before.Illegal? || !e.Effect? then before
    else
      var (r, s) := Perform(limit, before.items, e.op);
      if r == e.result then Stack(s) else Illegal
  }

  ghost predicate Linearizable(limit: Limit, trace: seq<Event>) {
    && Replay(limit, trace).Stack?
    && forall who :: PhaseOf(trace, who) != Broken
  }

  lemma PhaseOfAppend(trace: seq<Event>, e: Event, who: int)
    ensures PhaseOf(trace + [e], who) == Advance(PhaseOf(trace, who), e, who)
  {
    assert (trace + [e])[..|trace|] == trace;
  }

  lemma ReplayAppend(limit: Limit, trace: seq<Event>, e: Event)
    ensures Replay(limit, trace + [e]) == ReplayStep(limit, Replay(limit, trace), e)
  {
    assert (trace + [e])[..|trace|] == trace;
  }

  /** What is recorded of a run: the specification stack and the trace. */
  datatype Record = Record(stack: seq<int>, trace: seq<Event>) {

    function Note(e: Event): Record {
      this.(trace := trace + [e])
    }

    /** The operation runs on the specification stack, here and now. */
    function Take(limit: Limit, who: int, op: Op): Record {
      var (r, s) := Perform(limit, stack, op);
      Record(s, trace + [Effect(who, op, r)])
    }

    function Last(): Event {
      if trace == [] then Retry(0) else trace[|trace| - 1]
    }

    /** The stack is what the effects leave. */
    ghost predicate Sound(limit: Limit) {
      Replay(limit, trace) == Stack(stack)
    }
  }

  const BLANK := Record([], [])

  /** A step of thread `mover` records at most one event, and that event is its own and does to
      the specification stack what the record says. */
  ghost predicate Follows(limit: Limit, r: Record, r': Record, mover: int) {
    || r' == r
    || (&& r'.trace == r.trace + [r'.Last()] && r'.Last().who == mover
        && ReplayStep(limit, Stack(r.stack), r'.Last()) == Stack(r'.stack))
  }

  lemma SoundAfter(limit: Limit, r: Record, r': Record, mover: int)
    requires Follows(limit, r, r', mover) && r.Sound(limit)
    ensures r'.Sound(limit)
  {
    if r' != r { ReplayAppend(limit, r.trace, r'.Last()); }
  }

  lemma PhaseAfter(limit: Limit, r: Record, r': Record, mover: int, who: int)
    requires Follows(limit, r, r', mover)
    ensures PhaseOf(r'.trace, who)
         == if r' == r then PhaseOf(r.trace, who) else Advance(PhaseOf(r.trace, who), r'.Last(), who)
    ensures who != mover ==> PhaseOf(r'.trace, who) == PhaseOf(r.trace, who)
  {
    if r' != r { PhaseOfAppend(r.trace, r'.Last(), who); }
  }

  /** Once a thread has gone wrong it stays wrong, so every prefix of a good trace is good. */
  lemma {:induction false} GoodPrefix(trace: seq<Event>, who: int, n: nat)
    requires n <= |trace| && PhaseOf(trace, who) != Broken
    ensures PhaseOf(trace[..n], who) != Broken
    decreases |trace|
  {
    if n < |trace| {
      GoodPrefix(trace[..|trace| - 1], who, n);
      assert trace[..|trace| - 1][..n] == trace[..n];
    } else {
      assert trace[..n] == trace;
    }
  }

  /** No event of `who` lies strictly between positions `i` and `j`, retries apart. */
  ghost predicate QuietBetween(trace: seq<Event>, who: int, i: int, j: int)
    requires j <= |trace|
  {
    forall k :: 0 <= k && i < k < j ==> trace[k].who != who || trace[k].Retry?
  }

  /** A pending operation was called and has had no effect yet; an applied one was called and
      then took effect once. */
  lemma {:induction false} PhaseMeaning(trace: seq<Event>, who: int)
    ensures PhaseOf(trace, who).Pending? ==>
      exists i :: 0 <= i < |trace| && trace[i] == Invoke(who, PhaseOf(trace, who).op)
        && QuietBetween(trace, who, i, |trace|)
    ensures PhaseOf(trace, who).Applied? ==>
      exists i, k :: 0 <= i < k < |trace| && trace[i] == Invoke(who, PhaseOf(trace, who).op)
        && trace[k] == Effect(who, PhaseOf(trace, who).op, PhaseOf(trace, who).result)
        && QuietBetween(trace, who, i, k) && QuietBetween(trace, who, k, |trace|)
  {
    if trace != [] {
      var n := |trace| - 1;
      var front := trace[..n];
      PhaseMeaning(front, who);
      var phase := PhaseOf(trace, who);
      if PhaseOf(front, who).Pending? {
        var i :| 0 <= i < n && front[i] == Invoke(who, PhaseOf(front, who).op) && QuietBetween(front, who, i, n);
        assert trace[i] == front[i] && QuietBetween(trace, who, i, n);
        if phase.Pending? {
          assert QuietBetween(trace, who, i, |trace|);
        } else if phase.Applied? {
          assert trace[n] == Effect(who, phase.op, phase.result) && QuietBetween(trace, who, n, |trace|);
        }
      } else if PhaseOf(front, who).Applied? && phase.Applied? {
        var i, k :| 0 <= i < k < n && front[i] == Invoke(who, phase.op)
          && front[k] == Effect(who, phase.op, phase.result)
          && QuietBetween(front, who, i, k) && QuietBetween(front, who, k, n);
        assert trace[i] == front[i] && trace[k] == front[k];
        assert QuietBetween(trace, who, i, k) && QuietBetween(trace, who, k, |trace|);
      } else if phase.Pending? {
        assert trace[n] == Invoke(who, phase.op) && QuietBetween(trace, who, n, |trace|);
      }
    }
  }

  lemma AppliedWhere(trace: seq<Event>, who: int) returns (i: nat, k: nat)
    requires PhaseOf(trace, who).Applied?
    ensures i < k < |trace| && trace[i] == Invoke(who, PhaseOf(trace, who).op)
    ensures trace[k] == Effect(who, PhaseOf(trace, who).op, PhaseOf(trace, who).result)
    ensures QuietBetween(trace, who, i, k) && QuietBetween(trace, who, k, |trace|)
  {
    PhaseMeaning(trace, who);
    i, k :| 0 <= i < k < |trace| && trace[i] == Invoke(who, PhaseOf(trace, who).op)
      && trace[k] == Effect(who, PhaseOf(trace, who).op, PhaseOf(trace, who).result)
      && QuietBetween(trace, who, i, k) && QuietBetween(trace, who, k, |trace|);
  }

  /** In a linearizable trace every answer was computed by exactly one effect of the same
      thread, after that thread's call and before its return: effects keep real-time order. */
  lemma EffectBetweenCallAndReturn(limit: Limit, trace: seq<Event>, j: nat)
    requires Linearizable(limit, trace) && j < |trace| && trace[j].Return?
    ensures exists i, k, op ::
              && 0 <= i < k < j
              && trace[i] == Invoke(trace[j].who, op) && trace[k] == Effect(trace[j].who, op, trace[j].result)
              && QuietBetween(trace, trace[j].who, i, k) && QuietBetween(trace, trace[j].who, k, j)
  {
    var who, front := trace[j].who, trace[..j];
    GoodPrefix(trace, who, j + 1);
    assert trace[..j + 1] == front + [trace[j]];
    PhaseOfAppend(front, trace[j], who);
    var i, k := AppliedWhere(front, who);
    assert trace[i] == front[i] && trace[k] == front[k];
    assert QuietBetween(trace, who, i, k) && QuietBetween(trace, who, k, j);
  }

  /** What an event pushes and what it pops: at most one value. */
  function PushedBy(e: Event): seq<int> {
    if e.Effect? && e.op.Push? && e.result == Done then [e.op.value] else []
  }

  function PoppedBy(e: Event): seq<int> {
    if e.Effect? && e.op.Pop? && e.result.Value? then [e.result.value] else []
  }

  /** The values pushed and the values popped, each in the order of the effects. */
  function Pushed(trace: seq<Event>): seq<int> {
    if trace == [] then [] else Pushed(trace[..|trace| - 1]) + PushedBy(trace[|trace| - 1])
  }

  function Popped(trace: seq<Event>): seq<int> {
    if trace == [] then [] else Popped(trace[..|trace| - 1]) + PoppedBy(trace[|trace| - 1])
  }

  lemma PushedAppend(trace: seq<Event>, e: Event)
    ensures Pushed(trace + [e]) == Pushed(trace) + PushedBy(e)
  {
    assert (trace + [e])[..|trace|] == trace;
  }

  function IsCall(e: Event): nat { if e.Invoke? then 1 else 0 }

  /** Operations called so far, by all threads. */
  function Calls(trace: seq<Event>): nat {
    if trace == [] then 0 else Calls(trace[..|trace| - 1]) + IsCall(trace[|trace| - 1])
  }

  lemma CallsAppend(trace: seq<Event>, e: Event)
    ensures Calls(trace + [e]) == Calls(trace) + IsCall(e)
  {
    assert (trace + [e])[..|trace|] == trace;
  }

  /** Nothing is lost, duplicated or invented: what was pushed is what was popped and what is left. */
  lemma {:induction false} Conservation(limit: Limit, trace: seq<Event>)
    requires Replay(limit, trace).Stack?
    ensures multiset(Pushed(trace)) == multiset(Popped(trace)) + multiset(Replay(limit, trace).items)
  {
    if trace != [] {
      var front, e := trace[..|trace| - 1], trace[|trace| - 1];
      Conservation(limit, front);
      assert trace == front + [e];
      ConservedByStep(limit, Pushed(front), Popped(front), Replay(limit, front).items, e);
    }
  }

  lemma ConservedCount(limit: Limit, trace: seq<Event>)
    requires Replay(limit, trace).Stack?
    ensures |Pushed(trace)| == |Popped(trace)| + |Replay(limit, trace).items|
  {
    Conservation(limit, trace);
    assert |multiset(Pushed(trace))| == |multiset(Popped(trace))| + |multiset(Replay(limit, trace).items)|;
  }

  lemma ConservedByStep(limit: Limit, pushed: seq<int>, popped: seq<int>, before: seq<int>, e: Event)
    requires multiset(pushed) == multiset(popped) + multiset(before)
    requires ReplayStep(limit, Stack(before), e).Stack?
    ensures multiset(pushed + PushedBy(e))
         == multiset(popped + PoppedBy(e)) + multiset(ReplayStep(limit, Stack(before), e).items)
  {
    if PushedBy(e) != [] {
      PushConserves(pushed, popped, before, e.op.value);
      assert popped + [] == popped;
    } else if PoppedBy(e) != [] {
      PopConserves(pushed, popped, before);
      assert pushed + [] == pushed;
    } else {
      assert pushed + [] == pushed && popped + [] == popped;
    }
  }

  lemma PushConserves(pushed: seq<int>, popped: seq<int>, before: seq<int>, v: int)
    requires multiset(pushed) == multiset(popped) + multiset(before)
    ensures multiset(pushed + [v]) == multiset(popped) + multiset(before + [v])
  {
    assert multiset(pushed + [v]) == multiset(pushed) + multiset{v};
    assert multiset(before + [v]) == multiset(before) + multiset{v};
  }

  lemma PopConserves(pushed: seq<int>, popped: seq<int>, before: seq<int>)
    requires multiset(pushed) == multiset(popped) + multiset(before) && before != []
    ensures multiset(pushed) == multiset(popped + [before[|before| - 1]]) + multiset(before[..|before| - 1])
  {
    var top, rest := before[|before| - 1], before[..|before| - 1];
    assert before == rest + [top];
    assert multiset(rest + [top]) == multiset(rest) + multiset{top};
    assert multiset(popped + [top]) == multiset(popped) + multiset{top};
  }

  // ----- What the calls and returns alone tell -----

  /** The calls and returns of a trace: what the callers see. */
  function Interface(trace: seq<Event>): seq<Event> {
    if trace == [] then []
    else
      var e := trace[|trace| - 1];
      Interface(trace[..|trace| - 1]) + if e.Invoke? || e.Return? then [e] else []
  }

  lemma {:induction false} InterfaceKeeps(trace: seq<Event>, e: Event)
    requires e.Invoke? || e.Return?
    ensures e in Interface(trace) <==> e in trace
  {
    if trace != [] {
      InterfaceKeeps(trace[..|trace| - 1], e);
      assert trace == trace[..|trace| - 1] + [trace[|trace| - 1]];
    }
  }

  lemma {:induction false} LegalPrefix(limit: Limit, trace: seq<Event>, n: nat)
    requires Replay(limit, trace).Stack? && n <= |trace|
    ensures Replay(limit, trace[..n]).Stack?
    decreases |trace|
  {
    if n < |trace| {
      LegalPrefix(limit, trace[..|trace| - 1], n);
      assert trace[..|trace| - 1][..n] == trace[..n];
    } else {
      assert trace[..n] == trace;
    }
  }

  /** Every effect was called for, and only a Pop answers a value. */
  lemma EffectWasCalled(limit: Limit, trace: seq<Event>, k: nat)
    requires Linearizable(limit, trace) && k < |trace| && trace[k].Effect?
    ensures Invoke(trace[k].who, trace[k].op) in trace
    ensures trace[k].result.Value? ==> trace[k].op == Pop
  {
    var who, front := trace[k].who, trace[..k];
    assert trace[..k + 1] == front + [trace[k]];
    GoodPrefix(trace, who, k + 1);
    PhaseOfAppend(front, trace[k], who);
    PhaseMeaning(front, who);
    LegalPrefix(limit, trace, k + 1);
    ReplayAppend(limit, front, trace[k]);
  }

  lemma {:induction false} PoppedAt(trace: seq<Event>, k: nat)
    requires k < |trace|
    ensures forall v :: v in PoppedBy(trace[k]) ==> v in Popped(trace)
  {
    if k < |trace| - 1 { PoppedAt(trace[..|trace| - 1], k); }
  }

  lemma {:induction false} PushedWhere(trace: seq<Event>, v: int) returns (k: nat)
    requires v in Pushed(trace)
    ensures k < |trace| && PushedBy(trace[k]) == [v]
  {
    if v in Pushed(trace[..|trace| - 1]) { k := PushedWhere(trace[..|trace| - 1], v); } else { k := |trace| - 1; }
  }

  lemma AnswerWasPopped(limit: Limit, trace: seq<Event>, j: nat)
    requires Linearizable(limit, trace) && j < |trace| && trace[j].Return? && trace[j].result.Value?
    ensures trace[j].result.value in Popped(trace)
  {
    EffectBetweenCallAndReturn(limit, trace, j);
    var k, op :| 0 <= k < j && trace[k] == Effect(trace[j].who, op, trace[j].result);
    EffectWasCalled(limit, trace, k);
    PoppedAt(trace, k);
  }

  /** Whatever a call returns in a linearizable trace, somebody has called Push with it. */
  lemma AnswersWerePushed(limit: Limit, trace: seq<Event>, j: nat)
    requires Linearizable(limit, trace) && j < |trace| && trace[j].Return? && trace[j].result.Value?
    ensures exists who :: Invoke(who, Push(trace[j].result.value)) in trace
  {
    var v := trace[j].result.value;
    AnswerWasPopped(limit, trace, j);
    Conservation(limit, trace);
    assert v in multiset(Popped(trace));
    assert v in multiset(Pushed(trace));
    var k := PushedWhere(trace, v);
    EffectWasCalled(limit, trace, k);
    assert Invoke(trace[k].who, Push(v)) in trace;
  }
}
