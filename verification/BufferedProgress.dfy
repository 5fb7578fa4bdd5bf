/** No thread of the array stack ever blocks another, for any number of threads: runs are bounded by
    the calls made, and every call can and must return. */
module BufferedProgress {
  import opened StackSpec
  import opened Linearizability
  import opened BufferedStack
  import opened Sums
  import Runs

  predicate Stale(m: Machine, p: Thread) {
    (p.PushCas? || p.PopCas?) && p.top != m.head
  }

  /** Steps left to the current operation when nobody interferes. Until its compare-exchange has
      succeeded it also carries what that may cost: two steps for each thread. */
  function Rank(m: Machine, p: Thread): int {
    var cost := 2 * |m.threads|;
    match p
    case Idle => 0
    case PushCalled(_) => 4 + cost
    case PopCalled => 4 + cost
    case PushCas(_, _) => cost + if Stale(m, p) then 5 else 3
    case PopCas(_) => cost + if Stale(m, p) then 5 else 3
    case PushSlot(_, _) => 2
    case PopSlot(_) => 2
    case Answer(_) => 1
  }

  function Ranks(m: Machine): int -> int {
    t => if 0 <= t < |m.threads| then Rank(m, m.threads[t]) else 0
  }

  function Total(m: Machine): int {
    Sum(Ranks(m), Numbers(|m.threads|))
  }

  /** A step that is not a spurious failure. */
  predicate Plain(a: Step) { a.Cas? ==> !a.spurious }

  function Credit(m: Machine, a: Step): int { if a.Call? then 5 + 2 * |m.threads| else 0 }

  function Spoils(m: Machine, m': Machine): int { if m'.head != m.head then 2 else 0 }

  lemma MoversRank(m: Machine, a: Step, m': Machine)
    requires Enabled(m, a) && Plain(a) && m' == Apply(m, a)
    ensures |m'.threads| == |m.threads|
    ensures Rank(m', m'.threads[a.t]) + Spoils(m, m') * |m.threads| < Rank(m, m.threads[a.t]) + Credit(m, a)
  {}

  lemma OthersRank(m: Machine, a: Step, m': Machine, t: nat)
    requires Enabled(m, a) && m' == Apply(m, a) && t < |m.threads| && t != a.t
    ensures |m'.threads| == |m.threads| && Rank(m', m'.threads[t]) <= Rank(m, m.threads[t]) + Spoils(m, m')
  {}

  lemma TotalFalls(m: Machine, a: Step, m': Machine)
    requires Enabled(m, a) && Plain(a) && m' == Apply(m, a)
    ensures |m'.threads| == |m.threads| && Total(m') < Total(m) + Credit(m, a)
  {
    var numbers, c := Numbers(|m.threads|), Spoils(m, m');
    MoversRank(m, a, m');
    forall t | 0 <= t < |numbers| && t != a.t
      ensures Ranks(m')(numbers[t]) <= Ranks(m)(numbers[t]) + c
    {
      OthersRank(m, a, m', t);
    }
    SumShiftButOne(Ranks(m), Ranks(m'), numbers, a.t, c);
    Distributes(c, |numbers| - 1, 1);
  }

  lemma TotalNonNegative(m: Machine)
    ensures Total(m) >= 0
  {
    SumNonNegative(Ranks(m), Numbers(|m.threads|));
  }

  // ----- Runs are bounded by the calls made -----

  ghost predicate PlainNext(s: State, s': State) {
    exists a :: Enabled(s.m, a) && Plain(a) && s' == Do(s, a)
  }

  lemma CallsOfStep(s: State, a: Step, s': State)
    requires Enabled(s.m, a) && s' == Do(s, a)
    ensures Calls(s'.h.rec.trace) == Calls(s.h.rec.trace) + if a.Call? then 1 else 0
  {
    OneEvent(s, a, s');
    CallIsRecorded(s, a, s');
    if s'.h.rec != s.h.rec { CallsAppend(s.h.rec.trace, s'.h.rec.Last()); }
  }

  lemma CallIsRecorded(s: State, a: Step, s': State)
    requires Enabled(s.m, a) && s' == Do(s, a)
    ensures s'.h.rec != s.h.rec && s'.h.rec.Last().Invoke? <==> a.Call?
  {}

  ghost predicate Bounded(s: State, k: nat) {
    k + Total(s.m) <= (5 + 2 * |s.m.threads|) * Calls(s.h.rec.trace)
  }

  lemma BoundedStep(s: State, s': State, k: nat)
    requires Bounded(s, k) && PlainNext(s, s')
    ensures Bounded(s', k + 1) && |s'.m.threads| == |s.m.threads|
  {
    var a :| Enabled(s.m, a) && Plain(a) && s' == Do(s, a);
    TotalFalls(s.m, a, s'.m);
    CallsOfStep(s, a, s');
    Distributes(5 + 2 * |s.m.threads|, Calls(s.h.rec.trace), 1);
  }

  lemma {:induction false} RunIsBounded(run: seq<State>, k: nat)
    requires Runs.IsRun(Init, PlainNext, run) && k < |run|
    ensures Bounded(run[k], k) && |run[k].m.threads| == |run[0].m.threads|
  {
    if k == 0 {
      SumConstant(Ranks(run[0].m), Numbers(|run[0].m.threads|), 0);
    } else {
      RunIsBounded(run, k - 1);
      assert PlainNext(run[k - 1], run[k]);
      BoundedStep(run[k - 1], run[k], k - 1);
    }
  }

  /** Lock-freedom with a bound: with T threads, a run in which n operations have been called takes
      at most (5 + 2T) n steps, all retries included, if no compare-exchange fails spuriously. */
  lemma StepsAreBoundedByCalls(run: seq<State>, k: nat)
    requires Runs.IsRun(Init, PlainNext, run) && k < |run|
    ensures k <= (5 + 2 * |run[0].m.threads|) * Calls(run[k].h.rec.trace)
  {
    RunIsBounded(run, k);
    TotalNonNegative(run[k].m);
  }

  // ----- Every call returns -----

  ghost predicate AtRest(s: State) {
    forall t :: 0 <= t < |s.m.threads| ==> s.m.threads[t] == Idle
  }

  /** The next step of an operation. */
  function Onward(m: Machine, t: nat): Step
    requires t < |m.threads| && m.threads[t] != Idle
  {
    match m.threads[t]
    case PushCalled(_) => Load(t)
    case PopCalled => Load(t)
    case PushCas(_, _) => Cas(t, false)
    case PopCas(_) => Cas(t, false)
    case PushSlot(_, _) => Slot(t)
    case PopSlot(_) => Slot(t)
    case Answer(_) => Leave(t)
  }

  /** A step of an operation under way that is not a spurious failure. */
  ghost predicate CompletingNext(s: State, s': State) {
    exists a :: Enabled(s.m, a) && Plain(a) && !a.Call? && s' == Do(s, a)
  }

  ghost predicate Stuck(s: State) {
    forall s' :: !CompletingNext(s, s')
  }

  /** A thread inside an operation always has a step to go on with, whatever the others do. */
  lemma NeverBlocked(m: Machine, t: nat)
    requires t < |m.threads| && m.threads[t] != Idle
    ensures exists a :: Enabled(m, a) && Plain(a) && !a.Call? && a.t == t
  {
    var a := Onward(m, t);
    assert Enabled(m, a) && Plain(a) && !a.Call? && a.t == t;
  }

  lemma SomeoneCompletes(s: State)
    requires !AtRest(s)
    ensures exists s' :: CompletingNext(s, s')
  {
    var t :| 0 <= t < |s.m.threads| && s.m.threads[t] != Idle;
    NeverBlocked(s.m, t);
    var a :| Enabled(s.m, a) && Plain(a) && !a.Call? && a.t == t;
    assert CompletingNext(s, Do(s, a));
  }

  lemma CompletingStep(s: State, s': State)
    requires CompletingNext(s, s')
    ensures Total(s'.m) < Total(s.m)
  {
    var a :| Enabled(s.m, a) && Plain(a) && !a.Call? && s' == Do(s, a);
    TotalFalls(s.m, a, s'.m);
  }

  /** Whatever the threads have done so far, all calls under way can return. */
  lemma CallsCanReturn(s: State)
    ensures Runs.CanReach(CompletingNext, AtRest, s)
  {
    forall s: State
      ensures Total(s.m) >= 0
      ensures !AtRest(s) ==> exists s' :: CompletingNext(s, s') && Total(s'.m) < Total(s.m)
    {
      TotalNonNegative(s.m);
      if !AtRest(s) {
        SomeoneCompletes(s);
        var s' :| CompletingNext(s, s');
        CompletingStep(s, s');
      }
    }
    Runs.GoalStaysInReach(CompletingNext, (s: State) => true, AtRest, (s: State) => Total(s.m), s);
  }

  /** And they must: once no new call is made, T threads take at most T (5 + 2T) further steps,
      spurious failures apart, and only stop with all calls returned. */
  lemma CallsMustReturn(path: seq<State>)
    requires Runs.IsPath(CompletingNext, path)
    ensures |path| - 1 <= (5 + 2 * |path[0].m.threads|) * |path[0].m.threads|
    ensures Stuck(path[|path| - 1]) ==> AtRest(path[|path| - 1])
  {
    var m, last := path[0].m, path[|path| - 1];
    forall s, s' | CompletingNext(s, s')
      ensures Total(s'.m) < Total(s.m)
    {
      CompletingStep(s, s');
    }
    Runs.BoundOfPath(CompletingNext, (s: State) => true, (s: State) => Total(s.m), path, |path| - 1);
    TotalNonNegative(last.m);
    SumAtMost(Ranks(m), Numbers(|m.threads|), 5 + 2 * |m.threads|);
    if !AtRest(last) { SomeoneCompletes(last); }
  }

  // ----- What may happen -----

  /** An idle thread may call any operation at any time. */
  lemma AnyoneMayCall(s: State, t: nat, op: Op)
    requires t < |s.m.threads| && s.m.threads[t] == Idle
    ensures Enabled(s.m, Call(t, op)) && Do(s, Call(t, op)).h.rec.trace == s.h.rec.trace + [Invoke(t, op)]
  {}

  /** A weak compare-exchange may fail although the index is as expected. */
  lemma SpuriousFailure(m: Machine, t: nat)
    requires t < |m.threads| && (m.threads[t].PushCas? || m.threads[t].PopCas?)
    ensures Enabled(m, Cas(t, true)) && Apply(m, Cas(t, true)).head == m.head
  {}

  /** Every capacity that an int can index and every number of threads have an initial state. */
  lemma AnyCapacity(capacity: nat, n: nat) returns (s: State)
    requires capacity <= 2147483647
    ensures Init(s) && |s.m.buffer| == capacity && |s.m.threads| == n
  {
    s := State(Machine(0, seq(capacity, _ => 0), seq(n, _ => Idle), false),
               History(BLANK, seq(capacity, _ => []), false, true, false));
  }
}
