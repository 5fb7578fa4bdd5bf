/** The compare-exchange loop that takes 100 off a shared number, for any number of threads. */
module CasDecrement {
  import opened Sums
  import Runs

  datatype Thread = Start | Loop(expected: int) | Finished

  datatype Machine = Machine(x: int, threads: seq<Thread>)

  datatype Step = Load(t: nat) | Cas(t: nat, spurious: bool)

  predicate Enabled(m: Machine, a: Step) {
    a.t < |m.threads| && if a.Load? then m.threads[a.t].Start? else m.threads[a.t].Loop?
  }

  /** The loop test on a freshly loaded value. */
  function Test(expected: int): Thread {
    if expected > 0 then Loop(expected) else Finished
  }

  predicate Wins(m: Machine, a: Step)
    requires Enabled(m, a) && a.Cas?
  {
    !a.spurious && m.x == m.threads[a.t].expected
  }

  /** `expected` is overwritten only by a failure, so after a success the loop goes round once more. */
  function Apply(m: Machine, a: Step): Machine
    requires Enabled(m, a)
  {
    if a.Load? then m.(threads := m.threads[a.t := Test(m.x)])
    else if Wins(m, a) then m.(x := m.threads[a.t].expected - 100)
    else m.(threads := m.threads[a.t := Test(m.x)])
  }

  datatype State = State(start: int, m: Machine, wins: nat, spurious: nat)

  function Do(s: State, a: Step): State
    requires Enabled(s.m, a)
  {
    State(s.start, Apply(s.m, a),
          if a.Cas? && Wins(s.m, a) then s.wins + 1 else s.wins,
          if a.Cas? && a.spurious && s.m.x == s.m.threads[a.t].expected then s.spurious + 1 else s.spurious)
  }

  ghost predicate Init(s: State) {
    && s.start >= 0 && s.m.x == s.start && s.wins == 0 && s.spurious == 0
    && forall t :: 0 <= t < |s.m.threads| ==> s.m.threads[t] == Start
  }

  ghost predicate Next(s: State, s': State) {
    exists a :: Enabled(s.m, a) && s' == Do(s, a)
  }

  ghost predicate Reachable(s: State) {
    Runs.Reachable(Init, Next, s)
  }

  ghost predicate Fits(p: Thread, x: int) {
    (p.Loop? ==> p.expected > 0 && p.expected >= x) && (p.Finished? ==> x <= 0)
  }

  ghost predicate Inv(s: State) {
    && s.start >= 0 && s.m.x == s.start - 100 * s.wins && -100 < s.m.x <= s.start
    && forall t :: 0 <= t < |s.m.threads| ==> Fits(s.m.threads[t], s.m.x)
  }

  lemma InvStep(s: State, a: Step, s': State)
    requires Inv(s) && Enabled(s.m, a) && s' == Do(s, a)
    ensures Inv(s') && s'.m.x <= s.m.x
  {
    assert Fits(s.m.threads[a.t], s.m.x);
  }

  lemma InvOfReachable(s: State)
    requires Reachable(s)
    ensures Inv(s)
  {
    forall s, s' | Inv(s) && Next(s, s')
      ensures Inv(s')
    {
      var a :| Enabled(s.m, a) && s' == Do(s, a);
      InvStep(s, a, s');
    }
    Runs.InvariantOfReachable(Init, Next, Inv, s);
  }

  function Expected(): Thread -> int {
    (p: Thread) => if p.Loop? then p.expected else 0
  }

  /** Each compare-exchange that does not fail spuriously lowers the sum of x and of all the
      expected values, as long as the loop goes on; x itself never grows. */
  lemma CasLowersSum(s: State, a: Step)
    requires Reachable(s) && Enabled(s.m, a) && a.Cas? && (Wins(s.m, a) || s.m.x != s.m.threads[a.t].expected)
    ensures Apply(s.m, a).x <= s.m.x
    ensures Apply(s.m, a).x + Sum(Expected(), Apply(s.m, a).threads) < s.m.x + Sum(Expected(), s.m.threads)
  {
    InvOfReachable(s);
    assert Fits(s.m.threads[a.t], s.m.x);
    if !Wins(s.m, a) { SumUpdate(Expected(), s.m.threads, a.t, Test(s.m.x)); }
  }

  function Rank(start: int): Thread -> int {
    (p: Thread) =>
      match p
      case Start => start + 101
      case Loop(e) => e + 100
      case Finished => 0
  }

  function Work(s: State): int {
    s.m.x + 100 + Sum(Rank(s.start), s.m.threads)
  }

  function Measure(s: State): int {
    Work(s) - s.spurious
  }

  lemma MeasureFalls(s: State, a: Step, s': State)
    requires Inv(s) && Enabled(s.m, a) && s' == Do(s, a)
    ensures Measure(s') < Measure(s)
  {
    assert Fits(s.m.threads[a.t], s.m.x);
    SumUpdate(Rank(s.start), s.m.threads, a.t, s'.m.threads[a.t]);
    assert s'.m.threads == s.m.threads[a.t := s'.m.threads[a.t]];
  }

  /** At most start + 100 steps of winning and start + 101 more for each thread, spurious failures apart. */
  lemma RunsAreBounded(run: seq<State>, k: nat)
    requires Runs.IsRun(Init, Next, run) && k < |run|
    ensures k <= run[0].start + 100 + |run[0].m.threads| * (run[0].start + 101) + run[k].spurious
  {
    forall s, s' | Runs.Reachable(Init, Next, s) && Next(s, s')
      ensures Measure(s') < Measure(s)
    {
      InvOfReachable(s);
      var a :| Enabled(s.m, a) && s' == Do(s, a);
      MeasureFalls(s, a, s');
    }
    Runs.BoundOfRun(Init, Next, Measure, run, k);
    SumConstant(Rank(run[0].start), run[0].m.threads, run[0].start + 101);
    Runs.ReachableInRun(Init, Next, run, k);
    InvOfReachable(run[k]);
    WorkNonNegative(run[k]);
  }

  lemma WorkNonNegative(s: State)
    requires Inv(s)
    ensures Work(s) >= 0
  {
    forall p | p in s.m.threads
      ensures Rank(s.start)(p) >= 0
    {
      var t :| 0 <= t < |s.m.threads| && s.m.threads[t] == p;
      assert Fits(s.m.threads[t], s.m.x);
    }
    SumNonNegative(Rank(s.start), s.m.threads);
  }

  /** When all of one or more threads have finished, exactly the number of hundreds in the
      start, rounded up, have been taken off; from 100 that leaves 0. */
  lemma FinalValue(s: State)
    requires Reachable(s) && |s.m.threads| >= 1 && AllFinished(s)
    ensures s.wins == (s.start + 99) / 100 && s.m.x == s.start - 100 * s.wins
    ensures s.m.x % 100 == s.start % 100 && -100 < s.m.x <= 0
    ensures s.start == 100 ==> s.m.x == 0
  {
    InvOfReachable(s);
    assert Fits(s.m.threads[0], s.m.x);
  }

  // ----- The loops can end, and without spurious failures they do -----

  ghost predicate AllFinished(s: State) {
    forall t :: 0 <= t < |s.m.threads| ==> s.m.threads[t] == Finished
  }

  predicate Plain(a: Step) { a.Cas? ==> !a.spurious }

  /** A step that is not a spurious failure. */
  ghost predicate PlainNext(s: State, s': State) {
    exists a :: Enabled(s.m, a) && Plain(a) && s' == Do(s, a)
  }

  /** The next step of an unfinished thread. */
  function Onward(s: State, t: nat): Step
    requires t < |s.m.threads|
  {
    if s.m.threads[t].Start? then Load(t) else Cas(t, false)
  }

  lemma OnwardAdvances(s: State, t: nat)
    requires Inv(s) && t < |s.m.threads| && s.m.threads[t] != Finished
    ensures Enabled(s.m, Onward(s, t)) && PlainNext(s, Do(s, Onward(s, t)))
    ensures Work(Do(s, Onward(s, t))) < Work(s)
  {
    MeasureFalls(s, Onward(s, t), Do(s, Onward(s, t)));
  }

  /** However the threads have interleaved and failed, all of them can still finish, without any
      further spurious failure. */
  lemma CanAlwaysFinish(s: State)
    requires Reachable(s)
    ensures Runs.CanReach(PlainNext, AllFinished, s)
  {
    InvOfReachable(s);
    forall s, s' | Inv(s) && PlainNext(s, s')
      ensures Inv(s')
    {
      var a :| Enabled(s.m, a) && Plain(a) && s' == Do(s, a);
      InvStep(s, a, s');
    }
    forall s | Inv(s)
      ensures Work(s) >= 0
      ensures !AllFinished(s) ==> exists s' :: PlainNext(s, s') && Work(s') < Work(s)
    {
      WorkNonNegative(s);
      if !AllFinished(s) {
        var t :| 0 <= t < |s.m.threads| && s.m.threads[t] != Finished;
        OnwardAdvances(s, t);
      }
    }
    Runs.GoalStaysInReach(PlainNext, Inv, AllFinished, Work, s);
  }

  /** Without spurious failures every run is finite, and it can only end with all threads finished. */
  lemma PlainRunsEnd(run: seq<State>, k: nat)
    requires Runs.IsRun(Init, PlainNext, run) && k < |run|
    ensures run[k].spurious == 0
    ensures k <= run[0].start + 100 + |run[0].m.threads| * (run[0].start + 101)
    ensures (forall s' :: !PlainNext(run[k], s')) ==> AllFinished(run[k])
  {
    Runs.InvariantOfRun(Init, PlainNext, (s: State) => s.spurious == 0, run, k);
    Runs.RunOfLarger(Init, PlainNext, Next, run);
    RunsAreBounded(run, k);
    Runs.ReachableInRun(Init, Next, run, k);
    StuckMeansFinished(run[k]);
  }

  lemma StuckMeansFinished(s: State)
    requires Reachable(s)
    ensures (forall s' :: !PlainNext(s, s')) ==> AllFinished(s)
  {
    InvOfReachable(s);
    if t :| 0 <= t < |s.m.threads| && s.m.threads[t] != Finished {
      OnwardAdvances(s, t);
    }
  }

  /** For every start and every number of threads some run ends, with all hundreds taken off; with
      the two threads of the source 100 becomes 0. */
  lemma EveryProgramCanEnd(start: nat, n: nat) returns (run: seq<State>)
    requires n >= 1
    ensures Runs.IsRun(Init, Next, run) && run[0].m.x == start && |run[0].m.threads| == n
    ensures AllFinished(run[|run| - 1]) && run[|run| - 1].m.x == start - 100 * ((start + 99) / 100)
  {
    var s := State(start, Machine(start, seq(n, _ => Start)), 0, 0);
    Runs.ReachableInitially(Init, Next, s);
    CanAlwaysFinish(s);
    run :| Runs.IsPath(PlainNext, run) && run[0] == s && AllFinished(run[|run| - 1]);
    assert Runs.IsRun(Init, PlainNext, run);
    Runs.RunOfLarger(Init, PlainNext, Next, run);
    Runs.ReachableInRun(Init, Next, run, |run| - 1);
    SameProgram(run, |run| - 1);
    FinalValue(run[|run| - 1]);
  }

  /** A success does not tell the loop that it is done: `expected` stays what it was, so the next
      compare-exchange of the thread fails, and only that failure shows it x. */
  lemma SuccessGoesRound(m: Machine, t: nat)
    requires t < |m.threads| && m.threads[t].Loop? && m.x == m.threads[t].expected
    ensures var m' := Apply(m, Cas(t, false));
            && m'.x == m.x - 100 && m'.threads == m.threads
            && Apply(m', Cas(t, false)) == m'.(threads := m.threads[t := Test(m.x - 100)])
  {}

  /** A weak compare-exchange may fail although x has the expected value. */
  lemma SpuriousFailure(m: Machine, t: nat)
    requires t < |m.threads| && m.threads[t].Loop?
    ensures Enabled(m, Cas(t, true)) && Apply(m, Cas(t, true)).x == m.x
  {}

  lemma SameProgram(run: seq<State>, k: nat)
    requires Runs.IsRun(Init, Next, run) && k < |run|
    ensures run[k].start == run[0].start && |run[k].m.threads| == |run[0].m.threads|
  {
    var init := (s: State) => s == run[0];
    assert Runs.IsRun(init, Next, run);
    Runs.InvariantOfRun(init, Next,
      (s: State) => s.start == run[0].start && |s.m.threads| == |run[0].m.threads|, run, k);
  }
}
