/** A counter that is incremented by a plain read and a plain write under a spinlock. */
module SpinlockCounter {
  import opened Sums
  import Runs

  datatype Pc = Spin | ReadX | WriteX(seen: int) | Unlock | Finished

  /** `i` is the loop variable. */
  datatype Thread = Thread(i: nat, pc: Pc)

  /** `rounds` is the number of iterations of each thread. */
  datatype State = State(rounds: nat, locked: bool, x: int, threads: seq<Thread>)

  /** A step belongs to one thread and is determined by its program counter. */
  predicate Enabled(s: State, t: nat) {
    t < |s.threads| && !s.threads[t].pc.Finished?
  }

  function Head(rounds: nat, i: nat): Pc {
    if i < rounds then Spin else Finished
  }

  function Apply(s: State, t: nat): State
    requires Enabled(s, t)
  {
    var p := s.threads[t];
    match p.pc
    case Spin => s.(locked := true, threads := s.threads[t := p.(pc := if s.locked then Spin else ReadX)])
    case ReadX => s.(threads := s.threads[t := p.(pc := WriteX(s.x))])
    case WriteX(seen) => s.(x := seen + 1, threads := s.threads[t := p.(pc := Unlock)])
    case Unlock => s.(locked := false, threads := s.threads[t := Thread(p.i + 1, Head(s.rounds, p.i + 1))])
    case Finished => s
  }

  ghost predicate Init(s: State) {
    !s.locked && s.x == 0 && forall t :: 0 <= t < |s.threads| ==> s.threads[t] == Thread(0, Head(s.rounds, 0))
  }

  ghost predicate Next(s: State, s': State) {
    exists t :: Enabled(s, t) && s' == Apply(s, t)
  }

  ghost predicate Reachable(s: State) {
    Runs.Reachable(Init, Next, s)
  }

  predicate Critical(p: Thread) { p.pc.ReadX? || p.pc.WriteX? || p.pc.Unlock? }

  /** The increments the thread has written. */
  function Written(): Thread -> int {
    (p: Thread) => if p.pc.Unlock? then p.i + 1 else p.i
  }

  ghost predicate Exclusive(s: State) {
    && (forall t, u :: 0 <= t < u < |s.threads| ==> !(Critical(s.threads[t]) && Critical(s.threads[u])))
    && (s.locked <==> exists t :: 0 <= t < |s.threads| && Critical(s.threads[t]))
  }

  ghost predicate Local(p: Thread, rounds: nat, x: int) {
    && (if p.pc.Finished? then p.i == rounds else p.i < rounds)
    && (p.pc.WriteX? ==> p.pc.seen == x)
  }

  ghost predicate Inv(s: State) {
    && Exclusive(s)
    && s.x == Sum(Written(), s.threads)
    && forall t :: 0 <= t < |s.threads| ==> Local(s.threads[t], s.rounds, s.x)
  }

  lemma ExclusiveStep(s: State, t: nat, s': State)
    requires Exclusive(s) && Enabled(s, t) && s' == Apply(s, t)
    ensures Exclusive(s')
  {
    assert forall u :: 0 <= u < |s.threads| && u != t ==> s'.threads[u] == s.threads[u];
    if s'.locked {
      if s.threads[t].pc.Spin? && !s.locked {
        assert Critical(s'.threads[t]);
      } else {
        var u :| 0 <= u < |s.threads| && Critical(s.threads[u]);
        assert Critical(s'.threads[u]);
      }
    }
  }

  lemma InvStep(s: State, t: nat, s': State)
    requires Inv(s) && Enabled(s, t) && s' == Apply(s, t)
    ensures Inv(s')
  {
    ExclusiveStep(s, t, s');
    SumUpdate(Written(), s.threads, t, s'.threads[t]);
    assert s'.threads == s.threads[t := s'.threads[t]];
    assert Local(s.threads[t], s.rounds, s.x);
    forall u | 0 <= u < |s'.threads|
      ensures Local(s'.threads[u], s'.rounds, s'.x)
    {
      assert Local(s.threads[u], s.rounds, s.x);
    }
  }

  lemma InvInitially(s: State)
    requires Init(s)
    ensures Inv(s)
  {
    SumConstant(Written(), s.threads, 0);
  }

  lemma InvOfReachable(s: State)
    requires Reachable(s)
    ensures Inv(s)
  {
    forall s | Init(s)
      ensures Inv(s)
    {
      InvInitially(s);
    }
    forall s, s' | Inv(s) && Next(s, s')
      ensures Inv(s')
    {
      var t :| Enabled(s, t) && s' == Apply(s, t);
      InvStep(s, t, s');
    }
    Runs.InvariantOfReachable(Init, Next, Inv, s);
  }

  /** At most one thread is between lock and unlock, so the plain accesses to x never race. */
  lemma OneInCriticalSection(s: State, t: nat, u: nat)
    requires Reachable(s) && t < |s.threads| && u < |s.threads| && Critical(s.threads[t]) && Critical(s.threads[u])
    ensures t == u && s.locked
  {
    InvOfReachable(s);
  }

  /** No increment is ever lost: in every state the counter is the number of increments written,
      and when all threads have finished it is the number of threads times the number of rounds. */
  lemma NoIncrementLost(s: State)
    requires Reachable(s)
    ensures s.x == Sum(Written(), s.threads)
    ensures AllFinished(s) ==> s.x == |s.threads| * s.rounds
  {
    InvOfReachable(s);
    if AllFinished(s) {
      assert forall t :: 0 <= t < |s.threads| ==> Local(s.threads[t], s.rounds, s.x);
      SumConstant(Written(), s.threads, s.rounds);
    }
  }

  // ----- Spinning does not block the others -----

  ghost predicate AllFinished(s: State) {
    forall t :: 0 <= t < |s.threads| ==> s.threads[t].pc == Finished
  }

  function Rank(rounds: nat): Thread -> int {
    (p: Thread) =>
      4 * (rounds - p.i) -
      match p.pc
      case Spin => 0
      case ReadX => 1
      case WriteX(_) => 2
      case Unlock => 3
      case Finished => 0
  }

  function Work(s: State): int {
    Sum(Rank(s.rounds), s.threads)
  }

  lemma Advances(s: State, t: nat, s': State)
    requires Enabled(s, t) && s' == Apply(s, t) && (s.threads[t].pc.Spin? ==> !s.locked)
    requires Local(s.threads[t], s.rounds, s.x)
    ensures Work(s') < Work(s)
  {
    SumUpdate(Rank(s.rounds), s.threads, t, s'.threads[t]);
    assert s'.threads == s.threads[t := s'.threads[t]];
  }

  lemma SomeoneCanAdvance(s: State) returns (s': State)
    requires Inv(s) && !AllFinished(s)
    ensures Next(s, s') && Work(s') < Work(s)
  {
    var t :| 0 <= t < |s.threads| && s.threads[t].pc != Finished;
    if s.locked {
      t :| 0 <= t < |s.threads| && Critical(s.threads[t]);
    }
    s' := Apply(s, t);
    assert Next(s, s') && Local(s.threads[t], s.rounds, s.x);
    Advances(s, t, s');
  }

  lemma WorkNonNegative(s: State)
    requires Inv(s)
    ensures Work(s) >= 0
  {
    forall p | p in s.threads
      ensures Rank(s.rounds)(p) >= 0
    {
      var t :| 0 <= t < |s.threads| && s.threads[t] == p;
      assert Local(s.threads[t], s.rounds, s.x);
    }
    SumNonNegative(Rank(s.rounds), s.threads);
  }

  /** However the threads have interleaved, all of them can still finish. */
  lemma CanAlwaysFinish(s: State)
    requires Reachable(s)
    ensures Runs.CanReach(Next, AllFinished, s)
  {
    InvOfReachable(s);
    forall s, s' | Inv(s) && Next(s, s')
      ensures Inv(s')
    {
      var t :| Enabled(s, t) && s' == Apply(s, t);
      InvStep(s, t, s');
    }
    forall s | Inv(s)
      ensures Work(s) >= 0
      ensures !AllFinished(s) ==> exists s' :: Next(s, s') && Work(s') < Work(s)
    {
      WorkNonNegative(s);
      if !AllFinished(s) {
        var s' := SomeoneCanAdvance(s);
      }
    }
    Runs.GoalStaysInReach(Next, Inv, AllFinished, Work, s);
  }

  /** For every number of threads and rounds some run ends, with threads times rounds in the counter. */
  lemma EveryProgramCanEnd(n: nat, rounds: nat) returns (run: seq<State>)
    ensures Runs.IsRun(Init, Next, run) && |run[0].threads| == n && run[0].rounds == rounds
    ensures AllFinished(run[|run| - 1]) && run[|run| - 1].x == n * rounds
  {
    var s := State(rounds, false, 0, seq(n, _ => Thread(0, Head(rounds, 0))));
    Runs.ReachableInitially(Init, Next, s);
    CanAlwaysFinish(s);
    run :| Runs.IsPath(Next, run) && run[0] == s && AllFinished(run[|run| - 1]);
    Runs.ReachableInRun(Init, Next, run, |run| - 1);
    SameProgram(run, |run| - 1);
    NoIncrementLost(run[|run| - 1]);
  }

  lemma SameProgram(run: seq<State>, k: nat)
    requires Runs.IsRun(Init, Next, run) && k < |run|
    ensures run[k].rounds == run[0].rounds && |run[k].threads| == |run[0].threads|
  {
    var init := (s: State) => s == run[0];
    assert Runs.IsRun(init, Next, run);
    Runs.InvariantOfRun(init, Next,
      (s: State) => s.rounds == run[0].rounds && |s.threads| == |run[0].threads|, run, k);
  }
}
