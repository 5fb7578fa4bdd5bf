/** Any number of threads that take two mutexes in the same order. */
module OrderedLocks {
  import opened Sums
  import Runs

  /** The guards are released in reverse order. */
  datatype Thread = TakeFirst | TakeSecond | DropSecond | DropFirst | Finished

  const FREE := -1

  /** Each mutex holds the number of its owner. */
  datatype State = State(first: int, second: int, threads: seq<Thread>)

  predicate Enabled(s: State, t: nat) {
    && t < |s.threads| && !s.threads[t].Finished?
    && (s.threads[t].TakeFirst? ==> s.first == FREE)
    && (s.threads[t].TakeSecond? ==> s.second == FREE)
  }

  function Apply(s: State, t: nat): State
    requires Enabled(s, t)
  {
    match s.threads[t]
    case TakeFirst => s.(first := t, threads := s.threads[t := TakeSecond])
    case TakeSecond => s.(second := t, threads := s.threads[t := DropSecond])
    case DropSecond => s.(second := FREE, threads := s.threads[t := DropFirst])
    case DropFirst => s.(first := FREE, threads := s.threads[t := Finished])
    case Finished => s
  }

  ghost predicate Init(s: State) {
    s.first == FREE && s.second == FREE && forall t :: 0 <= t < |s.threads| ==> s.threads[t] == TakeFirst
  }

  ghost predicate Next(s: State, s': State) {
    exists t :: Enabled(s, t) && s' == Apply(s, t)
  }

  ghost predicate Reachable(s: State) {
    Runs.Reachable(Init, Next, s)
  }

  predicate HoldsFirst(p: Thread) { p.TakeSecond? || p.DropSecond? || p.DropFirst? }

  ghost predicate Inv(s: State) {
    && (s.first == FREE || 0 <= s.first < |s.threads|)
    && (s.second == FREE || 0 <= s.second < |s.threads|)
    && forall t :: 0 <= t < |s.threads| ==>
         (HoldsFirst(s.threads[t]) <==> s.first == t) && (s.threads[t].DropSecond? <==> s.second == t)
  }

  lemma InvStep(s: State, t: nat, s': State)
    requires Inv(s) && Enabled(s, t) && s' == Apply(s, t)
    ensures Inv(s')
  {}

  lemma InvOfReachable(s: State)
    requires Reachable(s)
    ensures Inv(s)
  {
    forall s, s' | Inv(s) && Next(s, s')
      ensures Inv(s')
    {
      var t :| Enabled(s, t) && s' == Apply(s, t);
      InvStep(s, t, s');
    }
    Runs.InvariantOfReachable(Init, Next, Inv, s);
  }

  function Rank(): Thread -> int {
    (p: Thread) =>
      match p
      case TakeFirst => 4
      case TakeSecond => 3
      case DropSecond => 2
      case DropFirst => 1
      case Finished => 0
  }

  function Remaining(s: State): int {
    Sum(Rank(), s.threads)
  }

  /** No reachable state is a deadlock: one that cannot move has all threads finished and both
      mutexes free. */
  lemma NoDeadlock(s: State)
    requires Reachable(s) && forall t :: !Enabled(s, t)
    ensures forall t :: 0 <= t < |s.threads| ==> s.threads[t] == Finished
    ensures s.first == FREE && s.second == FREE && Remaining(s) == 0
  {
    InvOfReachable(s);
    assert 0 <= s.second < |s.threads| ==> s.threads[s.second].DropSecond?;
    assert 0 <= s.first < |s.threads| ==> HoldsFirst(s.threads[s.first]);
    forall t | 0 <= t < |s.threads|
      ensures !s.threads[t].DropSecond?
    {
      assert !Enabled(s, t);
    }
    forall t | 0 <= t < |s.threads|
      ensures !HoldsFirst(s.threads[t])
    {
      assert !Enabled(s, t);
    }
    forall t | 0 <= t < |s.threads|
      ensures s.threads[t] == Finished
    {
      assert !Enabled(s, t);
    }
    SumConstant(Rank(), s.threads, 0);
  }

  /** After k steps exactly k of the four steps of each thread are done, so every maximal run
      ends, after four steps for each thread. */
  lemma {:induction false} StepsAreCounted(run: seq<State>, k: nat)
    requires Runs.IsRun(Init, Next, run) && k < |run|
    ensures k + Remaining(run[k]) == 4 * |run[0].threads| && Remaining(run[k]) >= 0
  {
    SumNonNegative(Rank(), run[k].threads);
    if k == 0 {
      SumConstant(Rank(), run[0].threads, 4);
    } else {
      StepsAreCounted(run, k - 1);
      assert Next(run[k - 1], run[k]);
      var t: nat :| Enabled(run[k - 1], t) && run[k] == Apply(run[k - 1], t);
      SumUpdate(Rank(), run[k - 1].threads, t, run[k].threads[t]);
      assert run[k].threads == run[k - 1].threads[t := run[k].threads[t]];
    }
  }

  lemma AnyNumberOfThreads(n: nat) returns (s: State)
    ensures Init(s) && |s.threads| == n
  {
    s := State(FREE, FREE, seq(n, _ => TakeFirst));
  }
}
