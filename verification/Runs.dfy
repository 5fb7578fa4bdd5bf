/** Runs of a transition system given by an initial-state predicate and a step relation.

    Every concurrent program of this project is such a system: one step is one atomic
    operation, one plain memory access or one system call of one thread. */
module Runs {

  ghost predicate IsPath<S(!new)>(next: (S, S) -> bool, path: seq<S>) {
    |path| > 0 && forall i, j :: 0 <= i && j == i + 1 && j < |path| ==> next(path[i], path[j])
  }

  ghost predicate IsRun<S(!new)>(init: S -> bool, next: (S, S) -> bool, run: seq<S>) {
    IsPath(next, run) && init(run[0])
  }

  ghost predicate Reachable<S(!new)>(init: S -> bool, next: (S, S) -> bool, s: S) {
    exists run: seq<S> :: IsRun(init, next, run) && run[|run| - 1] == s
  }

  /** What holds initially and is kept by every step holds in every state of every run. */
  lemma {:induction false} InvariantOfRun<S(!new)>(init: S -> bool, next: (S, S) -> bool, inv: S -> bool,
                                                   run: seq<S>, k: nat)
    requires IsRun(init, next, run) && k < |run|
    requires forall s :: init(s) ==> inv(s)
    requires forall s, t :: inv(s) && next(s, t) ==> inv(t)
    ensures inv(run[k])
  {
    if k > 0 {
      InvariantOfRun(init, next, inv, run, k - 1);
      assert next(run[k - 1], run[k]);
    }
  }

  lemma InvariantOfReachable<S(!new)>(init: S -> bool, next: (S, S) -> bool, inv: S -> bool, s: S)
    requires Reachable(init, next, s)
    requires forall s :: init(s) ==> inv(s)
    requires forall s, t :: inv(s) && next(s, t) ==> inv(t)
    ensures inv(s)
  {
    var run: seq<S> :| IsRun(init, next, run) && run[|run| - 1] == s;
    InvariantOfRun(init, next, inv, run, |run| - 1);
  }

  lemma ReachableInitially<S(!new)>(init: S -> bool, next: (S, S) -> bool, s: S)
    requires init(s)
    ensures Reachable(init, next, s)
  {
    assert IsRun(init, next, [s]);
  }

  lemma ReachableByStep<S(!new)>(init: S -> bool, next: (S, S) -> bool, s: S, t: S)
    requires Reachable(init, next, s) && next(s, t)
    ensures Reachable(init, next, t)
  {
    var run: seq<S> :| IsRun(init, next, run) && run[|run| - 1] == s;
    assert IsRun(init, next, run + [t]);
    assert (run + [t])[|run + [t]| - 1] == t;
  }

  lemma ReachableInRun<S(!new)>(init: S -> bool, next: (S, S) -> bool, run: seq<S>, k: nat)
    requires IsRun(init, next, run) && k < |run|
    ensures Reachable(init, next, run[k])
  {
    assert IsRun(init, next, run[..k + 1]);
    assert run[..k + 1][k] == run[k];
  }

  /** A run of fewer kinds of steps is a run. */
  lemma RunOfLarger<S(!new)>(init: S -> bool, next: (S, S) -> bool, larger: (S, S) -> bool, run: seq<S>)
    requires IsRun(init, next, run) && forall s, t :: next(s, t) ==> larger(s, t)
    ensures IsRun(init, larger, run)
  {
    forall i, j | 0 <= i && j == i + 1 && j < |run|
      ensures larger(run[i], run[j])
    {
      assert next(run[i], run[j]);
    }
  }

  /** What every step keeps unless it leaves, holds from state `k` up to the state `l` that is the
      first to have left, and the step to `l` is a step out of it. */
  lemma {:induction false} HoldsUntilLeft<S(!new)>(init: S -> bool, next: (S, S) -> bool, inv: S -> bool,
                                                   left: S -> bool, run: seq<S>, k: nat, l: nat)
    requires IsRun(init, next, run) && k < l < |run| && inv(run[k])
    requires forall s, t :: Reachable(init, next, s) && inv(s) && next(s, t) ==> inv(t) || left(t)
    requires forall j :: k < j < l ==> !left(run[j])
    ensures Reachable(init, next, run[l - 1]) && inv(run[l - 1]) && next(run[l - 1], run[l])
  {
    if k < l - 1 { HoldsUntilLeft(init, next, inv, left, run, k, l - 1); }
    ReachableInRun(init, next, run, l - 1);
  }

  /** A flag that an event raises and nothing lowers tells whether the event has happened. */
  lemma {:induction false} FlagTells<S(!new)>(init: S -> bool, next: (S, S) -> bool, flag: S -> bool,
                                              event: S -> bool, run: seq<S>, k: nat)
    requires IsRun(init, next, run) && k < |run|
    requires forall s :: init(s) ==> (flag(s) <==> event(s))
    requires forall s, t :: Reachable(init, next, s) && next(s, t) ==> (flag(t) <==> flag(s) || event(t))
    ensures flag(run[k]) <==> exists j :: 0 <= j <= k && event(run[j])
  {
    if k > 0 {
      FlagTells(init, next, flag, event, run, k - 1);
      ReachableInRun(init, next, run, k - 1);
      assert next(run[k - 1], run[k]);
    }
  }

  /** A measure that every step lowers bounds the length of every run. */
  lemma {:induction false} BoundOfRun<S(!new)>(init: S -> bool, next: (S, S) -> bool, measure: S -> int,
                                               run: seq<S>, k: nat)
    requires IsRun(init, next, run) && k < |run|
    requires forall s, t :: Reachable(init, next, s) && next(s, t) ==> measure(t) < measure(s)
    ensures measure(run[k]) + k <= measure(run[0])
  {
    if k > 0 {
      BoundOfRun(init, next, measure, run, k - 1);
      ReachableInRun(init, next, run, k - 1);
      assert next(run[k - 1], run[k]);
    }
  }

  /** The same for a path that starts where an invariant holds. */
  lemma {:induction false} BoundOfPath<S(!new)>(next: (S, S) -> bool, inv: S -> bool, measure: S -> int,
                                                path: seq<S>, k: nat)
    requires IsPath(next, path) && k < |path| && inv(path[0])
    requires forall s, t :: inv(s) && next(s, t) ==> inv(t) && measure(t) < measure(s)
    ensures inv(path[k]) && measure(path[k]) + k <= measure(path[0])
  {
    if k > 0 {
      BoundOfPath(next, inv, measure, path, k - 1);
      assert next(path[k - 1], path[k]);
    }
  }

  /** From `s` some continuation leads to a state with `goal`. */
  ghost predicate CanReach<S(!new)>(next: (S, S) -> bool, goal: S -> bool, s: S) {
    exists path: seq<S> :: IsPath(next, path) && path[0] == s && goal(path[|path| - 1])
  }

  /** If short of the goal some step always lowers the measure, the goal can always be reached. */
  lemma {:induction false} GoalStaysInReach<S(!new)>(next: (S, S) -> bool, inv: S -> bool, goal: S -> bool,
                                                     measure: S -> int, s: S)
    requires inv(s)
    requires forall s, t :: inv(s) && next(s, t) ==> inv(t)
    requires forall s :: inv(s) ==> measure(s) >= 0
    requires forall s :: inv(s) && !goal(s) ==> exists t :: next(s, t) && measure(t) < measure(s)
    ensures CanReach(next, goal, s)
    decreases measure(s)
  {
    if goal(s) {
      assert IsPath(next, [s]);
    } else {
      var t :| next(s, t) && measure(t) < measure(s);
      GoalStaysInReach(next, inv, goal, measure, t);
      var rest: seq<S> :| IsPath(next, rest) && rest[0] == t && goal(rest[|rest| - 1]);
      var path := [s] + rest;
      assert IsPath(next, path);
      assert path[|path| - 1] == rest[|rest| - 1];
    }
  }
}
