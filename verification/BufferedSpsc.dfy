/** The array stack with one producer and one consumer. */
module BufferedSpsc {
  import opened StackSpec
  import opened Linearizability
  import opened BufferedStack
  import opened BufferedOrder
  import Runs

  const PRODUCER: nat := 0
  const CONSUMER: nat := 1

  /** The producer calls only Push and the consumer only Pop. */
  predicate ByRole(a: Step) {
    a.Call? ==> (a.t == PRODUCER <==> a.op.Push?)
  }

  ghost predicate SpscInit(s: State) {
    Init(s) && |s.m.threads| == 2
  }

  ghost predicate SpscNext(s: State, s': State) {
    exists a :: Enabled(s.m, a) && ByRole(a) && s' == Do(s, a)
  }

  ghost predicate SpscReachable(s: State) {
    Runs.Reachable(SpscInit, SpscNext, s)
  }

  /** Both threads are about to access the same slot, one of them to write it. */
  ghost predicate SlotRace(m: Machine) {
    && |m.threads| == 2
    && m.threads[PRODUCER].PushSlot? && m.threads[CONSUMER].PopSlot?
    && m.threads[PRODUCER].slot == m.threads[CONSUMER].slot
  }

  predicate Pushing(p: Thread) {
    p.Idle? || p.PushCalled? || p.PushCas? || p.PushSlot? || p == Answer(Done) || p == Answer(Full)
  }

  predicate Popping(p: Thread) {
    p.Idle? || p.PopCalled? || p.PopCas? || p.PopSlot? || (p.Answer? && (p.result.Value? || p.result == Empty))
  }

  /** The two sections that can be on one slot were opened in the order that the index tells:
      if the slot is below the index, the producer's is the later one. */
  ghost predicate Positions(m: Machine, queues: seq<seq<Section>>) {
    forall i :: 0 <= i < |queues| && |queues[i]| >= 2 ==> (i < m.head <==> queues[i][1].p.PushSlot?)
  }

  ghost predicate Roles(s: State) {
    && |s.m.threads| == 2 && Pushing(s.m.threads[PRODUCER]) && Popping(s.m.threads[CONSUMER])
  }

  ghost predicate SpscInv(s: State) {
    Counted(s) && Queued(s.m, s.h.queues) && Roles(s) && Positions(s.m, s.h.queues)
  }

  lemma RolesStep(s: State, a: Step, s': State)
    requires Roles(s) && Enabled(s.m, a) && ByRole(a) && s' == Do(s, a)
    ensures Roles(s')
  {}

  lemma ThreeQueued(m: Machine, q: seq<Section>, slot: int)
    requires Describes(m, q, slot) && |q| > 2
    ensures |m.threads| > 2
  {
    assert q[0] in q && q[1] in q && q[2] in q;
    assert q[0].t != q[1].t && q[1].t != q[2].t && q[0].t != q[2].t;
  }

  /** A queue holds at most the two threads, and only open ones. */
  lemma QueueOfTwo(m: Machine, q: seq<Section>, slot: int)
    requires Describes(m, q, slot) && |m.threads| == 2
    ensures |q| <= 2
    ensures forall t :: 0 <= t < 2 && !(Open(m.threads[t]) && m.threads[t].slot == slot) ==> |q| <= 1
  {
    assert forall j :: 0 <= j < |q| ==> q[j] in q;
    assert |q| >= 2 ==> q[0].t != q[1].t;
    if |q| > 2 { ThreeQueued(m, q, slot); }
  }

  lemma PositionsByOpening(s: State, a: Step, s': State)
    requires Queued(s.m, s.h.queues) && |s.m.threads| == 2
    requires Enabled(s.m, a) && s' == Do(s, a) && Opens(s.m, a)
    ensures Positions(s'.m, s'.h.queues)
  {
    forall i | 0 <= i < |s.h.queues|
      ensures |s.h.queues[i]| <= 1
    {
      QueueOfTwo(s.m, s.h.queues[i], i);
    }
  }

  lemma PositionsByClosing(s: State, a: Step, s': State)
    requires Queued(s.m, s.h.queues) && |s.m.threads| == 2 && Positions(s.m, s.h.queues)
    requires Enabled(s.m, a) && s' == Do(s, a) && a.Slot?
    ensures Positions(s'.m, s'.h.queues)
  {
    var slot := s.m.threads[a.t].slot;
    QueueOfTwo(s.m, s.h.queues[slot], slot);
    ShorterWithout(s.h.queues[slot], a.t);
    assert |s'.h.queues[slot]| <= 1;
  }

  lemma PositionsStep(s: State, a: Step, s': State)
    requires Queued(s.m, s.h.queues) && |s.m.threads| == 2 && Positions(s.m, s.h.queues)
    requires Enabled(s.m, a) && s' == Do(s, a)
    ensures Positions(s'.m, s'.h.queues)
  {
    if Opens(s.m, a) { PositionsByOpening(s, a, s'); }
    else if a.Slot? { PositionsByClosing(s, a, s'); }
  }

  lemma {:induction false} ShorterWithout(q: seq<Section>, t: nat)
    requires exists e :: e in q && e.t == t
    ensures |Without(q, t)| == |q| - 1
  {
    if q[0].t != t { ShorterWithout(q[1..], t); }
  }

  lemma SpscInvStep(s: State, a: Step, s': State)
    requires SpscInv(s) && Enabled(s.m, a) && ByRole(a) && s' == Do(s, a)
    ensures SpscInv(s')
  {
    CountedStep(s, a, s');
    QueuedStep(s, a, s');
    RolesStep(s, a, s');
    PositionsStep(s, a, s');
  }

  lemma SpscInvOfReachable(s: State)
    requires SpscReachable(s)
    ensures SpscInv(s)
  {
    forall s, s' | SpscInv(s) && SpscNext(s, s')
      ensures SpscInv(s')
    {
      var a :| Enabled(s.m, a) && ByRole(a) && s' == Do(s, a);
      SpscInvStep(s, a, s');
    }
    Runs.InvariantOfReachable(SpscInit, SpscNext, SpscInv, s);
  }

  lemma SpscRunIsRun(run: seq<State>)
    requires Runs.IsRun(SpscInit, SpscNext, run)
    ensures Runs.IsRun(Init, Next, run)
  {
    Runs.RunOfLarger(SpscInit, SpscNext, Next, run);
  }

  lemma SpscIsReachable(s: State)
    requires SpscReachable(s)
    ensures Reachable(s)
  {
    var run: seq<State> :| Runs.IsRun(SpscInit, SpscNext, run) && run[|run| - 1] == s;
    SpscRunIsRun(run);
  }

  // ----- When the two threads meet at a slot -----

  /** The first compare-exchange inside an open section puts both threads on one slot. */
  lemma FirstOverlapRaces(s: State, a: Step, s': State)
    requires Sized(s) && Exclusive(s.m) && Roles(s) && Roles(s')
    requires Enabled(s.m, a) && s' == Do(s, a) && !s.h.overlap && s'.h.overlap
    ensures SlotRace(s'.m)
  {
    assert OthersOpen(s.m, a.t);
  }

  /** A meeting shows at once that sections overlap, and an overlap is never forgotten. */
  lemma OverlapOfStep(s: State, s': State)
    requires SpscReachable(s) && SpscNext(s, s')
    ensures s'.h.overlap <==> s.h.overlap || SlotRace(s'.m)
  {
    var a :| Enabled(s.m, a) && ByRole(a) && s' == Do(s, a);
    SpscInvOfReachable(s);
    SpscInvStep(s, a, s');
    SpscIsReachable(s);
    OrderOfReachable(s);
    if !s.h.overlap {
      if s'.h.overlap { FirstOverlapRaces(s, a, s'); } else { ExclusiveStep(s, a, s'); }
    }
  }

  /** The two threads never stand before the same slot together exactly when no compare-exchange
      succeeds inside the other side's open section, and then the run refines the bounded stack.
      This is about coinciding accesses of an interleaving; in the memory model of C++ a slot
      access has no happens-before edge to the other side's next access even then. */
  lemma RaceFreeIffNoOverlap(run: seq<State>)
    requires Runs.IsRun(SpscInit, SpscNext, run)
    ensures (forall k :: 0 <= k < |run| ==> !SlotRace(run[k].m)) <==> !run[|run| - 1].h.overlap
    ensures !run[|run| - 1].h.overlap ==> Linearizable(Bound(run[|run| - 1]), run[|run| - 1].h.rec.trace)
  {
    var last := |run| - 1;
    forall s, s' | SpscReachable(s) && SpscNext(s, s')
      ensures s'.h.overlap <==> s.h.overlap || SlotRace(s'.m)
    {
      OverlapOfStep(s, s');
    }
    Runs.FlagTells(SpscInit, SpscNext, (s: State) => s.h.overlap, (s: State) => SlotRace(s.m), run, last);
    SpscRunIsRun(run);
    Runs.ReachableInRun(Init, Next, run, last);
    OrderOfReachable(run[last]);
    if !run[last].h.overlap { RefinesBoundedStack(run[last]); }
  }
}
