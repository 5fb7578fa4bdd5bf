/** Exactly when the array stack with one producer and one consumer gets its values right. */
module BufferedValues {
  import opened StackSpec
  import opened Linearizability
  import opened BufferedStack
  import opened BufferedOrder
  import opened BufferedSpsc
  import Runs

  // ----- What is spoiled stays wrong -----

  /** The consumer has returned a wrong value, is about to, or is about to read one that nobody
      will correct. */
  ghost predicate Wrong(s: State) {
    && |s.m.threads| == 2
    && var p, c, phase := s.m.threads[PRODUCER], s.m.threads[CONSUMER], PhaseOf(s.h.rec.trace, CONSUMER);
    || phase == Broken
    || (phase.Applied? && c.Answer? && phase.result != c.result)
    || (&& phase.Applied? && c.PopSlot? && InBuffer(s.m, c.slot) && phase.result != Value(s.m.buffer[c.slot])
        && c.slot < s.m.head && !(p.PushSlot? && p.slot == c.slot))
  }

  lemma WrongStep(s: State, a: Step, s': State)
    requires Wrong(s) && Roles(s) && Enabled(s.m, a) && s' == Do(s, a)
    ensures Wrong(s')
  {
    PhaseOfStep(s, a, s', CONSUMER);
  }

  /** An access out of turn finds both threads on its slot, the other one first. */
  lemma OutOfTurn(s: State, t: nat)
    requires SpscInv(s) && t < 2 && Open(s.m.threads[t]) && !InTurn(s.h, t, s.m.threads[t].slot)
    ensures SlotRace(s.m)
    ensures Queue(s.h.queues, s.m.threads[t].slot) == [Section(1 - t, s.m.threads[1 - t]), Section(t, s.m.threads[t])]
  {
    var slot := s.m.threads[t].slot;
    var q := s.h.queues[slot];
    QueueOfTwo(s.m, q, slot);
    assert forall j :: 0 <= j < |q| ==> q[j] in q;
    assert q[0].t != q[1].t;
  }

  lemma SpoilingStep(s: State, a: Step, s': State)
    requires SpscInv(s) && SlotsRight(s) && Enabled(s.m, a) && s' == Do(s, a) && !s.h.spoiled && s'.h.spoiled
    ensures Wrong(s')
  {
    OutOfTurn(s, a.t);
    var slot := s.m.threads[a.t].slot;
    var q, held := s.h.queues[slot], s.m.buffer[slot];
    assert SlotRight(s, slot);
    assert Promised(s.h.rec.trace, q[1..], Left(q[0], held));
    assert s.m.threads[PRODUCER].value != held;
    PhaseOfStep(s, a, s', CONSUMER);
  }

  ghost predicate Judged(s: State) {
    SpscInv(s) && Inv(s) && (s.h.spoiled ==> Wrong(s))
  }

  lemma JudgedStep(s: State, a: Step, s': State)
    requires Judged(s) && Enabled(s.m, a) && ByRole(a) && s' == Do(s, a)
    ensures Judged(s')
  {
    SpscInvStep(s, a, s');
    InvStep(s, a, s');
    if s.h.spoiled { WrongStep(s, a, s'); } else if s'.h.spoiled { SpoilingStep(s, a, s'); }
  }

  lemma JudgedOfReachable(s: State)
    requires SpscReachable(s)
    ensures Judged(s)
  {
    forall s, s' | Judged(s) && SpscNext(s, s')
      ensures Judged(s')
    {
      var a :| Enabled(s.m, a) && ByRole(a) && s' == Do(s, a);
      JudgedStep(s, a, s');
    }
    Runs.InvariantOfReachable(SpscInit, SpscNext, Judged, s);
  }

  /** A Pop has taken effect and has not returned. */
  predicate PopUnderway(m: Machine) {
    |m.threads| == 2 && (m.threads[CONSUMER].PopSlot? || m.threads[CONSUMER].Answer?)
  }

  /** Outside the rest of a Pop after its compare-exchange, the run refines the bounded stack, with
      the compare-exchanges as the moments of effect, if and only if no slot was accessed out of
      turn while the producer was about to change it. */
  lemma RightValuesIffUnspoiled(s: State)
    requires SpscReachable(s)
    requires !PopUnderway(s.m)
    ensures Linearizable(Bound(s), s.h.rec.trace) <==> !s.h.spoiled
  {
    JudgedOfReachable(s);
    if !s.h.spoiled {
      SpscIsReachable(s);
      RefinesBoundedStack(s);
    }
  }

  // ----- Values that are pushed once and differ from the initial content -----

  ghost predicate Fresh(values: seq<int>) {
    && (forall i :: 0 <= i < |values| ==> values[i] != 0)
    && (forall i, j :: 0 <= i < j < |values| ==> values[i] != values[j])
  }

  /** The values written so far: all that were pushed, except the one about to be written. */
  function Written(m: Machine, pushed: seq<int>): seq<int>
    requires |m.threads| == 2
  {
    if m.threads[PRODUCER].PushSlot? && pushed != [] then pushed[..|pushed| - 1] else pushed
  }

  /** Every cell holds 0 or something written; the producer's next write is the last push. */
  ghost predicate Cells(m: Machine, pushed: seq<int>) {
    && |m.threads| == 2
    && (m.threads[PRODUCER].PushSlot? ==> pushed == Written(m, pushed) + [m.threads[PRODUCER].value])
    && (forall i :: 0 <= i < |m.buffer| ==> m.buffer[i] == 0 || m.buffer[i] in Written(m, pushed))
  }

  lemma CellsStep(m: Machine, pushed: seq<int>, a: Step, m': Machine)
    requires Cells(m, pushed) && Pushing(m.threads[PRODUCER]) && Popping(m.threads[CONSUMER])
    requires Enabled(m, a) && m' == Apply(m, a)
    ensures Cells(m', pushed + PushedNow(m, a))
  {
    assert pushed + [] == pushed;
    if m.threads[a.t].PushSlot? {
      assert forall v :: v in Written(m, pushed) ==> v in pushed;
      assert m.threads[a.t].value in pushed;
    } else {
      assert Written(m', pushed + PushedNow(m, a)) == Written(m, pushed);
    }
  }

  /** A fresh value about to be written is in no cell yet. */
  lemma FreshIsNew(m: Machine, pushed: seq<int>)
    requires Cells(m, pushed) && Fresh(pushed) && m.threads[PRODUCER].PushSlot?
    ensures m.threads[PRODUCER].value != 0 && m.threads[PRODUCER].value !in m.buffer
  {
    var v, written := m.threads[PRODUCER].value, Written(m, pushed);
    assert pushed[|written|] == v;
    assert forall i :: 0 <= i < |written| ==> pushed[i] == written[i];
    assert v !in written;
  }

  lemma FreshWriteChanges(m: Machine, pushed: seq<int>, slot: int)
    requires Cells(m, pushed) && Fresh(pushed) && InBuffer(m, slot)
    requires m.threads[PRODUCER].PushSlot? && m.threads[PRODUCER].slot == slot
    ensures WriteChanges(m, slot)
  {
    FreshIsNew(m, pushed);
  }

  ghost predicate Fair(s: State) {
    && SpscInv(s) && Cells(s.m, Pushed(s.h.rec.trace)) && (s.h.spoiled ==> !s.h.inOrder)
    && (Fresh(Pushed(s.h.rec.trace)) && !s.h.inOrder ==> s.h.spoiled)
  }

  lemma FlagsStep(s: State, a: Step, s': State)
    requires Enabled(s.m, a) && s' == Do(s, a)
    ensures (s'.h.inOrder ==> s.h.inOrder) && (s.h.spoiled ==> s'.h.spoiled)
    ensures s'.h.spoiled ==> s.h.spoiled || !s'.h.inOrder
  {}

  lemma OutOfTurnSpoils(s: State, a: Step, s': State)
    requires SpscInv(s) && Cells(s.m, Pushed(s.h.rec.trace)) && Fresh(Pushed(s.h.rec.trace))
    requires Enabled(s.m, a) && s' == Do(s, a) && s.h.inOrder && !s'.h.inOrder
    ensures s'.h.spoiled
  {
    OutOfTurn(s, a.t);
    FreshWriteChanges(s.m, Pushed(s.h.rec.trace), s.m.threads[a.t].slot);
  }

  lemma FreshPrefix(values: seq<int>, more: seq<int>)
    requires Fresh(values + more)
    ensures Fresh(values)
  {
    assert forall i :: 0 <= i < |values| ==> values[i] == (values + more)[i];
  }

  lemma FairStep(s: State, a: Step, s': State)
    requires Fair(s) && Enabled(s.m, a) && ByRole(a) && s' == Do(s, a)
    ensures Fair(s')
  {
    SpscInvStep(s, a, s');
    PushedOfStep(s, a, s');
    CellsStep(s.m, Pushed(s.h.rec.trace), a, s'.m);
    FlagsStep(s, a, s');
    if Fresh(Pushed(s'.h.rec.trace)) {
      FreshPrefix(Pushed(s.h.rec.trace), PushedNow(s.m, a));
      if s.h.inOrder && !s'.h.inOrder { OutOfTurnSpoils(s, a, s'); }
    }
  }

  lemma FairOfReachable(s: State)
    requires SpscReachable(s)
    ensures Fair(s)
  {
    forall s, s' | Fair(s) && SpscNext(s, s')
      ensures Fair(s')
    {
      var a :| Enabled(s.m, a) && ByRole(a) && s' == Do(s, a);
      FairStep(s, a, s');
    }
    Runs.InvariantOfReachable(SpscInit, SpscNext, Fair, s);
  }

  /** If the pushed values are not 0 and pairwise distinct, the run refines the bounded stack if
      and only if the accesses to each slot came in the order of the compare-exchanges. */
  lemma RightValuesIffInOrder(s: State)
    requires SpscReachable(s) && Fresh(Pushed(s.h.rec.trace))
    requires !PopUnderway(s.m)
    ensures Linearizable(Bound(s), s.h.rec.trace) <==> s.h.inOrder
  {
    FairOfReachable(s);
    RightValuesIffUnspoiled(s);
  }
}
