/** When the array stack with one producer and one consumer neither loses nor repeats a value.

    This is told by the values pushed, returned and left in the buffer, whatever one takes as the
    moments of effect. */
module BufferedConservation {
  import opened StackSpec
  import opened Linearizability
  import opened BufferedStack
  import opened BufferedOrder
  import opened BufferedSpsc
  import opened BufferedValues
  import opened DriverLoops
  import Runs

  // ----- What the consumer has read -----

  function AnswerOf(p: Thread): seq<int> {
    if p.Answer? && p.result.Value? then [p.result.value] else []
  }

  /** The values returned to the consumer, and the one it is about to return with. */
  function Heard(s: State): seq<int>
    requires |s.m.threads| == 2
  {
    Output(s.h.rec.trace, CONSUMER) + AnswerOf(s.m.threads[CONSUMER])
  }

  function HeardNow(m: Machine, a: Step): seq<int>
    requires Enabled(m, a)
  {
    if a == Slot(CONSUMER) && InBuffer(m, m.threads[CONSUMER].slot) then [m.buffer[m.threads[CONSUMER].slot]] else []
  }

  function ReturnedNow(s: State, s': State): seq<int> {
    if s'.h.rec == s.h.rec then [] else ReturnedBy(s'.h.rec.Last(), CONSUMER)
  }

  lemma OutputOfStep(s: State, a: Step, s': State)
    requires Enabled(s.m, a) && s' == Do(s, a)
    ensures Output(s'.h.rec.trace, CONSUMER) == Output(s.h.rec.trace, CONSUMER) + ReturnedNow(s, s')
  {
    OneEvent(s, a, s');
    if s'.h.rec != s.h.rec { RecordsAppend(s.h.rec.trace, s'.h.rec.Last(), CONSUMER); }
  }

  lemma AnswerMoves(s: State, a: Step, s': State)
    requires Roles(s) && Enabled(s.m, a) && s' == Do(s, a) && LocalBounds(s.m, s.m.threads[a.t])
    ensures |s'.m.threads| == 2
    ensures ReturnedNow(s, s') + AnswerOf(s'.m.threads[CONSUMER])
         == AnswerOf(s.m.threads[CONSUMER]) + HeardNow(s.m, a)
  {}

  lemma Associate(u: seq<int>, v: seq<int>, w: seq<int>)
    ensures u + v + w == u + (v + w)
  {}

  lemma HeardOfStep(s: State, a: Step, s': State)
    requires Roles(s) && Enabled(s.m, a) && s' == Do(s, a) && LocalBounds(s.m, s.m.threads[a.t])
    ensures |s'.m.threads| == 2 && Heard(s') == Heard(s) + HeardNow(s.m, a)
  {
    OutputOfStep(s, a, s');
    AnswerMoves(s, a, s');
    var output := Output(s.h.rec.trace, CONSUMER);
    Associate(output, ReturnedNow(s, s'), AnswerOf(s'.m.threads[CONSUMER]));
    Associate(output, AnswerOf(s.m.threads[CONSUMER]), HeardNow(s.m, a));
  }

  // ----- As long as the accesses come in order -----

  /** The latest section on a slot is a Push exactly if the slot is below the index. */
  ghost predicate Ended(m: Machine, queues: seq<seq<Section>>) {
    forall i :: 0 <= i < |queues| && queues[i] != [] ==>
      (queues[i][|queues[i]| - 1].p.PushSlot? <==> i < m.head)
  }

  /** The content of the slot is still to be read. */
  predicate Due(m: Machine, queues: seq<seq<Section>>, i: int)
    requires 0 <= i < |queues|
  {
    if queues[i] == [] then i < m.head else queues[i][0].p.PopSlot?
  }

  /** What is not due is the initial content or has been read. */
  ghost predicate OldOrDue(m: Machine, queues: seq<seq<Section>>, heard: seq<int>) {
    |queues| == |m.buffer| &&
    forall i :: 0 <= i < |m.buffer| ==> m.buffer[i] == 0 || m.buffer[i] in heard || Due(m, queues, i)
  }

  lemma EndedStep(s: State, a: Step, s': State)
    requires Ended(s.m, s.h.queues) && Enabled(s.m, a) && s' == Do(s, a) && s'.h.inOrder
    ensures Ended(s'.m, s'.h.queues)
  {}

  lemma OldOrDueByClosing(s: State, a: Step, s': State, heard: seq<int>)
    requires Queued(s.m, s.h.queues) && Ended(s.m, s.h.queues) && OldOrDue(s.m, s.h.queues, heard)
    requires Enabled(s.m, a) && s' == Do(s, a) && s'.h.inOrder && Roles(s) && a.Slot?
    ensures OldOrDue(s'.m, s'.h.queues, heard + HeardNow(s.m, a))
  {
    var q := s.h.queues[s.m.threads[a.t].slot];
    QueueOfTwo(s.m, q, s.m.threads[a.t].slot);
    assert forall j :: 0 <= j < |q| ==> q[j] in q;
  }

  lemma OldOrDueStep(s: State, a: Step, s': State, heard: seq<int>)
    requires Queued(s.m, s.h.queues) && Ended(s.m, s.h.queues) && OldOrDue(s.m, s.h.queues, heard)
    requires Enabled(s.m, a) && s' == Do(s, a) && s'.h.inOrder && Roles(s)
    ensures OldOrDue(s'.m, s'.h.queues, heard + HeardNow(s.m, a))
  {
    if a.Slot? { OldOrDueByClosing(s, a, s', heard); } else { assert heard + [] == heard; }
  }

  // ----- What an access out of turn does -----

  /** The value has been read twice, or was never pushed. */
  ghost predicate Repeated(heard: seq<int>, x: int) {
    x in heard && (x == 0 || multiset(heard)[x] >= 2)
  }

  /** The value was pushed and has gone: it has not been read, and it is in no slot and in no
      write to come. */
  ghost predicate Vanished(m: Machine, pushed: seq<int>, heard: seq<int>, x: int) {
    && x in pushed && x !in heard && x !in m.buffer
    && |m.threads| == 2 && !(m.threads[PRODUCER].PushSlot? && m.threads[PRODUCER].value == x)
  }

  ghost predicate Lost(m: Machine, pushed: seq<int>, heard: seq<int>) {
    exists x :: Repeated(heard, x) || Vanished(m, pushed, heard, x)
  }

  lemma LostStep(m: Machine, pushed: seq<int>, heard: seq<int>, a: Step, m': Machine)
    requires Lost(m, pushed, heard) && Enabled(m, a) && m' == Apply(m, a)
    requires |m.threads| == 2 && Popping(m.threads[CONSUMER]) && Fresh(pushed + PushedNow(m, a))
    ensures Lost(m', pushed + PushedNow(m, a), heard + HeardNow(m, a))
  {
    var x :| Repeated(heard, x) || Vanished(m, pushed, heard, x);
    var pushed', heard' := pushed + PushedNow(m, a), heard + HeardNow(m, a);
    if Repeated(heard, x) {
      assert multiset(heard') == multiset(heard) + multiset(HeardNow(m, a));
      assert Repeated(heard', x);
    } else {
      var k :| 0 <= k < |pushed| && pushed[k] == x;
      assert pushed'[k] == x;
      assert PushedNow(m, a) != [] ==> m.threads[a.t].value == pushed'[|pushed|] != x;
      assert Vanished(m', pushed', heard', x);
    }
  }

  /** Different slots hold different values, initial contents apart. */
  ghost predicate DifferentCells(buffer: seq<int>) {
    forall i, j :: 0 <= i < j < |buffer| && buffer[i] != 0 ==> buffer[i] != buffer[j]
  }

  lemma DifferentCellsStep(m: Machine, pushed: seq<int>, a: Step, m': Machine)
    requires Cells(m, pushed) && Fresh(pushed) && DifferentCells(m.buffer) && Popping(m.threads[CONSUMER])
    requires Enabled(m, a) && m' == Apply(m, a)
    ensures DifferentCells(m'.buffer)
  {
    if m.threads[PRODUCER].PushSlot? { FreshIsNew(m, pushed); }
  }

  /** The consumer reads before the producer writes: what it reads is old. */
  lemma EarlyRead(s: State, pushed: seq<int>, s': State)
    requires SpscInv(s) && OldOrDue(s.m, s.h.queues, Heard(s))
    requires Enabled(s.m, Slot(CONSUMER)) && s' == Do(s, Slot(CONSUMER)) && s.h.inOrder && !s'.h.inOrder
    ensures Lost(s'.m, pushed, Heard(s) + HeardNow(s.m, Slot(CONSUMER)))
  {
    OutOfTurn(s, CONSUMER);
    var slot := s.m.threads[CONSUMER].slot;
    var x := s.m.buffer[slot];
    assert !Due(s.m, s.h.queues, slot);
    assert multiset(Heard(s) + [x]) == multiset(Heard(s)) + multiset{x};
    assert Repeated(Heard(s) + [x], x);
  }

  lemma Overwritten(m: Machine, pushed: seq<int>, heard: seq<int>, m': Machine)
    requires |m.threads| == 2 && Enabled(m, Slot(PRODUCER)) && m' == Apply(m, Slot(PRODUCER))
    requires m.threads[PRODUCER].PushSlot? && InBuffer(m, m.threads[PRODUCER].slot) && DifferentCells(m.buffer)
    requires var x := m.buffer[m.threads[PRODUCER].slot];
             x in pushed && x !in heard && x != 0 && x != m.threads[PRODUCER].value
    ensures Lost(m', pushed, heard)
  {
    assert Vanished(m', pushed, heard, m.buffer[m.threads[PRODUCER].slot]);
  }

  lemma OnceEach(pushed: seq<int>, heard: seq<int>, x: int)
    requires Fresh(pushed) && multiset(heard + [x]) <= multiset(pushed)
    ensures x in pushed && x !in heard && x != 0
  {
    assert x in multiset(heard + [x]);
    FreshCount(pushed, x);
    assert multiset(heard + [x]) == multiset(heard) + multiset{x};
  }

  lemma {:induction false} FreshCount(values: seq<int>, x: int)
    requires Fresh(values)
    ensures multiset(values)[x] <= 1
  {
    if values != [] {
      var front, last := values[..|values| - 1], values[|values| - 1];
      assert values == front + [last];
      FreshCount(front, x);
      assert multiset(values) == multiset(front) + multiset{last};
      if x == last { assert x !in front; }
    }
  }

  // ----- Conservation -----

  /** The consumer's effects are Pops, the producer's are Pushes. */
  ghost predicate RoleEvents(trace: seq<Event>) {
    forall e :: e in trace && e.Effect? ==> (e.op == Pop <==> e.who == CONSUMER)
  }

  lemma RoleEventsStep(s: State, a: Step, s': State)
    requires Roles(s) && RoleEvents(s.h.rec.trace) && Enabled(s.m, a) && s' == Do(s, a)
    ensures RoleEvents(s'.h.rec.trace)
  {
    OneEvent(s, a, s');
  }

  /** A consumer that has not gone wrong has popped what it has returned and has in hand. */
  lemma {:induction false} PoppedIsOutput(trace: seq<Event>)
    requires RoleEvents(trace) && PhaseOf(trace, CONSUMER) != Broken
    ensures Popped(trace) == Output(trace, CONSUMER) + InHand(PhaseOf(trace, CONSUMER))
  {
    if trace != [] {
      var front, e := trace[..|trace| - 1], trace[|trace| - 1];
      assert trace == front + [e];
      assert e in trace;
      PhaseOfAppend(front, e, CONSUMER);
      PoppedIsOutput(front);
      if e.who == CONSUMER {
        HandedOver(Popped(front), Output(front, CONSUMER), PhaseOf(front, CONSUMER), e);
      }
    }
  }

  ghost predicate Books(s: State) {
    var pushed := Pushed(s.h.rec.trace);
    && SpscInv(s) && RoleEvents(s.h.rec.trace) && Cells(s.m, pushed)
    && (s.h.inOrder ==> Ended(s.m, s.h.queues) && OldOrDue(s.m, s.h.queues, Heard(s)))
    && (Fresh(pushed) ==> DifferentCells(s.m.buffer) && (s.h.inOrder || Lost(s.m, pushed, Heard(s))))
  }

  lemma HeardIsPushed(s: State)
    requires Inv(s) && Roles(s) && RoleEvents(s.h.rec.trace) && !s.h.spoiled && s.m.threads[CONSUMER].PopSlot?
    ensures multiset(Heard(s) + InHand(PhaseOf(s.h.rec.trace, CONSUMER))) <= multiset(Pushed(s.h.rec.trace))
  {
    assert Agrees(s.m.threads[CONSUMER], PhaseOf(s.h.rec.trace, CONSUMER));
    PoppedIsOutput(s.h.rec.trace);
    Conservation(Bound(s), s.h.rec.trace);
    assert Heard(s) == Output(s.h.rec.trace, CONSUMER);
  }

  /** The producer writes before the consumer reads: what was there has gone. */
  lemma EarlyWrite(s: State, s': State)
    requires Inv(s) && Books(s) && !s.h.spoiled && Fresh(Pushed(s.h.rec.trace))
    requires Enabled(s.m, Slot(PRODUCER)) && s' == Do(s, Slot(PRODUCER)) && s.h.inOrder && !s'.h.inOrder
    ensures Lost(s'.m, Pushed(s.h.rec.trace), Heard(s))
  {
    var pushed, slot := Pushed(s.h.rec.trace), s.m.threads[PRODUCER].slot;
    var x := s.m.buffer[slot];
    OutOfTurn(s, PRODUCER);
    FreshIsNew(s.m, pushed);
    HeardIsPushed(s);
    assert SlotRight(s, slot);
    assert InHand(PhaseOf(s.h.rec.trace, CONSUMER)) == [x];
    OnceEach(pushed, Heard(s), x);
    Overwritten(s.m, pushed, Heard(s), s'.m);
  }

  lemma WhatLeavesOrder(s: State, a: Step, s': State)
    requires Enabled(s.m, a) && s' == Do(s, a) && s.h.inOrder && !s'.h.inOrder
    ensures a == Slot(a.t) && PushedNow(s.m, a) == [] && (a.t != CONSUMER ==> HeardNow(s.m, a) == [])
  {}

  /** The first access out of turn. */
  lemma FirstOutOfTurn(s: State, a: Step, s': State)
    requires Inv(s) && Books(s) && !s.h.spoiled && Fresh(Pushed(s.h.rec.trace))
    requires Enabled(s.m, a) && s' == Do(s, a) && s.h.inOrder && !s'.h.inOrder
    ensures Lost(s'.m, Pushed(s.h.rec.trace) + PushedNow(s.m, a), Heard(s) + HeardNow(s.m, a))
  {
    WhatLeavesOrder(s, a, s');
    assert Pushed(s.h.rec.trace) + [] == Pushed(s.h.rec.trace) && Heard(s) + [] == Heard(s);
    if a.t == CONSUMER { EarlyRead(s, Pushed(s.h.rec.trace), s'); } else { EarlyWrite(s, s'); }
  }

  lemma BooksInOrder(s: State, a: Step, s': State)
    requires Books(s) && Enabled(s.m, a) && s' == Do(s, a) && |s'.m.threads| == 2 && s'.h.inOrder
    ensures Ended(s'.m, s'.h.queues) && OldOrDue(s'.m, s'.h.queues, Heard(s'))
  {
    HeardOfStep(s, a, s');
    EndedStep(s, a, s');
    OldOrDueStep(s, a, s', Heard(s));
  }

  lemma BooksFresh(s: State, a: Step, s': State)
    requires Inv(s) && Books(s) && (s.h.inOrder ==> !s.h.spoiled) && Enabled(s.m, a) && s' == Do(s, a)
    requires |s'.m.threads| == 2 && Fresh(Pushed(s'.h.rec.trace))
    ensures DifferentCells(s'.m.buffer) && (s'.h.inOrder || Lost(s'.m, Pushed(s'.h.rec.trace), Heard(s')))
  {
    var pushed := Pushed(s.h.rec.trace);
    PushedOfStep(s, a, s');
    HeardOfStep(s, a, s');
    FreshPrefix(pushed, PushedNow(s.m, a));
    DifferentCellsStep(s.m, pushed, a, s'.m);
    if !s.h.inOrder {
      LostStep(s.m, pushed, Heard(s), a, s'.m);
    } else if !s'.h.inOrder {
      FirstOutOfTurn(s, a, s');
    }
  }

  lemma BooksStep(s: State, a: Step, s': State)
    requires Inv(s) && Books(s) && (s.h.inOrder ==> !s.h.spoiled)
    requires Enabled(s.m, a) && ByRole(a) && s' == Do(s, a)
    ensures Books(s')
  {
    SpscInvStep(s, a, s');
    RoleEventsStep(s, a, s');
    PushedOfStep(s, a, s');
    CellsStep(s.m, Pushed(s.h.rec.trace), a, s'.m);
    if s'.h.inOrder { BooksInOrder(s, a, s'); }
    if Fresh(Pushed(s'.h.rec.trace)) { BooksFresh(s, a, s'); }
  }

  ghost predicate Audited(s: State) {
    Inv(s) && Ordered(s) && Books(s)
  }

  lemma AuditedOfReachable(s: State)
    requires SpscReachable(s)
    ensures Audited(s)
  {
    forall s, s' | Audited(s) && SpscNext(s, s')
      ensures Audited(s')
    {
      var a :| Enabled(s.m, a) && ByRole(a) && s' == Do(s, a);
      InvStep(s, a, s');
      OrderedStep(s, a, s');
      BooksStep(s, a, s');
    }
    Runs.InvariantOfReachable(SpscInit, SpscNext, Audited, s);
  }

  /** What was pushed is what was received and what lies in the live part of the buffer. */
  ghost predicate Conserved(s: State)
    requires 0 <= s.m.head <= |s.m.buffer|
  {
    multiset(Pushed(s.h.rec.trace))
      == multiset(Output(s.h.rec.trace, CONSUMER)) + multiset(s.m.buffer[..s.m.head])
  }

  lemma LostIsNotConserved(s: State, pushed: seq<int>)
    requires s.m.threads == [Idle, Idle] && Lost(s.m, pushed, Heard(s)) && Fresh(pushed)
    requires 0 <= s.m.head <= |s.m.buffer| && pushed == Pushed(s.h.rec.trace)
    ensures !Conserved(s)
  {
    var output, live := Output(s.h.rec.trace, CONSUMER), s.m.buffer[..s.m.head];
    assert Heard(s) == output;
    var x :| Repeated(output, x) || Vanished(s.m, pushed, output, x);
    FreshCount(pushed, x);
    assert x in multiset(output) <==> x in output;
    assert x in multiset(live) ==> x in s.m.buffer;
  }

  /** With both threads at rest, and values that are not 0 and pairwise distinct: nothing is lost,
      repeated or invented if and only if the accesses to each slot came in the order of the
      compare-exchanges. */
  lemma ConservedIffInOrder(s: State)
    requires SpscReachable(s) && Fresh(Pushed(s.h.rec.trace)) && s.m.threads == [Idle, Idle]
    ensures 0 <= s.m.head <= |s.m.buffer|
    ensures Conserved(s) <==> s.h.inOrder
  {
    AuditedOfReachable(s);
    if s.h.inOrder {
      BufferIsStack(s);
      assert Agrees(s.m.threads[CONSUMER], PhaseOf(s.h.rec.trace, CONSUMER));
      PoppedIsOutput(s.h.rec.trace);
      Conservation(Bound(s), s.h.rec.trace);
    } else {
      LostIsNotConserved(s, Pushed(s.h.rec.trace));
    }
  }
}
