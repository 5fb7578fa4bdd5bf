/** The values of the array stack, for any number of threads: they are right as long as the
    accesses to each slot come in the order of the compare-exchanges, or make no difference. */
module BufferedOrder {
  import opened StackSpec
  import opened Linearizability
  import opened BufferedStack
  import Runs

  // ----- The queue of a slot -----

  /** What the slot holds after the access. */
  function Left(e: Section, held: int): int {
    if e.p.PushSlot? then e.p.value else held
  }

  /** What the slot will hold when the sections on it have closed in order. */
  function After(q: seq<Section>, held: int): int {
    if q == [] then held else After(q[1..], Left(q[0], held))
  }

  /** The effect of each Pop in the queue promised what the slot will hold when its turn comes. */
  ghost predicate Promised(trace: seq<Event>, q: seq<Section>, held: int) {
    q != [] ==>
      && (q[0].p.PopSlot? ==> PhaseOf(trace, q[0].t) == Applied(Pop, Value(held)))
      && Promised(trace, q[1..], Left(q[0], held))
  }

  lemma {:induction false} AfterAppend(q: seq<Section>, e: Section, held: int)
    ensures After(q + [e], held) == Left(e, After(q, held))
  {
    if q != [] {
      assert (q + [e])[1..] == q[1..] + [e];
      AfterAppend(q[1..], e, Left(q[0], held));
    }
  }

  lemma {:induction false} PromisedAppend(trace: seq<Event>, q: seq<Section>, e: Section, held: int)
    requires Promised(trace, q, held)
    requires e.p.PopSlot? ==> PhaseOf(trace, e.t) == Applied(Pop, Value(After(q, held)))
    ensures Promised(trace, q + [e], held)
  {
    if q == [] {
      assert (q + [e])[1..] == [];
    } else {
      assert (q + [e])[1..] == q[1..] + [e];
      PromisedAppend(trace, q[1..], e, Left(q[0], held));
    }
  }

  /** Promises concern only the phases of the threads in the queue. */
  lemma {:induction false} PromisedKept(trace: seq<Event>, trace': seq<Event>, q: seq<Section>, held: int)
    requires Promised(trace, q, held)
    requires forall e :: e in q ==> PhaseOf(trace', e.t) == PhaseOf(trace, e.t)
    ensures Promised(trace', q, held)
  {
    if q != [] { PromisedKept(trace, trace', q[1..], Left(q[0], held)); }
  }

  /** Every write in the queue leaves the slot as it is. */
  ghost predicate Idempotent(q: seq<Section>, held: int) {
    forall e :: e in q && e.p.PushSlot? ==> e.p.value == held
  }

  /** Then the order of the accesses makes no difference. */
  lemma {:induction false} AnyOrder(trace: seq<Event>, q: seq<Section>, t: nat, held: int)
    requires Idempotent(q, held)
    ensures After(q, held) == After(Without(q, t), held) == held
    ensures Promised(trace, q, held) ==> Promised(trace, Without(q, t), held)
    ensures Promised(trace, q, held) ==>
      forall e :: e in q && e.p.PopSlot? ==> PhaseOf(trace, e.t) == Applied(Pop, Value(held))
  {
    if q != [] {
      AnyOrder(trace, q[1..], t, held);
      if q[0].t != t { assert Without(q, t)[1..] == Without(q[1..], t); }
    }
  }

  // ----- The queues of a state -----

  ghost predicate Distinct(q: seq<Section>) {
    forall j, k :: 0 <= j < k < |q| ==> q[j].t != q[k].t
  }

  ghost predicate Describes(m: Machine, q: seq<Section>, slot: int) {
    && Distinct(q)
    && forall e :: e in q ==> e.t < |m.threads| && m.threads[e.t] == e.p && Open(e.p) && e.p.slot == slot
  }

  /** The queues hold exactly the open sections, each in the queue of its slot and once. */
  ghost predicate Queued(m: Machine, queues: seq<seq<Section>>) {
    && |queues| == |m.buffer|
    && (forall i :: 0 <= i < |queues| ==> Describes(m, queues[i], i))
    && (forall t :: 0 <= t < |m.threads| && Open(m.threads[t]) ==>
      InBuffer(m, m.threads[t].slot) && Section(t, m.threads[t]) in Queue(queues, m.threads[t].slot))
  }

  lemma {:induction false} WithoutIs(q: seq<Section>, t: nat)
    requires Distinct(q)
    ensures forall e :: e in Without(q, t) <==> e in q && e.t != t
  {
    if q != [] {
      WithoutIs(q[1..], t);
      assert q == [q[0]] + q[1..];
      if q[0].t == t { assert forall e :: e in q[1..] ==> e.t != t; }
    }
  }

  lemma {:induction false} WithoutIsDistinct(q: seq<Section>, t: nat)
    requires Distinct(q)
    ensures Distinct(Without(q, t))
  {
    if q != [] && q[0].t != t {
      var r := Without(q[1..], t);
      WithoutIsDistinct(q[1..], t);
      WithoutIs(q[1..], t);
      assert forall k :: 0 <= k < |r| ==> r[k] in r && r[k] in q[1..] && q[0].t != r[k].t;
    }
  }

  lemma DescribesKept(m: Machine, a: Step, m': Machine, q: seq<Section>, slot: int)
    requires Describes(m, q, slot) && Enabled(m, a) && m' == Apply(m, a)
    requires forall e :: e in q ==> e.t != a.t
    ensures Describes(m', q, slot)
  {}

  lemma QueuedByOpening(s: State, a: Step, s': State)
    requires Queued(s.m, s.h.queues) && Enabled(s.m, a) && s' == Do(s, a) && Opens(s.m, a)
    requires LocalBounds(s.m, s.m.threads[a.t])
    ensures Queued(s'.m, s'.h.queues)
  {
    var slot, e := s'.m.threads[a.t].slot, Section(a.t, s'.m.threads[a.t]);
    assert s'.h.queues == s.h.queues[slot := s.h.queues[slot] + [e]];
    forall i | 0 <= i < |s'.h.queues|
      ensures Describes(s'.m, s'.h.queues[i], i)
    {
      DescribesKept(s.m, a, s'.m, s.h.queues[i], i);
      if i == slot { DescribesAppend(s'.m, s.h.queues[i], e, i); }
    }
    assert e in s'.h.queues[slot];
  }

  lemma DescribesAppend(m: Machine, q: seq<Section>, e: Section, slot: int)
    requires Describes(m, q, slot) && Describes(m, [e], slot)
    requires forall f :: f in q ==> f.t != e.t
    ensures Describes(m, q + [e], slot)
  {
    assert forall j :: 0 <= j < |q| ==> q[j] in q;
    assert e in [e];
  }

  lemma QueuedByClosing(s: State, a: Step, s': State)
    requires Queued(s.m, s.h.queues) && Enabled(s.m, a) && s' == Do(s, a) && a.Slot?
    ensures Queued(s'.m, s'.h.queues)
  {
    var slot := s.m.threads[a.t].slot;
    WithoutIs(s.h.queues[slot], a.t);
    WithoutIsDistinct(s.h.queues[slot], a.t);
    assert s'.h.queues == s.h.queues[slot := Without(s.h.queues[slot], a.t)];
    forall i | 0 <= i < |s'.h.queues|
      ensures Describes(s'.m, s'.h.queues[i], i)
    {
      DescribesKept(s.m, a, s'.m, s'.h.queues[i], i);
    }
  }

  lemma QueuedOtherwise(s: State, a: Step, s': State)
    requires Queued(s.m, s.h.queues) && Enabled(s.m, a) && s' == Do(s, a) && !Opens(s.m, a) && !a.Slot?
    ensures Queued(s'.m, s'.h.queues)
  {
    forall i | 0 <= i < |s'.h.queues|
      ensures Describes(s'.m, s'.h.queues[i], i)
    {
      DescribesKept(s.m, a, s'.m, s.h.queues[i], i);
    }
  }

  lemma QueuedStep(s: State, a: Step, s': State)
    requires Queued(s.m, s.h.queues) && Enabled(s.m, a) && s' == Do(s, a) && LocalBounds(s.m, s.m.threads[a.t])
    ensures Queued(s'.m, s'.h.queues)
  {
    if Opens(s.m, a) { QueuedByOpening(s, a, s'); }
    else if a.Slot? { QueuedByClosing(s, a, s'); }
    else { QueuedOtherwise(s, a, s'); }
  }

  // ----- Right values -----

  /** The Pops on the slot have been promised what they will find, and what it finally holds is
      the item of the specification stack. */
  ghost predicate SlotRight(s: State, i: int)
    requires Sized(s) && 0 <= i < |s.m.buffer|
  {
    var q := Queue(s.h.queues, i);
    && Promised(s.h.rec.trace, q, s.m.buffer[i])
    && (i < s.m.head ==> s.h.rec.stack[i] == After(q, s.m.buffer[i]))
  }

  ghost predicate Agrees(p: Thread, phase: Phase) {
    match p
    case Idle => phase == Free
    case PushCalled(v) => phase == Pending(Push(v))
    case PushCas(v, _) => phase == Pending(Push(v))
    case PushSlot(v, _) => phase == Applied(Push(v), Done)
    case PopCalled => phase == Pending(Pop)
    case PopCas(_) => phase == Pending(Pop)
    case PopSlot(_) => phase.Applied? && phase.op == Pop
    case Answer(r) => phase.Applied? && phase.result == r
  }

  ghost predicate Phases(s: State) {
    && (forall t :: 0 <= t < |s.m.threads| ==> Agrees(s.m.threads[t], PhaseOf(s.h.rec.trace, t)))
    && (forall who :: who < 0 || who >= |s.m.threads| ==> PhaseOf(s.h.rec.trace, who) == Free)
  }

  ghost predicate SlotsRight(s: State)
    requires Sized(s)
  {
    forall i :: 0 <= i < |s.m.buffer| ==> SlotRight(s, i)
  }

  lemma PhaseOfStep(s: State, a: Step, s': State, who: int)
    requires Enabled(s.m, a) && s' == Do(s, a)
    ensures PhaseOf(s'.h.rec.trace, who)
         == if s'.h.rec == s.h.rec then PhaseOf(s.h.rec.trace, who)
            else Advance(PhaseOf(s.h.rec.trace, who), s'.h.rec.Last(), who)
    ensures who != a.t ==> PhaseOf(s'.h.rec.trace, who) == PhaseOf(s.h.rec.trace, who)
  {
    OneEvent(s, a, s');
    PhaseAfter(Bound(s), s.h.rec, s'.h.rec, a.t, who);
  }

  /** The phases of the others stand still, so their promises do. */
  lemma PromisesOfOthers(s: State, a: Step, s': State, q: seq<Section>, held: int)
    requires Enabled(s.m, a) && s' == Do(s, a)
    requires Promised(s.h.rec.trace, q, held) && forall e :: e in q ==> e.t != a.t
    ensures Promised(s'.h.rec.trace, q, held)
  {
    forall e | e in q
      ensures PhaseOf(s'.h.rec.trace, e.t) == PhaseOf(s.h.rec.trace, e.t)
    {
      PhaseOfStep(s, a, s', e.t);
    }
    PromisedKept(s.h.rec.trace, s'.h.rec.trace, q, held);
  }

  lemma ItemElsewhere(s: State, a: Step, s': State, i: int)
    requires Sized(s) && Sized(s') && Enabled(s.m, a) && s' == Do(s, a) && 0 <= i < |s.m.buffer|
    requires Opens(s.m, a) ==> s'.m.threads[a.t].slot != i
    ensures i < s'.m.head ==> i < s.m.head && s'.h.rec.stack[i] == s.h.rec.stack[i]
  {}

  lemma QueueElsewhere(s: State, a: Step, s': State, i: int)
    requires Queued(s.m, s.h.queues) && Enabled(s.m, a) && s' == Do(s, a) && 0 <= i < |s.m.buffer|
    requires Opens(s.m, a) ==> s'.m.threads[a.t].slot != i
    requires a.Slot? ==> s.m.threads[a.t].slot != i
    ensures |s'.m.buffer| == |s.m.buffer| && s'.m.buffer[i] == s.m.buffer[i]
    ensures Queue(s'.h.queues, i) == s.h.queues[i] && forall e :: e in s.h.queues[i] ==> e.t != a.t
  {}

  /** A slot that the step has no business with. */
  lemma SlotRightElsewhere(s: State, a: Step, s': State, i: int)
    requires Sized(s) && Sized(s') && Queued(s.m, s.h.queues) && Enabled(s.m, a) && s' == Do(s, a)
    requires 0 <= i < |s.m.buffer| && SlotRight(s, i)
    requires Opens(s.m, a) ==> s'.m.threads[a.t].slot != i
    requires a.Slot? ==> s.m.threads[a.t].slot != i
    ensures |s'.m.buffer| == |s.m.buffer| && SlotRight(s', i)
  {
    ItemElsewhere(s, a, s', i);
    QueueElsewhere(s, a, s', i);
    PromisesOfOthers(s, a, s', s.h.queues[i], s.m.buffer[i]);
  }

  lemma SlotRightByOpening(s: State, a: Step, s': State)
    requires Sized(s) && Sized(s') && Queued(s.m, s.h.queues) && Enabled(s.m, a) && s' == Do(s, a)
    requires Opens(s.m, a) && LocalBounds(s.m, s.m.threads[a.t])
    requires Agrees(s.m.threads[a.t], PhaseOf(s.h.rec.trace, a.t))
    requires SlotRight(s, s'.m.threads[a.t].slot)
    ensures |s'.m.buffer| == |s.m.buffer| && SlotRight(s', s'.m.threads[a.t].slot)
    ensures Agrees(s'.m.threads[a.t], PhaseOf(s'.h.rec.trace, a.t))
  {
    var slot, e := s'.m.threads[a.t].slot, Section(a.t, s'.m.threads[a.t]);
    var q, held := s.h.queues[slot], s.m.buffer[slot];
    PhaseOfStep(s, a, s', a.t);
    PromisesOfOthers(s, a, s', q, held);
    AfterAppend(q, e, held);
    PromisedAppend(s'.h.rec.trace, q, e, held);
  }

  /** An access in its turn finds and leaves what was promised; one out of turn that spoils
      nothing makes no difference. */
  lemma SlotRightByClosing(s: State, a: Step, s': State)
    requires Sized(s) && Sized(s') && Queued(s.m, s.h.queues) && Enabled(s.m, a) && s' == Do(s, a)
    requires a.Slot? && !s'.h.spoiled
    requires Agrees(s.m.threads[a.t], PhaseOf(s.h.rec.trace, a.t))
    requires InBuffer(s.m, s.m.threads[a.t].slot) && SlotRight(s, s.m.threads[a.t].slot)
    ensures |s'.m.buffer| == |s.m.buffer| && SlotRight(s', s.m.threads[a.t].slot)
    ensures Agrees(s'.m.threads[a.t], PhaseOf(s'.h.rec.trace, a.t))
  {
    var p := s.m.threads[a.t];
    var q, held := s.h.queues[p.slot], s.m.buffer[p.slot];
    assert Section(a.t, p) in q;
    if InTurn(s.h, a.t, p.slot) {
      assert q[0] == Section(a.t, p);
    } else {
      assert Idempotent(q, held);
      AnyOrder(s.h.rec.trace, q, a.t, held);
    }
  }

  lemma SlotsRightStep(s: State, a: Step, s': State)
    requires Sized(s) && Sized(s') && Queued(s.m, s.h.queues) && Enabled(s.m, a) && s' == Do(s, a)
    requires LocalBounds(s.m, s.m.threads[a.t]) && Agrees(s.m.threads[a.t], PhaseOf(s.h.rec.trace, a.t))
    requires SlotsRight(s) && !s'.h.spoiled
    ensures SlotsRight(s')
  {
    forall i | 0 <= i < |s'.m.buffer|
      ensures SlotRight(s', i)
    {
      if Opens(s.m, a) && s'.m.threads[a.t].slot == i { SlotRightByOpening(s, a, s'); }
      else if a.Slot? && s.m.threads[a.t].slot == i { SlotRightByClosing(s, a, s'); }
      else { SlotRightElsewhere(s, a, s', i); }
    }
  }

  lemma AgreesOtherwise(s: State, a: Step, s': State)
    requires Enabled(s.m, a) && s' == Do(s, a) && !Opens(s.m, a) && !a.Slot?
    requires Sized(s) && Agrees(s.m.threads[a.t], PhaseOf(s.h.rec.trace, a.t))
    ensures Agrees(s'.m.threads[a.t], PhaseOf(s'.h.rec.trace, a.t))
  {
    PhaseOfStep(s, a, s', a.t);
  }

  lemma MoverAgrees(s: State, a: Step, s': State)
    requires Sized(s) && Sized(s') && Queued(s.m, s.h.queues) && Enabled(s.m, a) && s' == Do(s, a)
    requires LocalBounds(s.m, s.m.threads[a.t]) && Agrees(s.m.threads[a.t], PhaseOf(s.h.rec.trace, a.t))
    requires SlotsRight(s) && !s'.h.spoiled
    ensures Agrees(s'.m.threads[a.t], PhaseOf(s'.h.rec.trace, a.t))
  {
    if Opens(s.m, a) { SlotRightByOpening(s, a, s'); }
    else if a.Slot? { SlotRightByClosing(s, a, s'); }
    else { AgreesOtherwise(s, a, s'); }
  }

  lemma PhasesStep(s: State, a: Step, s': State)
    requires Sized(s) && Sized(s') && Queued(s.m, s.h.queues) && Enabled(s.m, a) && s' == Do(s, a)
    requires LocalBounds(s.m, s.m.threads[a.t]) && SlotsRight(s) && Phases(s) && !s'.h.spoiled
    ensures Phases(s')
  {
    forall t | 0 <= t < |s'.m.threads|
      ensures Agrees(s'.m.threads[t], PhaseOf(s'.h.rec.trace, t))
    {
      if t == a.t {
        MoverAgrees(s, a, s');
      } else {
        PhaseOfStep(s, a, s', t);
        assert s'.m.threads[t] == s.m.threads[t];
      }
    }
    forall who | who < 0 || who >= |s'.m.threads|
      ensures PhaseOf(s'.h.rec.trace, who) == Free
    {
      PhaseOfStep(s, a, s', who);
    }
  }

  ghost predicate Inv(s: State) {
    Counted(s) && Queued(s.m, s.h.queues) && (!s.h.spoiled ==> SlotsRight(s) && Phases(s))
  }

  lemma InvStep(s: State, a: Step, s': State)
    requires Inv(s) && Enabled(s.m, a) && s' == Do(s, a)
    ensures Inv(s')
  {
    CountedStep(s, a, s');
    QueuedStep(s, a, s');
    if !s'.h.spoiled {
      SlotsRightStep(s, a, s');
      PhasesStep(s, a, s');
    }
  }

  lemma InvOfReachable(s: State)
    requires Reachable(s)
    ensures Inv(s)
  {
    forall s, s' | Inv(s) && Next(s, s')
      ensures Inv(s')
    {
      var a :| Enabled(s.m, a) && s' == Do(s, a);
      InvStep(s, a, s');
    }
    Runs.InvariantOfReachable(Init, Next, Inv, s);
  }

  ghost predicate AllClosed(m: Machine) {
    forall t :: 0 <= t < |m.threads| ==> !Open(m.threads[t])
  }

  lemma QueuedIsOpen(m: Machine, q: seq<Section>, slot: int)
    requires Describes(m, q, slot) && q != []
    ensures !AllClosed(m)
  {
    assert q[0] in q;
  }

  lemma BufferIsStack(s: State)
    requires Inv(s) && !s.h.spoiled && AllClosed(s.m)
    ensures s.m.buffer[..s.m.head] == s.h.rec.stack
  {
    forall i | 0 <= i < s.m.head
      ensures s.m.buffer[i] == s.h.rec.stack[i]
    {
      assert SlotRight(s, i);
      if s.h.queues[i] != [] { QueuedIsOpen(s.m, s.h.queues[i], i); }
    }
  }

  /** A run of any number of threads refines a stack bounded by the capacity, with the
      compare-exchanges as the moments of effect, unless a slot was accessed out of turn while a
      pending write was to change it; in particular if all slot accesses came in order. */
  lemma RefinesBoundedStack(s: State)
    requires Reachable(s) && !s.h.spoiled
    ensures Linearizable(Bound(s), s.h.rec.trace)
    ensures AllClosed(s.m) ==> 0 <= s.m.head <= |s.m.buffer| && s.m.buffer[..s.m.head] == s.h.rec.stack
  {
    InvOfReachable(s);
    forall who
      ensures PhaseOf(s.h.rec.trace, who) != Broken
    {
      if 0 <= who < |s.m.threads| { assert Agrees(s.m.threads[who], PhaseOf(s.h.rec.trace, who)); }
    }
    if AllClosed(s.m) { BufferIsStack(s); }
  }

  // ----- Overlap, order and spoiling -----

  /** At most one section is open, and it concerns the slot that the index has just crossed. */
  ghost predicate Exclusive(m: Machine) {
    && (forall t, u :: 0 <= t < u < |m.threads| ==> !(Open(m.threads[t]) && Open(m.threads[u])))
    && (forall t :: 0 <= t < |m.threads| && Open(m.threads[t]) ==>
      m.threads[t].slot == if m.threads[t].PushSlot? then m.head - 1 else m.head)
  }

  ghost predicate Ordered(s: State) {
    && Counted(s) && Queued(s.m, s.h.queues)
    && (!s.h.overlap ==> Exclusive(s.m) && s.h.inOrder)
    && (s.h.inOrder ==> !s.h.spoiled)
  }

  lemma ExclusiveStep(s: State, a: Step, s': State)
    requires Exclusive(s.m) && Enabled(s.m, a) && s' == Do(s, a) && !s'.h.overlap
    ensures Exclusive(s'.m)
  {
    if Opens(s.m, a) {
      assert !OthersOpen(s.m, a.t);
      assert forall u :: 0 <= u < |s.m.threads| && u != a.t ==> !Open(s.m.threads[u]);
    }
  }

  lemma AloneInTurn(s: State, t: nat)
    requires Queued(s.m, s.h.queues) && Exclusive(s.m) && t < |s.m.threads| && Open(s.m.threads[t])
    ensures InTurn(s.h, t, s.m.threads[t].slot)
  {
    var q := Queue(s.h.queues, s.m.threads[t].slot);
    assert q[0] in q && Open(s.m.threads[q[0].t]);
  }

  lemma OrderedStep(s: State, a: Step, s': State)
    requires Ordered(s) && Enabled(s.m, a) && s' == Do(s, a)
    ensures Ordered(s')
  {
    CountedStep(s, a, s');
    QueuedStep(s, a, s');
    if !s'.h.overlap {
      ExclusiveStep(s, a, s');
      if a.Slot? { AloneInTurn(s, a.t); }
    }
  }

  /** Without overlap the accesses come in order, and in order they spoil nothing. */
  lemma OrderOfReachable(s: State)
    requires Reachable(s)
    ensures !s.h.overlap ==> Exclusive(s.m) && s.h.inOrder
    ensures s.h.inOrder ==> !s.h.spoiled
  {
    forall s, s' | Ordered(s) && Next(s, s')
      ensures Ordered(s')
    {
      var a :| Enabled(s.m, a) && s' == Do(s, a);
      OrderedStep(s, a, s');
    }
    Runs.InvariantOfReachable(Init, Next, Ordered, s);
  }
}
