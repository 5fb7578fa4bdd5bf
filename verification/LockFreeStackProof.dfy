/** Every run of the linked stack is memory safe and refines the mutex-based stack. */
module LockFreeStackProof {
  import opened StackSpec
  import opened Linearizability
  import opened LockFreeStack
  import Runs

  /** The producer has allocated a node that it has not published. */
  predicate HasNode(p: Producer) {
    p.PAllocated? || p.PLoaded? || p.PReady? || p.PCas? || p.PFailed?
  }

  /** The consumer looks at a node that may still be in the list. */
  predicate Watches(c: Consumer) { c.CLoaded? || c.CCas? }

  /** The consumer has unlinked a node and not yet deleted it. */
  predicate Holds(c: Consumer) { c.CWon? || c.CMoved? }

  /** `chain` is the list that starts at `head`, bottom first. */
  ghost predicate Linked(heap: map<Addr, Node>, head: Addr, chain: seq<Addr>) {
    && (forall i :: 0 <= i < |chain| ==> chain[i] != NULL && chain[i] in heap)
    && head == (if chain == [] then NULL else chain[|chain| - 1])
    && (chain != [] ==> heap[chain[0]].next == NULL)
    && (forall i, j :: 0 <= i && j == i + 1 && j < |chain| ==> heap[chain[j]].next == chain[i])
    && (forall i, j :: 0 <= i < j < |chain| ==> chain[i] != chain[j])
  }

  /** Taking the top node off leaves the list that starts at its successor. */
  lemma LinkedBelow(heap: map<Addr, Node>, head: Addr, chain: seq<Addr>)
    requires Linked(heap, head, chain) && chain != []
    ensures Linked(heap, heap[head].next, chain[..|chain| - 1])
  {
    if |chain| > 1 { assert heap[chain[|chain| - 1]].next == chain[|chain| - 2]; }
  }

  /** Each unpublished node is allocated and out of the list; a compare-exchange in flight
      expects what the node links to. */
  ghost predicate Unpublished(m: Machine, chain: seq<Addr>) {
    forall t :: 0 <= t < |m.producers| && HasNode(m.producers[t]) ==>
      && m.producers[t].node != NULL
      && m.producers[t].node in m.heap
      && m.producers[t].node !in chain
      && (m.producers[t].PCas? ==> m.heap[m.producers[t].node].next == m.producers[t].expected)
  }

  /** It belongs to one producer alone. */
  ghost predicate Unshared(m: Machine) {
    forall t, u :: 0 <= t < u < |m.producers| && HasNode(m.producers[t]) && HasNode(m.producers[u]) ==>
      m.producers[t].node != m.producers[u].node
  }

  /** What the consumer looks at is still linked, with the successor it read; what it holds is
      allocated, out of the list and nobody else's. */
  ghost predicate Consuming(m: Machine, chain: seq<Addr>) {
    && (Watches(m.consumer) ==> m.consumer.node in chain && m.consumer.node in m.heap)
    && (m.consumer.CCas? ==> m.heap[m.consumer.node].next == m.consumer.next)
    && (Holds(m.consumer) ==>
      && m.consumer.node in m.heap
      && m.consumer.node !in chain
      && forall t :: 0 <= t < |m.producers| && HasNode(m.producers[t]) ==> m.producers[t].node != m.consumer.node)
  }

  /** Nothing else is allocated. */
  ghost predicate Accounted(m: Machine, chain: seq<Addr>) {
    forall a :: a in m.heap ==>
      || a in chain
      || (Holds(m.consumer) && a == m.consumer.node)
      || exists t :: 0 <= t < |m.producers| && HasNode(m.producers[t]) && m.producers[t].node == a
  }

  ghost predicate Memory(m: Machine, chain: seq<Addr>) {
    && !m.fault && Linked(m.heap, m.head, chain) && Unpublished(m, chain) && Unshared(m)
    && Consuming(m, chain) && Accounted(m, chain)
  }

  // Preservation, one part of the invariant at a time, first for the producers' steps and
  // then for the consumer's.

  predicate ByProducer(a: Step) {
    || a.CallPush? || a.New? || a.LoadHead? || a.StoreNext?
    || a.ReadExpected? || a.PushCas? || a.WriteBack? || a.ReturnPush?
  }

  lemma LinkedByProducer(s: State, a: Step, s': State)
    requires !s.m.fault && Linked(s.m.heap, s.m.head, s.h.chain) && Unpublished(s.m, s.h.chain)
    requires Enabled(s.m, a) && s' == Do(s, a) && ByProducer(a)
    ensures !s'.m.fault && Linked(s'.m.heap, s'.m.head, s'.h.chain)
  {}

  lemma LinkedByConsumer(s: State, a: Step, s': State)
    requires !s.m.fault && Linked(s.m.heap, s.m.head, s.h.chain) && Consuming(s.m, s.h.chain)
    requires Enabled(s.m, a) && s' == Do(s, a) && !ByProducer(a)
    ensures !s'.m.fault && Linked(s'.m.heap, s'.m.head, s'.h.chain)
  {}

  lemma UnpublishedByProducer(s: State, a: Step, s': State)
    requires Linked(s.m.heap, s.m.head, s.h.chain) && Unpublished(s.m, s.h.chain) && Unshared(s.m)
    requires Enabled(s.m, a) && s' == Do(s, a) && ByProducer(a)
    ensures Unpublished(s'.m, s'.h.chain)
  {
    assert forall t :: 0 <= t < |s.m.producers| && t != a.t ==> s'.m.producers[t] == s.m.producers[t];
  }

  lemma UnpublishedByConsumer(s: State, a: Step, s': State)
    requires Unpublished(s.m, s.h.chain) && Consuming(s.m, s.h.chain)
    requires Enabled(s.m, a) && s' == Do(s, a) && !ByProducer(a)
    ensures Unpublished(s'.m, s'.h.chain)
  {}

  lemma UnsharedByProducer(s: State, a: Step, s': State)
    requires Unpublished(s.m, s.h.chain) && Unshared(s.m)
    requires Enabled(s.m, a) && s' == Do(s, a) && ByProducer(a)
    ensures Unshared(s'.m)
  {
    assert forall t :: 0 <= t < |s.m.producers| && t != a.t ==> s'.m.producers[t] == s.m.producers[t];
  }

  lemma UnsharedByConsumer(s: State, a: Step, s': State)
    requires Unshared(s.m) && Enabled(s.m, a) && s' == Do(s, a) && !ByProducer(a)
    ensures Unshared(s'.m)
  {}

  lemma ConsumingByProducer(s: State, a: Step, s': State)
    requires Linked(s.m.heap, s.m.head, s.h.chain) && Unpublished(s.m, s.h.chain) && Consuming(s.m, s.h.chain)
    requires Enabled(s.m, a) && s' == Do(s, a) && ByProducer(a)
    ensures Consuming(s'.m, s'.h.chain)
  {}

  lemma ConsumingByConsumer(s: State, a: Step, s': State)
    requires Linked(s.m.heap, s.m.head, s.h.chain) && Unpublished(s.m, s.h.chain) && Consuming(s.m, s.h.chain)
    requires Enabled(s.m, a) && s' == Do(s, a) && !ByProducer(a)
    ensures Consuming(s'.m, s'.h.chain)
  {}

  lemma AccountedByProducer(s: State, a: Step, s': State)
    requires Memory(s.m, s.h.chain) && Enabled(s.m, a) && s' == Do(s, a) && ByProducer(a)
    ensures Accounted(s'.m, s'.h.chain)
  {
    var ps, ps' := s.m.producers, s'.m.producers;
    forall addr | addr in s'.m.heap
      ensures || addr in s'.h.chain
              || (Holds(s'.m.consumer) && addr == s'.m.consumer.node)
              || exists t :: 0 <= t < |ps'| && HasNode(ps'[t]) && ps'[t].node == addr
    {
      if t :| 0 <= t < |ps| && HasNode(ps[t]) && ps[t].node == addr {
        assert addr in s'.h.chain || (HasNode(ps'[t]) && ps'[t].node == addr);
      } else if a.New? && addr == a.addr {
        assert ps'[a.t].node == addr;
      }
    }
  }

  lemma AccountedByConsumer(s: State, a: Step, s': State)
    requires Memory(s.m, s.h.chain) && Enabled(s.m, a) && s' == Do(s, a) && !ByProducer(a)
    ensures Accounted(s'.m, s'.h.chain)
  {}

  lemma MemoryStep(s: State, a: Step, s': State)
    requires Memory(s.m, s.h.chain) && Enabled(s.m, a) && s' == Do(s, a)
    ensures Memory(s'.m, s'.h.chain)
  {
    if ByProducer(a) {
      LinkedByProducer(s, a, s');
      UnpublishedByProducer(s, a, s');
      UnsharedByProducer(s, a, s');
      ConsumingByProducer(s, a, s');
      AccountedByProducer(s, a, s');
    } else {
      LinkedByConsumer(s, a, s');
      UnpublishedByConsumer(s, a, s');
      UnsharedByConsumer(s, a, s');
      ConsumingByConsumer(s, a, s');
      AccountedByConsumer(s, a, s');
    }
  }

  // ----- Refinement -----

  /** The list holds the values of the specification stack. */
  ghost predicate Values(s: State) {
    && |s.h.rec.stack| == |s.h.chain|
    && forall i :: 0 <= i < |s.h.chain| ==> Read(s.m, s.h.chain[i]).data == s.h.rec.stack[i]
  }

  lemma ValuesByProducer(s: State, a: Step, s': State)
    requires Linked(s.m.heap, s.m.head, s.h.chain) && Unpublished(s.m, s.h.chain)
    requires Values(s) && Enabled(s.m, a) && s' == Do(s, a) && ByProducer(a)
    ensures Values(s')
  {}

  lemma ValuesStep(s: State, a: Step, s': State)
    requires Linked(s.m.heap, s.m.head, s.h.chain) && Unpublished(s.m, s.h.chain) && Consuming(s.m, s.h.chain)
    requires Values(s) && Enabled(s.m, a) && s' == Do(s, a)
    ensures Values(s')
  {
    if ByProducer(a) { ValuesByProducer(s, a, s'); }
  }

  /** What the trace says about a producer is what its program counter says. */
  ghost predicate ProducerAgrees(m: Machine, p: Producer, phase: Phase) {
    match p
    case PIdle => phase == Free
    case PCalled(v) => phase == Pending(Push(v))
    case PDone => phase.Applied? && phase.result == Done
    case _ => phase == Pending(Push(Read(m, p.node).data))
  }

  ghost predicate ConsumerAgrees(m: Machine, phase: Phase) {
    match m.consumer
    case CIdle => phase == Free
    case CWon(node) => phase == Applied(Pop, Value(Read(m, node).data))
    case CMoved(_, v) => phase == Applied(Pop, Value(v))
    case CDone(r) => phase == Applied(Pop, r)
    case _ => phase == Pending(Pop)
  }

  ghost predicate Phases(s: State) {
    && (forall t :: 0 <= t < |s.m.producers| ==> ProducerAgrees(s.m, s.m.producers[t], PhaseOf(s.h.rec.trace, t)))
    && ConsumerAgrees(s.m, PhaseOf(s.h.rec.trace, CONSUMER))
    && (forall who :: who < CONSUMER || who >= |s.m.producers| ==> PhaseOf(s.h.rec.trace, who) == Free)
  }

  ghost predicate Recording(s: State) {
    s.h.rec.Sound(Unbounded) && Phases(s)
  }

  function Mover(a: Step): int {
    if ByProducer(a) then a.t else CONSUMER
  }

  lemma OneEvent(s: State, a: Step, s': State)
    requires Enabled(s.m, a) && s' == Do(s, a)
    ensures Follows(Unbounded, s.h.rec, s'.h.rec, Mover(a))
    ensures s'.h.rec != s.h.rec && s'.h.rec.Last().Invoke? <==> a.CallPush? || a.CallPop?
  {}

  lemma TraceOfStep(s: State, a: Step, s': State, who: int)
    requires Enabled(s.m, a) && s' == Do(s, a)
    ensures PhaseOf(s'.h.rec.trace, who)
         == if s'.h.rec == s.h.rec then PhaseOf(s.h.rec.trace, who)
            else Advance(PhaseOf(s.h.rec.trace, who), s'.h.rec.Last(), who)
    ensures who != Mover(a) ==> PhaseOf(s'.h.rec.trace, who) == PhaseOf(s.h.rec.trace, who)
  {
    OneEvent(s, a, s');
    PhaseAfter(Unbounded, s.h.rec, s'.h.rec, Mover(a), who);
  }

  /** No step changes the data of a node that somebody still needs. */
  lemma DataKept(s: State, a: Step, s': State, node: Addr)
    requires Enabled(s.m, a) && s' == Do(s, a)
    requires node in s.m.heap && (a.Delete? ==> node != s.m.consumer.node)
    ensures node in s'.m.heap && s'.m.heap[node].data == s.m.heap[node].data
  {}

  lemma MovingProducer(s: State, a: Step, s': State)
    requires Enabled(s.m, a) && s' == Do(s, a) && ByProducer(a)
    requires HasNode(s.m.producers[a.t]) ==> s.m.producers[a.t].node in s.m.heap
    requires ProducerAgrees(s.m, s.m.producers[a.t], PhaseOf(s.h.rec.trace, a.t))
    ensures ProducerAgrees(s'.m, s'.m.producers[a.t], PhaseOf(s'.h.rec.trace, a.t))
  {
    TraceOfStep(s, a, s', a.t);
  }

  lemma WaitingProducer(s: State, a: Step, s': State, t: nat)
    requires Unpublished(s.m, s.h.chain) && Consuming(s.m, s.h.chain) && Enabled(s.m, a) && s' == Do(s, a)
    requires t < |s.m.producers| && t != Mover(a)
    requires ProducerAgrees(s.m, s.m.producers[t], PhaseOf(s.h.rec.trace, t))
    ensures ProducerAgrees(s'.m, s'.m.producers[t], PhaseOf(s'.h.rec.trace, t))
  {
    TraceOfStep(s, a, s', t);
    assert s'.m.producers[t] == s.m.producers[t];
    if HasNode(s.m.producers[t]) { DataKept(s, a, s', s.m.producers[t].node); }
  }

  lemma WaitingConsumer(s: State, a: Step, s': State)
    requires Consuming(s.m, s.h.chain) && Enabled(s.m, a) && s' == Do(s, a) && ByProducer(a)
    requires ConsumerAgrees(s.m, PhaseOf(s.h.rec.trace, CONSUMER))
    ensures ConsumerAgrees(s'.m, PhaseOf(s'.h.rec.trace, CONSUMER))
  {
    TraceOfStep(s, a, s', CONSUMER);
    if Holds(s.m.consumer) { DataKept(s, a, s', s.m.consumer.node); }
  }

  /** The consumer's program counter and the trace agree; in particular the value read after
      the compare-exchange is the top of the specification stack at the compare-exchange. */
  lemma MovingConsumer(s: State, a: Step, s': State)
    requires Linked(s.m.heap, s.m.head, s.h.chain) && Consuming(s.m, s.h.chain) && Values(s)
    requires Enabled(s.m, a) && s' == Do(s, a) && !ByProducer(a)
    requires ConsumerAgrees(s.m, PhaseOf(s.h.rec.trace, CONSUMER))
    ensures ConsumerAgrees(s'.m, PhaseOf(s'.h.rec.trace, CONSUMER))
  {
    TraceOfStep(s, a, s', CONSUMER);
  }

  lemma RecordingStep(s: State, a: Step, s': State)
    requires Memory(s.m, s.h.chain) && Values(s) && Recording(s) && Enabled(s.m, a) && s' == Do(s, a)
    ensures Recording(s')
  {
    OneEvent(s, a, s');
    SoundAfter(Unbounded, s.h.rec, s'.h.rec, Mover(a));
    if ByProducer(a) { WaitingConsumer(s, a, s'); } else { MovingConsumer(s, a, s'); }
    forall t | 0 <= t < |s'.m.producers|
      ensures ProducerAgrees(s'.m, s'.m.producers[t], PhaseOf(s'.h.rec.trace, t))
    {
      if t == Mover(a) { MovingProducer(s, a, s'); } else { WaitingProducer(s, a, s', t); }
    }
    forall who | who < CONSUMER || who >= |s'.m.producers|
      ensures PhaseOf(s'.h.rec.trace, who) == Free
    {
      TraceOfStep(s, a, s', who);
    }
  }

  ghost predicate Inv(s: State) {
    Memory(s.m, s.h.chain) && Values(s) && Recording(s)
  }

  lemma NeverBroken(s: State, who: int)
    requires Inv(s)
    ensures PhaseOf(s.h.rec.trace, who) != Broken
  {
    if 0 <= who < |s.m.producers| {
      assert ProducerAgrees(s.m, s.m.producers[who], PhaseOf(s.h.rec.trace, who));
    }
  }

  lemma InvStep(s: State, a: Step, s': State)
    requires Inv(s) && Enabled(s.m, a) && s' == Do(s, a)
    ensures Inv(s')
  {
    MemoryStep(s, a, s');
    ValuesStep(s, a, s');
    RecordingStep(s, a, s');
  }

  lemma InvOfReachable(s: State)
    requires Reachable(s)
    ensures Inv(s)
  {
    forall s, s' | Inv(s) && Next(s, s')
      ensures Inv(s')
    {
      var a :| Enabled(s.m, a) && s' == Do(s, a);
      InvStep(s, a, s');
    }
    Runs.InvariantOfReachable(Init, Next, Inv, s);
  }
}
