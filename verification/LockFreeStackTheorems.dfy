/** What every run of the linked stack guarantees, stated on the machine and the trace alone. */
module LockFreeStackTheorems {
  import opened StackSpec
  import opened Linearizability
  import opened LockFreeStack
  import opened LockFreeStackProof
  import Runs

  // ----- Refinement -----

  /** Following `next` from `head` meets exactly `values`, top first, and then the null pointer. */
  ghost predicate ListHolds(heap: map<Addr, Node>, head: Addr, values: seq<int>)
    decreases |values|
  {
    if values == [] then head == NULL
    else
      && head != NULL && head in heap
      && heap[head].data == values[|values| - 1]
      && ListHolds(heap, heap[head].next, values[..|values| - 1])
  }

  lemma {:induction false} LinkedHolds(heap: map<Addr, Node>, head: Addr, chain: seq<Addr>, values: seq<int>)
    requires Linked(heap, head, chain) && |values| == |chain|
    requires forall i :: 0 <= i < |chain| ==> heap[chain[i]].data == values[i]
    ensures ListHolds(heap, head, values)
    decreases |chain|
  {
    if chain != [] {
      LinkedBelow(heap, head, chain);
      LinkedHolds(heap, heap[head].next, chain[..|chain| - 1], values[..|values| - 1]);
    }
  }

  /** Every run refines the mutex-based stack: the trace is linearizable, and the list in the
      heap holds what its effects leave on that stack. */
  lemma RefinesMutexStack(s: State)
    requires Reachable(s)
    ensures Linearizable(Unbounded, s.h.rec.trace)
    ensures ListHolds(s.m.heap, s.m.head, Replay(Unbounded, s.h.rec.trace).items)
  {
    InvOfReachable(s);
    LinkedHolds(s.m.heap, s.m.head, s.h.chain, s.h.rec.stack);
    forall who
      ensures PhaseOf(s.h.rec.trace, who) != Broken
    {
      NeverBroken(s, who);
    }
  }

  // ----- Safe reclamation -----

  datatype Field = DataField | NextField

  datatype Access = Access(addr: Addr, field: Field, write: bool)

  /** The plain memory accesses of a step. Moving a value out and deleting count as writes. */
  function Accesses(m: Machine, a: Step): set<Access>
    requires Enabled(m, a)
  {
    match a
    case New(_, addr) => {Access(addr, DataField, true), Access(addr, NextField, true)}
    case StoreNext(t) => {Access(m.producers[t].node, NextField, true)}
    case ReadExpected(t) => {Access(m.producers[t].node, NextField, false)}
    case WriteBack(t) => {Access(m.producers[t].node, NextField, true)}
    case ReadNext => {Access(m.consumer.node, NextField, false)}
    case MoveData => {Access(m.consumer.node, DataField, true)}
    case Delete => {Access(m.consumer.node, DataField, true), Access(m.consumer.node, NextField, true)}
    case _ => {}
  }

  /** The same memory, and at least one of the two writes it. */
  predicate Conflict(x: Access, y: Access) {
    x.addr == y.addr && x.field == y.field && (x.write || y.write)
  }

  /** No reachable step goes through a dangling pointer or frees memory twice. */
  lemma NoDanglingAccess(s: State, a: Step)
    requires Reachable(s) && Enabled(s.m, a)
    ensures !s.m.fault && !Apply(s.m, a).fault
    ensures forall x :: x in Accesses(s.m, a) && !a.New? ==> x.addr in s.m.heap
  {
    InvOfReachable(s);
    MemoryStep(s, a, Do(s, a));
  }

  /** No two threads are ever about to touch the same field with one of them writing. (That
      `new` serves two threads at once with different blocks is the allocator's business.) */
  lemma NoDataRace(s: State, a: Step, b: Step, x: Access, y: Access)
    requires Reachable(s) && Enabled(s.m, a) && Enabled(s.m, b) && Mover(a) != Mover(b) && !(a.New? && b.New?)
    requires x in Accesses(s.m, a) && y in Accesses(s.m, b)
    ensures !Conflict(x, y)
  {
    InvOfReachable(s);
  }

  /** A winning Pop installs the successor that the head has at that very moment, whatever
      addresses were freed and reused since the consumer read it. */
  lemma PopInstallsTrueSuccessor(s: State, spurious: bool)
    requires Reachable(s) && s.m.consumer.CCas? && PopWins(s.m, spurious)
    ensures s.m.head in s.m.heap && s.m.consumer.next == s.m.heap[s.m.head].next
    ensures s.h.rec.stack != [] && ListHolds(s.m.heap, s.m.consumer.next, s.h.rec.stack[..|s.h.rec.stack| - 1])
  {
    RefinesMutexStack(s);
    InvOfReachable(s);
  }

  /** A producer's expected pointer may dangle, but when its compare-exchange wins the node it
      publishes links to the whole stack as it is. */
  lemma PushLinksWholeStack(s: State, t: nat, spurious: bool)
    requires Reachable(s) && t < |s.m.producers| && s.m.producers[t].PCas? && PushWins(s.m, t, spurious)
    ensures var m := Apply(s.m, PushCas(t, spurious));
            m.head in m.heap && m.heap[m.head].next == s.m.head
            && ListHolds(m.heap, m.head, s.h.rec.stack + [m.heap[m.head].data])
  {
    InvOfReachable(s);
    var s' := Do(s, PushCas(t, spurious));
    assert Next(s, s');
    Runs.ReachableByStep(Init, Next, s, s');
    InvOfReachable(s');
    RefinesMutexStack(s');
  }

  /** The Pop has seen a non-null head, or has its value already. */
  predicate Committed(c: Consumer) {
    Watches(c) || Holds(c) || (c.CDone? && c.result.Value?)
  }

  /** The step is the return of a Pop with a value. */
  ghost predicate PopReturnsValue(s: State, s': State) {
    && s.m.consumer.CDone? && s.m.consumer.result.Value?
    && s'.h.rec.trace == s.h.rec.trace + [Return(CONSUMER, s.m.consumer.result)]
  }

  lemma CommittedStep(s: State, a: Step, s': State)
    requires Memory(s.m, s.h.chain) && Committed(s.m.consumer) && Enabled(s.m, a) && s' == Do(s, a)
    ensures if s'.m.consumer == CIdle then PopReturnsValue(s, s') else Committed(s'.m.consumer)
  {}

  lemma CommittedNext(s: State, s': State)
    requires Reachable(s) && Committed(s.m.consumer) && Next(s, s')
    ensures if s'.m.consumer == CIdle then PopReturnsValue(s, s') else Committed(s'.m.consumer)
  {
    InvOfReachable(s);
    var a :| Enabled(s.m, a) && s' == Do(s, a);
    CommittedStep(s, a, s');
  }

  lemma WatchedHeadIsNotNull(s: State)
    requires Reachable(s) && Watches(s.m.consumer)
    ensures s.m.head != NULL
  {
    InvOfReachable(s);
  }

  /** A Pop that has seen a non-null head finds the stack non-empty, and it returns a value: if
      it looks at a node in state `k` and is over in state `l` for the first time, then the step
      to `l` is its return with a value. */
  lemma SeenHeadIsPopped(run: seq<State>, k: nat, l: nat)
    requires Runs.IsRun(Init, Next, run) && k < l < |run| && Watches(run[k].m.consumer)
    requires run[l].m.consumer == CIdle && forall j :: k < j < l ==> run[j].m.consumer != CIdle
    ensures run[k].m.head != NULL
    ensures PopReturnsValue(run[l - 1], run[l])
  {
    Runs.ReachableInRun(Init, Next, run, k);
    WatchedHeadIsNotNull(run[k]);
    forall s, s' | Reachable(s) && Committed(s.m.consumer) && Next(s, s')
      ensures Committed(s'.m.consumer) || s'.m.consumer == CIdle
    {
      CommittedNext(s, s');
    }
    Runs.HoldsUntilLeft(Init, Next, (s: State) => Committed(s.m.consumer), (s: State) => s.m.consumer == CIdle,
                        run, k, l);
    CommittedNext(run[l - 1], run[l]);
  }

  // ----- Accounting of memory -----

  function Follow(heap: map<Addr, Node>, p: Addr, n: nat): Addr
    decreases n
  {
    if n == 0 || p == NULL || p !in heap then p else Follow(heap, heap[p].next, n - 1)
  }

  /** The node is reachable from the head pointer. */
  ghost predicate InList(m: Machine, a: Addr) {
    a != NULL && exists n: nat :: Follow(m.heap, m.head, n) == a
  }

  ghost predicate PrivateTo(m: Machine, t: nat, a: Addr) {
    t < |m.producers| && HasNode(m.producers[t]) && m.producers[t].node == a
  }

  ghost predicate Held(m: Machine, a: Addr) {
    Holds(m.consumer) && m.consumer.node == a
  }

  lemma {:induction false} FollowChain(heap: map<Addr, Node>, head: Addr, chain: seq<Addr>, n: nat)
    requires Linked(heap, head, chain)
    ensures Follow(heap, head, n) == if n < |chain| then chain[|chain| - n - 1] else NULL
    decreases n
  {
    if n > 0 && chain != [] {
      LinkedBelow(heap, head, chain);
      FollowChain(heap, heap[head].next, chain[..|chain| - 1], n - 1);
    }
  }

  lemma InListIsChain(s: State, a: Addr)
    requires Memory(s.m, s.h.chain)
    ensures InList(s.m, a) <==> a in s.h.chain
  {
    var chain := s.h.chain;
    if InList(s.m, a) {
      var n: nat :| Follow(s.m.heap, s.m.head, n) == a;
      FollowChain(s.m.heap, s.m.head, chain, n);
    }
    if a in chain {
      var i :| 0 <= i < |chain| && chain[i] == a;
      FollowChain(s.m.heap, s.m.head, chain, |chain| - i - 1);
    }
  }

  /** The list is acyclic: it ends at the null pointer after one node for each value. */
  lemma ListEnds(s: State)
    requires Reachable(s)
    ensures Follow(s.m.heap, s.m.head, |s.h.rec.stack|) == NULL
    ensures forall i, j :: 0 <= i < j <= |s.h.rec.stack| ==>
      Follow(s.m.heap, s.m.head, i) != Follow(s.m.heap, s.m.head, j)
  {
    InvOfReachable(s);
    forall n: nat | n <= |s.h.rec.stack|
      ensures Follow(s.m.heap, s.m.head, n) == if n < |s.h.chain| then s.h.chain[|s.h.chain| - n - 1] else NULL
    {
      FollowChain(s.m.heap, s.m.head, s.h.chain, n);
    }
  }

  /** What is allocated is linked, private to a producer or held by the consumer, never two of
      these and never with two owners; what is neither has been freed. */
  lemma OwnedExactlyOnce(s: State, a: Addr)
    requires Reachable(s)
    ensures a in s.m.heap <==> InList(s.m, a) || Held(s.m, a) || exists t: nat :: PrivateTo(s.m, t, a)
    ensures !(InList(s.m, a) && Held(s.m, a))
    ensures forall t: nat :: PrivateTo(s.m, t, a) ==> !InList(s.m, a) && !Held(s.m, a)
    ensures forall t: nat, u: nat :: PrivateTo(s.m, t, a) && PrivateTo(s.m, u, a) ==> t == u
  {
    InvOfReachable(s);
    InListIsChain(s, a);
    if a in s.m.heap && !InList(s.m, a) && !Held(s.m, a) {
      var t :| 0 <= t < |s.m.producers| && HasNode(s.m.producers[t]) && s.m.producers[t].node == a;
      assert PrivateTo(s.m, t, a);
    }
  }

  /** When all threads are between operations, exactly the linked nodes are allocated. */
  lemma NothingLeakedAtRest(s: State)
    requires Reachable(s) && s.m.consumer == CIdle
    requires forall t :: 0 <= t < |s.m.producers| ==> s.m.producers[t] == PIdle
    ensures Linked(s.m.heap, s.m.head, s.h.chain)
    ensures s.m.heap.Keys == set a | a in s.h.chain
  {
    InvOfReachable(s);
  }
}
