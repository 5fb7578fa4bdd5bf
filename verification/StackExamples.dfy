/** Runs of the linked stack that show what its invariant has to allow. */
module StackExamples {
  import opened Linearizability
  import opened LockFreeStack
  import Runs

  lemma Go(s: State, a: Step) returns (s': State)
    requires Reachable(s) && Enabled(s.m, a)
    ensures Reachable(s') && s'.m == Apply(s.m, a)
  {
    s' := Do(s, a);
    assert Next(s, s');
    Runs.ReachableByStep(Init, Next, s, s');
  }

  /** Producer `t` runs a Push undisturbed up to its compare-exchange. */
  lemma HalfPush(s: State, t: nat, value: int, addr: Addr) returns (s': State)
    requires Reachable(s) && t < |s.m.producers| && s.m.producers[t] == PIdle && addr != NULL && addr !in s.m.heap
    ensures Reachable(s')
    ensures s'.m == s.m.(heap := s.m.heap[addr := Node(value, s.m.head)],
                         producers := s.m.producers[t := PCas(addr, s.m.head)])
  {
    s' := Go(s, CallPush(t, value));
    s' := Go(s', New(t, addr));
    s' := Go(s', LoadHead(t));
    s' := Go(s', StoreNext(t));
    s' := Go(s', ReadExpected(t));
    assert s'.m.heap == s.m.heap[addr := Node(value, s.m.head)];
  }

  lemma WholePush(s: State, t: nat, value: int, addr: Addr) returns (s': State)
    requires Reachable(s) && t < |s.m.producers| && s.m.producers[t] == PIdle && addr != NULL && addr !in s.m.heap
    ensures Reachable(s')
    ensures s'.m == s.m.(head := addr, heap := s.m.heap[addr := Node(value, s.m.head)])
  {
    s' := HalfPush(s, t, value, addr);
    s' := Go(s', PushCas(t, false));
    s' := Go(s', ReturnPush(t));
    assert s'.m.producers == s.m.producers;
  }

  /** The consumer runs a Pop undisturbed up to its compare-exchange. */
  lemma HalfPop(s: State) returns (s': State)
    requires Reachable(s) && s.m.consumer == CIdle && s.m.head != NULL && s.m.head in s.m.heap
    ensures Reachable(s') && s'.m == s.m.(consumer := CCas(s.m.head, s.m.heap[s.m.head].next))
  {
    s' := Go(s, CallPop);
    s' := Go(s', PopLoad);
    s' := Go(s', ReadNext);
  }

  lemma WholePop(s: State) returns (s': State)
    requires Reachable(s) && s.m.consumer == CIdle && s.m.head != NULL && s.m.head in s.m.heap
    ensures Reachable(s')
    ensures s'.m == s.m.(head := s.m.heap[s.m.head].next, heap := s.m.heap - {s.m.head})
  {
    s' := HalfPop(s);
    s' := Go(s', PopCas(false));
    s' := Go(s', MoveData);
    s' := Go(s', Delete);
    s' := Go(s', ReturnPop);
  }

  /** A producer's expected pointer can outlive the node it points to, and the address can
      come back as a different node with the same compare-exchange about to succeed on it. */
  lemma ExpectedMayDangleAndComeBack() returns (dangling: State, back: State)
    ensures Reachable(dangling) && Reachable(back)
    ensures |dangling.m.producers| == 2 && dangling.m.producers[1].PCas?
    ensures dangling.m.producers[1].expected != NULL && dangling.m.producers[1].expected !in dangling.m.heap
    ensures back.m.producers == dangling.m.producers
    ensures back.m.head in back.m.heap && PushWins(back.m, 1, false)
  {
    var s := State(Machine(NULL, map[], [PIdle, PIdle], CIdle, false), History(BLANK, [], 0));
    Runs.ReachableInitially(Init, Next, s);
    s := WholePush(s, 0, 7, 1);
    s := HalfPush(s, 1, 8, 2);
    dangling := WholePop(s);
    back := WholePush(dangling, 0, 9, 1);
  }
}
