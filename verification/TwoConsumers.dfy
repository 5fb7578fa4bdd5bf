/** The linked stack with a second consumer: why its one consumer has to be the only one.

    Both consumers run the same Pop. The second one steps as the first one would in its place. */
module TwoConsumers {
  import opened LockFreeStack
  import opened LockFreeStackProof
  import Runs

  datatype Pair = Pair(m: Machine, second: Consumer)

  function Swap(p: Pair): Pair {
    Pair(p.m.(consumer := p.second), p.m.consumer)
  }

  /** `second` tells which consumer moves; the producers move as before. */
  datatype Move = Move(a: Step, second: bool)

  predicate MoveEnabled(p: Pair, b: Move) {
    if b.second then !ByProducer(b.a) && Enabled(Swap(p).m, b.a) else Enabled(p.m, b.a)
  }

  function Make(p: Pair, b: Move): Pair
    requires MoveEnabled(p, b)
  {
    if b.second then Swap(Pair(Apply(Swap(p).m, b.a), p.m.consumer)) else p.(m := Apply(p.m, b.a))
  }

  ghost predicate PairInit(p: Pair) {
    && p.m.head == NULL && p.m.heap == map[] && !p.m.fault
    && p.m.consumer == CIdle && p.second == CIdle
    && forall t :: 0 <= t < |p.m.producers| ==> p.m.producers[t] == PIdle
  }

  ghost predicate PairNext(p: Pair, q: Pair) {
    exists b :: MoveEnabled(p, b) && q == Make(p, b)
  }

  ghost predicate PairReachable(p: Pair) {
    Runs.Reachable(PairInit, PairNext, p)
  }

  lemma Go(p: Pair, a: Step, second: bool) returns (q: Pair)
    requires PairReachable(p) && MoveEnabled(p, Move(a, second))
    ensures PairReachable(q) && q == Make(p, Move(a, second))
  {
    q := Make(p, Move(a, second));
    assert PairNext(p, q);
    Runs.ReachableByStep(PairInit, PairNext, p, q);
  }

  lemma HalfPush(p: Pair, value: int, addr: Addr) returns (q: Pair)
    requires PairReachable(p) && p.m.producers == [PIdle] && addr != NULL && addr !in p.m.heap
    ensures PairReachable(q)
    ensures q == p.(m := p.m.(heap := p.m.heap[addr := Node(value, NULL)], producers := [PLoaded(addr, p.m.head)]))
  {
    q := Go(p, CallPush(0, value), false);
    q := Go(q, New(0, addr), false);
    q := Go(q, LoadHead(0), false);
  }

  lemma WholePush(p: Pair, value: int, addr: Addr) returns (q: Pair)
    requires PairReachable(p) && p.m.producers == [PIdle] && addr != NULL && addr !in p.m.heap
    ensures PairReachable(q)
    ensures q == p.(m := p.m.(head := addr, heap := p.m.heap[addr := Node(value, p.m.head)]))
  {
    q := HalfPush(p, value, addr);
    q := Go(q, StoreNext(0), false);
    q := Go(q, ReadExpected(0), false);
    q := Go(q, PushCas(0, false), false);
    q := Go(q, ReturnPush(0), false);
    assert q.m.heap == p.m.heap[addr := Node(value, p.m.head)];
  }

  lemma SecondLooks(p: Pair) returns (q: Pair)
    requires PairReachable(p) && p.second == CIdle && p.m.head != NULL && p.m.head in p.m.heap
    ensures PairReachable(q)
    ensures q == p.(second := CCas(p.m.head, p.m.heap[p.m.head].next))
  {
    q := Go(p, CallPop, true);
    q := Go(q, PopLoad, true);
    q := Go(q, ReadNext, true);
  }

  lemma SecondTakes(p: Pair) returns (q: Pair)
    requires PairReachable(p) && p.second == CIdle && p.m.head != NULL && p.m.head in p.m.heap
    ensures PairReachable(q)
    ensures q == p.(m := p.m.(head := p.m.heap[p.m.head].next), second := CWon(p.m.head))
  {
    q := SecondLooks(p);
    q := Go(q, PopCas(false), true);
  }

  lemma SecondPops(p: Pair) returns (q: Pair)
    requires PairReachable(p) && p.second == CIdle && p.m.head != NULL && p.m.head in p.m.heap
    ensures PairReachable(q)
    ensures q == p.(m := p.m.(head := p.m.heap[p.m.head].next, heap := p.m.heap - {p.m.head}))
  {
    q := SecondTakes(p);
    q := Go(q, MoveData, true);
    q := Go(q, Delete, true);
    q := Go(q, ReturnPop, true);
  }

  lemma OnePushed() returns (p: Pair)
    ensures PairReachable(p)
    ensures p == Pair(Machine(1, map[1 := Node(7, NULL)], [PIdle], CIdle, false), CIdle)
  {
    p := Pair(Machine(NULL, map[], [PIdle], CIdle, false), CIdle);
    Runs.ReachableInitially(PairInit, PairNext, p);
    p := WholePush(p, 7, 1);
  }

  /** With one producer and two consumers memory is not safe: one consumer reads a node that the
      other has freed. */
  lemma SecondConsumerFaults() returns (p: Pair)
    ensures PairReachable(p) && |p.m.producers| == 1 && p.m.fault
  {
    p := OnePushed();
    p := Go(p, CallPop, false);
    p := Go(p, PopLoad, false);
    p := SecondPops(p);
    p := Go(p, ReadNext, false);
  }

  /** Nor is it enough never to touch freed memory: without any fault so far, a winning Pop makes
      a freed node the head, because the address it expects came back as a different node. */
  lemma SecondConsumerMeetsReusedAddress() returns (p: Pair, q: Pair)
    ensures PairReachable(p) && PairReachable(q) && |p.m.producers| == 1 && !q.m.fault
    ensures p.m.consumer.CCas? && PopWins(p.m, false) && q == Make(p, Move(PopCas(false), false))
    ensures p.m.consumer.next != Read(p.m, p.m.head).next
    ensures q.m.head != NULL && q.m.head !in q.m.heap
  {
    p := OnePushed();
    p := WholePush(p, 8, 2);
    p := Go(p, CallPop, false);
    p := Go(p, PopLoad, false);
    p := Go(p, ReadNext, false);
    p := SecondPops(p);
    p := SecondPops(p);
    p := WholePush(p, 9, 2);
    q := Go(p, PopCas(false), false);
  }
}
