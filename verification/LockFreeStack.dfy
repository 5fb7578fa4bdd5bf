/** The linked lock-free stack: any number of producers and one consumer.

    The machine state is what the program holds: the head pointer, the heap, and the program
    counter and locals of each thread. A step names the thread that moves and whatever the
    environment chooses: the address that `new` returns, and whether a weak compare-exchange
    fails spuriously. The allocator may return any address that is not allocated at that
    moment, in particular one that was freed before. */
module LockFreeStack {
  import opened StackSpec
  import opened Linearizability
  import Runs

  type Addr = nat
  const NULL: Addr := 0

  datatype Node = Node(data: int, next: Addr)

  /** Inside Push. `node` is the local newHead. */
  datatype Producer =
    | PIdle
    | PCalled(value: int)
    | PAllocated(node: Addr)             // before loading the head
    | PLoaded(node: Addr, seen: Addr)    // before storing it in node->next
    | PReady(node: Addr)                 // before the compare-exchange reads node->next
    | PCas(node: Addr, expected: Addr)   // before its atomic part
    | PFailed(node: Addr, seen: Addr)    // before it writes what it saw back to node->next
    | PDone

  /** Inside Pop. `node` is the local oldHead. */
  datatype Consumer =
    | CIdle
    | CCalled
    | CLoaded(node: Addr)                // before reading node->next
    | CCas(node: Addr, next: Addr)       // before the atomic part of the compare-exchange
    | CWon(node: Addr)                   // before reading node->data
    | CMoved(node: Addr, value: int)     // before delete node
    | CDone(result: Result)

  /** `fault` is raised by reading or writing through a pointer to memory that is not
      allocated and by deleting such memory. */
  datatype Machine = Machine(head: Addr, heap: map<Addr, Node>, producers: seq<Producer>,
                             consumer: Consumer, fault: bool)

  datatype Step =
    | CallPush(t: nat, value: int)
    | New(t: nat, addr: Addr)
    | LoadHead(t: nat)
    | StoreNext(t: nat)
    | ReadExpected(t: nat)
    | PushCas(t: nat, spurious: bool)
    | WriteBack(t: nat)
    | ReturnPush(t: nat)
    | CallPop
    | PopLoad
    | ReadNext
    | PopCas(spurious: bool)
    | MoveData
    | Delete
    | ReturnPop

  predicate Enabled(m: Machine, a: Step) {
    match a
    case CallPush(t, _) => t < |m.producers| && m.producers[t].PIdle?
    case New(t, addr) => t < |m.producers| && m.producers[t].PCalled? && addr != NULL && addr !in m.heap
    case LoadHead(t) => t < |m.producers| && m.producers[t].PAllocated?
    case StoreNext(t) => t < |m.producers| && m.producers[t].PLoaded?
    case ReadExpected(t) => t < |m.producers| && m.producers[t].PReady?
    case PushCas(t, _) => t < |m.producers| && m.producers[t].PCas?
    case WriteBack(t) => t < |m.producers| && m.producers[t].PFailed?
    case ReturnPush(t) => t < |m.producers| && m.producers[t].PDone?
    case CallPop => m.consumer.CIdle?
    case PopLoad => m.consumer.CCalled?
    case ReadNext => m.consumer.CLoaded?
    case PopCas(_) => m.consumer.CCas?
    case MoveData => m.consumer.CWon?
    case Delete => m.consumer.CMoved?
    case ReturnPop => m.consumer.CDone?
  }

  function At(m: Machine, t: nat, p: Producer): Machine
    requires t < |m.producers|
  {
    m.(producers := m.producers[t := p])
  }

  /** A plain read through a pointer. */
  function Read(m: Machine, a: Addr): Node {
    if a in m.heap then m.heap[a] else Node(0, NULL)
  }

  /** A plain write of `a->next`. */
  function WriteNext(m: Machine, a: Addr, next: Addr): Machine {
    if a in m.heap then m.(heap := m.heap[a := m.heap[a].(next := next)]) else m.(fault := true)
  }

  function Touch(m: Machine, a: Addr): Machine {
    m.(fault := m.fault || a !in m.heap)
  }

  /** The loop test of Pop on a freshly seen head. */
  function AfterSeeing(head: Addr): Consumer {
    if head == NULL then CDone(Empty) else CLoaded(head)
  }

  predicate PushWins(m: Machine, t: nat, spurious: bool)
    requires t < |m.producers| && m.producers[t].PCas?
  {
    !spurious && m.head == m.producers[t].expected
  }

  predicate PopWins(m: Machine, spurious: bool)
    requires m.consumer.CCas?
  {
    !spurious && m.head == m.consumer.node
  }

  function Apply(m: Machine, a: Step): Machine
    requires Enabled(m, a)
  {
    match a
    case CallPush(t, value) => At(m, t, PCalled(value))
    case New(t, addr) =>
      At(m, t, PAllocated(addr)).(heap := m.heap[addr := Node(m.producers[t].value, NULL)])
    case LoadHead(t) => At(m, t, PLoaded(m.producers[t].node, m.head))
    case StoreNext(t) =>
      var p := m.producers[t];
      WriteNext(At(m, t, PReady(p.node)), p.node, p.seen)
    case ReadExpected(t) =>
      var p := m.producers[t];
      Touch(At(m, t, PCas(p.node, Read(m, p.node).next)), p.node)
    case PushCas(t, spurious) =>
      var p := m.producers[t];
      if PushWins(m, t, spurious) then At(m, t, PDone).(head := p.node)
      else At(m, t, PFailed(p.node, m.head))
    case WriteBack(t) =>
      var p := m.producers[t];
      WriteNext(At(m, t, PReady(p.node)), p.node, p.seen)
    case ReturnPush(t) => At(m, t, PIdle)
    case CallPop => m.(consumer := CCalled)
    case PopLoad => m.(consumer := AfterSeeing(m.head))
    case ReadNext =>
      var node := m.consumer.node;
      Touch(m.(consumer := CCas(node, Read(m, node).next)), node)
    case PopCas(spurious) =>
      var c := m.consumer;
      if PopWins(m, spurious) then m.(head := c.next, consumer := CWon(c.node))
      else m.(consumer := AfterSeeing(m.head))
    case MoveData =>
      var node := m.consumer.node;
      Touch(m.(consumer := CMoved(node, Read(m, node).data)), node)
    case Delete =>
      var c := m.consumer;
      Touch(m, c.node).(heap := m.heap - {c.node}, consumer := CDone(Value(c.value)))
    case ReturnPop => m.(consumer := CIdle)
  }

  // ----- Histories: they watch the machine and never influence it -----

  const CONSUMER := -1

  /** The record, the nodes that hold the values of its stack (bottom first), and the number of
      compare-exchanges that failed although the head was what they expected. */
  datatype History = History(rec: Record, chain: seq<Addr>, spurious: nat)

  function TakeEffect(h: History, who: int, op: Op): History {
    h.(rec := h.rec.Take(Unbounded, who, op))
  }

  function Note(h: History, e: Event): History {
    h.(rec := h.rec.Note(e))
  }

  function AllButTop(c: seq<Addr>): seq<Addr> { if c == [] then [] else c[..|c| - 1] }

  function Observe(h: History, m: Machine, a: Step): History
    requires Enabled(m, a)
  {
    match a
    case CallPush(t, value) => Note(h, Invoke(t, Push(value)))
    case PushCas(t, spurious) =>
      var p := m.producers[t];
      if PushWins(m, t, spurious) then
        TakeEffect(h, t, Push(Read(m, p.node).data)).(chain := h.chain + [p.node])
      else if m.head != p.expected then Note(h, Retry(t))
      else h.(spurious := h.spurious + 1)
    case ReturnPush(t) => Note(h, Return(t, Done))
    case CallPop => Note(h, Invoke(CONSUMER, Pop))
    case PopLoad => if m.head == NULL then TakeEffect(h, CONSUMER, Pop) else h
    case PopCas(spurious) =>
      if PopWins(m, spurious) then TakeEffect(h, CONSUMER, Pop).(chain := AllButTop(h.chain))
      else if m.head == NULL then TakeEffect(h, CONSUMER, Pop)
      else if m.head != m.consumer.node then Note(h, Retry(CONSUMER))
      else h.(spurious := h.spurious + 1)
    case ReturnPop => Note(h, Return(CONSUMER, m.consumer.result))
    case _ => h
  }

  datatype State = State(m: Machine, h: History)

  function Do(s: State, a: Step): State
    requires Enabled(s.m, a)
  {
    State(Apply(s.m, a), Observe(s.h, s.m, a))
  }

  ghost predicate Init(s: State) {
    && s.m.head == NULL && s.m.heap == map[] && s.m.consumer == CIdle && !s.m.fault
    && (forall t :: 0 <= t < |s.m.producers| ==> s.m.producers[t] == PIdle)
    && s.h == History(BLANK, [], 0)
  }

  ghost predicate Next(s: State, s': State) {
    exists a :: Enabled(s.m, a) && s' == Do(s, a)
  }

  ghost predicate Reachable(s: State) {
    Runs.Reachable(Init, Next, s)
  }
}
