/** The array stack: an atomic index and a fixed buffer whose slots are plain memory.

    The compare-exchange on the index publishes a slot before the slot is written, and
    releases it before the slot is read. */
module BufferedStack {
  import opened StackSpec
  import opened Linearizability
  import Runs

  /** Inside Push and Pop; `top` is the local of that name. */
  datatype Thread =
    | Idle
    | PushCalled(value: int)
    | PushCas(value: int, top: int)      // before the compare-exchange
    | PushSlot(value: int, slot: int)    // before the write of the slot
    | PopCalled
    | PopCas(top: int)
    | PopSlot(slot: int)                 // before the read of the slot
    | Answer(result: Result)             // before the return

  /** `fault` is raised by an access outside the buffer and by signed overflow. */
  datatype Machine = Machine(head: int, buffer: seq<int>, threads: seq<Thread>, fault: bool)

  datatype Step =
    | Call(t: nat, op: Op)
    | Load(t: nat)
    | Cas(t: nat, spurious: bool)
    | Slot(t: nat)
    | Leave(t: nat)

  const INT_MAX := 0x7fff_ffff

  /** The conversion of an int to size_t in the comparison with the capacity. */
  function SizeT(x: int): nat {
    x % 0x1_0000_0000_0000_0000
  }

  predicate Enabled(m: Machine, a: Step) {
    && a.t < |m.threads|
    && match a
       case Call(t, _) => m.threads[t].Idle?
       case Load(t) => m.threads[t].PushCalled? || m.threads[t].PopCalled?
       case Cas(t, _) => m.threads[t].PushCas? || m.threads[t].PopCas?
       case Slot(t) => m.threads[t].PushSlot? || m.threads[t].PopSlot?
       case Leave(t) => m.threads[t].Answer?
  }

  predicate Wins(m: Machine, t: nat, spurious: bool)
    requires t < |m.threads| && (m.threads[t].PushCas? || m.threads[t].PopCas?)
  {
    !spurious && m.head == m.threads[t].top
  }

  predicate InBuffer(m: Machine, slot: int) { 0 <= slot < |m.buffer| }

  /** The thread's program counter after the step. */
  function Moved(m: Machine, a: Step): Thread
    requires Enabled(m, a)
  {
    var p := m.threads[a.t];
    match a
    case Call(_, op) => if op.Push? then PushCalled(op.value) else PopCalled
    case Load(_) =>
      if p.PushCalled? then
        if SizeT(m.head) == |m.buffer| then Answer(Full) else PushCas(p.value, m.head)
      else
        if m.head == 0 then Answer(Empty) else PopCas(m.head)
    case Cas(t, spurious) =>
      if Wins(m, t, spurious) then
        if p.PushCas? then PushSlot(p.value, p.top) else PopSlot(p.top - 1)
      else
        if p.PushCas? then PushCalled(p.value) else PopCalled
    case Slot(_) =>
      if p.PushSlot? then Answer(Done)
      else Answer(Value(if InBuffer(m, p.slot) then m.buffer[p.slot] else 0))
    case Leave(_) => Idle
  }

  function Apply(m: Machine, a: Step): Machine
    requires Enabled(m, a)
  {
    var p := m.threads[a.t];
    var m' := m.(threads := m.threads[a.t := Moved(m, a)]);
    match a
    case Cas(t, spurious) =>
      var desired := if p.PushCas? then p.top + 1 else p.top - 1;
      m'.(head := if Wins(m, t, spurious) then desired else m.head,
          fault := m.fault || !(-INT_MAX - 1 <= desired <= INT_MAX))
    case Slot(_) =>
      if !InBuffer(m, p.slot) then m'.(fault := true)
      else if p.PushSlot? then m'.(buffer := m.buffer[p.slot := p.value])
      else m'
    case _ => m'
  }

  // ----- Histories -----

  /** Between its compare-exchange and its slot access. */
  predicate Open(p: Thread) { p.PushSlot? || p.PopSlot? }

  /** A thread with an open section, and what it is about to do there. */
  datatype Section = Section(t: nat, p: Thread)

  /** `queues` lists for each slot the open sections on it, in the order of their
      compare-exchanges. `overlap` records that a compare-exchange succeeded inside another
      thread's open section; `inOrder`, that the accesses to each slot have come in the order of
      the queue; `spoiled`, that one came out of turn while a write pending on the slot was to
      change what the slot held. */
  datatype History = History(rec: Record, queues: seq<seq<Section>>, overlap: bool, inOrder: bool, spoiled: bool)

  function Queue(queues: seq<seq<Section>>, slot: int): seq<Section> {
    if 0 <= slot < |queues| then queues[slot] else []
  }

  function WithQueue(queues: seq<seq<Section>>, slot: int, q: seq<Section>): seq<seq<Section>> {
    if 0 <= slot < |queues| then queues[slot := q] else queues
  }

  function Without(q: seq<Section>, t: nat): seq<Section> {
    if q == [] then [] else if q[0].t == t then q[1..] else [q[0]] + Without(q[1..], t)
  }

  ghost predicate OthersOpen(m: Machine, t: nat) {
    exists u :: 0 <= u < |m.threads| && u != t && Open(m.threads[u])
  }

  /** The thread's section is the oldest on its slot. */
  predicate InTurn(h: History, t: nat, slot: int) {
    var q := Queue(h.queues, slot);
    q != [] && q[0].t == t
  }

  ghost predicate WriteChanges(m: Machine, slot: int) {
    exists u :: 0 <= u < |m.threads| && m.threads[u].PushSlot? && m.threads[u].slot == slot
                && InBuffer(m, slot) && m.threads[u].value != m.buffer[slot]
  }

  /** The operation that a thread is in before its compare-exchange. */
  function Operation(p: Thread): Op {
    if p.PushCalled? || p.PushCas? then Push(p.value) else Pop
  }

  ghost function Observe(h: History, m: Machine, a: Step): History
    requires Enabled(m, a)
  {
    var p, p' := m.threads[a.t], Moved(m, a);
    var limit := Capacity(|m.buffer|);
    match a
    case Call(t, op) => h.(rec := h.rec.Note(Invoke(t, op)))
    case Load(t) => if p'.Answer? then h.(rec := h.rec.Take(limit, t, Operation(p))) else h
    case Cas(t, spurious) =>
      if Wins(m, t, spurious) then
        h.(rec := h.rec.Take(limit, t, Operation(p)), overlap := h.overlap || OthersOpen(m, t),
           queues := WithQueue(h.queues, p'.slot, Queue(h.queues, p'.slot) + [Section(t, p')]))
      else if m.head != p.top then h.(rec := h.rec.Note(Retry(t)))
      else h
    case Slot(t) =>
      h.(queues := WithQueue(h.queues, p.slot, Without(Queue(h.queues, p.slot), t)),
         inOrder := h.inOrder && InTurn(h, t, p.slot),
         spoiled := h.spoiled || (!InTurn(h, t, p.slot) && WriteChanges(m, p.slot)))
    case Leave(t) => h.(rec := h.rec.Note(Return(t, p.result)))
  }

  datatype State = State(m: Machine, h: History)

  ghost function Do(s: State, a: Step): State
    requires Enabled(s.m, a)
  {
    State(Apply(s.m, a), Observe(s.h, s.m, a))
  }

  ghost predicate Init(s: State) {
    && s.m.head == 0 && |s.m.buffer| <= INT_MAX && !s.m.fault
    && (forall i :: 0 <= i < |s.m.buffer| ==> s.m.buffer[i] == 0)
    && (forall t :: 0 <= t < |s.m.threads| ==> s.m.threads[t] == Idle)
    && s.h == History(BLANK, seq(|s.m.buffer|, _ => []), false, true, false)
  }

  ghost predicate Next(s: State, s': State) {
    exists a :: Enabled(s.m, a) && s' == Do(s, a)
  }

  ghost predicate Reachable(s: State) {
    Runs.Reachable(Init, Next, s)
  }

  function Bound(s: State): Limit {
    Capacity(|s.m.buffer|)
  }

  // ----- The index, for any number of threads and any interleaving -----

  ghost predicate LocalBounds(m: Machine, p: Thread) {
    && (p.PushCas? ==> 0 <= p.top < |m.buffer|)
    && (p.PopCas? ==> 0 < p.top <= |m.buffer|)
    && (Open(p) ==> InBuffer(m, p.slot))
  }

  ghost predicate Sized(s: State) {
    0 <= s.m.head == |s.h.rec.stack| <= |s.m.buffer| <= INT_MAX
  }

  ghost predicate Counted(s: State) {
    && !s.m.fault
    && Sized(s)
    && (forall t :: 0 <= t < |s.m.threads| ==> LocalBounds(s.m, s.m.threads[t]))
    && s.h.rec.Sound(Bound(s))
  }

  lemma OneEvent(s: State, a: Step, s': State)
    requires Enabled(s.m, a) && s' == Do(s, a)
    ensures Follows(Bound(s), s.h.rec, s'.h.rec, a.t)
    ensures |s'.m.buffer| == |s.m.buffer| && |s'.m.threads| == |s.m.threads|
  {}

  lemma SizedStep(s: State, a: Step, s': State)
    requires Sized(s) && !s.m.fault && Enabled(s.m, a) && LocalBounds(s.m, s.m.threads[a.t]) && s' == Do(s, a)
    ensures Sized(s') && !s'.m.fault && LocalBounds(s'.m, s'.m.threads[a.t])
  {}

  lemma CountedStep(s: State, a: Step, s': State)
    requires Counted(s) && Enabled(s.m, a) && s' == Do(s, a)
    ensures Counted(s')
  {
    OneEvent(s, a, s');
    SoundAfter(Bound(s), s.h.rec, s'.h.rec, a.t);
    SizedStep(s, a, s');
    forall t | 0 <= t < |s'.m.threads| && t != a.t
      ensures LocalBounds(s'.m, s'.m.threads[t])
    {
      assert s'.m.threads[t] == s.m.threads[t];
    }
  }

  lemma CountedOfReachable(s: State)
    requires Reachable(s)
    ensures Counted(s)
  {
    forall s, s' | Counted(s) && Next(s, s')
      ensures Counted(s')
    {
      var a :| Enabled(s.m, a) && s' == Do(s, a);
      CountedStep(s, a, s');
    }
    Runs.InvariantOfReachable(Init, Next, Counted, s);
  }

  /** The step is a winning compare-exchange. */
  predicate Opens(m: Machine, a: Step)
    requires Enabled(m, a)
  {
    a.Cas? && Wins(m, a.t, a.spurious)
  }

  /** What a step pushes: at most the value of one Push. */
  function PushedNow(m: Machine, a: Step): seq<int>
    requires Enabled(m, a)
  {
    if Opens(m, a) && m.threads[a.t].PushCas? then [m.threads[a.t].value] else []
  }

  /** The one event that pushes is the winning compare-exchange of a Push. */
  lemma PushingEvent(s: State, a: Step, s': State)
    requires Sized(s) && Enabled(s.m, a) && s' == Do(s, a) && LocalBounds(s.m, s.m.threads[a.t])
    ensures PushedNow(s.m, a) == if s'.h.rec == s.h.rec then [] else PushedBy(s'.h.rec.Last())
  {}

  lemma PushedOfStep(s: State, a: Step, s': State)
    requires Sized(s) && Enabled(s.m, a) && s' == Do(s, a) && LocalBounds(s.m, s.m.threads[a.t])
    ensures Pushed(s'.h.rec.trace) == Pushed(s.h.rec.trace) + PushedNow(s.m, a)
  {
    OneEvent(s, a, s');
    PushingEvent(s, a, s');
    if s'.h.rec != s.h.rec { PushedAppend(s.h.rec.trace, s'.h.rec.Last()); }
  }

  /** No conversion of an index changes it. */
  lemma SizeTOfIndex(x: int)
    requires 0 <= x <= 2147483647
    ensures SizeT(x) == x
  {}

  /** For any number of threads and any interleaving, the index is the number of successful
      pushes less the number of successful pops and lies between 0 and the capacity; every slot
      that is about to be accessed is in the buffer, nothing overflows, and comparing the index
      with the capacity as size_t answers exactly whether the stack is full. */
  lemma IndexIsExact(s: State, t: nat)
    requires Reachable(s) && t < |s.m.threads|
    ensures s.m.head == |Pushed(s.h.rec.trace)| - |Popped(s.h.rec.trace)|
    ensures 0 <= s.m.head <= |s.m.buffer| <= 2147483647
    ensures !s.m.fault && (Open(s.m.threads[t]) ==> InBuffer(s.m, s.m.threads[t].slot))
    ensures SizeT(s.m.head) == |s.m.buffer| <==> |s.h.rec.stack| == |s.m.buffer|
  {
    CountedOfReachable(s);
    SizeTOfIndex(s.m.head);
    ConservedCount(Bound(s), s.h.rec.trace);
    assert LocalBounds(s.m, s.m.threads[t]);
  }
}
