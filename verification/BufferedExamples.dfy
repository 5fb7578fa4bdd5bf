/** Runs of the array stack with one producer and one consumer in which a Pop overlaps a Push. */
module BufferedExamples {
  import opened StackSpec
  import opened Linearizability
  import opened BufferedStack
  import opened BufferedOrder
  import opened BufferedSpsc
  import Runs

  lemma Go(s: State, a: Step) returns (s': State)
    requires SpscReachable(s) && Enabled(s.m, a) && ByRole(a)
    ensures SpscReachable(s') && s' == Do(s, a)
  {
    s' := Do(s, a);
    assert SpscNext(s, s');
    Runs.ReachableByStep(SpscInit, SpscNext, s, s');
  }

  const WRITER := Section(PRODUCER, PushSlot(7, 0))
  const READER := Section(CONSUMER, PopSlot(0))
  const PUBLISHED: seq<Event> := [Invoke(PRODUCER, Push(7)), Effect(PRODUCER, Push(7), Done)]
  const TAKEN: seq<Event> := PUBLISHED + [Invoke(CONSUMER, Pop), Effect(CONSUMER, Pop, Value(7))]

  /** 7 is pushed as far as the index goes, and not yet written. */
  const UNWRITTEN := State(Machine(1, [0], [PushSlot(7, 0), Idle], false),
                           History(Record([7], PUBLISHED), [[WRITER]], false, true, false))

  /** The consumer has taken it, and the slot is still to be written and read. */
  const MET := State(Machine(0, [0], [PushSlot(7, 0), PopSlot(0)], false),
                     History(Record([], TAKEN), [[WRITER, READER]], true, true, false))

  const EMPTY := State(Machine(0, [0], [Idle, Idle], false), History(BLANK, [[]], false, true, false))

  lemma EmptyIsReachable()
    ensures SpscReachable(EMPTY)
  {
    assert EMPTY.h.queues == seq(1, _ => []);
    Runs.ReachableInitially(SpscInit, SpscNext, EMPTY);
  }

  lemma UnwrittenIsReachable()
    ensures SpscReachable(UNWRITTEN)
  {
    EmptyIsReachable();
    var s := Go(EMPTY, Call(PRODUCER, Push(7)));
    s := Go(s, Load(PRODUCER));
    s := Go(s, Cas(PRODUCER, false));
    assert s.h.rec.trace == PUBLISHED;
    assert s.h.rec == UNWRITTEN.h.rec;
    assert s.h.queues[0] == [WRITER] && s.h.queues == UNWRITTEN.h.queues;
    assert s.m.threads == UNWRITTEN.m.threads;
  }

  lemma MetIsReachable()
    ensures SpscReachable(MET)
  {
    UnwrittenIsReachable();
    var s := Go(UNWRITTEN, Call(CONSUMER, Pop));
    s := Go(s, Load(CONSUMER));
    assert Open(s.m.threads[PRODUCER]);
    s := Go(s, Cas(CONSUMER, false));
    assert s.h.rec.trace == TAKEN;
    assert s.h.rec == MET.h.rec;
    assert s.h.queues[0] == [WRITER, READER] && s.h.queues == MET.h.queues;
    assert s.m.threads == MET.m.threads;
  }

  /** Sections may overlap and the values still be right: the producer writes before the consumer
      reads. */
  lemma OverlapCanBeInOrder() returns (s: State)
    ensures SpscReachable(s) && s.h.overlap && s.h.inOrder
    ensures s.h.rec.Last() == Return(CONSUMER, Value(7)) && Linearizable(Bound(s), s.h.rec.trace)
  {
    MetIsReachable();
    s := Go(MET, Slot(PRODUCER));
    s := Go(s, Slot(CONSUMER));
    s := Go(s, Leave(CONSUMER));
    SpscIsReachable(s);
    OrderOfReachable(s);
    RefinesBoundedStack(s);
  }

  lemma StaleRun() returns (s: State)
    ensures SpscReachable(s) && s.h.overlap && !s.h.inOrder
    ensures s.h.rec.trace == TAKEN + [Return(CONSUMER, Value(0))]
  {
    MetIsReachable();
    s := Go(MET, Slot(CONSUMER));
    s := Go(s, Leave(CONSUMER));
  }

  /** The consumer takes a slot that the producer has published and not yet written: 7 is pushed,
      and Pop returns the initial content of the buffer. No choice of the moments of effect makes
      sense of these calls and returns. */
  lemma OverlapCanReturnStaleValue() returns (s: State)
    ensures SpscReachable(s) && s.h.overlap && !s.h.inOrder
    ensures Effect(PRODUCER, Push(7), Done) in s.h.rec.trace && s.h.rec.Last() == Return(CONSUMER, Value(0))
    ensures forall trace :: Interface(trace) == Interface(s.h.rec.trace) ==> !Linearizable(Bound(s), trace)
  {
    s := StaleRun();
    assert s.h.rec.trace[1] == Effect(PRODUCER, Push(7), Done);
    forall trace | Interface(trace) == Interface(s.h.rec.trace)
      ensures !Linearizable(Bound(s), trace)
    {
      StaleAnswer(Bound(s), trace);
    }
  }

  lemma StaleAnswer(limit: Limit, trace: seq<Event>)
    requires Interface(trace) == Interface(TAKEN + [Return(CONSUMER, Value(0))])
    ensures !Linearizable(limit, trace)
  {
    var stale := TAKEN + [Return(CONSUMER, Value(0))];
    InterfaceKeeps(stale, Return(CONSUMER, Value(0)));
    InterfaceKeeps(trace, Return(CONSUMER, Value(0)));
    var j :| 0 <= j < |trace| && trace[j] == Return(CONSUMER, Value(0));
    forall who
      ensures Invoke(who, Push(0)) !in trace
    {
      InterfaceKeeps(stale, Invoke(who, Push(0)));
      InterfaceKeeps(trace, Invoke(who, Push(0)));
    }
    if Linearizable(limit, trace) { AnswersWerePushed(limit, trace, j); }
  }
}
