/** What the two loops of a driver make of the trace: the producer pushes 0, 1, .., n - 1, each
    until it succeeds, and the consumer calls Pop until it has received n values. */
module DriverLoops {
  import opened StackSpec
  import opened Linearizability
  import opened OutputShape
  import opened Sums

  /** `i` and `consumed` are the loop variables. */
  datatype Loops = Loops(n: nat, i: nat, consumed: nat)

  function ReturnedBy(e: Event, consumer: int): seq<int> {
    if e.Return? && e.who == consumer && e.result.Value? then [e.result.value] else []
  }

  /** What the calls of Pop returned to the consumer loop, in order. */
  function Output(trace: seq<Event>, consumer: int): seq<int> {
    if trace == [] then []
    else Output(trace[..|trace| - 1], consumer) + ReturnedBy(trace[|trace| - 1], consumer)
  }

  /** Popped but not yet returned. */
  function InHand(phase: Phase): seq<int> {
    if phase.Applied? && phase.result.Value? then [phase.result.value] else []
  }

  /** The pushes that have succeeded are the completed iterations and perhaps the current one. */
  ghost predicate PushLoop(pushed: seq<int>, phase: Phase, i: nat, n: nat) {
    && i <= n
    && (phase != Free ==> i < n && phase != Broken && phase.op == Push(i))
    && pushed == Numbers(if phase.Applied? && phase.result == Done then i + 1 else i)
  }

  /** The values popped are those returned and perhaps the one in hand. */
  ghost predicate PopLoop(popped: seq<int>, output: seq<int>, phase: Phase, consumed: nat, n: nat) {
    && popped == output + InHand(phase)
    && |output| == consumed <= n
    && (phase != Free ==> consumed < n && phase != Broken && phase.op == Pop)
  }

  ghost predicate InLoops(trace: seq<Event>, l: Loops, producer: int, consumer: int) {
    && PushLoop(Pushed(trace), PhaseOf(trace, producer), l.i, l.n)
    && PopLoop(Popped(trace), Output(trace, consumer), PhaseOf(trace, consumer), l.consumed, l.n)
  }

  /** The event is one that the loops allow. */
  predicate Fits(l: Loops, e: Event, producer: int, consumer: int) {
    if e.who == producer then (e.Invoke? ==> l.i < l.n && e.op == Push(l.i)) && PoppedBy(e) == []
    else e.who == consumer && (e.Invoke? ==> l.consumed < l.n && e.op == Pop) && PushedBy(e) == []
  }

  /** The loop variables after the event. */
  function CountUp(l: Loops, e: Event, producer: int, consumer: int): Loops {
    l.(i := if e == Return(producer, Done) then l.i + 1 else l.i,
       consumed := if ReturnedBy(e, consumer) != [] then l.consumed + 1 else l.consumed)
  }

  lemma RecordsAppend(trace: seq<Event>, e: Event, consumer: int)
    ensures Pushed(trace + [e]) == Pushed(trace) + PushedBy(e)
    ensures Popped(trace + [e]) == Popped(trace) + PoppedBy(e)
    ensures Output(trace + [e], consumer) == Output(trace, consumer) + ReturnedBy(e, consumer)
  {
    assert (trace + [e])[..|trace|] == trace;
  }

  /** A producer event that fits its phase keeps the loop in order. */
  lemma PushEvent(pushed: seq<int>, phase: Phase, i: nat, n: nat, e: Event)
    requires PushLoop(pushed, phase, i, n) && Advance(phase, e, e.who) != Broken
    requires e.Invoke? ==> i < n && e.op == Push(i)
    ensures PushLoop(pushed + PushedBy(e), Advance(phase, e, e.who),
                     if e.Return? && e.result == Done then i + 1 else i, n)
  {
    assert pushed + [] == pushed;
    assert Numbers(i) + [i as int] == Numbers(i + 1);
  }

  /** An event of the consumer that fits its phase: what it pops it has in hand or returns. */
  lemma HandedOver(popped: seq<int>, output: seq<int>, phase: Phase, e: Event)
    requires popped == output + InHand(phase) && Advance(phase, e, e.who) != Broken && (e.Effect? ==> e.op == Pop)
    ensures popped + PoppedBy(e) == output + ReturnedBy(e, e.who) + InHand(Advance(phase, e, e.who))
  {}

  lemma PopEvent(popped: seq<int>, output: seq<int>, phase: Phase, consumed: nat, n: nat, e: Event)
    requires PopLoop(popped, output, phase, consumed, n) && Advance(phase, e, e.who) != Broken
    requires e.Invoke? ==> consumed < n && e.op == Pop
    ensures PopLoop(popped + PoppedBy(e), output + ReturnedBy(e, e.who), Advance(phase, e, e.who),
                    if ReturnedBy(e, e.who) != [] then consumed + 1 else consumed, n)
  {
    HandedOver(popped, output, phase, e);
  }

  lemma PushLoopMoves(trace: seq<Event>, l: Loops, e: Event, producer: int, consumer: int)
    requires producer != consumer && Fits(l, e, producer, consumer) && PhaseOf(trace + [e], e.who) != Broken
    requires PushLoop(Pushed(trace), PhaseOf(trace, producer), l.i, l.n)
    ensures var l' := CountUp(l, e, producer, consumer);
            PushLoop(Pushed(trace + [e]), PhaseOf(trace + [e], producer), l'.i, l'.n)
  {
    RecordsAppend(trace, e, consumer);
    PhaseOfAppend(trace, e, producer);
    if e.who == producer {
      PushEvent(Pushed(trace), PhaseOf(trace, producer), l.i, l.n, e);
    } else {
      assert Pushed(trace) + [] == Pushed(trace);
    }
  }

  lemma PopLoopMoves(trace: seq<Event>, l: Loops, e: Event, producer: int, consumer: int)
    requires producer != consumer && Fits(l, e, producer, consumer) && PhaseOf(trace + [e], e.who) != Broken
    requires PopLoop(Popped(trace), Output(trace, consumer), PhaseOf(trace, consumer), l.consumed, l.n)
    ensures var l' := CountUp(l, e, producer, consumer);
            PopLoop(Popped(trace + [e]), Output(trace + [e], consumer), PhaseOf(trace + [e], consumer),
                    l'.consumed, l'.n)
  {
    RecordsAppend(trace, e, consumer);
    PhaseOfAppend(trace, e, consumer);
    if e.who == producer {
      assert Popped(trace) + [] == Popped(trace) && Output(trace, consumer) + [] == Output(trace, consumer);
    } else {
      PopEvent(Popped(trace), Output(trace, consumer), PhaseOf(trace, consumer), l.consumed, l.n, e);
    }
  }

  /** The loops stay in step with the trace, as long as no thread goes wrong. */
  lemma LoopsMove(trace: seq<Event>, l: Loops, e: Event, producer: int, consumer: int)
    requires producer != consumer && InLoops(trace, l, producer, consumer) && Fits(l, e, producer, consumer)
    requires PhaseOf(trace + [e], e.who) != Broken
    ensures InLoops(trace + [e], CountUp(l, e, producer, consumer), producer, consumer)
  {
    PushLoopMoves(trace, l, e, producer, consumer);
    PopLoopMoves(trace, l, e, producer, consumer);
  }

  /** What the consumer loop has received is stack-realisable, and the pushes so far are a prefix
      of 0, 1, .., n - 1. */
  lemma OutputOfLoops(limit: Limit, trace: seq<Event>, l: Loops, producer: int, consumer: int)
    requires InLoops(trace, l, producer, consumer) && Replay(limit, trace).Stack?
    ensures StackRealisable(Output(trace, consumer)) && |Output(trace, consumer)| == l.consumed
    ensures exists k: nat :: k <= l.n && Pushed(trace) == Numbers(k)
  {
    IncreasingInput(limit, trace);
    assert Output(trace, consumer) <= Popped(trace);
    assert Pushed(trace) == Numbers(|Pushed(trace)|);
  }

  /** When both loops have ended, everything pushed has been received. */
  lemma EndOfLoops(limit: Limit, trace: seq<Event>, l: Loops, producer: int, consumer: int)
    requires InLoops(trace, l, producer, consumer) && Replay(limit, trace).Stack?
    requires l.i == l.consumed == l.n && PhaseOf(trace, producer) == PhaseOf(trace, consumer) == Free
    ensures multiset(Output(trace, consumer)) == multiset(Numbers(l.n))
    ensures Replay(limit, trace).items == []
  {
    ConservedCount(limit, trace);
    assert |Replay(limit, trace).items| == 0;
    Conservation(limit, trace);
  }
}
