/** The shape of a stack's output when its input is increasing. */
module OutputShape {
  import opened StackSpec
  import opened Linearizability

  ghost predicate Increasing(s: seq<int>) {
    forall i, j :: 0 <= i < j < |s| ==> s[i] < s[j]
  }

  /** No value comes out after a larger one and a smaller one, in this order: the permutations
      that a stack can produce (Knuth, The Art of Computer Programming, section 2.2.1). */
  ghost predicate StackRealisable(out: seq<int>) {
    forall a, b, c :: 0 <= a < b < c < |out| ==> !(out[b] < out[c] < out[a])
  }

  /** Neither will any value still on the stack. */
  ghost predicate Compatible(out: seq<int>, items: seq<int>) {
    forall a, b, i :: 0 <= a < b < |out| && 0 <= i < |items| ==> !(out[b] < items[i] < out[a])
  }

  ghost predicate Shape(pushed: seq<int>, out: seq<int>, items: seq<int>) {
    && StackRealisable(out) && Compatible(out, items) && Increasing(items)
    && (forall i :: 0 <= i < |items| ==> items[i] in pushed)
    && (forall i :: 0 <= i < |out| ==> out[i] in pushed)
  }

  lemma ShapeAfterPush(pushed: seq<int>, out: seq<int>, items: seq<int>, v: int)
    requires Shape(pushed, out, items) && Increasing(pushed + [v])
    ensures Shape(pushed + [v], out, items + [v])
  {
    forall i | 0 <= i < |pushed|
      ensures pushed[i] < v
    {
      assert (pushed + [v])[i] < (pushed + [v])[|pushed|];
    }
  }

  lemma ShapeAfterPop(pushed: seq<int>, out: seq<int>, items: seq<int>)
    requires Shape(pushed, out, items) && items != []
    ensures Shape(pushed, out + [items[|items| - 1]], items[..|items| - 1])
  {}

  lemma ShapeAfter(limit: Limit, pushed: seq<int>, out: seq<int>, items: seq<int>, e: Event)
    requires Shape(pushed, out, items) && Increasing(pushed + PushedBy(e))
    requires ReplayStep(limit, Stack(items), e).Stack?
    ensures Shape(pushed + PushedBy(e), out + PoppedBy(e), ReplayStep(limit, Stack(items), e).items)
  {
    if PushedBy(e) != [] {
      ShapeAfterPush(pushed, out, items, e.op.value);
      assert out + [] == out;
    } else if PoppedBy(e) != [] {
      ShapeAfterPop(pushed, out, items);
      assert pushed + [] == pushed;
    } else {
      assert out + [] == out && pushed + [] == pushed;
    }
  }

  /** A legal history whose pushes increase has a stack-realisable output. */
  lemma {:induction false} IncreasingInput(limit: Limit, trace: seq<Event>)
    requires Replay(limit, trace).Stack? && Increasing(Pushed(trace))
    ensures Shape(Pushed(trace), Popped(trace), Replay(limit, trace).items)
  {
    if trace != [] {
      var front, e := trace[..|trace| - 1], trace[|trace| - 1];
      assert Pushed(front) <= Pushed(trace);
      IncreasingInput(limit, front);
      ShapeAfter(limit, Pushed(front), Popped(front), Replay(limit, front).items, e);
    }
  }
}
