/** The mutex-based stack as the sequential specification of the lock-free ones.

    A stack is the sequence of its values from bottom to top. */
module StackSpec {

  datatype Op = Push(value: int) | Pop

  /** `Full` is the `false` of a bounded Push, `Empty` the empty optional of a Pop. */
  datatype Result = Done | Full | Value(value: int) | Empty

  datatype Limit = Unbounded | Capacity(n: nat)

  /** What one operation answers, and the stack it leaves, when it runs alone. */
  function Perform(limit: Limit, s: seq<int>, op: Op): (Result, seq<int>) {
    match op
    case Push(v) =>
      if limit == Capacity(|s|) then (Full, s) else (Done, s + [v])
    case Pop =>
      if s == [] then (Empty, s) else (Value(s[|s| - 1]), s[..|s| - 1])
  }

  /** The critical sections of the mutex-based stack, one method call each. */
  class SPSCStack {
    var items: seq<int>

    constructor ()
      ensures items == []
    {
      items := [];
    }

    method Push(value: int)
      modifies this
      ensures Perform(Unbounded, old(items), Op.Push(value)) == (Done, items)
      ensures items[|items| - 1] == value && items[..|items| - 1] == old(items)
    {
      items := items + [value];
    }

    method Pop() returns (result: Result)
      modifies this
      ensures Perform(Unbounded, old(items), Op.Pop) == (result, items)
      ensures result == Empty <==> old(items) == []
      ensures result != Empty ==> result.Value? && items + [result.value] == old(items)
    {
      result := Empty;
      if items == [] {
        return;
      }
      result := Value(items[|items| - 1]);
      items := items[..|items| - 1];
    }
  }
}
