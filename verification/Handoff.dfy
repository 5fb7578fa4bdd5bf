/** Line-by-line handoff from a parent to a child through one shared page and two semaphores
    that start at 0. The two programs that do this differ only in how they map the page. */
module Handoff {
  import opened SharedPage
  import Runs

  datatype Parent =
    | GetLine
    | WriteSize(line: seq<Byte>)
    | Clear(line: seq<Byte>)       // memset
    | Copy(line: seq<Byte>)        // memcpy
    | PostWrite
    | WaitRead
    | WriteZero                    // end of input
    | PostLast
    | WaitChild
    | ParentExited

  datatype Child =
    | WaitWrite
    | TestSize
    | PrintSize
    | PrintBuffer(size: nat)
    | PostRead
    | ChildExited

  /** `taken` lines have been read from the input; `printed` is the child's output. */
  datatype State = State(lines: seq<seq<Byte>>, taken: nat, parent: Parent, child: Child,
                         writeDone: nat, readDone: nat, size: nat, buffer: seq<Byte>,
                         printed: seq<Message>)

  datatype Step = ByParent | ByChild

  predicate Enabled(s: State, a: Step) {
    match a
    case ByParent =>
      && !s.parent.ParentExited?
      && (s.parent.WaitRead? ==> s.readDone > 0)
      && (s.parent.WaitChild? ==> s.child.ChildExited?)
    case ByChild =>
      && !s.child.ChildExited?
      && (s.child.WaitWrite? ==> s.writeDone > 0)
  }

  function Dec(n: nat): nat { if n > 0 then n - 1 else 0 }

  function ParentStep(s: State): State {
    match s.parent
    case GetLine =>
      if s.taken < |s.lines| then s.(parent := WriteSize(s.lines[s.taken]), taken := s.taken + 1)
      else s.(parent := WriteZero)
    case WriteSize(line) => s.(parent := Clear(line), size := |line| % UINT32)
    case Clear(line) => s.(parent := Copy(line), buffer := Zeros(|s.buffer|))
    case Copy(line) =>
      var n := Min(|line|, Min(BUFFER_SIZE, |s.buffer|));
      s.(parent := PostWrite, buffer := line[..n] + s.buffer[n..])
    case PostWrite => s.(parent := WaitRead, writeDone := s.writeDone + 1)
    case WaitRead => s.(parent := GetLine, readDone := Dec(s.readDone))
    case WriteZero => s.(parent := PostLast, size := 0)
    case PostLast => s.(parent := WaitChild, writeDone := s.writeDone + 1)
    case WaitChild => s.(parent := ParentExited)
    case ParentExited => s
  }

  function ChildStep(s: State): State {
    match s.child
    case WaitWrite => s.(child := TestSize, writeDone := Dec(s.writeDone))
    case TestSize => s.(child := if s.size == 0 then ChildExited else PrintSize)
    case PrintSize => s.(child := PrintBuffer(s.size))
    case PrintBuffer(size) => s.(child := PostRead, printed := s.printed + [Message(size, s.buffer)])
    case PostRead => s.(child := WaitWrite, readDone := s.readDone + 1)
    case ChildExited => s
  }

  function Apply(s: State, a: Step): State {
    if a.ByParent? then ParentStep(s) else ChildStep(s)
  }

  ghost predicate Init(s: State) {
    && s.taken == 0 && s.parent == GetLine && s.child == WaitWrite
    && s.writeDone == 0 && s.readDone == 0 && s.size == 0 && s.buffer == Zeros(BUFFER_SIZE) && s.printed == []
  }

  ghost predicate Next(s: State, s': State) {
    exists a :: Enabled(s, a) && s' == Apply(s, a)
  }

  ghost predicate Reachable(s: State) {
    Runs.Reachable(Init, Next, s)
  }

  // ----- The protocol -----

  /** The parent's log: the lines handed over so far. */
  function Posted(s: State): nat {
    if s.parent.WriteSize? || s.parent.Clear? || s.parent.Copy? || s.parent.PostWrite? then Dec(s.taken) else s.taken
  }

  function Encoded(lines: seq<seq<Byte>>, k: nat): seq<Message>
    requires k <= |lines|
  {
    seq(k, i requires 0 <= i < k => Encode(lines[i]))
  }

  predicate ChildReading(c: Child) { c.TestSize? || c.PrintSize? || c.PrintBuffer? }

  predicate ParentWriting(p: Parent) { p.WriteSize? || p.Clear? || p.Copy? || p.WriteZero? }

  /** The parent has the page: the child waits with nothing to wait for. */
  ghost predicate ParentsTurn(s: State)
    requires s.taken <= |s.lines|
  {
    && s.child == WaitWrite && s.writeDone == 0 && s.readDone == 0 && |s.printed| == Posted(s)
    && match s.parent
       case WriteSize(line) => s.taken > 0 && line == s.lines[s.taken - 1]
       case Clear(line) => s.taken > 0 && line == s.lines[s.taken - 1] && s.size == |line| % UINT32
       case Copy(line) =>
         s.taken > 0 && line == s.lines[s.taken - 1] && s.size == |line| % UINT32 && s.buffer == Zeros(BUFFER_SIZE)
       case PostWrite => s.taken > 0 && Message(s.size, s.buffer) == Encode(s.lines[s.taken - 1])
       case PostLast => s.size == 0 && s.taken == |s.lines|
       case WriteZero => s.taken == |s.lines|
       case _ => s.parent.GetLine?
  }

  /** A line has been handed over: exactly one of the two semaphores is up or the child is at work. */
  ghost predicate LineInFlight(s: State)
    requires s.taken <= |s.lines|
  {
    && s.parent == WaitRead && s.taken > 0 && Message(s.size, s.buffer) == Encode(s.lines[s.taken - 1])
    && match s.child
       case WaitWrite =>
         (s.writeDone == 1 && s.readDone == 0 && |s.printed| == s.taken - 1)
         || (s.writeDone == 0 && s.readDone == 1 && |s.printed| == s.taken)
       case TestSize => s.writeDone == s.readDone == 0 && |s.printed| == s.taken - 1
       case PrintSize => s.writeDone == s.readDone == 0 && |s.printed| == s.taken - 1 && s.size != 0
       case PrintBuffer(size) =>
         s.writeDone == s.readDone == 0 && |s.printed| == s.taken - 1 && size == s.size != 0
       case PostRead => s.writeDone == s.readDone == 0 && |s.printed| == s.taken
       case ChildExited => s.writeDone == s.readDone == 0 && |s.printed| == s.taken - 1 && s.size == 0
  }

  ghost predicate Ending(s: State) {
    && s.size == 0 && s.taken == |s.lines| == |s.printed| && s.readDone == 0
    && (if s.parent.ParentExited? then s.child == ChildExited else s.parent == WaitChild)
    && match s.child
       case WaitWrite => s.writeDone == 1
       case _ => s.writeDone == 0 && (s.child.TestSize? || s.child.ChildExited?)
  }

  ghost predicate Inv(s: State) {
    && s.taken <= |s.lines| && |s.buffer| == BUFFER_SIZE && |s.printed| <= |s.lines|
    && s.printed == Encoded(s.lines, |s.printed|)
    && (forall i :: 0 <= i < |s.printed| ==> |s.lines[i]| % UINT32 != 0)
    && (ParentsTurn(s) || LineInFlight(s) || Ending(s))
  }

  lemma CopyPads(line: seq<Byte>)
    ensures var n := Min(|line|, BUFFER_SIZE); line[..n] + Zeros(BUFFER_SIZE)[n..] == Padded(line)
  {}

  lemma ParentKeepsInv(s: State, s': State)
    requires Inv(s) && Enabled(s, ByParent) && s' == ParentStep(s)
    ensures Inv(s')
  {
    if s.parent.Copy? { CopyPads(s.parent.line); }
  }

  lemma ChildKeepsInv(s: State, s': State)
    requires Inv(s) && Enabled(s, ByChild) && s' == ChildStep(s)
    ensures Inv(s')
  {
    if s.child.PrintBuffer? {
      assert s'.printed == Encoded(s.lines, |s.printed| + 1);
    }
  }

  lemma InvOfReachable(s: State)
    requires Reachable(s)
    ensures Inv(s)
  {
    forall s, s' | Inv(s) && Next(s, s')
      ensures Inv(s')
    {
      var a :| Enabled(s, a) && s' == Apply(s, a);
      if a.ByParent? { ParentKeepsInv(s, s'); } else { ChildKeepsInv(s, s'); }
    }
    Runs.InvariantOfReachable(Init, Next, Inv, s);
  }

  /** In every run the two processes never touch the page at once, at most one semaphore is up,
      and what the child has printed is what the parent has handed over except perhaps the last. */
  lemma HandoffIsExclusiveAndInOrder(s: State)
    requires Reachable(s)
    ensures !(ParentWriting(s.parent) && ChildReading(s.child))
    ensures s.writeDone + s.readDone <= 1
    ensures |s.printed| <= Posted(s) <= |s.printed| + 1 && Posted(s) <= |s.lines|
    ensures s.printed == Encoded(s.lines, |s.printed|)
  {
    InvOfReachable(s);
  }

  // ----- Termination -----

  /** Steps still to come: the child's rank grows only when the parent posts. */
  function Rank(s: State): int {
    var child :=
      match s.child
      case WaitWrite => 5 * s.writeDone
      case TestSize => 4
      case PrintSize => 3
      case PrintBuffer(_) => 2
      case PostRead => 1
      case ChildExited => 0;
    var parent :=
      match s.parent
      case GetLine => 20
      case WriteSize(_) => 38
      case Clear(_) => 37
      case Copy(_) => 36
      case PostWrite => 35
      case WaitRead => 29
      case WriteZero => 19
      case PostLast => 18
      case WaitChild => 12
      case ParentExited => 0;
    20 * (|s.lines| - s.taken) + parent + child
  }

  lemma RankFalls(s: State, a: Step, s': State)
    requires s.taken <= |s.lines| && (ParentsTurn(s) || LineInFlight(s) || Ending(s))
    requires Enabled(s, a) && s' == Apply(s, a)
    ensures Rank(s') < Rank(s)
  {}

  /** Every run is finite: at most 20 steps and 20 more for each line. */
  lemma RunsAreBounded(run: seq<State>, k: nat)
    requires Runs.IsRun(Init, Next, run) && k < |run|
    ensures k <= 20 * |run[0].lines| + 20
  {
    forall s, s' | Runs.Reachable(Init, Next, s) && Next(s, s')
      ensures Rank(s') < Rank(s)
    {
      InvOfReachable(s);
      var a :| Enabled(s, a) && s' == Apply(s, a);
      RankFalls(s, a, s');
    }
    Runs.BoundOfRun(Init, Next, Rank, run, k);
    Runs.ReachableInRun(Init, Next, run, k);
    InvOfReachable(run[k]);
  }

  /** No line is taken for the end marker. */
  ghost predicate AllNonZero(lines: seq<seq<Byte>>) {
    forall i :: 0 <= i < |lines| ==> |lines[i]| % 4294967296 != 0
  }

  ghost predicate FirstZero(lines: seq<seq<Byte>>, k: nat) {
    k < |lines| && |lines[k]| % 4294967296 == 0 && forall i :: 0 <= i < k ==> |lines[i]| % 4294967296 != 0
  }

  /** Where every maximal run ends. If no line has a size of 0 modulo 2^32, both processes have
      exited, every line has been printed and both semaphores are down. Otherwise the child has
      printed exactly the lines before the first such line and exited, and the parent waits for
      readDone for ever. */
  lemma WhereRunsEnd(s: State)
    requires Reachable(s) && forall a :: !Enabled(s, a)
    ensures s.child == ChildExited && s.writeDone == 0 && s.readDone == 0
    ensures s.parent == ParentExited <==> AllNonZero(s.lines)
    ensures AllNonZero(s.lines) ==> s.printed == Encoded(s.lines, |s.lines|)
    ensures forall k: nat :: FirstZero(s.lines, k) ==>
      s.parent == WaitRead && s.taken == k + 1 && s.printed == Encoded(s.lines, k)
  {
    InvOfReachable(s);
    assert !Enabled(s, ByParent) && !Enabled(s, ByChild);
    if s.parent == WaitRead {
      assert |s.lines[s.taken - 1]| % UINT32 == 0;
    }
  }

  /** On lines of 1 to 2^32 - 1 bytes every maximal run ends with both processes exited, and the
      child has printed for each line its size and its first 4092 bytes, padded with zeros. */
  lemma OrdinaryLinesAreAllPrinted(s: State)
    requires Reachable(s) && forall a :: !Enabled(s, a)
    requires forall i :: 0 <= i < |s.lines| ==> 1 <= |s.lines[i]| < 4294967296
    ensures s.parent == ParentExited && s.child == ChildExited && |s.printed| == |s.lines|
    ensures forall i :: 0 <= i < |s.lines| ==> s.printed[i].size == |s.lines[i]| && |s.printed[i].content| == 4092
    ensures forall i, j :: 0 <= i < |s.lines| && 0 <= j < 4092 ==>
      s.printed[i].content[j] == if j < |s.lines[i]| then s.lines[i][j] else 0
  {
    WhereRunsEnd(s);
    forall i | 0 <= i < |s.lines|
      ensures |s.lines[i]| % 4294967296 != 0
    {
      assert Encode(s.lines[i]).size == |s.lines[i]|;
    }
  }

  lemma AnyInput(lines: seq<seq<Byte>>) returns (s: State)
    ensures Init(s) && s.lines == lines
  {
    s := State(lines, 0, GetLine, WaitWrite, 0, 0, 0, Zeros(BUFFER_SIZE), []);
  }

  lemma Go(s: State, a: Step) returns (s': State)
    requires Reachable(s) && Enabled(s, a)
    ensures Reachable(s') && s' == Apply(s, a)
  {
    s' := Apply(s, a);
    assert Next(s, s');
    Runs.ReachableByStep(Init, Next, s, s');
  }

  /** An empty input line does it: the child takes its size for the end marker and exits, and the
      parent waits for it for ever. */
  lemma EmptyLineStrandsParent() returns (s: State)
    ensures Reachable(s) && s.lines == [[]] && forall a :: !Enabled(s, a)
    ensures s.parent == WaitRead && s.child == ChildExited
  {
    s := AnyInput([[]]);
    Runs.ReachableInitially(Init, Next, s);
    s := Go(s, ByParent);
    s := Go(s, ByParent);
    s := Go(s, ByParent);
    s := Go(s, ByParent);
    s := Go(s, ByParent);
    s := Go(s, ByChild);
    s := Go(s, ByChild);
  }
}
