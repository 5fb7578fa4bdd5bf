/** The futex-based latch, for any number of threads.

    Each thread calls CountDown some number of times and then Wait or not: a pure worker, a
    pure waiter and ArriveAndWait are special cases. The kernel's wait queue is the set of
    sleeping threads; FUTEX_WAIT compares and falls asleep in one step. */
module Latch {
  import opened Sums
  import Runs

  datatype Pc =
    | Counting                 // before fetch_sub
    | Waking                   // fetch_sub returned 1; before FutexWake
    | Loading                  // before the load of Wait
    | Checking(current: int)   // before FutexWait
    | InFutex(current: int)    // inside FutexWait, asleep or about to return
    | Finished

  /** `downs` CountDown calls are still to start; `waits` says whether a Wait follows them. */
  datatype Thread = Thread(downs: nat, waits: bool, pc: Pc)

  datatype Machine = Machine(count: int, sleepers: set<nat>, threads: seq<Thread>)

  datatype Step =
    | FetchSub(t: nat)
    | FutexWake(t: nat)
    | Load(t: nat)
    | FutexWait(t: nat)
    | FutexReturn(t: nat)
    | SpuriousWake(t: nat)

  predicate Enabled(m: Machine, a: Step) {
    && a.t < |m.threads|
    && match a
       case FetchSub(t) => m.threads[t].pc.Counting?
       case FutexWake(t) => m.threads[t].pc.Waking?
       case Load(t) => m.threads[t].pc.Loading?
       case FutexWait(t) => m.threads[t].pc.Checking?
       case FutexReturn(t) => m.threads[t].pc.InFutex? && t !in m.sleepers
       case SpuriousWake(t) => t in m.sleepers
  }

  /** Where a thread goes when its current CountDown has returned. */
  function AfterCall(downs: nat, waits: bool): Pc {
    if downs > 0 then Counting else if waits then Loading else Finished
  }

  function At(m: Machine, t: nat, pc: Pc): Machine
    requires t < |m.threads|
  {
    m.(threads := m.threads[t := m.threads[t].(pc := pc)])
  }

  function Apply(m: Machine, a: Step): Machine
    requires Enabled(m, a)
  {
    var p := m.threads[a.t];
    match a
    case FetchSub(t) =>
      var downs := if p.downs > 0 then p.downs - 1 else 0;
      var pc := if m.count == 1 then Waking else AfterCall(downs, p.waits);
      m.(count := m.count - 1, threads := m.threads[t := Thread(downs, p.waits, pc)])
    case FutexWake(t) => At(m, t, AfterCall(p.downs, p.waits)).(sleepers := {})
    case Load(t) => At(m, t, if m.count == 0 then Finished else Checking(m.count))
    case FutexWait(t) =>
      if m.count == p.pc.current then At(m, t, InFutex(p.pc.current)).(sleepers := m.sleepers + {t})
      else At(m, t, Loading)
    case FutexReturn(t) => At(m, t, Loading)
    case SpuriousWake(t) => m.(sleepers := m.sleepers - {t})
  }

  // ----- Histories -----

  /** Per thread: its completed fetch_subs, the values its Wait has loaded, and its spurious wakes. */
  datatype Note = Note(own: nat, loaded: seq<int>, spurious: nat)

  /** `zeroer` is the thread whose fetch_sub returned 1, or -1. */
  datatype History = History(notes: seq<Note>, zeroer: int)

  function Observe(h: History, m: Machine, a: Step): History
    requires Enabled(m, a)
  {
    if a.t >= |h.notes| then h else
    var note := h.notes[a.t];
    match a
    case FetchSub(t) =>
      History(h.notes[t := note.(own := note.own + 1)], if m.count == 1 then t else h.zeroer)
    case Load(t) => h.(notes := h.notes[t := note.(loaded := note.loaded + [m.count])])
    case SpuriousWake(t) => h.(notes := h.notes[t := note.(spurious := note.spurious + 1)])
    case _ => h
  }

  /** `initial` is the count given to the constructor; `slack` is by how much it exceeds the
      number of CountDown calls in the whole program. */
  datatype State = State(initial: nat, slack: nat, m: Machine, h: History)

  function Do(s: State, a: Step): State
    requires Enabled(s.m, a)
  {
    s.(m := Apply(s.m, a), h := Observe(s.h, s.m, a))
  }

  function Downs(): Thread -> int { (p: Thread) => p.downs }

  function Own(): Note -> int { (n: Note) => n.own }

  ghost predicate Init(s: State) {
    && s.m.count == s.initial == s.slack + Sum(Downs(), s.m.threads) && s.m.sleepers == {}
    && (forall t :: 0 <= t < |s.m.threads| ==>
      s.m.threads[t].pc == AfterCall(s.m.threads[t].downs, s.m.threads[t].waits))
    && |s.h.notes| == |s.m.threads| && s.h.zeroer == -1
    && (forall t :: 0 <= t < |s.h.notes| ==> s.h.notes[t] == Note(0, [], 0))
  }

  ghost predicate Next(s: State, s': State) {
    exists a :: Enabled(s.m, a) && s' == Do(s, a)
  }

  ghost predicate Reachable(s: State) {
    Runs.Reachable(Init, Next, s)
  }

  // ----- Counting -----

  /** The count is what is still to be counted down, and what has been counted down is missing. */
  ghost predicate Balanced(s: State) {
    && |s.h.notes| == |s.m.threads|
    && s.m.count == s.slack + Sum(Downs(), s.m.threads)
    && s.m.count == s.initial - Sum(Own(), s.h.notes)
  }

  ghost predicate InOrder(p: Thread, count: int) {
    match p.pc
    case Counting => p.downs > 0
    case Waking => count == 0
    case Checking(c) => p.downs == 0 && p.waits && 0 <= count <= c && c > 0
    case InFutex(c) => p.downs == 0 && p.waits && 0 <= count <= c && c > 0
    case Loading => p.downs == 0 && p.waits
    case Finished => p.downs == 0 && (p.waits ==> count == 0)
  }

  ghost predicate Ordered(s: State) {
    forall t :: 0 <= t < |s.m.threads| ==> InOrder(s.m.threads[t], s.m.count)
  }

  /** Only threads inside the futex sleep, and once the count is 0 they sleep only until the
      thread that took it to 0 issues its wake. */
  ghost predicate WakeIsComing(s: State) {
    && (forall t :: t in s.m.sleepers ==> t < |s.m.threads| && s.m.threads[t].pc.InFutex?)
    && (s.m.sleepers != {} && s.m.count == 0 ==>
      0 <= s.h.zeroer < |s.m.threads| && s.m.threads[s.h.zeroer].pc == Waking)
    && (forall t :: 0 <= t < |s.m.threads| && s.m.threads[t].pc.Waking? ==> s.h.zeroer == t)
  }

  ghost predicate Safe(s: State) {
    s.m.count >= 0 && Balanced(s) && Ordered(s) && WakeIsComing(s)
  }

  lemma BalancedStep(s: State, a: Step, s': State)
    requires Balanced(s) && Ordered(s) && Enabled(s.m, a) && s' == Do(s, a)
    ensures Balanced(s') && s'.m.count >= 0
  {
    assert InOrder(s.m.threads[a.t], s.m.count);
    SumUpdate(Downs(), s.m.threads, a.t, s'.m.threads[a.t]);
    SumUpdate(Own(), s.h.notes, a.t, s'.h.notes[a.t]);
    SumNonNegative(Downs(), s'.m.threads);
    assert s'.m.threads == s.m.threads[a.t := s'.m.threads[a.t]];
    assert s'.h.notes == s.h.notes[a.t := s'.h.notes[a.t]];
  }

  lemma OrderedStep(s: State, a: Step, s': State)
    requires s.m.count >= 0 && Ordered(s) && Enabled(s.m, a) && s' == Do(s, a) && s'.m.count >= 0
    ensures Ordered(s') && s'.m.count <= s.m.count
  {
    assert InOrder(s.m.threads[a.t], s.m.count);
    forall t | 0 <= t < |s'.m.threads|
      ensures InOrder(s'.m.threads[t], s'.m.count)
    {
      assert InOrder(s.m.threads[t], s.m.count);
    }
  }

  lemma WakeStep(s: State, a: Step, s': State)
    requires Safe(s) && Enabled(s.m, a) && s' == Do(s, a) && s'.m.count >= 0
    ensures WakeIsComing(s')
  {
    assert InOrder(s.m.threads[a.t], s.m.count);
  }

  lemma SafeStep(s: State, a: Step, s': State)
    requires Safe(s) && Enabled(s.m, a) && s' == Do(s, a)
    ensures Safe(s')
  {
    BalancedStep(s, a, s');
    OrderedStep(s, a, s');
    WakeStep(s, a, s');
  }

  lemma SafeInitially(s: State)
    requires Init(s)
    ensures Safe(s)
  {
    SumConstant(Own(), s.h.notes, 0);
    SumNonNegative(Downs(), s.m.threads);
  }

  lemma SafeOfReachable(s: State)
    requires Reachable(s)
    ensures Safe(s)
  {
    forall s | Init(s)
      ensures Safe(s)
    {
      SafeInitially(s);
    }
    forall s, s' | Safe(s) && Next(s, s')
      ensures Safe(s')
    {
      var a :| Enabled(s.m, a) && s' == Do(s, a);
      SafeStep(s, a, s');
    }
    Runs.InvariantOfReachable(Init, Next, Safe, s);
  }

  /** No wakeup is lost, spurious wakes or not: a thread that sleeps although the count is 0
      will be woken by the one thread whose fetch_sub returned 1 and which has not issued its
      FutexWake; so when no thread is inside CountDown, nobody sleeps at 0. */
  lemma NoLostWakeup(s: State)
    requires Reachable(s) && s.m.count == 0 && s.m.sleepers != {}
    ensures 0 <= s.h.zeroer < |s.m.threads| && s.m.threads[s.h.zeroer].pc == Waking
    ensures forall t :: 0 <= t < |s.m.threads| && s.m.threads[t].pc == Waking ==> t == s.h.zeroer
    ensures Apply(s.m, FutexWake(s.h.zeroer)).sleepers == {}
  {
    SafeOfReachable(s);
  }

  /** Once every CountDown of a program that counts all the way down has returned, nobody sleeps. */
  lemma NobodySleepsAfterCountDowns(s: State)
    requires Reachable(s) && s.slack == 0
    requires forall t :: 0 <= t < |s.m.threads| ==> !s.m.threads[t].pc.Counting? && !s.m.threads[t].pc.Waking?
    ensures s.m.count == 0 && s.m.sleepers == {}
  {
    SafeOfReachable(s);
    assert forall t :: 0 <= t < |s.m.threads| ==> InOrder(s.m.threads[t], s.m.count);
    SumConstant(Downs(), s.m.threads, 0);
  }

  /** Wait returns only when the count is 0, that is after as many CountDowns as the initial count. */
  lemma WaitReturnsAtZero(s: State, t: nat)
    requires Reachable(s) && t < |s.m.threads| && s.m.threads[t].waits && s.m.threads[t].pc == Finished
    ensures s.m.count == 0 && Sum(Own(), s.h.notes) == s.initial
  {
    SafeOfReachable(s);
    assert InOrder(s.m.threads[t], s.m.count);
  }

  // ----- Loads of one Wait -----

  ghost predicate Decreasing(v: seq<int>) {
    forall i, j :: 0 <= i < j < |v| ==> v[i] > v[j]
  }

  /** What a thread may still load: one more value for each value below the last one. */
  ghost predicate LoadsBounded(p: Thread, asleep: bool, note: Note, count: int, initial: int) {
    var budget := initial + 1 - note.own + note.spurious;
    match p.pc
    case Checking(c) => |note.loaded| + c <= budget
    case InFutex(c) => if asleep then |note.loaded| + c <= budget else |note.loaded| + count + 1 <= budget
    case Loading => |note.loaded| + count + 1 <= budget
    case Finished => |note.loaded| <= budget
    case _ => |note.loaded| == 0 && note.spurious == 0
  }

  function Last(v: seq<int>): seq<int> {
    if v == [] then [] else [v[|v| - 1]]
  }

  /** Without spurious wakes every load sees less than the one before. */
  ghost predicate LoadsFall(p: Thread, asleep: bool, note: Note, count: int) {
    note.spurious == 0 ==>
      && Decreasing(note.loaded)
      && var last := Last(note.loaded);
         match p.pc
         case Checking(c) => last == [c]
         case InFutex(c) => last == [c] && (!asleep ==> count == 0)
         case Loading => last == [] || count < last[0]
         case Finished => true
         case _ => last == []
  }

  ghost predicate LoadsOk(s: State, t: nat)
    requires t < |s.m.threads| == |s.h.notes|
  {
    && LoadsBounded(s.m.threads[t], t in s.m.sleepers, s.h.notes[t], s.m.count, s.initial)
    && LoadsFall(s.m.threads[t], t in s.m.sleepers, s.h.notes[t], s.m.count)
  }

  lemma MovingLoads(s: State, a: Step, s': State)
    requires Safe(s) && Enabled(s.m, a) && s' == Do(s, a) && Safe(s') && LoadsOk(s, a.t)
    ensures LoadsOk(s', a.t)
  {
    assert InOrder(s.m.threads[a.t], s.m.count);
    SumAtLeast(Own(), s'.h.notes, a.t);
  }

  lemma WaitingLoads(s: State, a: Step, s': State, t: nat)
    requires Safe(s) && Enabled(s.m, a) && s' == Do(s, a) && Safe(s')
    requires t < |s.m.threads| && t != a.t && LoadsOk(s, t)
    ensures LoadsOk(s', t)
  {
    assert InOrder(s.m.threads[a.t], s.m.count);
    assert InOrder(s.m.threads[t], s.m.count);
  }

  ghost predicate Inv(s: State) {
    Safe(s) && forall t :: 0 <= t < |s.m.threads| ==> LoadsOk(s, t)
  }

  lemma InvStep(s: State, a: Step, s': State)
    requires Inv(s) && Enabled(s.m, a) && s' == Do(s, a)
    ensures Inv(s')
  {
    SafeStep(s, a, s');
    forall t | 0 <= t < |s'.m.threads|
      ensures LoadsOk(s', t)
    {
      if t == a.t { MovingLoads(s, a, s'); } else { WaitingLoads(s, a, s', t); }
    }
  }

  lemma InvOfReachable(s: State)
    requires Reachable(s)
    ensures Inv(s)
  {
    forall s | Init(s)
      ensures Inv(s)
    {
      SafeInitially(s);
    }
    forall s, s' | Inv(s) && Next(s, s')
      ensures Inv(s')
    {
      var a :| Enabled(s.m, a) && s' == Do(s, a);
      InvStep(s, a, s');
    }
    Runs.InvariantOfReachable(Init, Next, Inv, s);
  }

  /** The values that one Wait loads strictly decrease unless it is woken spuriously; it loads
      at most N + 1 times, one less for each CountDown its own thread made before (so at most N
      times inside ArriveAndWait), and at most once more for each spurious wake. */
  lemma WaitLoadsFewTimes(s: State, t: nat)
    requires Reachable(s) && t < |s.m.threads|
    ensures |s.h.notes| == |s.m.threads|
    ensures |s.h.notes[t].loaded| <= s.initial + 1 - s.h.notes[t].own + s.h.notes[t].spurious
    ensures s.h.notes[t].spurious == 0 ==> Decreasing(s.h.notes[t].loaded)
  {
    InvOfReachable(s);
    assert LoadsOk(s, t) && InOrder(s.m.threads[t], s.m.count);
    SumAtLeast(Own(), s.h.notes, t);
  }

  // ----- Termination -----

  /** Steps that thread `t` can still take on its own account. */
  function Rank(m: Machine, initial: nat, t: int): int {
    if !(0 <= t < |m.threads|) then 0 else
    var p := m.threads[t];
    var toCome := 2 * p.downs + (if p.waits then 3 * initial + 2 else 0);
    match p.pc
    case Counting => toCome
    case Waking => toCome + 1
    case Loading => 3 * m.count + 1
    case Checking(c) => 3 * c
    case InFutex(c) => if t in m.sleepers then 3 * c - 1 else 3 * m.count + 2
    case Finished => 0
  }

  function Ranks(m: Machine, initial: nat): int -> int { t => Rank(m, initial, t) }

  function Spurious(): Note -> int { (n: Note) => n.spurious }

  /** Falls with every step; a spurious wake is credited four steps. */
  function Measure(s: State): int {
    Sum(Ranks(s.m, s.initial), Numbers(|s.m.threads|)) - 4 * Sum(Spurious(), s.h.notes)
  }

  lemma OthersRank(s: State, a: Step, s': State, t: int)
    requires Safe(s) && Enabled(s.m, a) && s' == Do(s, a) && t != a.t
    ensures Rank(s'.m, s.initial, t) <= Rank(s.m, s.initial, t)
  {
    assert InOrder(s.m.threads[a.t], s.m.count);
    if 0 <= t < |s.m.threads| { assert InOrder(s.m.threads[t], s.m.count); }
  }

  lemma MoversRank(s: State, a: Step, s': State)
    requires Safe(s) && Enabled(s.m, a) && s' == Do(s, a) && Safe(s')
    ensures Rank(s'.m, s.initial, a.t) < Rank(s.m, s.initial, a.t) + if a.SpuriousWake? then 4 else 0
  {
    assert InOrder(s.m.threads[a.t], s.m.count);
    SumAtLeast(Own(), s'.h.notes, a.t);
  }

  lemma MeasureFalls(s: State, a: Step, s': State)
    requires Safe(s) && Enabled(s.m, a) && s' == Do(s, a)
    ensures Measure(s') < Measure(s)
  {
    SafeStep(s, a, s');
    MoversRank(s, a, s');
    var numbers := Numbers(|s.m.threads|);
    forall t | 0 <= t < |numbers| && t != a.t
      ensures Ranks(s'.m, s.initial)(numbers[t]) <= Ranks(s.m, s.initial)(numbers[t])
    {
      OthersRank(s, a, s', t);
    }
    SumShiftButOne(Ranks(s.m, s.initial), Ranks(s'.m, s.initial), numbers, a.t, 0);
    SumUpdate(Spurious(), s.h.notes, a.t, s'.h.notes[a.t]);
    assert s'.h.notes == s.h.notes[a.t := s'.h.notes[a.t]];
  }

  lemma MeasureOfNext(s: State, s': State)
    requires Reachable(s) && Next(s, s')
    ensures Measure(s') < Measure(s)
  {
    SafeOfReachable(s);
    var a :| Enabled(s.m, a) && s' == Do(s, a);
    MeasureFalls(s, a, s');
  }

  function Waits(): Thread -> int { (p: Thread) => if p.waits then 1 else 0 }

  /** What a thread can do at most on its own account: two steps for each CountDown, and for its
      Wait three for each value of the count and two more. */
  function Allowance(initial: nat): Thread -> int {
    (p: Thread) => 2 * p.downs + (3 * initial + 2) * (if p.waits then 1 else 0)
  }

  lemma InitialMeasure(s: State)
    requires Init(s)
    ensures Measure(s) <= 2 * (s.initial - s.slack) + (3 * s.initial + 2) * Sum(Waits(), s.m.threads)
  {
    var ranks, numbers := Ranks(s.m, s.initial), Numbers(|s.m.threads|);
    SumCompare(ranks, numbers, Allowance(s.initial), s.m.threads);
    SumLinear(Downs(), Waits(), Allowance(s.initial), s.m.threads, 2, 3 * s.initial + 2);
    SumConstant(Spurious(), s.h.notes, 0);
  }

  lemma MeasureOverRun(run: seq<State>, k: nat)
    requires Runs.IsRun(Init, Next, run) && k < |run|
    ensures Init(run[0]) && Reachable(run[k]) && Measure(run[k]) + k <= Measure(run[0])
  {
    forall s, s' | Reachable(s) && Next(s, s')
      ensures Measure(s') < Measure(s)
    {
      MeasureOfNext(s, s');
    }
    Runs.BoundOfRun(Init, Next, Measure, run, k);
    Runs.ReachableInRun(Init, Next, run, k);
  }

  /** Every run is finite up to spurious wakes: it has at most two steps for each CountDown, 3N + 2
      for each thread that waits, where N is the initial count, and four for each spurious wake. */
  lemma RunsAreBounded(run: seq<State>, k: nat)
    requires Runs.IsRun(Init, Next, run) && k < |run|
    ensures k <= 2 * (run[0].initial - run[0].slack) + (3 * run[0].initial + 2) * Sum(Waits(), run[0].m.threads)
                 + 4 * Sum(Spurious(), run[k].h.notes)
  {
    MeasureOverRun(run, k);
    InitialMeasure(run[0]);
    MeasureAtLeast(run[k]);
  }

  lemma MeasureAtLeast(s: State)
    requires Reachable(s)
    ensures Measure(s) >= -4 * Sum(Spurious(), s.h.notes)
  {
    SafeOfReachable(s);
    forall t | t in Numbers(|s.m.threads|)
      ensures Ranks(s.m, s.initial)(t) >= 0
    {
      assert InOrder(s.m.threads[t], s.m.count);
    }
    SumNonNegative(Ranks(s.m, s.initial), Numbers(|s.m.threads|));
  }

  /** Where every maximal run ends, spurious wakes apart. If the program makes as many CountDowns
      as the initial count, every call has returned; if it makes fewer, exactly the threads that
      call Wait sleep for ever. */
  lemma WhereRunsEnd(s: State)
    requires Reachable(s)
    requires forall a :: Enabled(s.m, a) ==> a.SpuriousWake?
    ensures s.m.count == s.slack
    ensures forall t :: 0 <= t < |s.m.threads| ==>
      (s.m.threads[t].pc == Finished <==> s.slack == 0 || !s.m.threads[t].waits)
    ensures forall t :: 0 <= t < |s.m.threads| ==> s.m.threads[t].pc == Finished || t in s.m.sleepers
  {
    SafeOfReachable(s);
    forall t | 0 <= t < |s.m.threads|
      ensures s.m.threads[t].pc == Finished || t in s.m.sleepers
    {
      assert !Enabled(s.m, FetchSub(t)) && !Enabled(s.m, FutexWake(t)) && !Enabled(s.m, Load(t));
      assert !Enabled(s.m, FutexWait(t)) && !Enabled(s.m, FutexReturn(t));
    }
    assert forall t :: 0 <= t < |s.m.threads| ==> InOrder(s.m.threads[t], s.m.count);
    SumConstant(Downs(), s.m.threads, 0);
  }

  /** A step that is not a spurious wake. */
  ghost predicate PlainNext(s: State, s': State) {
    exists a :: Enabled(s.m, a) && !a.SpuriousWake? && s' == Do(s, a)
  }

  ghost predicate NoneSpurious(s: State) {
    forall t :: 0 <= t < |s.h.notes| ==> s.h.notes[t].spurious == 0
  }

  lemma NoneSpuriousStep(s: State, s': State)
    requires NoneSpurious(s) && PlainNext(s, s')
    ensures NoneSpurious(s')
  {
    var a :| Enabled(s.m, a) && !a.SpuriousWake? && s' == Do(s, a);
  }

  /** Only spurious wakes are counted as such: without them the values that a Wait loads strictly
      decrease, it loads at most N + 1 times less its own CountDowns, and a run has at most two steps
      for each CountDown and 3N + 2 for each thread that waits. */
  lemma PlainRuns(run: seq<State>, k: nat, t: nat)
    requires Runs.IsRun(Init, PlainNext, run) && k < |run| && t < |run[k].m.threads|
    ensures |run[k].h.notes| == |run[k].m.threads| && Decreasing(run[k].h.notes[t].loaded)
    ensures |run[k].h.notes[t].loaded| <= run[k].initial + 1 - run[k].h.notes[t].own
    ensures k <= 2 * (run[0].initial - run[0].slack) + (3 * run[0].initial + 2) * Sum(Waits(), run[0].m.threads)
  {
    forall s, s' | NoneSpurious(s) && PlainNext(s, s')
      ensures NoneSpurious(s')
    {
      NoneSpuriousStep(s, s');
    }
    Runs.InvariantOfRun(Init, PlainNext, NoneSpurious, run, k);
    Runs.RunOfLarger(Init, PlainNext, Next, run);
    Runs.ReachableInRun(Init, Next, run, k);
    WaitLoadsFewTimes(run[k], t);
    RunsAreBounded(run, k);
    SumConstant(Spurious(), run[k].h.notes, 0);
  }

  /** Every program of CountDowns and Waits has an initial state, and a thread that sleeps may be
      woken spuriously at any time. */
  lemma AnyProgram(slack: nat, programs: seq<Thread>) returns (s: State)
    ensures Init(s) && s.slack == slack && |s.m.threads| == |programs|
    ensures forall t :: 0 <= t < |programs| ==>
      s.m.threads[t].downs == programs[t].downs && s.m.threads[t].waits == programs[t].waits
    ensures forall m: Machine, t :: 0 <= t < |m.threads| && t in m.sleepers ==> Enabled(m, SpuriousWake(t))
  {
    var threads := seq(|programs|, t requires 0 <= t < |programs| =>
      programs[t].(pc := AfterCall(programs[t].downs, programs[t].waits)));
    SumNonNegative(Downs(), threads);
    var count: nat := slack + Sum(Downs(), threads);
    s := State(count, slack, Machine(count, {}, threads), History(seq(|programs|, _ => Note(0, [], 0)), -1));
  }
}
