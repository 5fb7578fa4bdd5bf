# Verified models of the concurrent programs

This project models the concurrent algorithms of the repository as interleaving state machines
and proves what every run of them keeps. One step of a machine is one atomic operation, one plain
memory access or one system call of one thread, and a run is a sequence of such steps; all atomics
are sequentially consistent. A weak compare-exchange may fail spuriously and writes `expected`
only when it fails. The concrete state (`Machine`) and the history that watches it (`History`) are
separate: the history never influences a step. What the environment may do is stated too: the lemmas
named `Any..` give every program, input and capacity an initial state, `SpuriousFailure` lets a weak
compare-exchange fail, and `Plain..` runs are those in which the environment does nothing spurious.

- `Runs`, `Sums`: runs, reachability, invariants, bounds and attainable goals; sums over threads.
- `StackSpec`, `Linearizability`: the mutex-based stack and what it means to refine it.
- `LockFreeStack*`, `Stack*`, `OutputShape`: the linked lock-free stack with any number of
  producers and one consumer, over an explicit heap whose allocator may return freed addresses.
- `DriverLoops`: what a producer loop and a consumer loop make of a trace, for both drivers.
- `TwoConsumers`: what happens to the linked stack with a second consumer.
- `Buffered*`: the array stack, exactly when its values are right, and its two-process driver.
- `Latch`: the futex latch. `Handoff`, `SharedPage`: the two-semaphore handoff. `Worker`: the
  condition-variable worker. `CasDecrement`, `SpinlockCounter`, `OrderedLocks`: the small programs.

The question in lock_free/spsc_stack.cpp:35, whether the linked stack can be used as MPSC, SPMC or
MPMC, is answered. MPSC, yes: with one consumer it is linearizable, memory safe and race free for any
number of producers, no thread ever blocks another, and every call can return; the consumer is the
only thread that frees, so a node it looks at cannot be unlinked, freed or reused under it. SPMC, and
so MPMC, no: with one producer and a second consumer `SecondConsumerFaults` reads a freed node, and
`SecondConsumerMeetsReusedAddress` makes a freed node the head without having touched one.

Two properties one might expect are false of the code; each failure has its input and its exact
condition.

- The array stack publishes an index before it writes the slot and releases one before it reads it.
  `OverlapCanReturnStaleValue` is a run in which Pop returns a value nobody pushed. What decides is
  not whether such sections overlap (`OverlapCanBeInOrder`) but whether the accesses to a slot come
  in the order of the compare-exchanges that opened them. For any number of threads
  `RefinesBoundedStack` holds unless an access comes out of turn while a pending write is to change
  the slot. For one producer and one consumer this is exact: `RightValuesIffUnspoiled` for all values,
  `RightValuesIffInOrder` for values that are distinct and differ from the initial content, both with
  the compare-exchanges as the moments of effect, and `ConservedIffInOrder` without reference to any.
- The handoff uses size 0 as its end marker. `EmptyLineStrandsParent` is a run on one empty line after
  which the parent waits for ever, and `WhereRunsEnd` says that both processes exit if and only if no
  line has a size of 0 modulo 2^32.

## Model

| member | source | states |
|---|---|---|
| StackSpec.SPSCStack.constructor | lock_free/spsc_stack.cpp:30-33 | the stack starts empty |
| StackSpec.SPSCStack.Push | lock_free/spsc_stack.cpp:11-14 | the value is the new top over the old contents |
| StackSpec.SPSCStack.Pop | lock_free/spsc_stack.cpp:16-28 | empty exactly on the empty stack; otherwise result and remainder make up the old contents |
| Linearizability.EffectBetweenCallAndReturn | lock_free/spsc_stack.cpp:45-67 | in a linearizable trace each answer comes from exactly one effect of the same operation, after its call and before its return |
| Linearizability.Conservation | lock_free/spsc_stack.cpp:11-28 | the multiset of values pushed is that of the values popped and the values left |
| Linearizability.AnswersWerePushed | lock_free/spsc_stack.cpp:11-28 | whatever a call returns in a linearizable trace, somebody has called Push with it |
| LockFreeStackTheorems.RefinesMutexStack | lock_free/spsc_stack.cpp:45-67 | every run is linearizable with respect to the mutex stack, and following `next` from the head meets exactly the values its effects leave |
| LockFreeStackTheorems.NoDanglingAccess | lock_free/spsc_stack.cpp:45-67 | no reachable step reads, writes or deletes memory that is not allocated, although freed addresses may be reused |
| LockFreeStackTheorems.NoDataRace | lock_free/spsc_stack.cpp:45-67 | no two threads are ever about to access the same field of a node with one of them writing |
| LockFreeStackTheorems.PopInstallsTrueSuccessor | lock_free/spsc_stack.cpp:56-58 | a winning Pop installs the successor the head has at that moment, and the list without its top: no ABA |
| LockFreeStackTheorems.PushLinksWholeStack | lock_free/spsc_stack.cpp:48-50 | a winning Push links its node to the stack as it is, even if its expected address was freed and reused |
| LockFreeStackTheorems.SeenHeadIsPopped | lock_free/spsc_stack.cpp:53-67 | over a run: a Pop that has seen a non-null head finds the stack non-empty, and when it returns, it returns a value |
| LockFreeStackTheorems.ListEnds | lock_free/spsc_stack.cpp:69-76 | the list is acyclic and ends after one node for each value |
| LockFreeStackTheorems.OwnedExactlyOnce | lock_free/spsc_stack.cpp:45-67 | an address is allocated exactly if it is linked, private to one producer or held by the consumer, and never two of these |
| LockFreeStackTheorems.NothingLeakedAtRest | lock_free/spsc_stack.cpp:45-76 | when all threads are between operations exactly the linked nodes are allocated |
| StackDestructor.StackMemory.Destroy | lock_free/spsc_stack.cpp:69-76 | the loop terminates, frees the nodes of the list from the top down, each once, and nothing else |
| StackDestructor.DestroyAtRest | lock_free/spsc_stack.cpp:69-76 | after any run the destructor leaves nothing allocated and has freed each allocated node exactly once |
| StackExamples.ExpectedMayDangleAndComeBack | lock_free/spsc_stack.cpp:46-50 | a run in which a producer's expected pointer dangles, and one in which its address is reused and the compare-exchange wins on it |
| TwoConsumers.SecondConsumerFaults | lock_free/spsc_stack.cpp:53-67 | with one producer and two consumers a run in which one consumer reads a node that the other has freed |
| TwoConsumers.SecondConsumerMeetsReusedAddress | lock_free/spsc_stack.cpp:56-58 | a run without any fault in which a winning Pop installs a freed node as the head, because the expected address came back as another node |
| StackProgress.RetriesArePaidFor | lock_free/spsc_stack.cpp:48-58 | over a run, the compare-exchanges of a producer that fail because the head has changed are at most the pops and the pushes of the others (with one producer: the pops), those of the consumer at most the pushes |
| StackStepBound.StepsAreBoundedByCalls | lock_free/spsc_stack.cpp:45-67 | with T producers, n calls cost at most (8 + 3T) n steps, retries included, plus 3 per spurious failure |
| StackStepBound.PlainStepsAreBoundedByCalls | lock_free/spsc_stack.cpp:45-67 | a run whose compare-exchanges never fail spuriously counts no spurious failure and has at most (8 + 3T) n steps |
| StackCompletion.NeverBlocked | lock_free/spsc_stack.cpp:45-67 | a thread inside Push or Pop always has a step of its own to go on with |
| StackCompletion.CallsCanReturn | lock_free/spsc_stack.cpp:45-67 | for any number of producers, from every reachable state all calls under way can return without a new call or a spurious failure |
| StackCompletion.CallsMustReturn | lock_free/spsc_stack.cpp:45-67 | once no new call is made at most (T + 1)(8 + 3T) steps follow, spurious failures apart, and they only stop with all calls returned |
| StackCompletion.EveryCallCanReturn | lock_free/spsc_stack.cpp:45-67 | an idle thread may call at any time, with any value, and the call can return |
| OutputShape.IncreasingInput | lock_free/spsc_stack.cpp:11-28 | if the pushed values increase, no value is popped after a larger one and a smaller one in this order |
| StackDriver.OutputIsStackRealisable | lock_free/spsc_stack.cpp:129-148 | at every moment of the driver the pushes are a prefix of 0, 1, .. and the output is stack-realisable |
| StackDriver.FinishedOutputIsPermutation | lock_free/spsc_stack.cpp:129-148 | when both loops have ended the output is a permutation of 0 .. n-1, the stack is empty and nothing is allocated |
| StackDriverProgress.CanAlwaysFinish | lock_free/spsc_stack.cpp:129-148 | from every reachable state of the driver both loops can still end |
| StackDriverProgress.EveryLengthCanEnd | lock_free/spsc_stack.cpp:129-148 | for every n some run ends with a permutation of 0 .. n-1 received |
| BufferedStack.IndexIsExact | lock_free/spsc_stack.cpp:84-119 | for any threads and interleaving the index is pushes minus pops within 0 .. Capacity, which an int holds; slots are in bounds, nothing overflows and the size_t comparison is exact |
| BufferedProgress.StepsAreBoundedByCalls | lock_free/spsc_stack.cpp:84-114 | with T threads, n calls cost at most (5 + 2T) n steps, retries included, if no compare-exchange fails spuriously |
| BufferedProgress.NeverBlocked | lock_free/spsc_stack.cpp:84-114 | a thread inside Push or Pop always has a step of its own to go on with |
| BufferedProgress.CallsCanReturn | lock_free/spsc_stack.cpp:84-114 | for any number of threads, from every state all calls under way can return |
| BufferedProgress.CallsMustReturn | lock_free/spsc_stack.cpp:84-114 | once no new call is made at most T (5 + 2T) steps follow, spurious failures apart, and they only stop with all calls returned |
| BufferedProgress.AnyCapacity | lock_free/spsc_stack.cpp:117-118 | every capacity from 0 to 2147483647 and every number of threads have an initial state |
| BufferedOrder.RefinesBoundedStack | lock_free/spsc_stack.cpp:84-114 | for any number of threads, a run is linearizable to a stack bounded by Capacity, and with all sections closed the buffer holds it, unless a slot was accessed out of turn while a pending write was to change it |
| BufferedOrder.OrderOfReachable | lock_free/spsc_stack.cpp:92-110 | for any number of threads, without overlapping sections all slot accesses come in order, and in order they spoil nothing |
| BufferedSpsc.RaceFreeIffNoOverlap | lock_free/spsc_stack.cpp:92-110 | the producer and the consumer never stand before the same slot together if and only if no compare-exchange succeeds inside the other side's open section, and then the run refines the bounded stack |
| BufferedValues.RightValuesIffUnspoiled | lock_free/spsc_stack.cpp:84-114 | with one producer and one consumer and no Pop past its effect, the trace is linearizable to the bounded stack if and only if no slot was accessed out of turn while the producer was about to change it |
| BufferedValues.RightValuesIffInOrder | lock_free/spsc_stack.cpp:84-114 | if the pushed values are non-zero and distinct, the trace is linearizable if and only if every slot access came in the order of the compare-exchanges |
| BufferedConservation.ConservedIffInOrder | lock_free/spsc_stack.cpp:84-119 | at rest, with non-zero and distinct values, the values pushed are those received and those below the index in the buffer, as multisets, if and only if every slot access came in order |
| BufferedExamples.OverlapCanBeInOrder | lock_free/spsc_stack.cpp:92-110 | a run with an overlap in which the accesses come in order and Pop returns the value pushed |
| BufferedExamples.OverlapCanReturnStaleValue | lock_free/spsc_stack.cpp:92-110 | a run with an overlap in which 7 is pushed and Pop returns 0; no trace with the same calls and returns is linearizable |
| BufferedDriver.CanAlwaysFinish | ipc/shm_atomics.cpp:71-86 | for every n and positive capacity, from every reachable state both processes can still finish |
| BufferedDriver.EndState | ipc/shm_atomics.cpp:71-86 | at the end exactly n pushes and n pops have happened and the index is 0 |
| BufferedDriver.EveryLengthCanEnd | ipc/shm_atomics.cpp:57-86 | for every n and every capacity from 1 to 2147483647 some run ends with n values passed |
| BufferedDriver.OutputIsStackRealisable | ipc/shm_atomics.cpp:71-86 | as long as nothing was spoiled the pushes are a prefix of 0, 1, .. and what the consumer has received is stack-realisable |
| BufferedDriver.FinishedOutputIsPermutation | ipc/shm_atomics.cpp:71-86 | at the end the run is linearizable if and only if nothing was spoiled, and then the output is a permutation of 0 .. n-1 |
| Latch.NoLostWakeup | futex/latch.cpp:22-40 | if the count is 0 and a thread sleeps, the one thread whose fetch_sub returned 1 has yet to issue its wake, which wakes all |
| Latch.NobodySleepsAfterCountDowns | futex/latch.cpp:22-40 | once all CountDowns of a program that counts down to 0 have returned, the count is 0 and nobody sleeps |
| Latch.WaitReturnsAtZero | futex/latch.cpp:30-40 | Wait returns only after as many CountDowns as the initial count |
| Latch.WaitLoadsFewTimes | futex/latch.cpp:30-45 | one Wait loads at most N + 1 times, less its own thread's CountDowns, plus one per spurious wake; without spurious wakes the loaded values strictly decrease |
| Latch.RunsAreBounded | futex/latch.cpp:22-45 | a run has at most two steps per CountDown, 3N + 2 per thread that waits, where N is the initial count, and four per spurious wake |
| Latch.PlainRuns | futex/latch.cpp:22-45 | in a run without spurious wakes the loaded values strictly decrease, a Wait loads at most N + 1 times less its own CountDowns, and the bound has no further term |
| Latch.AnyProgram | futex/latch.cpp:18-45 | every number of threads, CountDowns and Waits has an initial state, and a sleeping thread may wake spuriously |
| Latch.WhereRunsEnd | futex/latch.cpp:22-45 | a maximal run ends with every call returned if the CountDowns match the initial count; if there are fewer, exactly the waiting threads sleep |
| SharedPage.SharedData.Write | ipc/shm_intro.cpp:84-87 | whatever the page held before, it holds the size modulo 4294967296 and, in each of 4092 bytes, the line or 0; a line of at most 4092 bytes can be read back whole |
| SharedPage.Padded | ipc/shm_intro.cpp:85-87 | 4092 bytes: those of the line as far as they fit and zeros after them |
| SharedPage.SharedData.constructor | ipc/shm_intro.cpp:24-30 | the 4 bytes of the size and the zeroed buffer make up 4096 |
| SharedPage.Encode | ipc/shm_intro.cpp:84-87 | a line shorter than 4294967296 bytes keeps its size, one of that length gets size 0, and one of at most 4092 bytes is in the buffer whole |
| Handoff.HandoffIsExclusiveAndInOrder | ipc/shm_intro.cpp:60-97 | the processes never access the page at once, the semaphores sum to at most 1, and the child's output is the parent's log except perhaps its last line |
| Handoff.RunsAreBounded | ipc/mmap_intro.cpp:52-84 | every run has at most 20 steps and 20 for each line |
| Handoff.WhereRunsEnd | ipc/shm_intro.cpp:64-66 | both processes exit with every line printed if and only if no line has size 0 modulo 2^32; otherwise the child has printed exactly the lines before the first such line and the parent waits for readDone |
| Handoff.OrdinaryLinesAreAllPrinted | ipc/shm_intro.cpp:60-97 | if all lines have 1 to 4294967295 bytes every maximal run ends with both processes exited and, for each line, its size and its first 4092 bytes printed |
| Handoff.EmptyLineStrandsParent | ipc/shm_intro.cpp:60-97 | on the input of one empty line a run gets stuck with the child exited and the parent waiting for readDone |
| Worker.TasksAreDeliveredInOrder | synchronization_primitives/condition_variable/condition_variable_any.cpp:16-44 | the arguments of each thread's AddTask calls are appended in call order up to one; the tasks appended are always executed, rest of batch, waiting; every task occurs there and before its append as often as in the calls |
| Worker.WakeupIsOnItsWay | synchronization_primitives/condition_variable/condition_variable_any.cpp:16-35 | a worker asleep with tasks waiting has a notification coming |
| Worker.OneHoldsMutex | synchronization_primitives/condition_variable/condition_variable_any.cpp:17-35 | the tasks are touched by one thread at a time |
| Worker.BatchIsWhole | synchronization_primitives/condition_variable/condition_variable_any.cpp:32-35 | the swap takes all tasks there are and never none |
| Worker.RunsAreBounded | synchronization_primitives/condition_variable/condition_variable_any.cpp:16-44 | a run has at most 14 steps per AddTask, 3 per spurious wake, and 2 |
| Worker.PlainRunsAreBounded | synchronization_primitives/condition_variable/condition_variable_any.cpp:16-44 | a run without spurious wakes counts none and has at most 14 steps per AddTask, and 2 |
| Worker.QuietMeansAllExecuted | synchronization_primitives/condition_variable/condition_variable_any.cpp:16-44 | when nothing else can move the worker sleeps and has executed the arguments of all calls, each once, and those of each thread in the order of its calls |
| CasDecrement.CasLowersSum | synchronization_primitives/atomics/cas.cpp:14-21 | x never grows, and each non-spurious compare-exchange lowers the sum of x and all expected values |
| CasDecrement.RunsAreBounded | synchronization_primitives/atomics/cas.cpp:14-21 | the loops end: a bound on the steps in the start value and the number of threads, plus one per spurious failure |
| CasDecrement.PlainRunsEnd | synchronization_primitives/atomics/cas.cpp:14-21 | a run without spurious failures counts none, is bounded by the start value and the number of threads, and only stops with all threads finished |
| CasDecrement.CanAlwaysFinish | synchronization_primitives/atomics/cas.cpp:14-21 | from every reachable state all threads can still finish |
| CasDecrement.SuccessGoesRound | synchronization_primitives/atomics/cas.cpp:17-20 | a success leaves `expected` as it was, so the thread's next compare-exchange fails and shows it x |
| CasDecrement.EveryProgramCanEnd | synchronization_primitives/atomics/cas.cpp:11-29 | for every start value and number of threads some run ends with the hundreds taken off; two threads take 100 to 0 |
| CasDecrement.FinalValue | synchronization_primitives/atomics/cas.cpp:11-29 | when all threads have finished exactly ceil(start / 100) exchanges have succeeded; from 100 that leaves 0 |
| SpinlockCounter.OneInCriticalSection | synchronization_primitives/mutex/spinlock.cpp:8-13 | at most one thread is ever between lock and unlock |
| SpinlockCounter.NoIncrementLost | synchronization_primitives/mutex/spinlock.cpp:27-32 | in every state the counter is the number of increments written, finally threads times rounds |
| SpinlockCounter.CanAlwaysFinish | synchronization_primitives/mutex/spinlock.cpp:8-32 | from every reachable state all threads can still finish |
| SpinlockCounter.EveryProgramCanEnd | synchronization_primitives/mutex/spinlock.cpp:15-40 | for every number of threads and rounds some run ends with their product in the counter |
| OrderedLocks.NoDeadlock | synchronization_primitives/mutex/deadlock.cpp:23-38 | a reachable state that cannot move has all threads finished and both mutexes free |
| OrderedLocks.StepsAreCounted | synchronization_primitives/mutex/deadlock.cpp:23-38 | after k steps exactly k of four steps per thread are done, so every maximal run ends |

## Left out

- Concurrent operations as methods of a class: a Push, Pop, Wait or lock is interleaved with other threads in the middle of its body, and its retry loop need not terminate for one thread alone, so these operations are step relations on values. What runs alone is imperative: the mutex-guarded sections, the destructor and the write of the shared page.
- Element types other than int; moving a value out of a node is a read that counts as a write in the race analysis.
- RefinesBoundedStack: for three or more threads the condition is sufficient; that it is necessary is proved for one producer and one consumer, which is what the class is for.
- RightValuesIffUnspoiled: operations take effect at their compare-exchanges; a run in which the producer overwrites a slot before it is read can be explained by other moments of effect until that slot is popped again. ConservedIffInOrder does not depend on this choice.
- RightValuesIffInOrder: the same holds for its moments of effect.
- RaceFreeIffNoOverlap: is about two accesses coinciding in an interleaving. The plain accesses to the slots of the array stack are taken as sequentially consistent, although a slot is written after the releasing compare-exchange, so that in C++ the write has no happens-before edge to a read that follows that compare-exchange alone ([intro.races]).
- IndexIsExact: assumes that Capacity fits into int, as the index is an int.
- NoDataRace: does not compare two allocations; that the allocator hands two threads different blocks is not part of this model.
- SharedData.Write: memset and memcpy are loops over bytes; in the handoff machine each is one step, which exclusion justifies.
- HandoffIsExclusiveAndInOrder: the child's output is the size and the whole buffer; how the buffer is formatted up to its first zero byte, and what a line without one does, is not modelled.
- Semaphores left over from an earlier run: both are assumed to start at 0.
- Latch counts below the number of CountDown calls, for which Wait would miss 0, and programs that call CountDown after Wait.
- Stopping the worker: the wait does not look at the stop token.
- NoIncrementLost: x is unbounded; the source counts to 2000.
- The lecture examples that are wrong on purpose, the condition-variable lock that does not re-check, pipes, signals, process and thread creation, futures, senders, barriers, channels whose headers are stubs, message queues, timing and caches.
