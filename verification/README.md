# Verified models of the concurrency showcase

Dafny models of the repository's shared-memory protocols and of its small arithmetic and loop cores,
with proofs about every interleaving, every stale read and every input size.

- **The SPSC ring buffer** (`SpscQueue`, `SpscWeak`, `SpscStale`, `SpscCoherence`, `SpscWaitFree`,
  `SpscInterleaved`, `SpscClosed`, over `Words` and `BoundedFifo`). One specification, an atomic bounded
  FIFO of the capacity less one, is met by three forms of the queue: the object a single thread uses
  (buffer updated in place, wrapping word counters, masked indices); a machine with one step per atomic
  load, slot access and store, where loads may be stale and every slot access is checked for a data race;
  and the same machine under plain interleaving. The last two are tied by a simulation in both directions. `SpscStale` says exactly what stale reads can
  do to callers, `SpscCoherence` what they cannot: no thread reads backwards, so a size told to the
  producer or the consumer is good for as many operations. `SpscWaitFree` bounds every operation by four
  steps of its own. `SpscClosed` adds the client loops of the stress tests. Capacity is any `2^k` and the word any `w >= k` bits; the unbounded counters are only in
  the proofs (the lengths of the message histories), so counter overflow is covered.
- **Release/acquire memory** (`WeakMemory`) keeps the history of every atomic location; messages carry
  views; acquire loads join them; views count the non-atomic accesses known to happen before. The rules
  are those of ISO C++20, sections 6.9.2.1 [intro.races] and 31.4 [atomics.order]. `SpscWeak`,
  `MessageChannel`, `Spinlock` and `LazySingleton` are built on it.
- **Dekker's flags** (`SeqCstFlag`) are modelled under the single total order of seq_cst, under store
  buffers that drain before a load, and under store buffers that do not. `SeqCstDrain` proves the first
  two the same by a simulation in both directions.
- **Barrier, latch and semaphore workers** (`Barrier`, `Latch`, `RateLimit`) are closed systems of any
  number of threads, with invariants, freedom from deadlock and exact bounds on the length of runs.
- **Row-major matrix loops** (`Matrix`), **coroutine generators** (`Generators`) and **stable_unique**
  (`StableUnique`) are the loops themselves, proved against specification functions whose laws follow.

A concurrent protocol is a state, a `Step` datatype with one constructor per atomic action of the source
(its line is noted beside it), `Enabled` and `Apply`. `Runs` defines labelled runs and the two arguments
used everywhere: an inductive invariant holds all along a run, and a decreasing measure bounds it.
`Totals` sums a quantity over threads.

Where the code and its comments differ:

- "size_approx — safe to call from any thread (approximate)": the result of a third thread may not be a
  size at all. Before the loads, some permitted pair of reads gives an impossible size exactly when the
  thread may still read a head that the tail has passed, or the present head is more than a full ring
  ahead of the newest tail it knows (`SpscStale.ObserverCanBeWrong`, which also covers wrapped words); a
  thread that knows the newest counters gets the true size (`SpscStale.InformedObserverIsExact`). Of the
  reads made, `SpscStale.ObserverSize` says which are in range. It goes wrong in two ways:
  the tail overtakes the loaded head, even with newest reads (`SpscInterleaved.ObserverIsOvertaken`), or
  the tail read is stale, with nothing overtaken (`SpscStale.ObserverReadsStaleTail`).
- "Returns false if queue is full", "... is empty": under stale reads an empty queue may refuse a push and
  a full one a pop, for every capacity (`SpscStale.PushMayFailOnEmpty`, `SpscStale.PopMayFailOnFull`). A
  refusal is true exactly when it read the newest counter; a wrong one is possible exactly when the newest
  tail the producer knows leaves the ring full and is out of date, or when the consumer knows of no item
  and there is one (`SpscStale.PushCanBeRefused`, `SpscStale.PopCanBeRefused`). What a thread has once
  read, `size_approx` included, it keeps (`SpscCoherence.SizeGrantsPushes`, `SpscCoherence.SizeGrantsPops`),
  but that too may be out of date (`SpscCoherence.ProducerSizeMayBeStale`). Under plain interleaving
  every refusal is true (`SpscInterleaved.RunsAreExact`).
- "If other thread also set its flag, BOTH see each other": only one need see the other
  (`SeqCstFlag.OnlyOneSeesTheOther`), which is enough to exclude them (`SeqCstFlag.RunsExclude`).
- `MessageChannel::consume` is "guaranteed to see producer's value" for one call of `produce` per
  channel; a second call can race with the read (`MessageChannel.SecondMessageRaces`,
  `MessageChannel.ReadRacesWithSecondMessage`).
- `fibonacci` computes the next sum before it is needed, so yielding F(92), which fits in 64 bits, is
  already an overflow (`Generators.EagerSumCostsOneValue`).

## Model

| member | source | states |
|---|---|---|
| Words.AndIsBitwise | 06_lockfree/spsc_queue.h:65 | the model's `&` is the bitwise operator: each bit of the result is set just when it is set in both operands |
| Words.MaskIsModulo | 06_lockfree/spsc_queue.h:38 | `x & (2^k - 1) == x mod 2^k` for every x and k |
| Words.PowersHaveOneBit | 06_lockfree/spsc_queue.h:35 | the powers of two are exactly the numbers with a single bit, and `2^k` is the one with bit k |
| Words.AdmittedCapacities | 06_lockfree/spsc_queue.h:34-36 | the capacities of the model are exactly the numbers from 2 up, within the word, that have a single bit |
| Words.WordsHaveLowBits | 06_lockfree/spsc_queue.h:89 | the words of w bits, the numbers below `2^w`, are exactly those with no bit at w or above |
| Words.IndexIsFaithful | 06_lockfree/spsc_queue.h:104-108 | masking the wrapped word selects the slot of the unbounded counter modulo the capacity |
| Words.DifferenceIsFaithful | 06_lockfree/spsc_queue.h:86-90 | the wrapped word difference is the true difference of counters, for runs of any length |
| Words.EqualityIsFaithful | 06_lockfree/spsc_queue.h:62 | the words are equal exactly when the counters are |
| BoundedFifo.HistoryConserves | 06_lockfree/test_lockfree.cpp:167-193 | over any history of the FIFO, the items pushed are the items popped followed by the items still queued |
| SpscQueue.SPSCQueue.Push | 06_lockfree/spsc_queue.h:99-110 | appends the item, or refuses and changes nothing, the latter exactly when capacity less one items are queued |
| SpscQueue.SPSCQueue.Pop | 06_lockfree/spsc_queue.h:74-81 | removes and returns the oldest item, or nothing exactly when the queue is empty; the slot left behind is arbitrary |
| SpscQueue.SPSCQueue.PopInto | 06_lockfree/spsc_queue.h:58-70 | the same operation through a caller's variable, which keeps its value on failure |
| SpscQueue.SPSCQueue.SizeApprox | 06_lockfree/spsc_queue.h:86-90 | single-threaded, the exact number of queued items |
| SpscQueue.FillUntilFull | 06_lockfree/test_lockfree.cpp:33-40 | pushing until refused accepts exactly capacity less one items, in order, and the next push is refused too |
| SpscQueue.PushThenPop | 06_lockfree/test_lockfree.cpp:42-50 | any batch that fits comes back in order, wherever in the ring it starts |
| SpscWeak.WriteIsOrdered | 06_lockfree/spsc_queue.h:101-106 | the slot about to be filled was last touched in the producer's past and holds no queued item |
| SpscWeak.TakeIsOrdered | 06_lockfree/spsc_queue.h:61-65 | the slot about to be emptied was last touched in the consumer's past and is no other queued item's |
| SpscWeak.FullTestIsFaithful | 06_lockfree/spsc_queue.h:102-105 | against any tail it may read, the word difference is the true one and never exceeds capacity less one, so `==` is a safe full test |
| SpscWeak.EmptyTestIsFaithful | 06_lockfree/spsc_queue.h:62 | against any head it may read, the words are equal exactly when that head is the consumer's own count |
| SpscWeak.RunsAreSafe | 06_lockfree/spsc_queue.h:58-110 | every state of every run with stale reads: no data race on the buffer, with the last filling and the last emptying of every slot on record and both known to a thread about to access it; each side's knowledge of the other bounds the ring, at most capacity less one items, delivered items are an initial stretch of accepted ones, the rest sit in the slots their masked counters name, the slot to be filled is not live |
| SpscWeak.StepRefines | 06_lockfree/spsc_queue.h:58-81 | successes take effect at the counter stores with the right item and every other step leaves the queue alone; a step is one of the exact FIFO if and only if it is not a failure that read an outdated counter |
| SpscWeak.RunsAreFifo | 06_lockfree/spsc_queue.h:5 | over a whole run under stale reads, items pushed are items popped in the same order followed by the queue |
| SpscWeak.ProducerSize | 06_lockfree/spsc_queue.h:86-92 | called by the producer, whatever its two loads read: between the true size and capacity less one; zero means empty |
| SpscWeak.ConsumerSize | 06_lockfree/spsc_queue.h:86-93 | called by the consumer, whatever its two loads read: between zero and the true size; full means full |
| SpscWeak.AcquireIsNeeded | 06_lockfree/spsc_queue.h:61-62 | for every capacity a reachable pop would race if its head load were relaxed, and does not because it acquires |
| SpscStale.PushRefusal | 06_lockfree/spsc_queue.h:101-105 | a push is refused by exactly one tail, the one a full ring behind, and the queue is then full if and only if that tail is the newest |
| SpscStale.PopRefusal | 06_lockfree/spsc_queue.h:61-63 | a pop is refused by exactly one head, the consumer's own count, and the queue is then empty if and only if that head is the newest |
| SpscStale.PushCanBeRefused | 06_lockfree/spsc_queue.h:100-105 | before the load: some permitted read refuses the push if and only if the newest tail known leaves the ring full, and refuses it wrongly if and only if moreover that tail is out of date |
| SpscStale.PopCanBeRefused | 06_lockfree/spsc_queue.h:59-63 | before the load: some permitted read refuses the pop if and only if the consumer knows of no item, and refuses it wrongly if and only if moreover there is one |
| SpscStale.PushMayFailOnEmpty | 06_lockfree/spsc_queue.h:104-105 | for every capacity, a run in which a push is refused by an empty queue |
| SpscStale.PopMayFailOnFull | 06_lockfree/spsc_queue.h:62-63 | for every capacity, a run in which a pop is refused by a full queue |
| SpscStale.ObserverSize | 06_lockfree/spsc_queue.h:85-90 | a third thread's size, for any head and any tail message its relaxed loads may read in any two states of a run: in range if and only if the head is 0 to capacity less one ahead of the tail up to whole turns of the word; less than a turn apart, if and only if it is so outright |
| SpscStale.ObserverCanBeWrong | 06_lockfree/spsc_queue.h:85-90 | before the loads, from a third thread's view: some permitted pair of reads gives an impossible size if and only if the heads and tails it may still read differ by a stretch that leaves 0 to capacity less one (up to turns of the word); less than a turn from the present, if and only if it may read a head the tail has passed, or the present head is more than a full ring ahead of the newest tail it knows |
| SpscStale.InformedObserverIsExact | 06_lockfree/spsc_queue.h:85-90 | a third thread that knows the newest counters gets exactly the number of queued items |
| SpscStale.ObserverReadsStaleTail | 06_lockfree/spsc_queue.h:85-90 | for every capacity narrower than the word, a run whose last state lets a third thread read the newest head and the first tail and get the capacity, though the tail has overtaken nothing |
| SpscCoherence.StepTeaches | 06_lockfree/spsc_queue.h:88-104 | a step leaves each thread knowing all it knew, and a thread that has loaded a message of the other side's counter, in an operation or in `size_approx`, knows of it |
| SpscCoherence.LoadsAreCoherent | 06_lockfree/spsc_queue.h:62-104 | along every run a later load of the tail by the producer, or of the head by the consumer, never returns an older message than an earlier one |
| SpscCoherence.InformedPushIsAccepted | 06_lockfree/spsc_queue.h:100-105 | a producer that has ever loaded a tail leaving room for the present push is not refused, whatever it reads now |
| SpscCoherence.InformedPopIsAccepted | 06_lockfree/spsc_queue.h:59-63 | a consumer that has ever loaded a head beyond its own count is not refused, whatever it reads now |
| SpscCoherence.SizeGrantsPushes | 06_lockfree/spsc_queue.h:86-105 | after `size_approx` has told the producer a size, as many pushes as that leaves of capacity less one are not refused |
| SpscCoherence.SizeGrantsPops | 06_lockfree/spsc_queue.h:62-90 | after `size_approx` has told the consumer a size, that many pops are not refused |
| SpscCoherence.ProducerSizeMayBeStale | 06_lockfree/spsc_queue.h:84-93 | for every capacity, a run in which the producer may be told that an empty queue is full |
| SpscCoherence.ConsumerSizeMayBeStale | 06_lockfree/spsc_queue.h:84-93 | for every capacity, a run in which the consumer may be told that a full queue is empty |
| SpscWaitFree.PushReturns | 06_lockfree/spsc_queue.h:104-109 | a push under way, whatever the consumer is in the middle of, returns within three more steps of its own, with its item accepted unless the tail it reads leaves the ring full |
| SpscWaitFree.PopReturns | 06_lockfree/spsc_queue.h:62-69 | a pop under way returns within three more steps of its own, with the oldest item unless the head it reads is the consumer's own count |
| SpscWaitFree.PushIsWaitFree | 06_lockfree/spsc_queue.h:43-53 | a whole push, from any state of any run and with any tail it may read, takes at most four steps, all its own, and leaves the consumer alone |
| SpscWaitFree.PopIsWaitFree | 06_lockfree/spsc_queue.h:57-81 | a whole pop, from any state of any run and with any head it may read, takes at most four steps, all its own, and leaves the producer alone |
| SpscInterleaved.StepsCorrespond | 06_lockfree/spsc_queue.h:58-110 | from every reachable weak state an interleaved step is possible exactly when the newest-reading weak step is, with the same successor and outcome |
| SpscInterleaved.NewestStepsAreInterleaved | 06_lockfree/spsc_queue.h:58-110 | conversely every newest-reading weak step is an interleaved one |
| SpscInterleaved.RunsLift | 06_lockfree/spsc_queue.h:58-110 | every interleaved run is the projection of a run on release/acquire memory |
| SpscInterleaved.RunsAreExact | 06_lockfree/spsc_queue.h:58-81 | under interleaving every step of every run is a step of the exact bounded FIFO: refusals happen only when really full, at the tail load, or really empty, at the head load |
| SpscInterleaved.WordsAreFaithful | 06_lockfree/spsc_queue.h:86-92 | along every run the words hold the push and pop counts modulo the word, their wrapped difference is the number of queued items, and they are equal exactly when the queue is empty |
| SpscInterleaved.ObserverSize | 06_lockfree/spsc_queue.h:85-90 | when both loads return the newest word, a third thread's size is in range if and only if the tail has not overtaken the loaded head (or has gone on for nearly a whole turn of the word) |
| SpscInterleaved.ObserverIsOvertaken | 06_lockfree/spsc_queue.h:85-90 | for every capacity narrower than the word, a run in which a third thread with newest reads gets the largest word, which exceeds the capacity |
| SpscClosed.FinishedRunsAreCorrect | 06_lockfree/test_lockfree.cpp:82-115 | for every N and capacity, received items are always 0, 1, 2, ... so far; a finished run received exactly 0..N-1 and both sums are N(N-1)/2, under stale reads |
| SpscClosed.QueueRunsAreClosedRuns | 06_lockfree/test_lockfree.cpp:174-185 | the closed system has every run of the queue in which its callers push 0, 1, ..., N-1 and pop N items: the loops impose no wait and no order |
| SpscClosed.ClosedRunsAreQueueRuns | 06_lockfree/test_lockfree.cpp:174-185 | and it has no other runs |
| SpscClosed.HelpfulStep | 06_lockfree/test_lockfree.cpp:174-185 | in every unfinished state one side has a step that strictly lowers the measure of successes and steps remaining |
| SpscClosed.EveryRunCanFinish | 06_lockfree/test_lockfree.cpp:174-193 | every run, whatever it read so far, extends to a finished one |
| MessageChannel.OneMessageIsDelivered | 07_atomic_model/atomic_model.h:30-46 | with at most one call of produce no run races on the data, each side knows of every access before its own, and a consumer that returns has the message |
| MessageChannel.EveryRunCanDeliver | 07_atomic_model/test_atomic_model.cpp:11-24 | with one message, every run, however long the consumer has spun, extends to one where it has received it |
| MessageChannel.SecondMessageRaces | 07_atomic_model/atomic_model.h:35-38 | with two or more calls of produce, a run in which a later write races with the read of the first message |
| MessageChannel.ReadRacesWithSecondMessage | 07_atomic_model/atomic_model.h:35-45 | with two or more calls of produce, a run in which the read races with the second write and returns the second value |
| MessageChannel.AcquireAndReleaseAreNeeded | 07_atomic_model/atomic_model.h:24-27 | a reachable load of the raised flag shows the data because it acquires what the store released, and would not with either ordering relaxed |
| MessageChannel.MaySpinOnOldFlag | 07_atomic_model/atomic_model.h:40-43 | for any number of tries, a run in which the consumer, with the message already sent, has read the old flag each time |
| Spinlock.RunsAreSafe | 07_atomic_model/atomic_model.h:73-98 | every run of any number of threads: at most one between lock and unlock, the flag set exactly while one is, no race on the plain counter, the record of accesses to it exact (two for each increment a thread has stored, one for half of one), the holder knowing exactly those, and a final count of threads times rounds |
| Spinlock.AcquireAndReleaseAreNeeded | 07_atomic_model/atomic_model.h:70 | for any two or more threads and any rounds, a reachable `test_and_set` that finds the lock free shows the other thread's increment because it acquires what `clear` released, and would not with either ordering relaxed |
| Spinlock.EveryTryAcquires | 07_atomic_model/atomic_model.h:76-80 | along every run, whatever was done to the counter before some unlock is known to every thread that has since tried for the lock, whether or not it got it |
| Spinlock.MaySpin | 07_atomic_model/atomic_model.h:76-77 | for any number of tries, a run in which a second thread makes them all, and fails, while the first holds the lock |
| Spinlock.HelpfulStep | 07_atomic_model/atomic_model.h:75-81 | no deadlock: in every unfinished state some thread has a step towards the end |
| Spinlock.EveryRunCanFinish | 07_atomic_model/test_atomic_model.cpp:43-60 | every run extends to one where all threads have done all their rounds |
| LazySingleton.RecheckIsFresh | 07_atomic_model/atomic_model.h:114-116 | once the pointer is stored, the relaxed recheck under the lock cannot read null, and the thread already knows the construction |
| LazySingleton.RunsAreSafe | 07_atomic_model/atomic_model.h:110-125 | every run of any number of threads and calls, constructors that throw included: at most one object constructed, every returned pointer is it and is on record, its construction happens before every use |
| LazySingleton.LaterCallsAreFast | 07_atomic_model/atomic_model.h:111-113 | along every run, a thread that has once returned never takes the mutex again: its later loads cannot go back to null |
| LazySingleton.AcquireAndReleaseAreNeeded | 07_atomic_model/atomic_model.h:102-103 | for any number of threads, a reachable lock-free read of the stored pointer shows the construction because the load acquires what the store released, and would not with either ordering relaxed |
| LazySingleton.TwoObjectsWithoutHandOff | 07_atomic_model/atomic_model.h:114-121 | if the mutex did not hand over the last holder's view, for any number of threads a run would construct two objects |
| LazySingleton.UseRacesWithoutHandOff | 07_atomic_model/atomic_model.h:114-124 | and, without it, for any number of threads a run in which a call returns the one object through the relaxed recheck and using it races with its construction |
| LazySingleton.StaleReadIsRechecked | 07_atomic_model/atomic_model.h:112-124 | for any number of threads, a run in which the acquire load still reads null after publication and the recheck under the lock returns the one object |
| LazySingleton.SecondCallIsFast | 07_atomic_model/atomic_model.h:111-113 | a run in which a thread that calls again gets the object without the mutex, while another thread holds it |
| LazySingleton.NextCallBuilds | 07_atomic_model/atomic_model.h:114-122 | a constructor that throws leaves the mutex free and nothing published, as if the call had not been made, and the next call constructs the object |
| LazySingleton.EveryRunCanReturn | 07_atomic_model/test_atomic_model.cpp:63-77 | no deadlock: every run extends to one in which every thread's call has returned |
| SeqCstFlag.RunsExclude | 07_atomic_model/atomic_model.h:142-157 | with seq_cst, as a single total order or as draining store buffers, the two threads are never inside together and the recorded maximum never exceeds one |
| SeqCstFlag.MaximumIsOne | 07_atomic_model/test_atomic_model.cpp:92-97 | from the first record of any run on, the recorded maximum is exactly one |
| SeqCstDrain.DrainedRunsAreOrdered | 07_atomic_model/atomic_model.h:137-138 | every run with draining store buffers has a run under the single total order behind it, with the same memory, in which each store takes its place when it is flushed |
| SeqCstDrain.OrderedRunsAreDrained | 07_atomic_model/atomic_model.h:137-138 | conversely every state a totally ordered run ends in is the end of a run with draining store buffers |
| SeqCstDrain.SameReachableStates | 07_atomic_model/atomic_model.h:137-138 | hence a state with nothing buffered is reachable with draining store buffers if and only if it is under the single total order |
| SeqCstDrain.StoreMayWait | 07_atomic_model/atomic_model.h:147-150 | a run in which a raised flag is still buffered when the other thread looks and gets inside, so the buffers do delay stores |
| SeqCstFlag.OnlyOneSeesTheOther | 07_atomic_model/atomic_model.h:147-150 | a run under the single total order in which both flags are raised, yet the first thread has read the other's flag as down and is inside while the second retreats |
| SeqCstFlag.BothEnterWithoutDrain | 07_atomic_model/atomic_model.h:148-149 | without the drain a run has both inside and records a maximum of two |
| SeqCstFlag.EntersAlone | 07_atomic_model/test_atomic_model.cpp:86-101 | whenever the other thread is idle, a thread gets inside by its own steps from any point of try_enter |
| SeqCstFlag.MayLivelock | 07_atomic_model/atomic_model.h:145-154 | even under the single total order, for any number of rounds a run in which both threads keep trying, both always retreat, and the initial state recurs |
| Barrier.PhasesFillInOrder | 05_jthread/jthread_demo.h:82-108 | in every reachable state a phase has been counted by somebody only if the one before was counted by everybody, and completed phases differ by at most one |
| Barrier.ThreadsWaitOnlyForOthers | 05_jthread/jthread_demo.h:98-102 | on every run a thread with a phase to run cannot move if and only if it is in the barrier and some thread has not arrived there, or wants the mutex and another thread has it |
| Barrier.StuckMeansFinished | 05_jthread/jthread_demo.h:96-106 | no deadlock: no step is possible only when every thread has run all its phases |
| Barrier.RunsTerminate | 05_jthread/jthread_demo.h:79-108 | every run has at most five steps per thread and phase, and one that can go no further has every entry equal to the number of threads |
| Latch.LatchHoldsCoordinator | 05_jthread/jthread_demo.h:58-77 | the coordinator is past the latch only when every worker has counted down; the running total is the sum of the workers' progress and never exceeds workers times iterations |
| Latch.OnlyTheLatchBlocks | 05_jthread/jthread_demo.h:65-73 | on every run the coordinator, with all workers started, can pass the latch if and only if each has counted down, a worker under way always has a step, and the joins are over if and only if every worker has ended |
| Latch.RunsTerminate | 05_jthread/jthread_demo.h:54-77 | every run is finite and one that can go no further returned workers times iterations, with a negative count of iterations as zero |
| RateLimit.PermitsAreConserved | 05_jthread/jthread_demo.h:115-126 | free permits plus workers in flight is always the configured maximum, and a release never exceeds the semaphore's bound |
| RateLimit.WorkersWaitOnlyAtTheBound | 05_jthread/jthread_demo.h:123 | on every run a waiting worker can go on if and only if fewer than the configured maximum are in flight, one that has its permit always can, and the joins are over if and only if every worker has ended |
| RateLimit.WorkersFlyTogether | 05_jthread/jthread_demo.h:112-126 | for any number up to the maximum, and up to the count, a run with that many workers in flight together |
| RateLimit.RunsTerminate | 05_jthread/jthread_demo.h:112-130 | every run is finite; one that can go no further returned the count exactly when there is at least one permit or nothing to do, and is otherwise blocked with nothing processed |
| Matrix.MatVec | 09_mdspan/test_mdspan.cpp:18-27 | result receives the product of the flat matrix and the vector, and nothing else changes |
| Matrix.Transpose | 09_mdspan/test_mdspan.cpp:31-37 | B receives the transpose, each of its cells is written exactly once, and nothing else changes |
| Matrix.Frobenius | 09_mdspan/test_mdspan.cpp:41-47 | the double sum of the squares of all entries (Matrix.FrobeniusIsSelfProduct says that it is) |
| Matrix.FrobeniusIsSelfProduct | 09_mdspan/test_mdspan.cpp:39-47 | what the loop computes is the dot product of the matrix with itself, its cells taken as one vector in storage order |
| Matrix.FrobeniusIsDefinite | 09_mdspan/test_mdspan.cpp:39-47 | it is never negative, and zero for the zero matrix alone |
| Matrix.ProductWithUnit | 09_mdspan/test_mdspan.cpp:15-27 | A times the k-th unit vector is column k of A |
| Matrix.ProductWithIdentity | 09_mdspan/test_mdspan.cpp:59-74 | the identity matrix times x is x, for every size |
| Matrix.UnitSelects | 09_mdspan/test_mdspan.cpp:15-27 | the dot product with the k-th unit vector, on either side, is entry k |
| Matrix.OffsetIsBijective | 09_mdspan/test_mdspan.cpp:50-57 | the row-major index map sends the pairs of indices in range one-to-one onto the cells |
| Matrix.TransposedAt | 09_mdspan/test_mdspan.cpp:76-89 | entry [j, i] of the transpose is entry [i, j] |
| Matrix.TransposeTwice | 09_mdspan/test_mdspan.cpp:29-37 | transposing twice restores the flat array, for all extents |
| Matrix.FrobeniusOfTranspose | 09_mdspan/test_mdspan.cpp:39-47 | the Frobenius sum is unchanged by transposing |
| Matrix.FrobeniusBothWays | 09_mdspan/test_mdspan.cpp:29-47 | the frobenius loop returns the same before and after the transpose loop, whatever storage lies beyond the matrices |
| Matrix.ProductBothWays | 09_mdspan/test_mdspan.cpp:15-37 | the adjoint law of what the matvec and transpose loops leave in their arrays |
| Matrix.Adjoint | 09_mdspan/test_mdspan.cpp:15-27 | y . (A x) == (A^T y) . x for all sizes |
| Matrix.SumsExchange | 09_mdspan/test_mdspan.cpp:43-45 | a double sum is the same row by row or column by column |
| Generators.CountIsExact | 03_coroutines/generator.h:127 | for either sign of step, the k-th value is before stop, stop itself excluded, exactly when k is below the ceiling count |
| Generators.ValuesAreTheRange | 03_coroutines/generator.h:131 | a value is yielded if and only if it is in [start, stop), or (stop, start] going down, and a whole number of steps from start |
| Generators.RepresentableIsTwosComplement | 03_coroutines/generator.h:126 | the range within which the generators compute is that of 64 bits in two's complement |
| Generators.YieldedIsRepresentable | 03_coroutines/generator.h:127-128 | no value that is yielded ever leaves the 64-bit range |
| Generators.IRange.Resume | 03_coroutines/generator.h:126-129 | one resume runs the suspended loop to its next value or to its end, keeping the frame in step with the number of resumes |
| Generators.IRange.Drain | 03_coroutines/generator.h:54-79 | the for loop receives start + k*step for k below the count, in order: exactly the values of [start, stop), or (stop, start] going down, that are a whole number of steps from start; in count + 1 resumes, overflowing exactly when the count is positive and start + count*step is not representable |
| Generators.Call | 03_coroutines/generator.h:134-137 | a zero step is refused at the call; anything else gives an unstarted generator |
| Generators.Fibonacci.Pull | 03_coroutines/generator.h:115-123 | n pulls yield F(0)..F(n-1), and stay within 64 bits exactly for n at most 92 |
| Generators.LastFibonacciThatFits | 03_coroutines/generator.h:115-122 | the values of F(92) and F(93), between which the 64-bit range ends |
| Generators.EagerSumCostsOneValue | 03_coroutines/generator.h:119 | F(92) is representable but the sum computed before yielding it is not |
| StableUnique.Deduplicate | 02_ranges/ranges_demo.h:68-80 | the loop computes the first occurrences |
| StableUnique.UniqueElements | 02_ranges/ranges_demo.h:68-80 | exactly the values of the input, each once |
| StableUnique.UniqueOfConcat | 02_ranges/ranges_demo.h:68-80 | a later stretch contributes its own distinct values less those already seen |
| StableUnique.UniqueIsIdempotent | 02_ranges/ranges_demo.h:68-80 | a second pass changes nothing |

## Left out

- The concurrent protocols are state machines over values, one step per atomic action, not objects with methods: interference between two actions is the point, and only the single-threaded queue, the matrix loops, the generators and `stable_unique` are imperative code.
- Client bookkeeping between two operations (a loop index, a local sum) happens together with the operation's last step; the sums of the stress test are read only after the joins.
- Only single-writer stores, read-modify-writes and stores under a lock occur, so a store always becomes the newest message of its location; stores into the middle of a modification order are not modelled.
- The mutexes of the barrier and the singleton, the barrier, the latch and the semaphore are atomic by their specification; their implementation is the standard library's.
- Spinning, yielding, fairness and timing: runs can finish, or must where the source blocks; nothing is said about how long a spinning thread waits, and Dekker's flags may livelock (`SeqCstFlag.MayLivelock`).
- Moved-from values and object lifetimes: a slot left by a pop holds an arbitrary value, and the move out counts as a write when races are checked.
- Matrix.MatVec: the result does not overlap the inputs, as in the tests; Matrix.Transpose likewise.
- Matrices are over integers: floating-point rounding breaks the sum laws.
- A generator that was moved from or default-constructed, `from_range`, and exceptions raised inside a coroutine.
- `StoppableWorker`, stop tokens, `RelaxedCounter` (the latch's total is the same counter), `Task`, concepts, views, `flatten`, `zip_to_pairs`, formatting and benchmarks: easy members or no functional content.
- Cache-line alignment and false sharing.
