# Proofs about a collection of small systems programs

The repository collects small systems programs in C and C++. This project models the ones that hold a real protocol, a
pointer structure or delicate arithmetic, and proves what they are for, over every input, every interleaving and every
reachable state.

| part | modules | program |
|---|---|---|
| reference-counted hash table | `FooSpec`, `FooChains`, `FooTable`, `FooInvariant`, `FooSimulation`, `FooPreservation`, `FooStep`, `FooTheorems`, `FooCalls`, `FooRaces` | `threads/mutex2.c`, `threads/mutex3.c` |
| System V semaphore lifecycle | `SemLifecycle`, `SemTheorems`, `SemOrphans`, `SemCalls` | `lib/semaph.c` |
| dining philosophers | `Dining`, `DiningTheorems` | `diningPhilosopher/dine.cpp`, `diningPhilosopher/dineWin.cpp` |
| bounded buffer of primes | `Primes`, `MonitorSemaphore`, `BoundedBuffer`, `BufferTheorems`, `MonitorBuffer`, `MonitorBufferSteps`, `MonitorBufferTheorems` | `boundedBuffer/` |
| barrier and k-way merge | `BarrierMerge`, `BarrierRuns` | `threads/barrier.c` |
| job queue | `JobQueue` | `threads/rwlock.c` |
| Internet checksum | `Checksum` | `packetSpoofing/checksum.c` |
| descriptor-passing protocol | `FdProtocol` | `lib/writen.c`, `lib/sendfd.c`, `lib/senderr.c`, `lib/recvfd.c` |

`Basics` holds the shared vocabulary, in particular `Total`, the weighted sum over threads that all counting arguments use.

## How the concurrent programs are modelled

A concurrent program is a state datatype with one program counter per thread or process, a predicate `Fires` that says
when a thread can take its next step, and a function `After` that gives the state after it. A step is one lock or
semaphore operation, one system call, or one statement on shared data; the number of threads is arbitrary throughout.
What the environment decides (which call is made, what malloc returns, whom a notify wakes, when a process exits) is a
parameter of the step. An inductive invariant is kept by every step and lifted to all runs from the initial state;
`Reachable` states are those at the end of some run.

Some statements make several accesses: an increment reads and writes a count, the unlink reads three links, `test` reads
three phases, a producer compares and sets `nextPrime`. That such a statement is one step is harmless because its
accesses conflict with nobody else's. For the table, `FooRaces.NoRaces` shows that in every reachable state no two
threads are about to access the same count, link or list head with one of them writing, and `FooRaces.WritesAreAll` and
`FooRaces.ReadsAreAll` that the accesses listed are all there are. The philosophers' `state[]` and the buffer's
`nextPrime` and queue are accessed only inside sections that exclude each other (`DiningTheorems.StateProtected`,
`BufferTheorems.SectionsExclusive`).

* **The hash table.** `FooTable.Line` is the program of both files, line by line; the version selects which lock
  protects the count. Clients own references as tokens in a ledger and call `foo_hold` and `foo_rele` only on a token of
  their own; they may hand tokens to one another. `FooSpec` is an atomic table: calls, one indivisible effect, returns.
  `FooTheorems.BothRefineSpec` shows that the calls and returned values of every run of either file are those of a run
  of the atomic table, and `FooCalls.CallAnswered` what every returned value is, without mentioning how the atomic table
  computes it. In mutex2.c a release takes effect at its decrement, or at the unlink when the recheck confirms
  the last reference; in mutex3.c the last release takes effect at the unlink, so between `--f_count` and the unlink the
  count is 0 with one reference outstanding, always under `hashlock`.
* **The semaphore set.** One key, any number of processes, each of which may exit at any point. The kernel rules are
  steps: an operation array is atomic, SEM_UNDO adjustments are applied at exit, SETVAL clears the adjustments of its
  member, ids are not reused, and a removal wakes sleepers with EIDRM, which makes them fail. The theorems hold while
  fewer than BIGCOUNT references are outstanding; `SemTheorems.ForgetsNothingExactlyWhen` shows that this is the exact
  bound.
  The comment at lib/semaph.c:189-190 says that `sem_open` needs no lock; `SemTheorems.OpenCanLoseItsSet` is a run in
  which that leaves an opener with a reference to a removed set, and `SemOrphans.NeverOrphansExactlyWhen` says exactly
  in which runs it does. A creator that exits before it sets the counter can leave openers asleep
  (`SemCalls.OpenerSleeps`); `SemCalls.StuckExactlyWhen` shows that nothing else can.
* **The philosophers.** EATING is 0 and `state[]` starts as zero, so every philosopher starts as a phantom eater. The
  textbook invariants fail (`DiningTheorems.TextbookInvariantsFail`); exactly when each of them holds, and the weaker
  ones that always hold, are proved for every ring of at least three, of which the code is the case of five.
* **The buffer.** `emptySlots` is awaited while `syncPrimes` is held, so the program can jam. The exact condition for
  every run to finish is consumers <= producers <= capacity. It is proved first with atomic semaphores
  (`BufferTheorems.FinishesExactlyWhen`) and then for the program as written, in which every `wait` and `post` goes
  through its monitor with sleeping, barging and spurious wakeups (`MonitorBufferTheorems.FinishesExactlyWhen`): the two
  systems reach the same buffers, and the monitors add no deadlock.
* **The merge.** When a LONG_MAX occurs in the data, the original reuses a stale or unassigned `minidx`. The model does
  the same, reports a read of an unassigned index or beyond the array, and states exactly when the result is right and when
  each of the two reads happens.

## Model

| member | source | states |
|---|---|---|
| `FooSpec.NewestMeaning` | threads/mutex2.c:58-60 | the scan of the chains from the newest object on stops at the most recently allocated object with the id, and at NULL exactly when there is none |
| `FooSpec.CommitAnswers` | threads/mutex2.c:19-104 | the effect and result of each operation of the atomic table: find returns the youngest object with the id and gives its caller one reference, or NULL exactly when no object has it; alloc returns a new object with the id and one reference to it, or NULL exactly when malloc failed; hold adds a reference; release takes its own away and removes the object exactly with the last one; nothing else changes |
| `FooSpec.SpecKeepsInv` | threads/mutex2.c:19-104 | every atomic operation keeps: an object is in the table exactly while a reference to it is outstanding |
| `FooChains.Hash` | threads/mutex2.c:4-5 | the bucket number is below NHASH for every int, negative ones included |
| `FooChains.NewestInBucket` | threads/mutex2.c:58-59 | scanning one bucket finds the newest object of the whole table with that id |
| `FooChains.BucketMembers` | threads/mutex2.c:32-35 | a bucket holds exactly the objects that hash to it, without repetition |
| `FooChains.BucketWithout` | threads/mutex2.c:86-95 | unlinking from the one bucket is removal from the whole table, for every bucket |
| `FooChains.ChainPush` | threads/mutex2.c:34-35 | linking at the head makes the chain the new object followed by the old chain |
| `FooChains.ChainPop` | threads/mutex2.c:89-90 | unlinking the head leaves the rest of the chain |
| `FooChains.ChainUnlink` | threads/mutex2.c:92-94 | redirecting the predecessor takes exactly the object out of the chain |
| `FooSimulation.Simulates` | threads/mutex2.c:19-104 | every step of either version is an enabled step of the atomic table and leads to the matching state |
| `FooStep.WindowStep` | threads/mutex2.c:74-85 | each step keeps at most one thread per object between seeing a count of 1 and releasing |
| `FooStep.StepKeepsInv` | threads/mutex2.c:19-104 | each step of any thread keeps the whole invariant, and is a step of the atomic table |
| `FooTheorems.RunKeepsInv` | threads/mutex2.c:19-104 | the invariant holds at the end of every run |
| `FooTheorems.RefinesFrom` | threads/mutex3.c:18-90 | from any state of the invariant, the calls and returns of a run are those of a run of the atomic table |
| `FooTheorems.BothRefineSpec` | threads/mutex2.c:19-104 | both versions implement the one atomic specification: each run's calls, results and handovers are a run of it |
| `FooCalls.CallAnswered` | threads/mutex2.c:19-104 | every value that a call of either version returns was decided by one step between the call and its return, with the effect of `FooSpec.CommitAnswers`; on return the object is still allocated, has the id asked for, and its caller holds a reference to it; a NULL means that malloc failed, or that at that step no reference to an object with the id was outstanding |
| `FooTheorems.NoUseAfterFree` | threads/mutex2.c:68-104 | in no reachable state does a thread's next action read, write, lock, unlock or free a freed object or follow NULL |
| `FooTheorems.DestroyedUnlocked` | threads/mutex2.c:98-99 | whenever an object is about to be destroyed and freed, its lock is free, and no thread holds it or is about to take it |
| `FooTheorems.TableSound` | threads/mutex2.c:32-39 | chains are acyclic and hold only referenced objects of their index, with counts equal to the outstanding references; every reference is to an object in its chain; every other allocated object is in no chain and in the hands of exactly one call |
| `FooTheorems.WindowExclusive` | threads/mutex2.c:74-85 | two threads are never inside the unlock-relock window of the same object |
| `FooTheorems.LockOrder` | threads/mutex2.c:74-83 | a thread with an object lock waits for nothing, one with hashlock never for hashlock |
| `FooTheorems.NoDeadlock` | threads/mutex2.c:19-104 | while any call is in progress, some call in progress can take a step |
| `FooTheorems.WalkBounded` | threads/mutex2.c:92-93 | an unlink walk is strictly before its object in the chain, and a find has finitely many objects ahead, at most the size of the table |
| `FooTheorems.WalkAdvances` | threads/mutex2.c:58-63 | each iteration of a walk leaves one object less ahead, so walks end and the unlink walk meets its object before NULL |
| `FooTheorems.WalkUndisturbed` | threads/mutex3.c:80-82 | steps of other threads do not move a walk or its goal |
| `FooRaces.WritesAreAll` | threads/mutex2.c:19-104 | a step changes no count, link or head outside its listed writes |
| `FooRaces.ReadsAreAll` | threads/mutex2.c:19-104 | what a step does depends on no count, link or head outside its listed reads |
| `FooRaces.NoRaces` | threads/mutex2.c:19-104 | in no reachable state of either version are two threads about to access the same count, link or head, one of them writing |
| `SemLifecycle.StepKeepsInv` | lib/semaph.c:49-253 | each system call and each exit keeps: lock = processes in locked sections, counter = BIGCOUNT minus references, adjustments = own references and locks |
| `SemLifecycle.SetCountKeepsInv` | lib/semaph.c:150-152 | setting the counter keeps the invariant although it clears every process's adjustment of that member |
| `SemLifecycle.OneHolder` | lib/semaph.c:49-54 | two processes are never inside locked sections together |
| `SemTheorems.LockIsExact` | lib/semaph.c:49-75 | member [2] is 0 or 1, and 1 exactly when one live process is in a locked section, whose set is the live one |
| `SemTheorems.LockHolderKeepsSet` | lib/semaph.c:124-160 | a process in a locked section never sees its set vanish |
| `SemTheorems.CounterIsExact` | lib/semaph.c:135-160 | member [1] is BIGCOUNT minus the live references once it has been initialised and 0 before, is positive exactly then, and the branch for a value above BIGCOUNT is never taken |
| `SemTheorems.SetvalForgetsNothing` | lib/semaph.c:135-153 | SETVAL of the counter runs only while nobody holds a reference, and every adjustment it clears is 0 |
| `SemTheorems.InitialisedOnce` | lib/semaph.c:83-86 | an initialised set is not initialised again: until its removal the counter stays positive, no step changes member [0], and neither SETVAL can run |
| `SemTheorems.ExitNeverClamps` | lib/semaph.c:49-75 | the adjustments applied at exit never take a member below 0 |
| `SemTheorems.RemovedOnlyUnreferenced` | lib/semaph.c:243-249 | for clients that only create and close: a set is removed only when nobody references it, and every reference is to the live set |
| `SemCalls.FailsOnlyAsleep` | lib/semaph.c:124-128 | for clients that only create and close: no close fails, and a create fails only when its set is removed while it sleeps for the lock |
| `SemCalls.FailsExactlyWhen` | lib/semaph.c:124-194 | with any clients: a call fails exactly when the set of a close, an open or a sleeping create is gone |
| `SemCalls.CreateRetries` | lib/semaph.c:102-128 | a create whose set is removed before it sleeps looks up the key again, and then stands before the lock of the set live by then, or of a new one, with its initial value |
| `SemCalls.LastCloseRemoves` | lib/semaph.c:243-252 | a close goes on to IPC_RMID if and only if no process holds a reference any more, and otherwise unlocks |
| `SemCalls.InitialValue` | lib/semaph.c:142-152 | over whole runs: member [0] of an initialised set is the argument of the one sem_create that set its counter, in the call it was still in |
| `SemCalls.StuckExactlyWhen` | lib/semaph.c:49-75 | with any clients: no call in progress can go on if and only if each is a sem_open of a live set whose counter has not been set |
| `SemCalls.OpenerSleeps` | lib/semaph.c:188-194 | such a state is reached when the creator exits after semget |
| `SemCalls.CreateCloseGoesOn` | lib/semaph.c:49-75 | clients that only create and close never all sleep |
| `SemTheorems.OrphansExactlyWhen` | lib/semaph.c:243-249 | with any clients: a removal leaves a reference behind if and only if the counter was decremented after sem_close read it as BIGCOUNT |
| `SemOrphans.NeverOrphansExactlyWhen` | lib/semaph.c:188-249 | over whole runs with any clients: no process is ever left with a reference to a removed set, if and only if no sem_open takes a reference, and keeps it by not exiting, between a closer reading BIGCOUNT and that closer's IPC_RMID |
| `SemTheorems.OpenCanLoseItsSet` | lib/semaph.c:188-194 | with sem_open this fails: a reachable state has a reference to a removed set |
| `SemTheorems.FullCounterForgets` | lib/semaph.c:138-153 | with BIGCOUNT references the counter reads as uninitialised, and SETVAL discards their adjustments |
| `SemTheorems.ForgetsNothingExactlyWhen` | lib/semaph.c:138-153 | for runs with at most B references at any time: SETVAL never discards a reference or adjustment, if and only if B is below BIGCOUNT |
| `Dining.RingIsModular` | diningPhilosopher/dine.cpp:10-11 | the neighbours in the ring are (i + N - 1) % N and (i + 1) % N, and inverse to each other |
| `Dining.TakeKeepsConnected` | diningPhilosopher/dine.cpp:43-56 | take_fork keeps every hungry philosopher linked through hungry ones to an eating one, phantoms turning hungry included |
| `Dining.PutKeepsConnected` | diningPhilosopher/dine.cpp:65-81 | so does put_fork, although it removes an eater |
| `Dining.TakeStrands` | diningPhilosopher/dine.cpp:43-56 | a take_fork after the first strands no further philosopher |
| `Dining.PutStrands` | diningPhilosopher/dine.cpp:65-81 | a put_fork strands no further philosopher |
| `Dining.FirstTakeStrandsExactlyWhen` | diningPhilosopher/dine.cpp:43-56 | a phantom's take_fork leaves a further HUNGRY philosopher without EATING neighbour if and only if the phantom has to wait and a HUNGRY neighbour had no other |
| `DiningTheorems.StepKeepsInv` | diningPhilosopher/dine.cpp:19-98 | each step of any philosopher keeps the invariant |
| `DiningTheorems.HungryLinkedToEater` | diningPhilosopher/dine.cpp:19-81 | whenever the mutex is free, every HUNGRY philosopher is linked through adjacent HUNGRY ones to an EATING one |
| `DiningTheorems.TakeServes` | diningPhilosopher/dine.cpp:43-56 | what take_fork has done when it gives the mutex back: its philosopher is EATING exactly if neither neighbour was, HUNGRY otherwise, and nobody else has changed |
| `DiningTheorems.PutServes` | diningPhilosopher/dine.cpp:65-81 | what put_fork has done: its philosopher is THINKING, first the left and then the right neighbour is EATING if it was HUNGRY and the philosopher beyond it is not EATING, and nobody else has changed |
| `DiningTheorems.NoNeighboursEatTogether` | diningPhilosopher/dine.cpp:19-62 | a philosopher put into EATING by test has no EATING neighbour; two neighbours are never both between sem_wait and put_fork |
| `DiningTheorems.TokenMeansUnusedMeal` | diningPhilosopher/dine.cpp:38-59 | each S[i] is at most 1, and 1 only for an EATING owner that has not consumed it |
| `DiningTheorems.ReleaseNeverRejected` | diningPhilosopher/dineWin.cpp:17-34 | S[i] is 0 whenever it is about to be released, so the maximum count of 1 rejects nothing |
| `DiningTheorems.NoDeadlock` | diningPhilosopher/dine.cpp:83-98 | every reachable state has an enabled step |
| `DiningTheorems.StrandedOnlyByFirstTake` | diningPhilosopher/dine.cpp:43-81 | the set of HUNGRY philosophers without an EATING neighbour grows only when somebody completes its first take_fork, and then exactly if that phantom has to wait and was the only EATING neighbour of a HUNGRY one |
| `DiningTheorems.NeighboursEatExactlyWhen` | diningPhilosopher/dine.cpp:9-40 | in every reachable state two neighbours are both EATING if and only if both are phantoms before their first HUNGRY |
| `DiningTheorems.HungryHaveEatersExactlyWhen` | diningPhilosopher/dine.cpp:43-81 | every HUNGRY philosopher has an EATING neighbour throughout a run if and only if no first take_fork of the run is of the stranding kind |
| `DiningTheorems.StateProtected` | diningPhilosopher/dine.cpp:46-56 | two philosophers are never both inside the mutex |
| `DiningTheorems.TextbookInvariantsFail` | diningPhilosopher/dine.cpp:9-13 | with five philosophers a reachable state has a HUNGRY one with no EATING neighbour, and neighbours are both EATING initially |
| `MonitorSemaphore.StepKeepsInv` | boundedBuffer/semaphore.cpp:16-27 | each step keeps the invariant, with barging and spurious wakeups |
| `MonitorSemaphore.Simulates` | boundedBuffer/semaphore.cpp:16-27 | each step is an enabled step of an atomic counting semaphore |
| `MonitorSemaphore.RefinesCounter` | boundedBuffer/semaphore.cpp:10-28 | the calls and returns of every run are those of a run of an atomic counting semaphore |
| `MonitorSemaphore.ValueExact` | boundedBuffer/semaphore.cpp:16-27 | value = initial + posts - completed waits, and is never negative |
| `MonitorSemaphore.CallsAccounted` | boundedBuffer/semaphore.cpp:10-28 | over every run: value = initial + calls of post - calls of wait, but for the calls that have not changed it yet; exactly that when no call is in progress |
| `MonitorSemaphore.NoLostWakeup` | boundedBuffer/semaphore.cpp:17-27 | while somebody sleeps and the mutex is free, value is at most the number of notified threads; spuriously woken ones do not count |
| `MonitorSemaphore.NoStuckWaiter` | boundedBuffer/semaphore.cpp:17-27 | while value is positive and a wait unfinished, some thread inside can go on without a new call or spurious wakeup |
| `Primes.IsPrime` | boundedBuffer/primes.cpp:15-33 | true exactly for the primes, over all integers; `i * i` exceeds a 32-bit int exactly for primes from 46337 * 46337 on |
| `Primes.TrialDivision` | boundedBuffer/primes.cpp:26-32 | the loop over 6k - 1 and 6k + 1 decides primality of numbers not divisible by 2 or 3 |
| `Primes.SixMore` | boundedBuffer/primes.cpp:26-27 | two divisions rule out six consecutive divisors |
| `Primes.NoSmallDivisor` | boundedBuffer/primes.cpp:26-32 | no divisor up to the square root means prime |
| `Primes.LastSquare` | boundedBuffer/primes.cpp:26-26 | the square that ends the loop overflows exactly for numbers from 46337 * 46337 on |
| `Primes.PrimeAbove` | boundedBuffer/primes.cpp:5-12 | beyond every number there is a prime, so the search ends |
| `Primes.GetNextPrime` | boundedBuffer/primes.cpp:5-12 | terminates with the least prime above its argument; `prime++` or `i * i` exceeds a 32-bit int exactly when no prime lies between the argument and 46337 * 46337 |
| `Primes.NextPrimeUnique` | boundedBuffer/primes.cpp:5-12 | there is only one such prime |
| `BoundedBuffer.StepKeepsInv` | boundedBuffer/boundedBuffer.cpp:20-63 | each step of any producer or consumer keeps the invariant |
| `BufferTheorems.SlotAccounting` | boundedBuffer/boundedBuffer.cpp:34-59 | slots, queue and threads in flight add up to the capacity; the queue never exceeds it; front and pop never meet an empty queue |
| `BufferTheorems.SectionsExclusive` | boundedBuffer/boundedBuffer.cpp:22-59 | the sections of otherPrime, and those of syncPrimes, exclude each other |
| `BufferTheorems.PrimesInOrder` | boundedBuffer/boundedBuffer.cpp:20-63 | the values pushed are exactly the primes above n up to the last one, in ascending order and each once; popped followed by queued equals pushed; pop removes what front returned |
| `BufferTheorems.SearchedInOrder` | boundedBuffer/boundedBuffer.cpp:37-39 | for any search that meets the specification of getNextPrime: each value pushed is the next prime after the one before, beginning with max(1, n), first in, first out |
| `BufferTheorems.RunsAreBounded` | boundedBuffer/boundedBuffer.cpp:20-63 | no run is longer than ten steps per producer and six per consumer |
| `BufferTheorems.NoDeadlock` | boundedBuffer/boundedBuffer.cpp:34-35 | with consumers <= producers <= capacity, a state is stuck exactly when everybody has finished |
| `BufferTheorems.TooManyProducersJam` | boundedBuffer/boundedBuffer.cpp:34-35 | with more producers than slots some run gets stuck unfinished, whatever the consumers |
| `BufferTheorems.TooManyConsumersStarve` | boundedBuffer/boundedBuffer.cpp:53-54 | with more consumers than producers some run gets stuck unfinished |
| `BufferTheorems.FinishesExactlyWhen` | boundedBuffer/boundedBuffer.cpp:90-101 | every run that cannot go on has finished, if and only if consumers <= producers <= capacity |
| `MonitorBufferSteps.StepRefines` | boundedBuffer/boundedBuffer.cpp:15-63 | with the monitor semaphores, each step keeps the invariant and is a step of the buffer with atomic semaphores or leaves it unchanged |
| `MonitorBufferTheorems.RefinesAtomic` | boundedBuffer/boundedBuffer.cpp:15-63 | every state reachable with monitors is, seen through the values, reachable with atomic semaphores |
| `MonitorBufferTheorems.ReachesAtomic` | boundedBuffer/boundedBuffer.cpp:15-63 | and every state reachable with atomic semaphores is reachable with monitors |
| `MonitorBufferTheorems.PrimesInOrder` | boundedBuffer/boundedBuffer.cpp:20-63 | the program as written passes exactly the primes above n up to the last one, in ascending order, through a queue of at most the capacity, first in, first out |
| `MonitorBufferTheorems.NoDeadlock` | boundedBuffer/boundedBuffer.cpp:34-35 | with consumers <= producers <= capacity, nothing but spurious wakeups is possible exactly when everybody has finished |
| `MonitorBufferTheorems.RunsAreBounded` | boundedBuffer/semaphore.cpp:17-27 | the length of every run is linear in the threads plus three per spurious wakeup |
| `MonitorBufferTheorems.FinishesExactlyWhen` | boundedBuffer/boundedBuffer.cpp:90-101 | every run of the program as written that halts has finished, if and only if consumers <= producers <= capacity |
| `BarrierMerge.Start` | threads/barrier.c:65-66 | every index starts at i * TNUM |
| `BarrierMerge.Smallest` | threads/barrier.c:68-74 | the inner loop finds the first chunk with the smallest next element, or every next element is LONG_MAX |
| `BarrierMerge.Choose` | threads/barrier.c:68-75 | which chunk a round takes from: the one found, else the stale one; when the index is unassigned or the position out of range |
| `BarrierMerge.Advance` | threads/barrier.c:67-77 | taking the smallest next element keeps the output sorted, not above what is left, and exactly what was taken |
| `BarrierMerge.Round` | threads/barrier.c:67-77 | one round keeps the description of what has been written and where each chunk stands, or shows that the merge cannot succeed |
| `BarrierMerge.Merge` | threads/barrier.c:59-78 | fills snums with the sorted permutation of nums if and only if LONG_MAX does not occur or the stale index happens to read as many LONG_MAX as occur; reads an unassigned index exactly when nothing else occurs, and beyond nums exactly when more LONG_MAX occur than places are left behind the last chunk position taken |
| `BarrierMerge.LastLowUnique` | threads/barrier.c:70-73 | the chunk and position that the stale index continues from are determined by the input |
| `BarrierMerge.TailDecides` | threads/barrier.c:75-76 | what the stale index reads completes the sorted permutation exactly if it is all LONG_MAX |
| `BarrierMerge.LowRecovers` | threads/barrier.c:59-78 | data without LONG_MAX meet the condition of `Merge` |
| `BarrierMerge.TopsSpoil` | threads/barrier.c:68-76 | sorted chunks with one LONG_MAX for which the merge goes wrong |
| `BarrierRuns.StepKeepsInv` | threads/barrier.c:42-54 | each step of main and the workers keeps the invariant |
| `BarrierRuns.FinishedChunksStay` | threads/barrier.c:47-48 | a chunk whose worker is at the barrier is not written any more |
| `BarrierRuns.MergeStartsSorted` | threads/barrier.c:97-108 | in every interleaving, when main merges every chunk is sorted and nums is a permutation of the input |
| `BarrierRuns.MergeAfterBarrier` | threads/barrier.c:97-108 | the whole program leaves the sorted permutation of an input without LONG_MAX in snums |
| `JobQueue.Queue.Init` | threads/rwlock.c:20-32 | the queue becomes the empty sequence, and the result is that of the lock's initialisation |
| `JobQueue.Queue.Insert` | threads/rwlock.c:37-49 | puts the job in front of the sequence and keeps the links in both directions |
| `JobQueue.Queue.Append` | threads/rwlock.c:54-66 | puts the job behind the sequence |
| `JobQueue.Queue.Remove` | threads/rwlock.c:71-89 | takes exactly the given job out of the sequence |
| `JobQueue.Queue.RemoveHead` | threads/rwlock.c:75-80 | the branch for the first job, including the only one |
| `JobQueue.Queue.RemoveTail` | threads/rwlock.c:81-83 | the branch for the last of several jobs |
| `JobQueue.Queue.RemoveInner` | threads/rwlock.c:84-87 | the branch for a job between two others |
| `JobQueue.Queue.Find` | threads/rwlock.c:94-108 | the first job with the thread id; NULL exactly when there is none or the lock failed |
| `JobQueue.Queue.WalksAreReverses` | threads/rwlock.c:37-108 | the forward walk is the sequence and the backward walk its exact reverse; both end |
| `Checksum.InCksum` | packetSpoofing/checksum.c:11-38 | the accumulator reaches the plain sum of the words; when that fits 32 bits the result is the complement of the one's complement sum |
| `Checksum.WordAt` | packetSpoofing/checksum.c:23-32 | each word is a pair of bytes in the order of the machine, an odd last byte being followed by a zero one |
| `Checksum.FoldGivesOnesSum` | packetSpoofing/checksum.c:34-36 | two fold lines give the full end-around-carry sum |
| `Checksum.OnesSumIsCanon` | packetSpoofing/checksum.c:34-36 | the end-around-carry sum is the sum modulo 65535, with 0 only for 0 |
| `Checksum.NoOverflow` | packetSpoofing/checksum.c:23-32 | up to 65536 bytes, and 65537 on a little-endian machine, the 32-bit sum cannot overflow |
| `Checksum.OverflowExactlyWhen` | packetSpoofing/checksum.c:23-32 | these are exactly the lengths for which no buffer overflows |
| `Checksum.ByteOrderIndependent` | packetSpoofing/checksum.c:24-24 | reading words in the other byte order gives the byte-swapped sum and checksum (section 2 of RFC 1071) |
| `Checksum.StoredVerifies` | packetSpoofing/checksum.c:11-38 | storing the checksum in a zero aligned field makes the checksum of the whole 0 (section 1 of RFC 1071) |
| `Checksum.CalculateTcpChecksum` | packetSpoofing/checksum.c:47-67 | on a big-endian machine the result is the one's complement of the sum, modulo 65535, of the words of both addresses, 6, the length of the segment and the words of the segment (section 3.1 of RFC 9293); on a little-endian one the same with its bytes swapped |
| `Checksum.TcpVerifies` | packetSpoofing/spoof_tcp.c:56-71 | storing it in the zero checksum field of the TCP header makes the segment verify |
| `FdProtocol.Writen` | lib/writen.c:3-23 | partial writes are continued: everything is sent if every write gets something through, and otherwise exactly what was accepted before the first write answered by 0 or -1; the result is the length of what was sent, or -1 exactly if the first write failed |
| `FdProtocol.SendFd` | lib/sendfd.c:13-49 | success exactly when memory and sendmsg allow; what is handed to sendmsg is null and status, the status non-zero for an error, and zero with the descriptor otherwise |
| `FdProtocol.SendErr` | lib/senderr.c:8-24 | success exactly when all of the message and the trailer get through; then the stream is message, null, status; a failure leaves the part of the message that got through; if every write gets something through, only the trailer can fail |
| `FdProtocol.Scan` | lib/recvfd.c:54-68 | the scanning loop finds the first null, detects a misplaced one or a missing descriptor, and strips the trailer |
| `FdProtocol.Handle` | lib/recvfd.c:41-72 | one receive: the call goes on exactly for message bytes that userfunc accepts; a failed or empty receive ends it with -1, a misplaced null or a zero status without descriptor with a format error, and a trailer with the descriptor or the negated status, after the bytes before it |
| `FdProtocol.RecvFd` | lib/recvfd.c:20-74 | -1 without memory; else after any number of accepted receives of message bytes, all of which are delivered in order, the first other receive decides: -1 if it failed, was empty or was refused, a format error for a misplaced null or a missing descriptor, and otherwise the descriptor or the negated status; without one it waits on |
| `FdProtocol.RoundTrip` | lib/recvfd.c:49-73 | for every cut of a null-free message and its trailer and every userfunc: what is delivered is a prefix of the message; the first refusal returns -1 with the part received so far delivered; without one, exactly the message is delivered and the status returned if the trailer is in one piece, and if it is cut a format error is reported after the chunks before the null byte |
| `FdProtocol.ErrorArrives` | lib/senderr.c:17-24 | the code returned: the one sent if in -255..-1, -1 for a non-negative one, minus the low eight bits or -1 in general |
| `FdProtocol.DescriptorArrives` | lib/sendfd.c:33-48 | a descriptor sent after a message arrives with exactly the message |

## Left out

- The bodies of the concurrent programs are step functions on values, not Dafny methods: interleavings need a step relation. Lock-protected pointer updates are single steps on a heap map.
- Integer width is explicit only where it decides something: the checksum accumulator, `prime++` and `i * i`, HASH, LONG_MAX, the status byte. `f_count`, `value` and the array indices are unbounded, and what the original computes after a signed overflow is not modelled.
- Checksum.InCksum: says nothing about the result when the accumulator overflows, because that is undefined in C.
- Checksum.CalculateTcpChecksum: requires a packet that holds its segment and a segment that fits the 1532-byte buffer, because memcpy is undefined otherwise.
- Failures of pthread and C++ locking calls; a failing `pthread_mutex_init` in `foo_alloc` is the same step as a failing malloc.
- Fairness and liveness beyond absence of deadlock; in particular that each philosopher eventually eats.
- lib/semaph.c: `sem_op`, `sem_wait`, `sem_signal` and what they do to member [0], `sem_rm` called by a server, the checks for IPC_PRIVATE and -1, several keys, and the kernel's upper limits on values and adjustments.
- The library heapsort: assumed to touch only its chunk and to return with it sorted and permuted; while it runs, the chunk may hold anything.
- The reader-writer lock of the job queue: each operation is one method, and `jp` must not be in the queue for insert and append and must be in it for remove, as the original demands.
- recvfd.c: a receive is not limited to MAXLINE bytes, and control data is either a descriptor or absent.
- Mutex ownership rules of Windows in dineWin.cpp.
- Printing, sleeping, timing and argument parsing.
- Client-server, pipe, fork, shared-memory, file, signal and packet-sniffing demos, the packet senders and the encryption wrappers: plumbing around system calls and libraries.
- Simpler or copied variants: mutex/, threads/mutex1.c, threads/condvar.c, producerConsumer/, semaphore/, boundedBuffer/withSemaphore.cpp, lib/Orecvfd.c.
