# Concurrency, containers, allocation and hashing: a Dafny model

This project models the stateful core of a C library and proves what that core is for: its thread
pool, its two hash tables, its size-class allocator and its streaming hashes. Where the C code
updates fields, arrays, links and buffers in place, so do the classes here; each is tied to a
mathematical specification, and the theorems are about that specification over every input, every
run and every schedule. `dafny verify dfyconfig.toml` checks everything.

## How it is organised

**Thread pool** (`threadpool.c`). `PoolSpec` is the pool as a transition system: a thread has a
program counter, a step is one critical section or one action outside the lock, a condition
variable is the set of threads asleep on it, and wake-ups may be spurious. `ConditionVariable`
leaves the choice of the thread a signal wakes to the scheduler. `PoolInvariant` states the
invariant in four parts (callers, workers, tasks, sleepers); `PoolWorkers`, `PoolCalls` and
`PoolClosing` show that each step keeps it; `PoolTheorems` concludes that no wake-up is lost and
nothing deadlocks, `PoolShutdown` that shutdown ends whatever calls are made meanwhile,
`PoolHistory` what becomes of every task, what the statistics say and what `threadpool_wait` means,
`PoolTasks` that over a run each task goes through its callback and its cleanup once, `PoolAnswers`
what each call answers, in which state, and what the two ways of closing the pool do. `ThreadPool`
is the struct with its ring buffer; every critical section is a method proved to take exactly the
step of `PoolSpec`, and `PoolRuns` drives it through every schedule.

**Open-addressing set** (`set.c`). `OpenTable` has the probe paths and when an unbounded probe
halts, `OpenSet` the class with its load invariant. `Floats` and `Bits` treat floating-point keys
as IEEE 754 bit patterns, with the numbers they stand for, and the masks as remainders. The
load-factor tests of the code are exact in floating point because capacities are powers of two, so
they are written with integers; `OpenSet.LoadsMean` and `Occupancy.StepsMean` say them as the code does.

**Chained hash map** (`hashmap.c`). `Variants` are keys and values, `Chains` the linked nodes and
the sequences they stand for, `Relinking` a resize half way through, `Powers` the overflow-checked
next power, `Occupancy` the occupancy band and the amortized cost, `HashMap` the class.
`HashMapRuns` and `SetRuns` drive whole runs of the two tables, and say what a question after a run
answers in terms of the requests alone.

**Size-class allocator** (`memorypool.c`). `BlockMemory` is the address space: regions answered by
`malloc`, blocks carved from them, lists threaded through first words. `MemoryPool` is the class;
one map holds the first words, so that a block's link and its class index share storage as the
union in the header does, and giving a region back makes its words unreadable.

**Streaming hashes** (`sha256.c`, `md5.c`). `Sha256Spec` and `Md5Spec` state FIPS 180-4, RFC 2104
and RFC 1321 over whole messages; `Sha256`, `Hmac` and `Md5` are the contexts that absorb bytes in
place. `Sha256Example` and `Md5Example` derive published digests from the specifications.
`WordArithmetic` has the 32-bit operations, `Sequences` what pieces and overwritten prefixes have in
common.

## What the code does that its comments do not say

- The guard in `__set_shrink__` (set.c:186) is commented out, so capacities 2 and 1 are reachable.
  There a table can fill up, and `contains` and `del` of an absent key then never return.
  `OpenTable.HaltsIffPresentOrRoom` is the exact condition, `OpenSet.FillsUp` reaches such a state;
  `put` always returns.
- `memorypool_alloc` adds the header to the size without an overflow test, so a size within 16 of
  2^64 gets a smaller block; `MemoryPools.LiveExtent` is the exact condition and
  `MemoryPools.ShortBlock` reaches such a block.
- The bulk loop of `__md5_update__` compares in 32 bits, so it runs past an input of nearly 2^32
  bytes; `Md5.BulkLoopIsFaithful` is the exact condition and `Md5.BulkLoopOverruns` the shortest
  failing length.
- In the hash map the null variant equals nothing, not even itself (`Variants.EqualsItself`). It is
  refused as a key, so equality is an equivalence on the keys that can be stored.
- `__set_put__` does not test what `strdup` answers (set.c:180). When the copy fails the slot holds a
  null string, the put returns as if it had worked, and the next probe for that key compares with
  null. `OpenSet.Set.Put` says exactly when the set survives, `OpenSet.Uncopied` reaches such a slot.
- `memorypool_free` of a block that is already free is ignored, unless the block is the last of its
  free list: its null link reads as class 0 and it is pushed onto the list of that class as well.
  `MemoryPools.MemoryPool.Free` is the exact condition, `MemoryPools.FreedTwice` reaches such a pool.

## Model

| member | source | states |
|---|---|---|
| `ConditionVariable.SignalWakes` | threadpool.c:347-353 | Whichever sleeper the scheduler picks: a signal wakes exactly one if there is one and moves nobody else |
| `ConditionVariable.SignalTimesWakes` | threadpool.c:166 | A loop of k signals wakes min(k, sleepers) distinct sleepers and moves nobody else |
| `PoolInvariant.SignalIdleServes` | threadpool.c:393-403 | After signalling idleness no client sleeps on `all_idle` while the pool is idle, and nothing but those clients has moved |
| `PoolInvariant.LeaveServes` | threadpool.c:406-410 | Leaving a call keeps the call counters and never leaves the destroyer asleep with no call in progress |
| `PoolInvariant.SubmitLeaveServes` | threadpool.c:413-417 | The same for a submission, including the clients that wait for the last submission to end |
| `PoolCalls.NotifyServes` | threadpool.c:164-167 | After an enqueue the choice between one signal per task and a broadcast leaves every queued task a woken worker, or no worker asleep |
| `PoolCalls.AcceptKeeps` | threadpool.c:155-170 | Accepting a batch that fits keeps the invariant, also when a woken single submission brings it |
| `PoolCalls.SubmitBodyKeeps` | threadpool.c:138-170 | The submission loop keeps the invariant on all its ways out: asleep, refused, closed, accepted |
| `PoolCalls.SubmitKeeps` | threadpool.c:118-171 | A whole submission step keeps the invariant for every batch, blocking or not, from outside or from a running task |
| `PoolCalls.SubmitResumeKeeps` | threadpool.c:145-170 | So does a submission that wakes up, for a reason or spuriously, and perhaps sleeps again |
| `PoolClosing.WaitResumeKeeps` | threadpool.c:187-197 | A woken client keeps the invariant whether it sleeps again or returns |
| `PoolClosing.WaitKeeps` | threadpool.c:174-198 | So does a new call of `threadpool_wait` |
| `PoolClosing.DestroyKeeps` | threadpool.c:232-252 | Closing the pool in either mode keeps the invariant: everybody asleep is woken and discarded tasks stay accounted for |
| `PoolClosing.WalkKeeps` | threadpool.c:254-258 | Cleaning up one discarded task outside the lock keeps the invariant |
| `PoolClosing.DestroyerMovesKeeps` | threadpool.c:260-264 | Waiting for calls and joining workers keeps the invariant |
| `PoolClosing.DisposeKeeps` | threadpool.c:266-272 | Releasing the arrays keeps the invariant |
| `PoolClosing.ReleaseKeeps` | threadpool.c:291-302 | Dropping the creator's reference keeps the invariant |
| `PoolClosing.SpuriousCallerKeeps` | threadpool.c:334-344 | A spurious wake-up of a submitter, a client or the destroyer keeps the invariant |
| `PoolWorkers.SleepKeeps` | threadpool.c:434-436 | A worker goes to sleep only when no task is left for it |
| `PoolWorkers.ExitKeeps` | threadpool.c:440 | A worker leaves only when the pool is shut down and the queue is empty |
| `PoolWorkers.WakeKeeps` | threadpool.c:436-438 | A worker that resumes may take one task before the others see it, and the wake-up invariant allows for exactly that one |
| `PoolWorkers.FinishKeeps` | threadpool.c:456-459 | Finishing a task counts it once and wakes the clients if it was the last |
| `PoolWorkers.FreedSlotServes` | threadpool.c:445-448 | A freed slot serves the submitters: one signal suffices without batches, a broadcast is enough with them |
| `PoolWorkers.WorkerLoopKeeps` | threadpool.c:433-450 | The head of the worker loop keeps the invariant, whether it was entered by a woken worker or by one that barged in after a task |
| `PoolWorkers.SpuriousWorkerKeeps` | threadpool.c:436 | A spurious wake-up of a worker keeps the invariant |
| `PoolTheorems.CreateEstablishes` | threadpool.c:60-100 | A new pool of any size satisfies the invariant |
| `PoolTheorems.StepKeeps` | threadpool.c:118-466 | Every one of the twenty kinds of step keeps it |
| `PoolTheorems.RunKeeps` | threadpool.c:118-466 | So does every run, under every schedule |
| `PoolTheorems.NoLostWakeUps` | threadpool.c:138-167 | In every reachable state: while a worker sleeps the queue is no longer than the woken workers; a sleeping submission does not fit, or is single and the free slots are no more than the woken single submissions; a client sleeps only while there is work; the destroyer only while there are calls; after shutdown nobody sleeps on the other three conditions |
| `PoolTheorems.DeadlockFree` | threadpool.c:138-197 | If no thread can take a step of its own, no call is in progress, no task is queued or to be discarded, and the workers all sleep for work or have all exited after a completed shutdown |
| `PoolTheorems.ReachableNeverDeadlocks` | threadpool.c:138-264 | That holds in every state reachable from creation |
| `PoolTheorems.FreedIsOver` | threadpool.c:291-302 | When the pool is freed nothing is owed to anyone and no reference is left |
| `PoolShutdown.StepWorks` | threadpool.c:228-264 | After shutdown every step a thread takes of its own strictly decreases a measure over queued, running and discarded tasks, calls, workers and joins |
| `PoolShutdown.RefusedWorks` | threadpool.c:123-126 | A call on a closing pool, from outside, from a running task or from a cleanup, leaves the measure as it is |
| `PoolShutdown.ShutdownIsBounded` | threadpool.c:228-264 | In every schedule after shutdown without spurious wake-ups, whatever calls are made meanwhile, the steps the threads take of their own are bounded by the measure; shutdown is never undone |
| `PoolShutdown.ShutdownFinishes` | threadpool.c:228-274 | Once no thread has a step of its own left in such a schedule, all workers are joined, all calls answered, the queue is empty and the pool destroyed |
| `PoolShutdown.ShutdownCanFinish` | threadpool.c:228-274 | And every such schedule can be continued to that end by the threads alone |
| `PoolHistory.SubmitAppends` | threadpool.c:138-170 | A submission answers 0 exactly if the batch fits and the pool is open, and then appends the batch, whole and contiguous; otherwise it appends nothing |
| `PoolHistory.StepExtends` | threadpool.c:155-162 | No step takes back anything accepted, dequeued or done; it dequeues at most the oldest queued task |
| `PoolHistory.RunExtends` | threadpool.c:155-162 | Over a whole run the dequeued tasks, their workers and the finished tasks only grow |
| `PoolHistory.CallbackEnteredOnce` | threadpool.c:441-453 | Whatever the step, a callback is entered only for the oldest queued task, which takes the next number |
| `PoolHistory.EnteredInOrder` | threadpool.c:441-453 | Over a whole run no task's callback is entered twice, and callbacks are entered in order of acceptance |
| `PoolTasks.StepAdvances` | threadpool.c:441-459 | Whoever takes a step, it keeps the stage of each task or advances it by one: dequeued, callback, cleanup if it has one, both returned, done |
| `PoolTasks.CleanupAfterCallback` | threadpool.c:452-455 | A cleanup is entered only by the step in which the callback of the same task returns on the same worker, and only if it is not NULL |
| `PoolTasks.EachEnteredOnce` | threadpool.c:441-459 | Over a whole run a dequeued task's callback is entered exactly once and no other's ever; its cleanup is entered exactly once if it is not NULL and the callback has returned, and never otherwise |
| `PoolTasks.CallbackBeforeCleanup` | threadpool.c:452-455 | At the step that enters a cleanup its callback has been entered exactly once before, and the cleanup never |
| `PoolTasks.DoneEnteredOnce` | threadpool.c:441-459 | A task that is done, as every dequeued one is after destroy, has been through its callback exactly once and through a non-NULL cleanup exactly once |
| `PoolHistory.ExactlyOnce` | threadpool.c:155-162 | Accepted tasks are, in order, the dequeued, the queued and the discarded ones; a dequeued task is either done or being run by exactly one worker |
| `PoolHistory.AfterDestroy` | threadpool.c:242-272 | After a completed destroy every accepted task was run to its end or discarded, never both, and each discarded task's non-NULL cleanup was called once, in queue order |
| `PoolHistory.WaitMeansQuiescent` | threadpool.c:174-198 | `threadpool_wait` answers 1 exactly on shutdown or refusal, else 0 exactly without work, and then every accepted task is done and no submission is in progress; else it sleeps |
| `PoolHistory.CountersConserve` | threadpool.c:135-162 | accepted = completed + discarded + working + queued while at most 2^64 - 1 tasks were accepted; api_users = pending_submissions + waiting_clients; pending_submissions = waiting_submitters; queue <= peak <= capacity |
| `PoolHistory.NoCounterWraps` | threadpool.c:35-48 | In every reachable state each counter of the struct is within its C type: the users stay at or below UINT_MAX and bound all counters of calls |
| `PoolTheorems.WalkerIsRefused` | threadpool.c:254-258 | A submit, wait or destroy called by a discarded task's cleanup is refused and changes nothing |
| `PoolHistory.WalkIsUndisturbed` | threadpool.c:254-258 | While discarded tasks are walked outside the lock, no other step enqueues, dequeues or discards anything |
| `PoolHistory.DisposedWhenUnreachable` | threadpool.c:260-272 | The arrays are freed once, when all workers have exited, no call is in progress, no discarded task is left and no other caller is inside |
| `PoolHistory.FreedByLastOwner` | threadpool.c:291-302 | Only dropping the last reference frees the pool, and only after destroy has finished |
| `PoolAnswers.SubmitAnswers` | threadpool.c:118-171 | A batch of callable tasks no longer than the capacity, offered to an open pool with a call to spare, answers 0 and is appended exactly if it fits; else a blocking call from outside sleeps, and any other answers 2 and leaves the pool as it was; everything else is refused with 1 and leaves the pool as it was |
| `PoolAnswers.SubmitResumeAnswers` | threadpool.c:145-170 | A submission that wakes up answers 1 exactly on shutdown, else 0 exactly if its batch fits now, else sleeps again and changes nothing |
| `PoolAnswers.WaitAnswers` | threadpool.c:174-198 | A wait answers 1 exactly on shutdown or at the largest count of calls, else 0 exactly if nothing is queued, running or being submitted, both without changing anything; else it sleeps |
| `PoolAnswers.WaitResumeAnswers` | threadpool.c:187-197 | A client that wakes up answers 1 exactly on shutdown, else 0 exactly if there is no work, else sleeps again |
| `PoolAnswers.DestroyAnswers` | threadpool.c:228-252 | The first destroy closes the pool: a safe exit keeps the queue and discards nothing, the other discards the whole queue and counts it; a second destroy answers 1 and changes nothing |
| `PoolAnswers.DiscardedStay` | threadpool.c:242-258 | On a closed pool no step discards or accepts any further task, and an empty queue stays empty |
| `PoolAnswers.ExitModes` | threadpool.c:228-274 | Over every run that goes on after a destroy: a safe exit never discards a task and, once destroyed, every accepted task is done; the other exit discards exactly the tasks that were queued then, no further task is dequeued, and once destroyed exactly their cleanups have been called, in order |
| `PoolAnswers.RetainAnswers` | threadpool.c:278-288 | A retain answers 1 exactly on shutdown or at the largest count and changes nothing; else 0, and a release undoes it |
| `PoolAnswers.ReleaseAnswers` | threadpool.c:291-302 | A release answers 1 exactly for the last reference to a pool that is not destroyed and changes nothing; else 0, and frees exactly the last one |
| `PoolAnswers.WorkerAnswers` | threadpool.c:433-450 | A worker at the lock takes the oldest task if there is one; else it leaves a closing pool and sleeps in an open one |
| `PoolAnswers.FreedSlotWakes` | threadpool.c:445-448 | A freed slot wakes exactly one sleeping submission if there is one, or all of them exactly if some waiting submission is a batch |
| `PoolAnswers.AcceptedTasksWake` | threadpool.c:164-167 | k accepted tasks wake exactly min(k, sleeping) workers, by signals or by the broadcast |
| `PoolAnswers.PeakIsLongest` | threadpool.c:160-161 | Over every run from creation the peak of the statistics is the length of the longest queue there has been |
| `ThreadPool.RingPut` | threadpool.c:155-158 | Writing the slot behind the last one appends to the FIFO, for every head and wrap-around |
| `ThreadPool.RingTake` | threadpool.c:441-444 | Advancing the head removes the oldest element |
| `ThreadPool.ThreadPool.Create` | threadpool.c:60-109 | Null exactly for a size that is not positive or a failed allocation, lock, condition or thread; otherwise fields, ring and thread table represent the initial state, which satisfies the invariant |
| `ThreadPool.ThreadPool.Put` | threadpool.c:155-160 | The copying loop refines appending the batch to the FIFO |
| `ThreadPool.ThreadPool.Accept` | threadpool.c:155-167 | Ring, length, peak, counter and wake-ups together refine the acceptance step |
| `ThreadPool.ThreadPool.SubmitBody` | threadpool.c:138-170 | The in-place code refines the specified submission step, and its answer in the fields: 1 on shutdown, else 0 exactly if the batch fits, else asleep if blocking and from outside, else 2 |
| `ThreadPool.ThreadPool.AddBatch` | threadpool.c:118-171 | The same for the whole call: 1 exactly for an empty batch, a missing function, a batch above the capacity, a closed pool or the largest count of calls |
| `ThreadPool.ThreadPool.AddBatchResumes` | threadpool.c:145-170 | The same from a wake-up on: 1 on shutdown, else 0 exactly if the batch fits, else asleep again |
| `ThreadPool.ThreadPool.WaitResumes` | threadpool.c:187-197 | `threadpool_wait` from a wake-up on refines its specified step; in the fields, 1 on shutdown, else 0 exactly without work, else asleep again |
| `ThreadPool.ThreadPool.WaitIdle` | threadpool.c:174-198 | And from the call on, with 1 also at the largest count of calls |
| `ThreadPool.ThreadPool.SignalIdle` | threadpool.c:393-403 | Broadcasts `all_idle` exactly when clients wait on an idle pool |
| `ThreadPool.ThreadPool.Leave` | threadpool.c:406-410 | Signals `api_idle` exactly when the last call leaves a closing pool |
| `ThreadPool.ThreadPool.SubmitLeave` | threadpool.c:413-417 | Both, for a submission |
| `ThreadPool.ThreadPool.Notify` | threadpool.c:164-167 | The signalling loop wakes the workers the specification says |
| `ThreadPool.ThreadPool.WakeSubmitters` | threadpool.c:445-448 | Signal or broadcast of `not_full` as specified |
| `ThreadPool.ThreadPool.Take` | threadpool.c:441-444 | The head slot is the oldest task of the FIFO, and it leaves the FIFO |
| `ThreadPool.ThreadPool.TakeTask` | threadpool.c:441-450 | Dequeuing hands the oldest task to this worker and counts it as running |
| `ThreadPool.ThreadPool.WorkerLoop` | threadpool.c:433-450 | The head of the worker loop refines its specified step |
| `ThreadPool.ThreadPool.WorkerResumes` | threadpool.c:436-450 | So does a wake-up |
| `ThreadPool.ThreadPool.WorkerFinishes` | threadpool.c:456-459 | So does the end of a task |
| `ThreadPool.ThreadPool.Destroy` | threadpool.c:228-252 | Closing the pool refines its step: a safe exit keeps the queue and reports 0 discarded tasks, the other empties the queue and reports its length |
| `ThreadPool.ThreadPool.WalkOne` | threadpool.c:254-258 | The unlocked walk reads exactly the oldest remaining discarded task, whatever happened since the lock was released |
| `ThreadPool.ThreadPool.CheckCalls` | threadpool.c:260-262 | The destroyer sleeps exactly while the counter of calls is not 0, and else begins to join |
| `ThreadPool.ThreadPool.DisposeArrays` | threadpool.c:266-272 | Releasing the arrays refines its step |
| `ThreadPool.ThreadPool.Retain` | threadpool.c:278-288 | Answers 1 exactly on shutdown or at the largest count; otherwise the reference is counted |
| `ThreadPool.ThreadPool.Release` | threadpool.c:291-302 | Dropping a reference, the destroyer's own or a caller's, refines its step: the last one is refused before destroy and frees after it |
| `ThreadPool.ThreadPool.Unseen` | threadpool.c:452-455 | A callback or cleanup that returns, a join and a spurious wake-up leave every field as it is and still represent the new state |
| `PoolRuns.Step` | threadpool.c:118-466 | Whichever of the twenty kinds of step comes next, the critical section that stands for it takes it, and nothing a method looks at or requires is missing in a state of the invariant |
| `PoolRuns.RunAll` | threadpool.c:60-466 | Every legal schedule of any length drives a real pool from creation to exactly the state the specification reaches, so every theorem about reachable states is one about the fields and the ring |
| `Bits.MaskIsMod` | set.c:147 | Masking with a power of two less one is the remainder |
| `Bits.MaskedNext` | set.c:156 | The masked step goes round the ring |
| `Floats.MatchesIffCanonical` | set.c:101-113 | The comparison with NaN equal to NaN and equal zeros is equality of canonical patterns, hence an equivalence, at any width |
| `Floats.ClassesMean` | set.c:78-81 | The tests for NaN and for zero hold exactly of the patterns beyond infinity and of the patterns whose number is 0 |
| `Floats.MatchesIffSameNumber` | set.c:101-113 | Two patterns of their width match exactly if neither is a number, or both are and their values, sign times fraction scaled by the exponent, are equal |
| `Bits.XorBits` | set.c:65 | The exclusive or is that of each bit |
| `OpenTable.EqualIffSameValue` | set.c:92-120 | Slot equality means the same type and the same integer, string or number, at both precisions; and the members of the mathematical set are told apart by exactly that |
| `OpenTable.HashMeans` | set.c:70-89 | The hash is FNV-1a of the bytes of the value, with all zeros hashed as the pattern 0 and all NaNs to one constant |
| `OpenTable.FnvRounds` | set.c:62-67 | Offset basis, exclusive or and prime of 32-bit FNV-1a, byte by byte |
| `OpenTable.EqualIffCanon` | set.c:70-120 | Slot equality is an equivalence on all keys and equal keys hash equally |
| `OpenTable.AbsentAtEmpty` | set.c:149-151 | Reaching an empty slot without a match proves that the key is nowhere in the table |
| `OpenTable.InsertAdds` | set.c:171-181 | Storing an absent key in the first free slot of its path, tombstone or empty, keeps every probe path and adds exactly that key |
| `OpenTable.RemoveDeletes` | set.c:212-215 | A tombstone removes exactly that key and keeps every probe path in use |
| `OpenTable.HaltsIffSomeSlotStops` | set.c:146-158 | The unbounded probe loop leaves if and only if some slot is empty or holds the key |
| `OpenTable.HaltsIffPresentOrRoom` | set.c:146-158 | That is, if and only if the key is present or some slot has never been used |
| `OpenSet.GrownHasRoom` | set.c:162-169 | After the growth test of a put a slot is unused, from every state the load invariant allows |
| `OpenSet.AddedStaysLoaded` | set.c:171-181 | A put keeps the load invariant: a power-of-two capacity, used at most three quarters from four slots on |
| `OpenSet.ShrunkStaysLoaded` | set.c:185-196 | So does shrinking, and it leaves a slot unused |
| `OpenSet.LoadsMean` | set.c:162-206 | In real numbers, as the code compares: a put doubles the table from 0.75 used on; a deletion that leaves at most 0.25 live halves it if the half is less than 0.75 full |
| `OpenSet.PutLoadsMean` | set.c:162-181 | What a put does to capacity, count and used, whether the key was present or not and whether a tombstone is reused |
| `OpenSet.Set.Create` | set.c:4-16 | Null exactly if an allocation fails; otherwise empty with 16 unused slots |
| `OpenSet.Set.FindSlot` | set.c:146-158 | Exactly when the probe halts: the slot of the key, or the first free slot of its path if it is absent |
| `OpenSet.Set.FirstEmpty` | set.c:137-138 | The inner rehash loop ends at the first empty slot of the path |
| `OpenSet.Set.Place` | set.c:135-140 | A moved slot adds its key to the new table and nothing else |
| `OpenSet.Set.Rehash` | set.c:123-143 | Moving to a larger or smaller array keeps the set, drops all tombstones and leaves used = count |
| `OpenSet.Set.Grow` | set.c:162-169 | Doubles exactly at three quarters used, keeping the set; fails only without memory |
| `OpenSet.Set.Store` | set.c:173-181 | Adds exactly this key, unless the copy of a string fails, and then leaves a slot whose string is null; `used` grows only if the slot was empty |
| `OpenSet.Set.Enter` | set.c:170-181 | From any state with an unused slot the search comes back, and exactly this key is added, reusing a tombstone or using one more slot; without the copy of a string the set is broken |
| `OpenSet.Set.Put` | set.c:161-182 | Always comes back (or exits for want of memory), and the contents become the old ones plus the key; the set survives if and only if the key is no string, is present already, or its copy succeeds |
| `OpenTable.UnsetCrashes` | set.c:115-116 | A slot left with the null of a failed copy is the first that the next probe for that string compares, with null |
| `OpenSet.Uncopied` | set.c:161-182 | On a new set a put of a string whose copy fails returns with such a slot |
| `OpenSet.Set.Bury` | set.c:213-215 | Removes exactly this key and leaves the slot used |
| `OpenSet.Set.Shrink` | set.c:185-206 | Keeps the set; halves exactly when the half stays under three quarters full and memory is there |
| `OpenSet.Set.Delete` | set.c:209-218 | Comes back if and only if the key is present or used < capacity, says whether it was present, and removes exactly it |
| `OpenSet.Set.Contains` | set.c:271-275 | Comes back if and only if the key is present or used < capacity, always from four slots on, and answers membership |
| `SetRuns.RunAll` | set.c:161-218 | Every run of puts and deletions on a new set holds the mathematical set after each request that came back; only the deletion of an absent key from a full table of one or two slots may not |
| `SetRuns.LastDecides` | set.c:161-218 | A value is in the set after a run exactly if the last request about the same value was a put |
| `SetRuns.AskAfter` | set.c:161-275 | Every run on a new set, and then a question: the answer is yes exactly if the last request about the same value was a put |
| `OpenSet.FillsUp` | set.c:185-196 | With the size guard commented out a reachable set has one slot, full, on which asking for an absent key never comes back |
| `Variants.EqualsIffCanon` | hashmap.c:309-386 | Two variants are equal if and only if they stand for the same and are not null; equal acceptable keys hash equally, for every seed |
| `Variants.EqualsIffSameValue` | hashmap.c:353-386 | Equality means the same type and the same integer, pointer, string or number, at both precisions, and never holds of null; the keys of the mathematical map are told apart by exactly that |
| `Variants.HashMeans` | hashmap.c:309-349 | The hash of each type: seeded FNV-1a of the bytes of the value, a multiplication for pointers, one pattern for all zeros and one constant for all NaNs |
| `Variants.FnvRounds` | hashmap.c:461-466 | Seeded offset basis, exclusive or and prime of 64-bit FNV-1a, byte by byte |
| `Variants.AcceptableIffNotRefused` | hashmap.c:163-165 | The keys that are refused are null, the NULL string and the null pointer, and no others |
| `Variants.EqualsItself` | hashmap.c:353-386 | A variant equals itself if and only if it is not null |
| `Powers.DivisionGuard` | hashmap.c:454 | The division test is exact: it fires if and only if the product would exceed the word |
| `Powers.NextPowerBase` | hashmap.c:449-458 | The least power of the base from n on, or 0 exactly if it does not fit or there is none |
| `Powers.NextPowerOfPower` | hashmap.c:449-458 | A power of two is its own next power |
| `Chains.PresentInItsBucket` | hashmap.c:217-221 | A present key's node is in the bucket of its hash |
| `Chains.EqualIsTheNode` | hashmap.c:170-177 | The node with an equal key is the one node of that key |
| `Chains.Relink` | hashmap.c:417-421 | Moving one node in place leaves both chains exact, with the node at the front of its new one |
| `Chains.SkipNext` | hashmap.c:238-243 | Writing through the double pointer removes exactly the target from the chain |
| `Chains.PushedPlaced` | hashmap.c:201-206 | A node put at the front of its bucket keeps all nodes in their buckets, without repeats |
| `Chains.InsertKeyed` | hashmap.c:201-207 | One more node for an absent key keeps one node per key |
| `Chains.OneNodePerKey` | hashmap.c:201-207 | There are as many nodes as keys |
| `Chains.RemoveKeyed` | hashmap.c:241-248 | One node less forgets exactly its key |
| `Relinking.MovingOne` | hashmap.c:416-422 | Half way through a resize each node is in the old or the new table, never both |
| `Relinking.MovingEnds` | hashmap.c:414-427 | At the end all nodes are in the new table, each in its bucket |
| `Occupancy.StepsMean` | hashmap.c:180-184 | In real numbers, as the code compares: an add of an absent key doubles the table from 0.75 full on, a removal that leaves at most 0.25 halves a table of more than eight buckets, and each resize relinks every node there is |
| `Occupancy.StepStaysInBand` | hashmap.c:180-184 | Every operation keeps count <= 3/4 bucket, and bucket = 8 or 4 * count > bucket |
| `Occupancy.StepIsPaid` | hashmap.c:250-254 | By a potential function, 3 per add and 2 per remove pay for every relinked node |
| `Occupancy.ResizesAreAmortized` | hashmap.c:406-428 | Over every run from creation with memory available: the band holds and all resizes relink at most 3 * adds + 2 * removes nodes |
| `HashMaps.HashMap.Create` | hashmap.c:4-27 | Null exactly if an allocation fails; otherwise empty with eight buckets |
| `HashMaps.HashMap.MoveBucket` | hashmap.c:415-422 | The inner resize loop empties one bucket into the new table and relinks each of its nodes once |
| `HashMaps.HashMap.MoveAll` | hashmap.c:414-423 | The resize loops move every node to the bucket of its hash, without loss or repeat, and relink as many as there are |
| `HashMaps.HashMap.Resize` | hashmap.c:406-429 | Changes the number of buckets to the required power, or nothing; the map stays the same and the loops relink each of its nodes once, counted link by link |
| `HashMaps.HashMap.Rebuild` | hashmap.c:411-428 | All nodes move to a table of m buckets; the map stays the same and as many links are written anew as the map has keys |
| `HashMaps.HashMap.Find` | hashmap.c:217-221 | Walking the bucket finds the node of an equal key exactly if there is one |
| `HashMaps.HashMap.Get` | hashmap.c:212-223 | The value of the key, or nothing exactly if it is absent, null, the NULL string or the null pointer |
| `HashMaps.HashMap.Insert` | hashmap.c:201-208 | Adds one node for an absent key, at the front of its chain |
| `HashMaps.HashMap.Replace` | hashmap.c:171-176 | Overwrites the value of a present key and nothing else |
| `HashMaps.HashMap.AddNew` | hashmap.c:180-208 | For an absent key: the map is updated unless a copy or the node fails; a failed growth does not matter |
| `HashMaps.HashMap.Update` | hashmap.c:171-176 | A present key gets the new value exactly if its copy succeeds, and the size stays |
| `HashMaps.HashMap.AddAcceptable` | hashmap.c:167-209 | The search and both halves of an add, for a key that is not refused |
| `HashMaps.HashMap.Add` | hashmap.c:162-209 | Map update, or no change exactly for null, the NULL string, the null pointer, or when the copy of a string or the node that is needed fails; the size changes as specified |
| `HashMaps.HashMap.UnlinkFirst` | hashmap.c:238-243 | One write to the bucket takes exactly its first node out of its chain |
| `HashMaps.HashMap.UnlinkAfter` | hashmap.c:238-243 | One write to the node before takes exactly the target out of its chain |
| `HashMaps.HashMap.TakeOut` | hashmap.c:241-248 | The target leaves table, count and map, and is freed, once |
| `HashMaps.HashMap.FindLink` | hashmap.c:238-257 | The walk finds the node of the key and the link that leads to it |
| `HashMaps.HashMap.Extract` | hashmap.c:236-248 | The search and the deletion: exactly the key leaves the map |
| `HashMaps.HashMap.Remove` | hashmap.c:231-260 | Map deletion, and it answers true exactly for a key that was present; the size changes as specified |
| `HashMaps.HashMap.ShrinkIfSparse` | hashmap.c:250-254 | Halves exactly at a quarter full above eight buckets; the map stays the same |
| `HashMaps.HashMap.FreeChain` | hashmap.c:132-140 | Every node of the bucket is freed, once, its link being read before |
| `HashMaps.HashMap.EmptyTable` | hashmap.c:131-142 | The loops free every node of the table, once, and leave every bucket empty |
| `HashMaps.HashMap.Clear` | hashmap.c:128-153 | Every node is freed and the map becomes empty, with eight buckets if memory allows |
| `HashMapRuns.RunAll` | hashmap.c:128-260 | Every run of adds, removals and clears on a new map has the contents of the mathematical map, is in its band, and has relinked at most 3 * adds + 2 * removes nodes, up to the limit of the address space |
| `HashMapRuns.LastDecides` | hashmap.c:128-260 | After a run a key is present exactly if the last request that concerns the same value, or the whole map, was an add, and has the value of that add |
| `HashMapRuns.AskAfter` | hashmap.c:128-260 | Every run on a new map, and then `get`: it finds a node exactly for a key that is not refused and whose last request was an add, with the value of that add |
| `HashMapRuns.AddThenGet` | hashmap.c:162-223 | On any map, with memory for it: an add is refused exactly for null, the NULL string and the null pointer, and `get` of any equal key then finds the value |
| `HashMaps.WithoutPlaced` | hashmap.c:241-248 | Taking one node out of a chain keeps all others in their buckets |
| `BlockMemory.BlockInside` | memorypool.c:74-79 | A carved block lies in its chunk, behind the chunk header, 16-byte aligned |
| `BlockMemory.BlocksApart` | memorypool.c:74-79 | Different carved blocks, of one or of two chunks or classes, do not overlap |
| `BlockMemory.ListPush` | memorypool.c:77-78 | Writing the head into a block's first word and making the block the head prepends it to the list |
| `BlockMemory.ListPop` | memorypool.c:81-82 | Following the first word of the head drops it from the list |
| `BlockMemory.ClassesMean` | memorypool.c:4-16 | The room of class i is 32 * 2^i, all chunks have the same room, and a block is its room and a header of 16 bytes |
| `BlockMemory.ChunkFilled` | memorypool.c:64-79 | The blocks fill the chunk: the first begins behind its header, each at the end of the one before, the last ends with it |
| `MemoryPools.ClassOfMeans` | memorypool.c:46-54 | Sizes up to 32 are of class 0, those above 16 * 2^i and up to 32 * 2^i of class i, those above 4096 of none |
| `MemoryPools.ClassOf` | memorypool.c:43-52 | The class of a size is the smallest that holds it, or the fallback exactly if none does |
| `MemoryPools.LiveBlocksApart` | memorypool.c:84-86 | Two live blocks share no byte, header or room |
| `MemoryPools.LivePayloadCoversNoLink` | memorypool.c:84-86 | A live payload covers no free block's link, no other header and no chunk header |
| `MemoryPools.LiveExtent` | memorypool.h:27-30 | Live payloads are 16-byte aligned and have the size asked for if and only if header and size together fit in a word |
| `MemoryPools.MemoryPool.LiveIsSafe` | memorypool.c:40-108 | All of this for every block that is live in any state a run of calls can reach |
| `MemoryPools.MemoryPool.BlocksConserved` | memorypool.c:40-108 | In every such state the free list repeats nothing, and free plus live blocks of a class are its chunks times the blocks of a chunk |
| `MemoryPools.MemoryPool.Create` | memorypool.c:8-20 | Null exactly if the allocation fails; otherwise empty lists and nothing live |
| `MemoryPools.MemoryPool.FindClass` | memorypool.c:46-52 | The search finds the smallest fitting class, and none exactly above 4096 |
| `MemoryPools.MemoryPool.LinkChunk` | memorypool.c:71-72 | A new chunk is listed; nothing else changes, and its blocks are still missing |
| `MemoryPools.MemoryPool.PushBlock` | memorypool.c:76-78 | One more block is free, and the lists, headers and live blocks stay intact |
| `MemoryPools.MemoryPool.Carve` | memorypool.c:74-79 | The carving loop makes every block of the new chunk free, once |
| `MemoryPools.MemoryPool.Grow` | memorypool.c:62-80 | An empty free list is refilled from one new chunk |
| `MemoryPools.MemoryPool.Take` | memorypool.c:81-86 | The head of the free list becomes live and its header names its class, overwriting the link |
| `MemoryPools.MemoryPool.TakeBig` | memorypool.c:54-59 | A size above every class gets memory of its own, or null if there is none |
| `MemoryPools.MemoryPool.Alloc` | memorypool.c:40-87 | Null exactly for size 0 or a failed `malloc` that was needed; otherwise one new live block of the smallest fitting class and no other change |
| `MemoryPools.MemoryPool.HeaderOf` | memorypool.h:27-30 | The word in front of a live pointer still names its class, although it once was a link |
| `MemoryPools.MemoryPool.LinkOf` | memorypool.c:100 | The first word of a free block is null exactly at the end of its list; otherwise a release of it would be ignored |
| `MemoryPools.MemoryPool.Free` | memorypool.c:90-108 | Exactly a live block stops being live; a header that names no class is ignored; only a fallback block goes back to `free`; a block that is free already is ignored too, and the pool stays sound, if and only if the block does not end its list |
| `MemoryPools.MemoryPool.FreeWord` | memorypool.c:92-100 | The first word of a block that is not in use is null or names no class |
| `MemoryPools.MisfiledBreaks` | memorypool.c:102-106 | Pushing a block that ends a free list onto the list of class 0 leaves lists that are not sound |
| `MemoryPools.FreedTwice` | memorypool.c:90-108 | All blocks of the largest class are taken, the last one is freed, and freed again: it then heads the free lists of both the largest and the smallest class |
| `MemoryPools.ShortBlock` | memorypool.c:54-59 | The largest size asked of a new pool yields a live block with less room than was asked for |
| `MemoryPools.MemoryPool.PutBack` | memorypool.c:102-106 | The block is the new head of the free list its header names, and the pool stays sound if and only if the block was live |
| `MemoryPools.MemoryPool.FreeBig` | memorypool.c:95-98 | The fallback region is given back and no list or header is lost with it |
| `MemoryPools.MemoryPool.Destroy` | memorypool.c:23-37 | Every chunk is given back once, its successor being read before; fallback blocks still live stay allocated |
| `Sha256Example.AbcDigest` | sha256.c:4-21 | The specification gives the published digest of "abc": all constants, rotations and byte orders take part, through the 64 rounds |
| `Sha256Example.HashAbc` | sha256.c:24-72 | And so does the streaming code, however the three bytes are cut |
| `Sha256Spec.PadShort` | sha256.c:59-63 | With fewer than 56 bytes over, the standard padding is one block |
| `Sha256Spec.PadLong` | sha256.c:54-63 | With 56 to 63 bytes over it is two blocks, the second all padding and length |
| `Sha256Spec.BigEndianDigit` | sha256.c:62 | Byte 63 - i of the last block is the length shifted by 8 * i bits |
| `Sha256.LengthWraps` | sha256.c:61-62 | The 8 length bytes are those of the length modulo 2^64, which is all the counter keeps |
| `Sha256.AbsorbByte` | sha256.c:41 | A byte that does not fill the block |
| `Sha256.AbsorbBlock` | sha256.c:41-46 | The byte that fills it: one more block of the message is hashed |
| `Sha256.SHA256Context.constructor` | sha256.c:24-35 | A new context has absorbed nothing and holds the initial value of section 5.3.3 of FIPS 180-4 |
| `Sha256.SHA256Context.ExpandWords` | sha256.c:185-194 | The in-place schedule is that of section 6.2.2 |
| `Sha256.SHA256Context.Transform` | sha256.c:184-231 | The state becomes the compression of section 6.2.2 of the old state and the block |
| `Sha256.SHA256Context.Update` | sha256.c:38-48 | The absorbed message becomes the old one followed by the data, for any lengths |
| `Sha256.SHA256Context.StoreLength` | sha256.c:62 | The last 8 bytes become the bit length, most significant first, and no other byte changes |
| `Sha256.SHA256Context.StopBit` | sha256.c:52-58 | The stop bit, and exactly when the length no longer fits, a block of its own |
| `Sha256.SHA256Context.LastBlock` | sha256.c:59-63 | Zeros and the length complete the last block, which is compressed |
| `Sha256.SHA256Context.PadAndCompress` | sha256.c:52-63 | In both padding cases the state becomes the hash of the padded message |
| `Sha256.SHA256Context.StoreDigest` | sha256.c:65-70 | The first 32 bytes become the state, most significant byte first, and no other byte changes |
| `Sha256.SHA256Context.Final` | sha256.c:51-72 | The digest is SHA-256 of everything absorbed, and the context is zeroed |
| `Sha256.SecureMemEqual` | sha256.c:151-157 | True exactly if the first `length` bytes agree |
| `Sha256.SecureMemZero` | sha256.c:160-166 | Every byte becomes zero |
| `IncrementalHmac.HashPieces` | sha256.c:87-98 | However a message is cut into updates, the digest is SHA-256 of the whole |
| `IncrementalHmac.HMAC256Context.NormalizedKey` | sha256.c:102-108 | Keys shorter than, equal to and longer than the block become the block key of section 2 of RFC 2104 |
| `IncrementalHmac.HMAC256Context.MaskKey` | sha256.c:110-114 | The two pads are the block key XOR 0x36 and XOR 0x5c |
| `IncrementalHmac.HMAC256Context.constructor` | sha256.c:101-120 | The inner hash has absorbed the inner pad and the outer pad is kept |
| `IncrementalHmac.HMAC256Context.Update` | sha256.c:123-125 | The text becomes the old one followed by the data |
| `IncrementalHmac.HMAC256Context.Final` | sha256.c:128-140 | The digest is HMAC-SHA-256 of key and text as RFC 2104 defines it, and the context is zeroed |
| `IncrementalHmac.HmacMeans` | sha256.c:101-140 | For keys up to 64 bytes the two nested hashes, written out byte by byte with 0x5c and 0x36; a longer key gives the HMAC of its hash |
| `IncrementalHmac.HmacPieces` | sha256.c:143-148 | For every key and every way of cutting the text |
| `Md5Example.AbcDigest` | md5.c:50-125 | The specification gives the published digest of "abc", through all 64 steps with their words, rotations and constants |
| `Md5Example.HashAbc` | md5.c:12-47 | And so does the streaming code |
| `Md5.CountStep` | md5.c:26-28 | The two count words with their carry hold 8 times the length modulo 2^64 after any update of fewer than 2^32 bytes |
| `Md5.IndexIsLength` | md5.c:24 | The buffer index is the length modulo 64, whatever the wrap-around |
| `Md5.BulkLoopIsFaithful` | md5.c:32 | The 32-bit loop test runs over exactly the whole blocks if and only if the update is shorter than 2^32 - 64 plus the part that fills the buffer modulo 64 |
| `Md5.BulkLoopOverruns` | md5.c:32 | At 2^32 - 64 bytes on an empty buffer the loop goes on with no block left, and at no shorter length |
| `Md5.EncodedCount` | md5.c:43 | The encoded count words are the length field of section 3.2 of RFC 1321 |
| `Md5Spec.DecodedEncoded` | md5.c:128-150 | Decoding what was encoded gives the words back |
| `Md5Spec.EncodedDecoded` | md5.c:128-150 | Encoding what was decoded gives the bytes back |
| `Md5Spec.PadIs` | md5.c:40-45 | The constant padding cut to `padlen`, then the count, is the padding of sections 3.1 and 3.2 of RFC 1321 |
| `Md5.NextF` | md5.h:9-14 | A round-1 macro call is one step of section 3.4 of RFC 1321; so are the next three for rounds 2 to 4 |
| `Md5.NextG` | md5.h:10-15 | Round 2 |
| `Md5.NextH` | md5.h:11-16 | Round 3 |
| `Md5.NextI` | md5.h:12-17 | Round 4 |
| `Md5.MD5Context.constructor` | md5.c:12-19 | A new context has absorbed nothing |
| `Md5.MD5Context.FirstRound` | md5.c:57-72 | The sixteen written-out calls are steps 0 to 15 of the standard, with its words, rotations and constants |
| `Md5.MD5Context.SecondRound` | md5.c:73-88 | Steps 16 to 31 |
| `Md5.MD5Context.ThirdRound` | md5.c:89-104 | Steps 32 to 47 |
| `Md5.MD5Context.FourthRound` | md5.c:105-120 | Steps 48 to 63 |
| `Md5.MD5Context.Transform` | md5.c:50-125 | The state becomes the standard compression of the old state and the block |
| `Md5.MD5Context.Encode` | md5.c:128-139 | The output begins with the words, least significant byte first, and keeps the rest |
| `Md5.MD5Context.Decode` | md5.c:142-150 | The words of the bytes |
| `Md5.MD5Context.CountUp` | md5.c:26-28 | The in-place counting is that of CountStep |
| `Md5.MD5Context.Bulk` | md5.c:32 | The bulk loop hashes the whole blocks of the input and stops before the rest |
| `Md5.MD5Context.Update` | md5.c:22-36 | A bulk update leaves state, buffer and count as absorbing its bytes one after the other would: those of the old message followed by the input |
| `Md5.MD5Context.Finalize` | md5.c:39-47 | The digest is MD5 of everything absorbed |
| `Md5.HashPieces` | md5.c:164-174 | However a message is cut into updates below 2^32 - 64 bytes, the digest is MD5 of the whole |

## Left out

- Md5.MD5Context.Update: assumes the length condition of `Md5.BulkLoopIsFaithful`, beyond which the loop leaves the input.
- OpenSet.Set.FindSlot: a probe that never leaves is answered `None` after one full round, since a Dafny method has to return; `Halts` is stated over the unbounded loop.
- OpenSet.Set.Put: the freeing of the set and the process exit after a failed growth are an answer of the method; whether `strdup` succeeds is a parameter, and who owns the copy is not modelled.
- PoolShutdown.ShutdownFinishes: every callback and cleanup is taken to return once its thread is scheduled.
- ThreadPool.ThreadPool.Create: how a failed creation undoes what it has done so far (threadpool.c:72-76, 90-98, 102-106) is not modelled.
- ThreadPool.ThreadPool.DisposeArrays: the thread table is only present or gone; the threads are the workers of the specification.
- ThreadPool.ThreadPool.Release: after destroy a reference is released only by a caller that holds one.
- MemoryPools.MemoryPool.Alloc: `malloc`'s answer is a parameter, constrained only to be aligned memory that is not in use; the per-class locks make each operation atomic and are not modelled further.
- MemoryPools.MemoryPool.Free: a pointer that is neither live nor a block of a chunk is excluded unless its header was written and names no class; nothing is promised for a second free of fallback memory, which is no longer there to be read.
- HashMaps.HashMap.Add: whether each allocation succeeds is a parameter; the copies of key and value strings, and their freeing, are not modelled.
- HashMaps.HashMap.TakeOut: the node is freed, its strings are not modelled.
- HashMaps.HashMap.Remove: the node is freed, its strings are not modelled.
- HashMaps.HashMap.Clear: the nodes are freed, their strings are not modelled.
- HashMaps.HashMap.Create: the seed, which the code takes from clock and address, is a parameter.
- SetRuns.RunAll: memory is taken to suffice for every request, and every string copy to succeed.
- HashMapRuns.RunAll: memory is taken to suffice for every request.
- IncrementalHmac.HMAC256Context.constructor: the zeroing of the local key buffers is in the body and shows in no postcondition, since they are gone.
- Sha256.SecureMemEqual: its running time is not modelled.
- Waiting on or destroying a pool from one of its own tasks is refused without touching the pool; only submission from a task is a step.
- Fairness: barging is allowed, so no progress is claimed for a single large batch.
- `threadpool_stats` and the other read-only accessors and printers, which would only add easy members.
- The Windows branches; integer keys have the widths of LP64 platforms and little-endian byte order.
- Integers as keys and values of the tables are their bit patterns, strings their bytes.
- `set_destroy`, `hashmap_destroy` and the iteration and printing of both tables.
- The hexadecimal drivers `sha256_string`, `sha256_file`, `md5_string` and `md5_file`, but for their loop over pieces.
- `os.c`, `socket.c`, `thread.c`, `log.c` and `async_log.c`: wrappers of system calls and formatting.
