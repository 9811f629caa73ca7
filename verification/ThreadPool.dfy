/**
 The thread pool as it is laid out in memory: the fields of the struct and the ring buffer,
 updated in place by the critical sections. Each method is one critical section or a part of one,
 or one iteration of the walk the destroyer makes outside the lock, and is proved to take exactly
 the step that `PoolSpec` describes; `Unseen` takes the steps that touch no field.
 */
module ThreadPool {
  import opened Counting
  import opened ConditionVariable
  import opened PoolSpec
  import opened PoolInvariant
  import opened PoolTheorems
  import opened PoolHistory
  import opened Wrappers

  // ---- the ring -----------------------------------------------------------------------------

  /** The i-th slot from `head` in a ring of `capacity` slots. */
  function Slot(head: nat, i: nat, capacity: nat): (k: nat)
    requires head < capacity && i <= capacity
    ensures k < capacity
  {
    if head + i < capacity then head + i else head + i - capacity
  }

  function Ring(slots: seq<Task>, head: nat, length: nat): (ts: seq<Task>)
    requires head < |slots| && length <= |slots|
    ensures |ts| == length
  {
    seq(length, i requires 0 <= i < length => slots[Slot(head, i, |slots|)])
  }

  /** Writing the first free slot appends. */
  lemma RingPut(slots: seq<Task>, head: nat, length: nat, task: Task)
    requires head < |slots| && length < |slots|
    ensures Ring(slots[Slot(head, length, |slots|) := task], head, length + 1) == Ring(slots, head, length) + [task]
  {}

  /** Advancing the head removes the oldest element. */
  lemma RingTake(slots: seq<Task>, head: nat, length: nat)
    requires head < |slots| && 0 < length <= |slots|
    ensures Ring(slots, head, length)[0] == slots[head]
    ensures Ring(slots, Slot(head, 1, |slots|), length - 1) == Ring(slots, head, length)[1..]
  {}

  class ThreadPool {
    var threads: array?<nat>
    var queue: array?<Task>
    var queueCapacity: nat
    var queueLength: nat
    var queueHead: nat
    var queueTail: nat
    var queuePeak: nat
    var shutdown: bool
    var destroyed: bool
    var references: nat
    var apiUsers: int
    var pendingSubmissions: int
    var waitingSubmitters: int
    var waitingBatches: int
    var waitingClients: int
    var waitingWorkers: int
    var nWorking: int
    var accepted: nat
    var completed: nat
    var discarded: nat

    // the destroyer's local variables
    var discardedHead: nat
    var discardedLeft: nat

    /** The state of the specification, with the threads and the sleepers on the conditions. */
    ghost var model: State

    /** The `length` slots from `head` hold `ts`. */
    ghost predicate Holds(head: nat, length: nat, ts: seq<Task>)
      reads this`queue, this`queueCapacity, queue
    {
      && head < queueCapacity && length <= queueCapacity
      && if queue == null then length == 0 && ts == []
         else queue.Length == queueCapacity && ts == Ring(queue[..], head, length)
    }

    /**
     The slots behind the head hold the queue, and the slots being walked hold the discarded
     tasks. While the pool is open the tail follows the queue and no slot is being walked;
     afterwards nothing writes the array, and it exists until the destroyer disposes of it.
     */
    ghost predicate RingValid()
      reads this, queue
    {
      && Holds(queueHead, queueLength, model.queue)
      && Holds(discardedHead, discardedLeft, model.doomed)
      && (!shutdown ==> queue != null && queueTail == Slot(queueHead, queueLength, queueCapacity) && discardedLeft == 0)
    }

    ghost predicate FieldsValid()
      reads this
    {
      && queueCapacity == model.capacity && queuePeak == model.peak
      && shutdown == model.shutdown && destroyed == model.destroyed && references == model.references
      && apiUsers == model.apiUsers && pendingSubmissions == model.pendingSubmissions
      && waitingSubmitters == model.waitingSubmitters && waitingBatches == model.waitingBatches
      && waitingClients == model.waitingClients && waitingWorkers == model.waitingWorkers
      && nWorking == model.nWorking
      && accepted == model.accepted && completed == model.completed && discarded == model.discarded
    }

    ghost predicate Valid()
      reads this, queue
    {
      FieldsValid() && RingValid() && (threads == null <==> destroyed)
    }

    /** What the critical sections look at, while the rest of the representation is hidden. */
    lemma Looked()
      requires Valid()
      ensures queueLength == |model.queue| && queueCapacity == model.capacity && shutdown == model.shutdown
      ensures apiUsers == model.apiUsers && waitingClients == model.waitingClients
      ensures nWorking == model.nWorking && pendingSubmissions == model.pendingSubmissions
      ensures waitingWorkers == model.waitingWorkers && waitingSubmitters == model.waitingSubmitters
      ensures waitingBatches == model.waitingBatches && queueLength <= queueCapacity
      ensures discardedLeft == |model.doomed| && references == model.references
    {
    }

    constructor (nWorkers: nat, capacity: nat, ghost nCallers: nat)
      requires nWorkers > 0 && capacity > 0
      ensures Valid() && fresh(queue)
      ensures model == PoolSpec.Create(nWorkers, capacity, nCallers)
      ensures threads != null && threads.Length == nWorkers && queueCapacity == capacity
    {
      queue := new Task[capacity](_ => Task(0, 0, 0));
      threads := new nat[nWorkers];
      queueCapacity, queueLength, queueHead, queueTail, queuePeak := capacity, 0, 0, 0, 0;
      shutdown, destroyed, references := false, false, 1;
      apiUsers, pendingSubmissions, waitingSubmitters, waitingBatches, waitingClients := 0, 0, 0, 0, 0;
      waitingWorkers, nWorking, accepted, completed, discarded := 0, 0, 0, 0, 0;
      discardedHead, discardedLeft := 0, 0;
      model := PoolSpec.Create(nWorkers, capacity, nCallers);
    }

    /**
     `threadpool_create`: null exactly if a size is not positive or something it needs, memory, a
     lock, a condition or a thread, cannot be had.
     */
    static method Create(nWorkers: int, capacity: int, ready: bool, ghost nCallers: nat) returns (pool: ThreadPool?)
      ensures pool == null <==> nWorkers <= 0 || capacity <= 0 || !ready
      ensures pool != null ==> fresh(pool) && pool.Valid() && pool.model == PoolSpec.Create(nWorkers, capacity, nCallers)
      ensures pool != null ==> Inv(pool.model)
      ensures pool != null ==> pool.threads != null && pool.threads.Length == nWorkers && pool.queueCapacity == capacity
    {
      if nWorkers <= 0 || capacity <= 0 { return null; }
      if !ready { return null; }
      pool := new ThreadPool(nWorkers, capacity, nCallers);
      CreateEstablishes(nWorkers, capacity, nCallers);
    }

    // ---- leaving a call -----------------------------------------------------------------------

    method SignalIdle()
      requires Valid()
      modifies this`model
      ensures Valid() && model == PoolSpec.SignalIdle(old(model))
    {
      if waitingClients != 0 && queueLength == 0 && nWorking == 0 && pendingSubmissions == 0 {
        model := model.(callers := Broadcast(model.callers, ClientSleeps, WakeCaller));
      }
    }

    method Leave()
      requires Valid()
      modifies this`apiUsers, this`model
      ensures Valid() && model == PoolSpec.Leave(old(model))
    {
      hide Ring, Slot, Signal;
      apiUsers := apiUsers - 1;
      model := model.(apiUsers := model.apiUsers - 1);
      if shutdown && apiUsers == 0 {
        model := model.(callers := Signal(model.callers, ApiSleeps, WakeCaller, 0));
      }
    }

    method SubmitLeave()
      requires Valid()
      modifies this`pendingSubmissions, this`apiUsers, this`model
      ensures Valid() && model == PoolSpec.SubmitLeave(old(model))
    {
      pendingSubmissions := pendingSubmissions - 1;
      model := model.(pendingSubmissions := model.pendingSubmissions - 1);
      SignalIdle();
      Leave();
    }

    // ---- submitting ---------------------------------------------------------------------------

    /** Copy the batch into the free slots behind the tail, and count it into the queue. */
    method Put(batch: seq<Task>)
      requires RingValid() && !shutdown && |batch| <= queueCapacity - queueLength
      modifies this`queueTail, this`queueLength, this`model, queue
      ensures RingValid() && queueLength == old(queueLength) + |batch|
      ensures model == old(model).(queue := old(model).queue + batch)
    {
      var i := 0;
      assert batch[..0] == [];
      while i < |batch|
        invariant 0 <= i <= |batch| && queueLength == old(queueLength) && model == old(model)
        invariant queueTail == Slot(queueHead, queueLength + i, queueCapacity)
        invariant Ring(queue[..], queueHead, queueLength + i) == old(model).queue + batch[..i]
      {
        RingPut(queue[..], queueHead, queueLength + i, batch[i]);
        ghost var slots := queue[..];
        queue[queueTail] := batch[i];
        assert queue[..] == slots[queueTail := batch[i]];
        assert batch[..i + 1] == batch[..i] + [batch[i]];
        queueTail := queueTail + 1;
        if queueTail == queueCapacity { queueTail := 0; }
        i := i + 1;
      }
      assert batch[..i] == batch;
      queueLength := queueLength + |batch|;
      model := model.(queue := model.queue + batch);
    }

    /** `condition_signal` on `notify`. */
    method SignalNotify(ghost pick: nat)
      requires Valid()
      modifies this`model
      ensures Valid() && model == old(model).(workers := Signal(old(model).workers, NotifySleeps, WakeWorker, pick))
    {
      hide Ring, Slot, Signal;
      model := model.(workers := Signal(model.workers, NotifySleeps, WakeWorker, pick));
    }

    /** `condition_broadcast` on `notify`. */
    method BroadcastNotify()
      requires Valid()
      modifies this`model
      ensures Valid() && model == old(model).(workers := Broadcast(old(model).workers, NotifySleeps, WakeWorker))
    {
      hide Ring, Slot, Broadcast, OnlyWoken;
      model := model.(workers := Broadcast(model.workers, NotifySleeps, WakeWorker));
    }

    /** Wake workers for `count` new tasks: all of them, or one signal for each task. */
    method Notify(count: nat, ghost picks: seq<nat>)
      requires Valid()
      modifies this`model
      ensures Valid()
      ensures model == old(model).(workers := NotifyWorkers(old(model).workers, waitingWorkers, count, picks))
    {
      hide Valid, Signal, SignalTimes, Broadcast, OnlyWoken;
      if waitingWorkers != 0 {
        if count >= waitingWorkers && count > 1 {
          BroadcastNotify();
        } else {
          var i := 0;
          ghost var rest := picks;
          while i < count
            invariant 0 <= i <= count && model == old(model).(workers := model.workers) && Valid()
            invariant SignalTimes(model.workers, NotifySleeps, WakeWorker, rest, count - i)
                   == SignalTimes(old(model).workers, NotifySleeps, WakeWorker, picks, count)
          {
            SignalOnce(model.workers, NotifySleeps, WakeWorker, rest, count - i - 1);
            SignalNotify(Head(rest));
            rest := Tail(rest);
            i := i + 1;
          }
          SignalOnce(model.workers, NotifySleeps, WakeWorker, rest, 0);
        }
      }
    }

    method Accept(batch: seq<Task>, ghost picks: seq<nat>)
      requires Valid() && !shutdown && |batch| <= queueCapacity - queueLength
      modifies this`queueTail, this`queueLength, this`queuePeak, this`accepted, this`model, queue
      ensures Valid() && model == Enqueue(old(model), batch, picks)
    {
      hide Ring, Slot, NotifyWorkers, Saturate;
      Put(batch);
      assert Valid();
      if queueLength > queuePeak { queuePeak := queueLength; }
      accepted := Saturate(accepted, |batch|);
      model := model.(peak := queuePeak, accepted := accepted, log := model.log + batch);
      Notify(|batch|, picks);
    }

    /** Going to sleep on `not_full`. */
    method Park(ghost c: nat, batch: seq<Task>)
      requires Valid() && c < |model.callers|
      modifies this`waitingSubmitters, this`waitingBatches, this`model
      ensures Valid()
      ensures model == old(model).(waitingSubmitters := old(model).waitingSubmitters + 1,
                                   waitingBatches := old(model).waitingBatches + Bit(|batch| > 1),
                                   callers := old(model).callers[c := SubmitAsleep(batch)])
    {
      hide Ring, Slot;
      waitingSubmitters := waitingSubmitters + 1;
      if |batch| > 1 { waitingBatches := waitingBatches + 1; }
      model := model.(waitingSubmitters := waitingSubmitters, waitingBatches := waitingBatches,
                      callers := model.callers[c := SubmitAsleep(batch)]);
    }

    /** The loop of a submission up to its return, or to its sleep on `not_full`. */
    method SubmitBody(ghost c: nat, own: bool, batch: seq<Task>, block: bool, ghost picks: seq<nat>) returns (answer: Answer)
      requires Valid() && (own || c < |model.callers|)
      modifies this, queue
      ensures Valid() && (model, answer) == PoolSpec.SubmitBody(old(model), if own then None else Some(c), batch, block, picks)
      ensures answer ==
        if old(shutdown) then Return(1)
        else if |batch| <= old(queueCapacity - queueLength) then Return(0)
        else if block && !own then Blocked else Return(2)
      ensures unchanged(`queue)
    {
      Looked();
      hide Valid, Enqueue, PoolSpec.SubmitLeave;
      if |batch| > queueCapacity - queueLength && !shutdown {
        if !block || own {
          SubmitLeave();
          return Return(2);
        }
        Park(c, batch);
        return Blocked;
      }
      if shutdown {
        SubmitLeave();
        return Return(1);
      }
      Accept(batch, picks);
      SubmitLeave();
      return Return(0);
    }

    /** `threadpool_add_batch` up to its return or to its first sleep. */
    method AddBatch(ghost c: nat, own: bool, batch: seq<Task>, block: bool, ghost picks: seq<nat>) returns (answer: Answer)
      requires Valid() && (own || c < |model.callers|)
      modifies this, queue
      ensures Valid() && (model, answer) == Submit(old(model), if own then None else Some(c), batch, block, picks)
      ensures answer ==
        if |batch| == 0 || (exists i :: 0 <= i < |batch| && batch[i].func == 0) || |batch| > old(queueCapacity)
           || old(shutdown) || old(apiUsers) == 0xffff_ffff then Return(1)
        else if |batch| <= old(queueCapacity - queueLength) then Return(0)
        else if block && !own then Blocked else Return(2)
      ensures unchanged(`queue)
    {
      Looked();
      hide PoolSpec.SubmitBody;
      if |batch| == 0 { return Return(1); }
      if shutdown || apiUsers == UINT_MAX || |batch| > queueCapacity { return Return(1); }
      for i := 0 to |batch|
        invariant forall j | 0 <= j < i :: batch[j].func != 0
      {
        if batch[i].func == 0 { return Return(1); }
      }
      apiUsers := apiUsers + 1;
      pendingSubmissions := pendingSubmissions + 1;
      model := Counted(model);
      answer := SubmitBody(c, own, batch, block, picks);
    }

    /** A submission woken from its sleep on `not_full`. */
    method AddBatchResumes(ghost c: nat, batch: seq<Task>, ghost picks: seq<nat>) returns (answer: Answer)
      requires Valid() && c < |model.callers| && model.callers[c] == SubmitWoken(batch)
      modifies this, queue
      ensures Valid() && (model, answer) == SubmitResume(old(model), c, picks)
      ensures answer ==
        if old(shutdown) then Return(1)
        else if |batch| <= old(queueCapacity - queueLength) then Return(0) else Blocked
      ensures unchanged(`queue)
    {
      if |batch| > 1 { waitingBatches := waitingBatches - 1; }
      waitingSubmitters := waitingSubmitters - 1;
      model := Unparked(model, c);
      answer := SubmitBody(c, false, batch, true, picks);
    }

    // ---- waiting for quiescence ---------------------------------------------------------------

    /** `threadpool_wait` from the head of its loop. */
    method WaitResumes(ghost c: nat) returns (answer: Answer)
      requires Valid() && c < |model.callers|
      modifies this`waitingClients, this`apiUsers, this`model
      ensures Valid() && (model, answer) == WaitResume(old(model), c)
      ensures answer ==
        if old(shutdown) then Return(1)
        else if old(queueLength == 0 && nWorking == 0 && pendingSubmissions == 0) then Return(0) else Blocked
    {
      if !shutdown && (queueLength > 0 || nWorking != 0 || pendingSubmissions != 0) {
        model := model.(callers := model.callers[c := ClientAsleep]);
        return Blocked;
      }
      waitingClients := waitingClients - 1;
      var status := if shutdown then 1 else 0;
      model := Unregistered(model, c);
      Leave();
      return Return(status);
    }

    /** `threadpool_wait` up to its return or to its first sleep. */
    method WaitIdle(ghost c: nat) returns (answer: Answer)
      requires Valid() && c < |model.callers|
      modifies this`waitingClients, this`apiUsers, this`model
      ensures Valid() && (model, answer) == Wait(old(model), c)
      ensures answer ==
        if old(shutdown) || old(apiUsers) == 0xffff_ffff then Return(1)
        else if old(queueLength == 0 && nWorking == 0 && pendingSubmissions == 0) then Return(0) else Blocked
    {
      if shutdown || apiUsers == UINT_MAX { return Return(1); }
      apiUsers := apiUsers + 1;
      waitingClients := waitingClients + 1;
      model := Registered(model, c);
      answer := WaitResumes(c);
    }

    // ---- workers ------------------------------------------------------------------------------

    /** Take the oldest task out of the ring. */
    method Take() returns (task: Task)
      requires RingValid() && queueLength > 0
      modifies this`queueHead, this`queueLength, this`model
      ensures RingValid() && queueLength == old(queueLength) - 1
      ensures task == old(model).queue[0] && model == old(model).(queue := old(model).queue[1..])
    {
      RingTake(queue[..], queueHead, queueLength);
      task := queue[queueHead];
      queueHead := queueHead + 1;
      if queueHead == queueCapacity { queueHead := 0; }
      queueLength := queueLength - 1;
      model := model.(queue := model.queue[1..]);
    }

    /** One slot has become free: wake one submission, or all of them if a batch is waiting. */
    method WakeSubmitters(ghost pick: nat)
      modifies this`model
      ensures model == old(model).(callers := NotFullWakes(old(model).callers, waitingSubmitters, waitingBatches, pick))
    {
      if waitingSubmitters != 0 {
        if waitingBatches != 0 {
          model := model.(callers := Broadcast(model.callers, SubmitSleeps, WakeCaller));
        } else {
          model := model.(callers := Signal(model.callers, SubmitSleeps, WakeCaller, pick));
        }
      }
    }

    method TakeTask(ghost w: nat, ghost pick: nat) returns (task: Task)
      requires Valid() && w < |model.workers| && queueLength > 0
      modifies this`queueHead, this`queueLength, this`nWorking, this`model
      ensures Valid() && model == Dequeue(old(model), w, pick)
      ensures queueLength == old(queueLength) - 1 && nWorking == old(nWorking) + 1
      ensures task == old(model).queue[0]
    {
      hide Ring, Slot, NotFullWakes;
      task := Take();
      WakeSubmitters(pick);
      nWorking := nWorking + 1;
      model := model.(nWorking := model.nWorking + 1,
                      workers := model.workers[w := InFunc(|model.started|, task)],
                      started := model.started + [task], runner := model.runner + [w]);
    }

    /** The head of the worker's loop, with the lock held. */
    method WorkerLoop(ghost w: nat, ghost pick: nat)
      requires Valid() && w < |model.workers|
      modifies this`queueHead, this`queueLength, this`nWorking, this`waitingWorkers, this`model
      ensures Valid() && model == PoolSpec.WorkerLoop(old(model), w, pick)
      ensures old(queueLength) > 0 ==> queueLength == old(queueLength) - 1 && nWorking == old(nWorking) + 1
      ensures old(queueLength) == 0 ==> model.workers[w] == if shutdown then Exited else NotifyAsleep
    {
      hide Ring, Slot, Dequeue;
      if queueLength == 0 && !shutdown {
        waitingWorkers := waitingWorkers + 1;
        model := model.(waitingWorkers := model.waitingWorkers + 1, workers := model.workers[w := NotifyAsleep]);
      } else if shutdown && queueLength == 0 {
        model := model.(workers := model.workers[w := Exited]);
      } else {
        var task := TakeTask(w, pick);
      }
    }

    /** A worker woken from its sleep on `notify`. */
    method WorkerResumes(ghost w: nat, ghost pick: nat)
      requires Valid() && w < |model.workers|
      modifies this`queueHead, this`queueLength, this`nWorking, this`waitingWorkers, this`model
      ensures Valid() && model == PoolSpec.WorkerLoop(WorkerWake(old(model), w), w, pick)
    {
      waitingWorkers := waitingWorkers - 1;
      model := WorkerWake(model, w);
      WorkerLoop(w, pick);
    }

    /** A worker whose task and cleanup have returned; it keeps the lock for the next task. */
    method WorkerFinishes(ghost w: nat, ghost pick: nat)
      requires Valid() && w < |model.workers| && model.workers[w].Finishing?
      modifies this`queueHead, this`queueLength, this`nWorking, this`waitingWorkers, this`completed, this`model
      ensures Valid() && model == PoolSpec.WorkerLoop(Finish(old(model), w), w, pick)
    {
      nWorking := nWorking - 1;
      completed := Saturate(completed, 1);
      model := Finished(model, w);
      SignalIdle();
      WorkerLoop(w, pick);
    }

    // ---- destroying ---------------------------------------------------------------------------

    /** The first critical section of `__threadpool_destroy__`. */
    method Destroy(ghost c: nat, safeExit: bool) returns (answer: Answer, discardedTasks: nat)
      requires Valid() && c < |model.callers|
      modifies this`shutdown, this`discardedHead, this`discardedLeft, this`queueLength, this`discarded, this`model
      ensures Valid() && (model, answer) == PoolSpec.Destroy(old(model), c, safeExit)
      ensures shutdown && (answer == Return(1) <==> old(shutdown)) && (answer == Blocked <==> !old(shutdown))
      ensures discardedTasks == if old(shutdown) || safeExit then 0 else old(queueLength)
      ensures old(shutdown) ==> model == old(model)
      ensures !old(shutdown) && safeExit ==> model.queue == old(model.queue) && model.doomed == []
      ensures !old(shutdown) && !safeExit ==> model.queue == [] && model.doomed == old(model.queue) && queueLength == 0
    {
      hide Broadcast, OnlyWoken, Saturate, Ring, Slot;
      if shutdown { return Return(1), 0; }
      assert model.doomed == [];
      shutdown := true;
      discardedHead, discardedLeft := 0, 0;
      model := model.(shutdown := true);
      assert Valid();
      if !safeExit { Discard(); }
      discardedTasks := discardedLeft;
      BroadcastAll(c);
      answer := Blocked;
    }

    /** Of a run of slots nothing is held in its first none. */
    lemma HoldsNone(head: nat, length: nat, ts: seq<Task>)
      requires Holds(head, length, ts)
      ensures Holds(head, 0, [])
    {
    }

    /** The queue becomes the run of slots to walk, and is counted as discarded. */
    method Discard()
      requires Valid() && shutdown && discardedLeft == 0
      modifies this`discardedHead, this`discardedLeft, this`queueLength, this`discarded, this`model
      ensures Valid() && discardedLeft == |old(model).queue|
      ensures model == old(model).(queue := [], doomed := old(model).queue,
                                   discarded := Saturate(old(model).discarded, |old(model).queue|))
    {
      hide Saturate, Slot, Ring, Holds;
      Looked();
      HoldsNone(queueHead, queueLength, model.queue);
      discardedHead := queueHead;
      discardedLeft := queueLength;
      queueLength := 0;
      discarded := Saturate(discarded, discardedLeft);
      model := model.(queue := [], doomed := model.queue, discarded := discarded);
    }

    /** Wakes everybody; the caller goes on to walk the discarded tasks. */
    method BroadcastAll(ghost c: nat)
      requires Valid() && c < |model.callers|
      modifies this`model
      ensures Valid()
      ensures model == old(model).(workers := Broadcast(old(model).workers, NotifySleeps, WakeWorker),
                                   callers := Broadcast(old(model).callers, CallSleeps, WakeCaller)[c := Walking])
    {
      hide Ring, Slot;
      model := model.(workers := Broadcast(model.workers, NotifySleeps, WakeWorker),
                      callers := Broadcast(model.callers, CallSleeps, WakeCaller)[c := Walking]);
    }

    /**
     One iteration of the walk outside the lock: it reads the slot that the oldest discarded
     task was put in, whatever the other threads have done since the lock was released.
     */
    method WalkOne() returns (task: Task)
      requires Valid() && discardedLeft > 0
      modifies this`discardedHead, this`discardedLeft, this`model
      ensures Valid() && model == Walk(old(model))
      ensures task == old(model).doomed[0]
    {
      RingTake(queue[..], discardedHead, discardedLeft);
      task := queue[discardedHead];
      discardedHead := discardedHead + 1;
      if discardedHead == queueCapacity { discardedHead := 0; }
      discardedLeft := discardedLeft - 1;
      model := Walk(model);
    }

    /** The destroyer looks whether calls are still in progress. */
    method CheckCalls(ghost c: nat) returns (answer: Answer)
      requires Valid() && c < |model.callers|
      modifies this`model
      ensures Valid() && model == Check(old(model), c)
      ensures answer == Blocked <==> apiUsers != 0
      ensures model.callers[c] == if apiUsers != 0 then ApiAsleep else Joining(0)
    {
      model := Check(model, c);
      answer := if apiUsers != 0 then Blocked else Return(0);
    }

    /**
     The last critical section of the destroyer, after every worker has been joined. That
     nothing is left in the arrays it gives back is the invariant's doing.
     */
    method DisposeArrays(ghost c: nat)
      requires Valid() && c < |model.callers| && model.callers[c] == Joining(|model.workers|)
      requires Inv(model) && !model.freed
      modifies this`threads, this`queue, this`destroyed, this`model
      ensures Valid() && model == Dispose(old(model), c)
      ensures threads == null && queue == null
    {
      hide Inv;
      DisposedWhenUnreachable(model, DestroyerDisposes(c));
      threads := null;
      queue := null;
      destroyed := true;
      model := Dispose(model, c);
    }

    // ---- the reference count ------------------------------------------------------------------

    method Retain() returns (answer: Answer)
      requires Valid()
      modifies this`references, this`model
      ensures Valid() && (model, answer) == PoolSpec.Retain(old(model))
      ensures answer == Return(if old(shutdown) || old(references) == 0xffff_ffff then 1 else 0)
      ensures references == old(references) + if answer == Return(0) then 1 else 0
    {
      if shutdown || references == UINT_MAX { return Return(1); }
      references := references + 1;
      model := model.(references := model.references + 1, held := model.held + 1);
      answer := Return(0);
    }

    /** The step that dropping a reference is: the destroyer's last one, or a caller's. */
    static ghost function ReleaseStep(destroyer: Option<nat>): Action {
      if destroyer.Some? then DestroyerReleases(destroyer.value) else CallRelease
    }

    static lemma Released(s: State, destroyer: Option<nat>)
      requires Enabled(s, ReleaseStep(destroyer))
      ensures s.references > 0
      ensures var t := Apply(s, ReleaseStep(destroyer));
        && t == s.(references := t.references, callers := t.callers, held := t.held, owned := t.owned, freed := t.freed)
        && t.references == s.references - (if s.references == 1 && !s.destroyed then 0 else 1)
        && |t.callers| == |s.callers| && (t.freed <==> t.references == 0)
    {
    }

    method Release(ghost destroyer: Option<nat>) returns (answer: Answer)
      requires Valid() && Enabled(model, ReleaseStep(destroyer))
      modifies this`references, this`model
      ensures Valid() && model == Apply(old(model), ReleaseStep(destroyer))
      ensures answer == Return(if old(references) == 1 && !destroyed then 1 else 0)
      ensures references == old(references) - if answer == Return(0) then 1 else 0
      ensures model.freed <==> references == 0
    {
      hide Ring, Slot, Apply, Enabled;
      Released(model, destroyer);
      if references == 1 && !destroyed {
        model := Apply(model, ReleaseStep(destroyer));
        return Return(1);
      }
      references := references - 1;
      var freePool := references == 0;
      model := Apply(model, ReleaseStep(destroyer));
      answer := Return(0);
    }

    /** A step outside the critical sections, which touches no field. */
    ghost method Unseen(a: Action)
      requires Valid() && Enabled(model, a)
      requires a.CallbackReturns? || a.CleanupReturns? || a.DestroyerJoins? || a.SpuriousWorker? || a.SpuriousCaller?
      modifies this`model
      ensures Valid() && model == Apply(old(model), a)
    {
      hide Ring, Slot;
      model := Apply(model, a);
    }
  }
}
