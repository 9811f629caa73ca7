/** Every step of a calling thread keeps the invariant. */
module PoolCalls {
  import opened Counting
  import opened ConditionVariable
  import opened PoolSpec
  import opened PoolInvariant
  import opened Wrappers

  // ---- submitting ---------------------------------------------------------------------------

  lemma NotifyServes(s: State, count: nat, picks: seq<nat>)
    requires count >= 1
    requires WorkersCounted(s.workers, s.waitingWorkers, s.nWorking)
    requires WorkersServed(s.workers, |s.queue|, 0)
    ensures var us := NotifyWorkers(s.workers, s.waitingWorkers, count, picks);
      && OnlyWoken(s.workers, us, NotifySleeps, WakeWorker)
      && WorkersCounted(us, s.waitingWorkers, s.nWorking)
      && WorkersServed(us, |s.queue| + count, 0)
  {
    var ws, us := s.workers, NotifyWorkers(s.workers, s.waitingWorkers, count, picks);
    if s.waitingWorkers != 0 {
      if count >= s.waitingWorkers && count > 1 {
        CountZero(us, NotifySleeps);
        BroadcastWakes(ws);
      } else {
        SignalTimesWakes(ws, NotifySleeps, WakeWorker, Notified, picks, count);
      }
    }
    assert OnlyWoken(ws, us, NotifySleeps, WakeWorker);
    CountSame(ws, us, Busy);
  }

  predicate WaitsForWork(w: WorkerPc) { NotifySleeps(w) || Notified(w) }

  lemma BroadcastWakes(ws: seq<WorkerPc>)
    ensures var us := Broadcast(ws, NotifySleeps, WakeWorker);
      Count(us, NotifySleeps) == 0 && Count(us, Notified) == Count(ws, NotifySleeps) + Count(ws, Notified)
  {
    var us := Broadcast(ws, NotifySleeps, WakeWorker);
    CountZero(us, NotifySleeps);
    CountSplit(ws, NotifySleeps, Notified, WaitsForWork);
    CountSplit(us, NotifySleeps, Notified, WaitsForWork);
    CountSame(ws, us, WaitsForWork);
  }

  lemma WokenWorkersKeep(s: State, us: seq<WorkerPc>)
    requires OnlyWoken(s.workers, us, NotifySleeps, WakeWorker)
    ensures ExitsAtEnd(s.workers, s.shutdown, s.queue) ==> ExitsAtEnd(us, s.shutdown, s.queue)
    ensures RunOnce(s.workers, s.started, s.runner, s.done) ==> RunOnce(us, s.started, s.runner, s.done)
  {}

  lemma EnqueueKeepsWorkers(s: State, batch: seq<Task>, picks: seq<nat>)
    requires batch != [] && !s.shutdown
    requires WorkersInv(s, 0)
    ensures WorkersInv(Enqueue(s, batch, picks), 0)
  {
    NotifyServes(s, |batch|, picks);
    var us := NotifyWorkers(s.workers, s.waitingWorkers, |batch|, picks);
    WokenWorkersKeep(s, us);
    assert forall w | 0 <= w < |us| :: us[w].Exited? ==> s.workers[w].Exited?;
  }

  lemma EnqueueKeepsTasks(s: State, batch: seq<Task>, picks: seq<nat>)
    requires ValidBatch(s.capacity, batch) && |batch| <= s.Free() && !s.shutdown
    requires TasksInv(s)
    ensures TasksInv(Enqueue(s, batch, picks))
  {}

  lemma EnqueueKeepsCallers(s: State, batch: seq<Task>, picks: seq<nat>, atLock: nat)
    requires !s.shutdown && atLock <= |batch|
    requires CallersInv(s, 1, 0, atLock)
    requires OnlyWoken(s.workers, NotifyWorkers(s.workers, s.waitingWorkers, |batch|, picks), NotifySleeps, WakeWorker)
    ensures CallersInv(Enqueue(s, batch, picks), 1, 0)
  {}

  lemma AcceptKeeps(s: State, batch: seq<Task>, picks: seq<nat>, atLock: nat)
    requires ValidBatch(s.capacity, batch) && |batch| <= s.Free() && !s.shutdown && atLock <= |batch|
    requires CallersInv(s, 1, 0, atLock) && WorkersInv(s, 0) && TasksInv(s)
    ensures Inv(SubmitLeave(Enqueue(s, batch, picks)))
  {
    var t := Enqueue(s, batch, picks);
    NotifyServes(s, |batch|, picks);
    EnqueueKeepsCallers(s, batch, picks, atLock);
    EnqueueKeepsWorkers(s, batch, picks);
    EnqueueKeepsTasks(s, batch, picks);
    SubmitLeaveServes(t);
    LeaveCallKeeps(t);
  }

  /** Leaving a call changes nothing that the workers or the tasks depend on. */
  lemma LeaveCallKeeps(s: State)
    requires WorkersInv(s, 0) && TasksInv(s) && s.apiUsers > 0
    requires var t := SubmitLeave(s);
      t == s.(apiUsers := s.apiUsers - 1, pendingSubmissions := s.pendingSubmissions - 1, callers := t.callers)
    ensures WorkersInv(SubmitLeave(s), 0) && TasksInv(SubmitLeave(s))
  {}

  lemma NoSleepersServed(s: State)
    requires s.shutdown && Quiet(s.shutdown, s.workers, s.callers)
    ensures SubmittersServed(s.callers, s.Free())
  {
    forall c | 0 <= c < |s.callers| ensures !s.callers[c].SubmitAsleep? {
      assert !CallSleeps(s.callers[c]);
    }
  }

  lemma TurnAwayKeeps(s: State)
    requires InvHeld(s, 1, 0)
    ensures Inv(SubmitLeave(s))
  {
    SubmitLeaveServes(s);
    LeaveCallKeeps(s);
  }

  lemma ParkKeepsCallers(s: State, c: nat, batch: seq<Task>)
    requires c < |s.callers| && s.callers[c].Outside?
    requires ValidBatch(s.capacity, batch) && |batch| > s.Free()
    requires CallersInv(s, 1, 0, Bit(|batch| == 1))
    ensures CallersInv(s.(waitingSubmitters := s.waitingSubmitters + 1,
                          waitingBatches := s.waitingBatches + Bit(|batch| > 1),
                          callers := s.callers[c := SubmitAsleep(batch)]), 0, 0)
  {
    CallerMoves(s.callers, c, SubmitAsleep(batch));
  }

  lemma MoveKeepsSleepers(s: State, c: nat, x: CallerPc)
    requires c < |s.callers| && (CallSleeps(x) ==> !s.shutdown)
    requires (ClientSleeps(x) ==> !s.Idle()) && (ApiSleeps(x) ==> s.apiUsers > 0)
    requires SleepersInv(s)
    ensures SleepersInv(s.(callers := s.callers[c := x]))
  {
    CallerMoves(s.callers, c, x);
  }

  /** The loop of a submission; a resumed single submission comes with `atLock` 1. */
  lemma SubmitBodyKeeps(s: State, who: Option<nat>, batch: seq<Task>, block: bool, picks: seq<nat>, atLock: nat)
    requires who.Some? ==> who.value < |s.callers| && s.callers[who.value].Outside?
    requires ValidBatch(s.capacity, batch)
    requires atLock == 0 || (block && who.Some? && atLock == Bit(|batch| == 1))
    requires CallersInv(s, 1, 0, atLock) && WorkersInv(s, 0) && TasksInv(s) && SleepersInv(s)
    ensures Inv(SubmitBody(s, who, batch, block, picks).0)
  {
    if s.shutdown {
      NoSleepersServed(s);
      TurnAwayKeeps(s);
    } else if |batch| <= s.Free() {
      AcceptKeeps(s, batch, picks, atLock);
    } else if !block || who.None? {
      TurnAwayKeeps(s);
    } else {
      ParkKeepsCallers(s, who.value, batch);
      MoveKeepsSleepers(s, who.value, SubmitAsleep(batch));
    }
  }

  lemma CountedKeepsCallers(s: State)
    requires !s.shutdown && CallersInv(s, 0, 0)
    ensures CallersInv(Counted(s), 1, 0)
  {
    CountZero(s.callers, Destroying);
    assert forall c | 0 <= c < |s.callers| :: !Destroying(s.callers[c]);
  }

  lemma CountedKeeps(s: State)
    requires !s.shutdown && Inv(s)
    ensures var t := Counted(s); CallersInv(t, 1, 0) && WorkersInv(t, 0) && TasksInv(t) && SleepersInv(t)
  {
    CountedKeepsCallers(s);
  }

  lemma SubmitKeeps(s: State, who: Option<nat>, batch: seq<Task>, block: bool, picks: seq<nat>)
    requires who.Some? ==> who.value < |s.callers| && s.callers[who.value].Outside?
    requires Inv(s)
    ensures Inv(Submit(s, who, batch, block, picks).0)
  {
    if !Refused(s, batch) {
      assert ValidBatch(s.capacity, batch);
      CountedKeeps(s);
      SubmitBodyKeeps(Counted(s), who, batch, block, picks, 0);
    }
  }

  lemma UnparkKeepsCallers(s: State, c: nat)
    requires c < |s.callers| && s.callers[c].SubmitWoken?
    requires CallersInv(s, 0, 0)
    ensures ValidBatch(s.capacity, s.callers[c].batch)
    ensures CallersInv(Unparked(s, c), 1, 0, Bit(|s.callers[c].batch| == 1))
  {
    assert Submitting(s.callers[c]);
    CallerMoves(s.callers, c, Outside);
  }

  lemma UnparkKeeps(s: State, c: nat)
    requires c < |s.callers| && s.callers[c].SubmitWoken?
    requires WorkersInv(s, 0) && TasksInv(s) && SleepersInv(s)
    ensures var t := Unparked(s, c); WorkersInv(t, 0) && TasksInv(t) && SleepersInv(t)
  {
    MoveKeepsSleepers(s, c, Outside);
  }

  lemma SubmitResumeKeeps(s: State, c: nat, picks: seq<nat>)
    requires c < |s.callers| && s.callers[c].SubmitWoken?
    requires CallersInv(s, 0, 0) && WorkersInv(s, 0) && TasksInv(s) && SleepersInv(s)
    ensures Inv(SubmitResume(s, c, picks).0)
  {
    UnparkKeepsCallers(s, c);
    UnparkKeeps(s, c);
    var batch := s.callers[c].batch;
    SubmitBodyKeeps(Unparked(s, c), Some(c), batch, true, picks, Bit(|batch| == 1));
  }
}
