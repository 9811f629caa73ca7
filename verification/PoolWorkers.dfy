/** Every step of a worker keeps the invariant. */
module PoolWorkers {
  import opened Counting
  import opened ConditionVariable
  import opened PoolSpec
  import opened PoolInvariant

  /** A worker that has not exited may move anywhere without disturbing the calls. */
  lemma MoveKeepsCallers(s: State, w: nat, x: WorkerPc, inCall: nat, leaving: nat)
    requires w < |s.workers| && !s.workers[w].Exited?
    requires CallersInv(s, inCall, leaving)
    ensures CallersInv(s.(workers := s.workers[w := x]), inCall, leaving)
  {}

  lemma MoveKeepsTasks(s: State, w: nat, x: WorkerPc)
    requires w < |s.workers| && !s.workers[w].Exited?
    requires TasksInv(s)
    ensures TasksInv(s.(workers := s.workers[w := x]))
  {}

  lemma MoveKeepsSleepers(s: State, w: nat, x: WorkerPc)
    requires w < |s.workers| && (x.NotifyAsleep? ==> !s.shutdown)
    requires SleepersInv(s)
    ensures SleepersInv(s.(workers := s.workers[w := x]))
  {
    WorkerMoves(s.workers, w, x);
  }

  // ---- going to sleep, exiting, waking ------------------------------------------------------

  lemma SleepKeeps(s: State, w: nat, pick: nat)
    requires w < |s.workers| && s.workers[w].AtLoop? && s.queue == [] && !s.shutdown
    requires InvHeld(s, 0, 1)
    ensures Inv(WorkerLoop(s, w, pick))
  {
    hide CallersInv, WorkersInv, TasksInv, SleepersInv;
    MoveKeepsCallers(s, w, NotifyAsleep, 0, 0);
    MoveKeepsTasks(s, w, NotifyAsleep);
    MoveKeepsSleepers(s, w, NotifyAsleep);
    SleepKeepsWorkers(s, w);
    CountedOnlyByWorkers(s.(workers := s.workers[w := NotifyAsleep]), s.waitingWorkers + 1);
  }

  lemma SleepKeepsWorkers(s: State, w: nat)
    requires w < |s.workers| && s.workers[w].AtLoop? && s.queue == [] && !s.shutdown
    requires WorkersInv(s, 1)
    ensures WorkersInv(s.(waitingWorkers := s.waitingWorkers + 1, workers := s.workers[w := NotifyAsleep]), 0)
  {
    hide Count;
    WorkerMoves(s.workers, w, NotifyAsleep);
  }

  /** Nothing but the workers' own invariant looks at `waiting_workers`. */
  lemma CountedOnlyByWorkers(s: State, n: int)
    ensures CallersInv(s, 0, 0) ==> CallersInv(s.(waitingWorkers := n), 0, 0)
    ensures TasksInv(s) ==> TasksInv(s.(waitingWorkers := n))
    ensures SleepersInv(s) ==> SleepersInv(s.(waitingWorkers := n))
  {
    hide Count;
  }

  lemma ExitKeeps(s: State, w: nat, pick: nat)
    requires w < |s.workers| && s.workers[w].AtLoop? && s.queue == [] && s.shutdown
    requires InvHeld(s, 0, 1)
    ensures Inv(WorkerLoop(s, w, pick))
  {
    hide CallersInv, WorkersInv, TasksInv, SleepersInv;
    MoveKeepsCallers(s, w, Exited, 0, 0);
    MoveKeepsTasks(s, w, Exited);
    MoveKeepsSleepers(s, w, Exited);
    ExitKeepsWorkers(s, w);
  }

  lemma ExitKeepsWorkers(s: State, w: nat)
    requires w < |s.workers| && s.workers[w].AtLoop? && s.queue == [] && s.shutdown
    requires WorkersInv(s, 1)
    ensures WorkersInv(s.(workers := s.workers[w := Exited]), 0)
  {
    hide Count;
    WorkerMoves(s.workers, w, Exited);
  }

  lemma WakeKeeps(s: State, w: nat)
    requires w < |s.workers| && s.workers[w].NotifyWoken?
    requires CallersInv(s, 0, 0) && WorkersInv(s, 0) && TasksInv(s) && SleepersInv(s)
    ensures InvHeld(WorkerWake(s, w), 0, 1)
  {
    MoveKeepsCallers(s, w, AtLoop, 0, 0);
    WakeKeepsWorkers(s, w);
    MoveKeepsTasks(s, w, AtLoop);
    MoveKeepsSleepers(s, w, AtLoop);
  }

  lemma WakeKeepsWorkers(s: State, w: nat)
    requires w < |s.workers| && s.workers[w].NotifyWoken?
    requires WorkersInv(s, 0)
    ensures WorkersInv(WorkerWake(s, w), 1)
  {
    WorkerMoves(s.workers, w, AtLoop);
  }

  lemma SpuriousWorkerKeeps(s: State, w: nat)
    requires w < |s.workers| && s.workers[w].NotifyAsleep?
    requires Inv(s)
    ensures Inv(s.(workers := s.workers[w := NotifyWoken]))
  {
    hide CallersInv, WorkersInv, TasksInv, SleepersInv;
    MoveKeepsCallers(s, w, NotifyWoken, 0, 0);
    MoveKeepsTasks(s, w, NotifyWoken);
    MoveKeepsSleepers(s, w, NotifyWoken);
    SpuriousKeepsWorkers(s, w);
  }

  lemma SpuriousKeepsWorkers(s: State, w: nat)
    requires w < |s.workers| && s.workers[w].NotifyAsleep?
    requires WorkersInv(s, 0)
    ensures WorkersInv(s.(workers := s.workers[w := NotifyWoken]), 0)
  {
    hide Count;
    WorkerMoves(s.workers, w, NotifyWoken);
  }

  // ---- running a task -----------------------------------------------------------------------

  /** The callback or the cleanup of a running task returns. */
  lemma TaskMovesKeeps(s: State, w: nat, x: WorkerPc)
    requires w < |s.workers| && Busy(s.workers[w]) && Busy(x)
    requires x.ix == s.workers[w].ix && x.task == s.workers[w].task
    requires CallersInv(s, 0, 0) && WorkersInv(s, 0) && TasksInv(s) && SleepersInv(s)
    ensures Inv(s.(workers := s.workers[w := x]))
  {
    MoveKeepsCallers(s, w, x, 0, 0);
    TaskMovesKeepsWorkers(s, w, x);
    MoveKeepsTasks(s, w, x);
    MoveKeepsSleepers(s, w, x);
  }

  lemma TaskMovesKeepsWorkers(s: State, w: nat, x: WorkerPc)
    requires w < |s.workers| && Busy(s.workers[w]) && Busy(x)
    requires x.ix == s.workers[w].ix && x.task == s.workers[w].task
    requires WorkersInv(s, 0)
    ensures WorkersInv(s.(workers := s.workers[w := x]), 0)
  {
    WorkerMoves(s.workers, w, x);
  }

  lemma FinishRunsOnce(ws: seq<WorkerPc>, started: seq<Task>, runner: seq<nat>, done: set<nat>, w: nat)
    requires w < |ws| && ws[w].Finishing?
    requires RunOnce(ws, started, runner, done)
    ensures RunOnce(ws[w := AtLoop], started, runner, done + {ws[w].ix})
    ensures ws[w].ix !in done
  {}

  lemma FinishKeepsWorkers(s: State, w: nat)
    requires w < |s.workers| && s.workers[w].Finishing?
    requires WorkersInv(s, 0)
    ensures WorkersInv(Finish(s, w), 1)
  {
    WorkerMoves(s.workers, w, AtLoop);
    FinishRunsOnce(s.workers, s.started, s.runner, s.done, w);
    var t := Finish(s, w);
    assert ExitsAtEnd(t.workers, t.shutdown, t.queue);
  }

  lemma FinishKeepsCallers(s: State, w: nat)
    requires w < |s.workers| && s.workers[w].Finishing?
    requires CallersInv(s, 0, 0) && SleepersInv(s)
    ensures CallersInv(Finish(s, w), 0, 0) && SleepersInv(Finish(s, w))
    ensures Finish(s, w) == Finished(s, w).(callers := Finish(s, w).callers)
  {
    MoveKeepsCallers(s, w, AtLoop, 0, 0);
    WorkerMoves(s.workers, w, AtLoop);
    SignalIdleServes(Finished(s, w), 0, 0);
  }

  lemma FinishKeeps(s: State, w: nat)
    requires w < |s.workers| && s.workers[w].Finishing?
    requires CallersInv(s, 0, 0) && WorkersInv(s, 0) && TasksInv(s) && SleepersInv(s)
    ensures InvHeld(Finish(s, w), 0, 1)
    ensures Finish(s, w).workers == s.workers[w := AtLoop]
  {
    FinishKeepsCallers(s, w);
    FinishKeepsWorkers(s, w);
    MoveKeepsTasks(s, w, AtLoop);
  }

  // ---- taking a task ------------------------------------------------------------------------

  /** A freed slot: one signal suffices unless a batch is waiting, then everyone is woken. */
  lemma FreedSlotServes(s: State, pick: nat)
    requires CallersCounted(s.callers, s.waitingSubmitters, s.waitingBatches, s.waitingClients)
    requires BatchesFit(s.callers, s.capacity) && SubmittersServed(s.callers, s.Free())
    ensures var us := NotFullWakes(s.callers, s.waitingSubmitters, s.waitingBatches, pick);
      OnlyWoken(s.callers, us, SubmitSleeps, WakeCaller) && SubmittersServed(us, s.Free() + 1)
  {
    var cs, us := s.callers, NotFullWakes(s.callers, s.waitingSubmitters, s.waitingBatches, pick);
    CountZero(cs, Submitting);
    CountZero(cs, SubmittingBatch);
    CountZero(cs, SubmitSleeps);
    if s.waitingSubmitters != 0 && s.waitingBatches == 0 && Count(cs, SubmitSleeps) > 0 {
      var i := Chosen(cs, SubmitSleeps, pick);
      CallerMoves(cs, i, WakeCaller(cs[i]));
      forall c | 0 <= c < |cs| && cs[c].SubmitAsleep?
        ensures |cs[c].batch| == 1
      {
        assert Submitting(cs[c]) && !SubmittingBatch(cs[c]);
      }
    }
  }

  lemma DequeueKeepsCallers(s: State, w: nat, pick: nat)
    requires w < |s.workers| && s.workers[w].AtLoop? && s.queue != []
    requires CallersInv(s, 0, 0)
    ensures CallersInv(Dequeue(s, w, pick), 0, 0)
  {
    var t := Dequeue(s, w, pick);
    FreedSlotServes(s, pick);
    WakingKeepsCounts(s.callers, t.callers, SubmitSleeps);
  }

  lemma DequeueKeepsWorkers(s: State, w: nat, pick: nat)
    requires w < |s.workers| && s.workers[w].AtLoop? && s.queue != []
    requires WorkersInv(s, 1)
    ensures WorkersInv(Dequeue(s, w, pick), 0)
  {
    WorkerMoves(s.workers, w, InFunc(|s.started|, s.queue[0]));
  }

  lemma DequeueKeepsTasks(s: State, w: nat, pick: nat)
    requires w < |s.workers| && s.workers[w].AtLoop? && s.queue != []
    requires TasksInv(s)
    ensures TasksInv(Dequeue(s, w, pick))
  {
    assert s.queue == [s.queue[0]] + s.queue[1..];
  }

  lemma DequeueKeepsSleepers(s: State, w: nat, pick: nat)
    requires w < |s.workers| && s.workers[w].AtLoop? && s.queue != []
    requires CallersInv(s, 0, 0) && SleepersInv(s) && WorkersCounted(s.workers, s.waitingWorkers, s.nWorking)
    ensures SleepersInv(Dequeue(s, w, pick))
  {
    var t := Dequeue(s, w, pick);
    FreedSlotServes(s, pick);
    CountSame(s.callers, t.callers, ApiSleeps);
    WorkerMoves(s.workers, w, InFunc(|s.started|, s.queue[0]));
  }

  lemma WorkerLoopKeeps(s: State, w: nat, pick: nat)
    requires w < |s.workers| && s.workers[w].AtLoop?
    requires InvHeld(s, 0, 1)
    ensures Inv(WorkerLoop(s, w, pick))
  {
    if s.queue != [] {
      DequeueKeepsCallers(s, w, pick);
      DequeueKeepsWorkers(s, w, pick);
      DequeueKeepsTasks(s, w, pick);
      DequeueKeepsSleepers(s, w, pick);
    } else if s.shutdown {
      ExitKeeps(s, w, pick);
    } else {
      SleepKeeps(s, w, pick);
    }
  }
}
