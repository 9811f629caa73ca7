/** What holds over every run of the thread pool. */
module PoolTheorems {
  import opened Counting
  import opened PoolSpec
  import opened PoolInvariant
  import opened PoolWorkers
  import opened PoolCalls
  import opened PoolClosing
  import opened Wrappers

  // ---- the invariant over all runs ------------------------------------------------------------

  lemma CreateEstablishes(nWorkers: nat, capacity: nat, nCallers: nat)
    requires nWorkers > 0 && capacity > 0
    ensures Inv(Create(nWorkers, capacity, nCallers))
  {
    var s := Create(nWorkers, capacity, nCallers);
    CountZero(s.workers, NotifySleeps);
    CountZero(s.workers, Notified);
    CountZero(s.workers, Busy);
    CountZero(s.callers, Submitting);
    CountZero(s.callers, SubmittingBatch);
    CountZero(s.callers, Waiting);
    CountZero(s.callers, ClientSleeps);
    CountZero(s.callers, ApiSleeps);
    CountZero(s.callers, Destroying);
    CountZero(s.callers, Releases);
  }

  lemma WorkerStepKeeps(s: State, a: Action)
    requires Inv(s) && Enabled(s, a)
    requires a.WorkerEnters? || a.WorkerResumes? || a.WorkerFinishes? || a.CallbackReturns? || a.CleanupReturns? || a.SpuriousWorker?
    ensures Inv(Apply(s, a))
  {
    hide WorkerLoop, Finish, CallersInv, TasksInv, SleepersInv;
    match a
    case WorkerEnters(w, pick) => WorkerLoopKeeps(s, w, pick);
    case WorkerResumes(w, pick) => WakeKeeps(s, w); WorkerLoopKeeps(WorkerWake(s, w), w, pick);
    case WorkerFinishes(w, pick) => FinishKeeps(s, w); WorkerLoopKeeps(Finish(s, w), w, pick);
    case CallbackReturns(w) => TaskMovesKeeps(s, w, FuncReturns(s.workers[w]));
    case CleanupReturns(w) => TaskMovesKeeps(s, w, Finishing(s.workers[w].ix, s.workers[w].task));
    case SpuriousWorker(w) => SpuriousWorkerKeeps(s, w);
  }

  /** What a cleanup of the destroyer's calls is refused, for the pool is shut down. */
  lemma WalkerIsRefused(s: State, a: Action)
    requires CallersInv(s, 0, 0) && Enabled(s, a)
    requires (a.CallSubmit? || a.CallWait? || a.CallDestroy?) && s.callers[a.c].Walking?
    ensures s.shutdown && Apply(s, a) == s
  {
    hide SubmitBody, WaitResume;
    CountZero(s.callers, Destroying);
    assert Destroying(s.callers[a.c]);
  }

  lemma CallStepKeeps(s: State, a: Action)
    requires Inv(s) && Enabled(s, a)
    requires a.SubmitterResumes? || a.ClientResumes? || a.CallSubmit? || a.TaskSubmits? || a.CallWait? || a.CallDestroy? || a.SpuriousCaller?
    ensures Inv(Apply(s, a))
  {
    hide SubmitResume, Submit, WaitResume, Wait, Destroy, CallersInv, WorkersInv, TasksInv, SleepersInv;
    if (a.CallSubmit? || a.CallWait? || a.CallDestroy?) && s.callers[a.c].Walking? {
      WalkerIsRefused(s, a);
      return;
    }
    match a
    case SubmitterResumes(c, picks) => SubmitResumeKeeps(s, c, picks);
    case ClientResumes(c) => WaitResumeKeeps(s, c);
    case CallSubmit(c, batch, block, picks) => SubmitKeeps(s, Some(c), batch, block, picks);
    case TaskSubmits(w, batch, block, picks) => SubmitKeeps(s, None, batch, block, picks);
    case CallWait(c) => WaitKeeps(s, c);
    case CallDestroy(c, safe) => DestroyKeeps(s, c, safe);
    case SpuriousCaller(c) => SpuriousCallerKeeps(s, c);
  }

  lemma WalkStepKeeps(s: State, a: Action)
    requires Inv(s) && Enabled(s, a) && a.DestroyerWalks?
    ensures Inv(Apply(s, a))
  {
    hide Walk, CallersInv, WorkersInv, TasksInv, SleepersInv;
    WalkKeeps(s);
  }

  lemma CheckStepKeeps(s: State, a: Action)
    requires Inv(s) && Enabled(s, a) && a.DestroyerChecks?
    ensures Inv(Apply(s, a))
  {
    CheckedCaller(s, a.c);
    hide CallersInv, WorkersInv, TasksInv, SleepersInv;
    DestroyerMovesKeeps(s, a.c, if s.apiUsers != 0 then ApiAsleep else Joining(0));
  }

  lemma CheckedCaller(s: State, c: nat)
    requires CallersInv(s, 0, 0) && c < |s.callers|
    requires (s.callers[c].Walking? && s.doomed == []) || s.callers[c].ApiWoken?
    ensures s.doomed == [] && Destroying(s.callers[c]) && s.apiUsers >= 0
  {
    hide Count;
  }

  lemma JoinStepKeeps(s: State, a: Action)
    requires Inv(s) && Enabled(s, a) && a.DestroyerJoins?
    ensures Inv(Apply(s, a))
  {
    JoinedCaller(s, a.c);
    hide CallersInv, WorkersInv, TasksInv, SleepersInv;
    DestroyerMovesKeeps(s, a.c, Joining(s.callers[a.c].next + 1));
  }

  lemma JoinedCaller(s: State, c: nat)
    requires CallersInv(s, 0, 0) && c < |s.callers| && s.callers[c].Joining?
    requires s.callers[c].next < |s.workers| && s.workers[s.callers[c].next].Exited?
    ensures s.doomed == [] && s.apiUsers == 0 && AllExited(s.workers, s.callers[c].next + 1)
  {
    hide Count;
  }

  lemma LastStepsKeep(s: State, a: Action)
    requires Inv(s) && Enabled(s, a) && (a.DestroyerDisposes? || a.DestroyerReleases?)
    ensures Inv(Apply(s, a))
  {
    hide Dispose, DropReference, CallersInv, WorkersInv, TasksInv, SleepersInv;
    if a.DestroyerDisposes? {
      DisposeKeeps(s, a.c);
    } else {
      ReleaseKeeps(s, a.c);
    }
  }

  lemma ReferenceStepKeeps(s: State, a: Action)
    requires Inv(s) && Enabled(s, a)
    requires a.CallRetain? || a.CallRelease?
    ensures Inv(Apply(s, a))
  {
    var t := Apply(s, a);
    assert t == s.(references := t.references, held := t.held, freed := t.freed);
  }

  lemma StepKeeps(s: State, a: Action)
    requires Inv(s) && Enabled(s, a)
    ensures Inv(Apply(s, a))
  {
    hide Inv, Enabled, Apply;
    match a
    case DestroyerWalks(_) => WalkStepKeeps(s, a);
    case DestroyerChecks(_) => CheckStepKeeps(s, a);
    case DestroyerJoins(_) => JoinStepKeeps(s, a);
    case DestroyerDisposes(_) => LastStepsKeep(s, a);
    case DestroyerReleases(_) => LastStepsKeep(s, a);
    case CallRetain => ReferenceStepKeeps(s, a);
    case CallRelease => ReferenceStepKeeps(s, a);
    case WorkerEnters(_, _) => WorkerStepKeeps(s, a);
    case WorkerResumes(_, _) => WorkerStepKeeps(s, a);
    case WorkerFinishes(_, _) => WorkerStepKeeps(s, a);
    case CallbackReturns(_) => WorkerStepKeeps(s, a);
    case CleanupReturns(_) => WorkerStepKeeps(s, a);
    case SpuriousWorker(_) => WorkerStepKeeps(s, a);
    case _ => CallStepKeeps(s, a);
  }

  lemma {:induction false} RunKeeps(s: State, run: seq<Action>)
    requires Inv(s) && Runs(s, run)
    ensures Inv(After(s, run))
    decreases |run|
  {
    if run != [] {
      var before := run[..|run| - 1];
      RunKeeps(s, before);
      StepKeeps(After(s, before), run[|run| - 1]);
    }
  }

  /** A state the pool can get into. */
  ghost predicate Reachable(s: State) {
    exists n: nat, capacity: nat, k: nat, run: seq<Action> ::
      n > 0 && capacity > 0 && Runs(Create(n, capacity, k), run) && s == After(Create(n, capacity, k), run)
  }

  lemma ReachableInv(s: State)
    requires Reachable(s)
    ensures Inv(s)
  {
    var n: nat, capacity: nat, k: nat, run: seq<Action> :|
      n > 0 && capacity > 0 && Runs(Create(n, capacity, k), run) && s == After(Create(n, capacity, k), run);
    CreateEstablishes(n, capacity, k);
    RunKeeps(Create(n, capacity, k), run);
  }

  /**
   No lost wake-ups. In every state the pool can get into: while a worker sleeps, each queued
   task has a woken worker on its way; a sleeping submission does not fit, or is a single task
   and each free slot has a woken single submission on its way; a client sleeps only while
   there is work, and the destroyer only while there are calls; after shutdown nobody else does.
   */
  lemma NoLostWakeUps(s: State)
    requires Reachable(s)
    ensures (exists w | 0 <= w < |s.workers| :: s.workers[w].NotifyAsleep?) ==> |s.queue| <= Count(s.workers, Notified)
    ensures forall c | 0 <= c < |s.callers| && s.callers[c].SubmitAsleep? ::
      || |s.callers[c].batch| > s.Free()
      || (|s.callers[c].batch| == 1 && s.Free() <= Count(s.callers, WokenSingle))
    ensures (exists c | 0 <= c < |s.callers| :: s.callers[c].ClientAsleep?) ==> !s.Idle()
    ensures (exists c | 0 <= c < |s.callers| :: s.callers[c].ApiAsleep?) ==> s.apiUsers > 0
    ensures s.shutdown ==>
      && (forall w | 0 <= w < |s.workers| :: !s.workers[w].NotifyAsleep?)
      && (forall c | 0 <= c < |s.callers| :: !s.callers[c].SubmitAsleep? && !s.callers[c].ClientAsleep?)
  {
    ReachableInv(s);
    CountZero(s.workers, NotifySleeps);
    CountZero(s.callers, ClientSleeps);
    CountZero(s.callers, ApiSleeps);
    assert forall w | 0 <= w < |s.workers| :: s.workers[w].NotifyAsleep? == NotifySleeps(s.workers[w]);
    assert forall c | 0 <= c < |s.callers| :: s.callers[c].ClientAsleep? == ClientSleeps(s.callers[c]);
    assert forall c | 0 <= c < |s.callers| :: s.callers[c].ApiAsleep? == ApiSleeps(s.callers[c]);
    assert s.shutdown ==> forall c | 0 <= c < |s.callers| :: !CallSleeps(s.callers[c]);
  }

  // ---- deadlock freedom -----------------------------------------------------------------------

  /** No thread has a step of its own to take: no woken thread, no running task, no destroyer at work. */
  ghost predicate Stuck(s: State) {
    forall a: Action | a.Internal() :: !Enabled(s, a)
  }

  /** Nothing is owed to anyone. */
  ghost predicate AtRest(s: State) {
    && s.queue == [] && s.doomed == []
    && (forall c | 0 <= c < |s.callers| :: s.callers[c].Outside?)
    && (if s.shutdown then s.destroyed && AllExited(s.workers, |s.workers|)
        else forall w | 0 <= w < |s.workers| :: s.workers[w].NotifyAsleep?)
  }

  lemma StuckWorkers(s: State)
    requires Inv(s) && Stuck(s) && !s.freed
    ensures s.queue == []
    ensures if s.shutdown then AllExited(s.workers, |s.workers|) else forall w | 0 <= w < |s.workers| :: s.workers[w].NotifyAsleep?
  {
    CountZero(s.workers, NotifySleeps);
    forall w | 0 <= w < |s.workers|
      ensures if s.shutdown then s.workers[w].Exited? else s.workers[w].NotifyAsleep?
      ensures !Notified(s.workers[w]) && !Busy(s.workers[w])
    {
      assert !Enabled(s, WorkerEnters(w, 0)) && !Enabled(s, WorkerResumes(w, 0)) && !Enabled(s, WorkerFinishes(w, 0));
      assert !Enabled(s, CallbackReturns(w)) && !Enabled(s, CleanupReturns(w));
      assert s.shutdown ==> !NotifySleeps(s.workers[w]);
    }
    CountZero(s.workers, Notified);
    assert s.shutdown ==> s.workers[0].Exited?;
    assert !s.shutdown ==> NotifySleeps(s.workers[0]);
  }

  lemma StuckCalls(s: State)
    requires Inv(s) && Stuck(s) && !s.freed
    ensures s.apiUsers == 0
    ensures forall c | 0 <= c < |s.callers| :: !Submitting(s.callers[c]) && !Waiting(s.callers[c])
  {
    StuckWorkers(s);
    StuckSubmitters(s);
    CountZero(s.workers, Busy);
    forall w | 0 <= w < |s.workers| ensures !Busy(s.workers[w]) {
      assert if s.shutdown then s.workers[w].Exited? else s.workers[w].NotifyAsleep?;
    }
    CountZero(s.callers, Submitting);
    CountZero(s.callers, Waiting);
    CountZero(s.callers, ClientSleeps);
    forall c | 0 <= c < |s.callers|
      ensures !Waiting(s.callers[c])
    {
      assert !Enabled(s, ClientResumes(c));
      assert !ClientSleeps(s.callers[c]);
    }
  }

  /** With an empty queue every submission fits, so none can still be asleep. */
  lemma StuckSubmitters(s: State)
    requires CallersInv(s, 0, 0) && QueueFits(s.capacity, s.queue, s.peak) && Stuck(s) && !s.freed && s.queue == []
    ensures forall c | 0 <= c < |s.callers| :: !Submitting(s.callers[c])
  {
    forall c | 0 <= c < |s.callers| ensures !s.callers[c].SubmitWoken? {
      assert !Enabled(s, SubmitterResumes(c, []));
    }
    CountZero(s.callers, WokenSingle);
    forall c | 0 <= c < |s.callers| ensures !Submitting(s.callers[c]) {
      assert Submitting(s.callers[c]) ==> ValidBatch(s.capacity, s.callers[c].batch);
    }
  }

  lemma StuckDestroyer(s: State)
    requires CallersInv(s, 0, 0) && DestroyerServed(s.callers, s.apiUsers) && s.apiUsers == 0
    requires Ownership(s.references, s.held, s.owned, s.freed, s.destroyed)
    requires Stuck(s) && !s.freed && (s.shutdown ==> AllExited(s.workers, |s.workers|))
    ensures forall c | 0 <= c < |s.callers| :: !Destroying(s.callers[c]) && !s.callers[c].Releasing?
    ensures s.shutdown ==> s.destroyed
  {
    CountZero(s.callers, Destroying);
    CountZero(s.callers, Releases);
    CountZero(s.callers, ApiSleeps);
    forall c | 0 <= c < |s.callers|
      ensures !Destroying(s.callers[c]) && !s.callers[c].Releasing?
    {
      assert !ApiSleeps(s.callers[c]);
      assert !Enabled(s, DestroyerWalks(c)) && !Enabled(s, DestroyerChecks(c)) && !Enabled(s, DestroyerJoins(c));
      assert !Enabled(s, DestroyerDisposes(c)) && !Enabled(s, DestroyerReleases(c));
      assert Destroying(s.callers[c]) ==> s.shutdown;
      assert Releases(s.callers[c]) ==> s.owned;
    }
  }

  lemma FreedIsOver(s: State)
    requires Inv(s) && s.freed
    ensures AtRest(s) && s.shutdown && s.references == 0
  {
    CountZero(s.callers, Submitting);
    CountZero(s.callers, Waiting);
    CountZero(s.callers, Destroying);
    CountZero(s.callers, Releases);
    forall c | 0 <= c < |s.callers| ensures s.callers[c].Outside? {
      assert !Submitting(s.callers[c]) && !Waiting(s.callers[c]) && !Destroying(s.callers[c]) && !Releases(s.callers[c]);
    }
  }

  /**
   Deadlock freedom. If no thread can take a step of its own then no call is in progress, no
   task is queued, and the workers all sleep for work, or have all exited once shut down.
   */
  lemma DeadlockFree(s: State)
    requires Inv(s) && Stuck(s)
    ensures AtRest(s)
  {
    if s.freed {
      FreedIsOver(s);
    } else {
      StuckWorkers(s);
      StuckCalls(s);
      StuckDestroyer(s);
      forall c | 0 <= c < |s.callers| ensures s.callers[c].Outside? {
        assert !Submitting(s.callers[c]) && !Waiting(s.callers[c]) && !Destroying(s.callers[c]);
      }
    }
  }

  lemma ReachableNeverDeadlocks(s: State)
    requires Reachable(s) && Stuck(s)
    ensures AtRest(s)
  {
    ReachableInv(s);
    DeadlockFree(s);
  }
}
