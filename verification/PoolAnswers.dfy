/** What each call of the thread pool answers, and what it does when it answers that. */
module PoolAnswers {
  import opened Counting
  import opened ConditionVariable
  import opened PoolSpec
  import opened PoolInvariant
  import opened PoolCalls
  import opened PoolTheorems
  import opened PoolHistory
  import opened Wrappers

  // ---- submitting ---------------------------------------------------------------------------------

  /**
   A batch of callable tasks that the pool could ever hold, offered to an open pool with a call to
   spare, is accepted exactly if it fits. If it does not, a blocking call from outside goes to sleep,
   and any other answers 2 and leaves everything as it was. Anything else is refused with 1 and
   leaves everything as it was.
   */
  lemma SubmitAnswers(s: State, who: Option<nat>, batch: seq<Task>, block: bool, picks: seq<nat>)
    requires who.Some? ==> who.value < |s.callers|
    ensures var (t, answer) := Submit(s, who, batch, block, picks);
      if |batch| > 0 && (forall i | 0 <= i < |batch| :: batch[i].func != 0) && |batch| <= s.capacity
         && !s.shutdown && s.apiUsers != 0xffff_ffff then
        if |batch| <= s.capacity - |s.queue| then
          answer == Return(0) && t.queue == s.queue + batch && t.log == s.log + batch && t.apiUsers == s.apiUsers
        else if block && who.Some? then
          && answer == Blocked && t.callers == s.callers[who.value := SubmitAsleep(batch)]
          && t.queue == s.queue && t.log == s.log && t.apiUsers == s.apiUsers + 1
        else answer == Return(2) && t == s
      else answer == Return(1) && t == s
  {
    hide Enqueue, Broadcast, Signal;
    if !Refused(s, batch) && |batch| <= s.capacity - |s.queue| { Enqueued(Counted(s), batch, picks); }
  }

  lemma Enqueued(s: State, batch: seq<Task>, picks: seq<nat>)
    ensures var t := Enqueue(s, batch, picks);
      && t.queue == s.queue + batch && t.log == s.log + batch && t.apiUsers == s.apiUsers
      && t.shutdown == s.shutdown && t.pendingSubmissions == s.pendingSubmissions
  {
    hide Broadcast, SignalTimes;
  }

  /**
   A submission that wakes up, for a reason or spuriously, is refused with 1 if the pool has been
   shut down, is accepted exactly if it now fits, and otherwise sleeps again as before.
   */
  lemma SubmitResumeAnswers(s: State, c: nat, picks: seq<nat>)
    requires c < |s.callers| && s.callers[c].SubmitWoken?
    ensures var (t, answer) := SubmitResume(s, c, picks);
      var batch := s.callers[c].batch;
      if s.shutdown then answer == Return(1) && t.queue == s.queue && t.log == s.log && t.apiUsers == s.apiUsers - 1
      else if |batch| <= s.capacity - |s.queue| then
        answer == Return(0) && t.queue == s.queue + batch && t.log == s.log + batch && t.apiUsers == s.apiUsers - 1
      else answer == Blocked && t == s.(callers := s.callers[c := SubmitAsleep(batch)])
  {
    hide Enqueue, Broadcast, Signal;
    Enqueued(Unparked(s, c), s.callers[c].batch, picks);
  }

  // ---- waiting ------------------------------------------------------------------------------------

  /** A wait is refused with 1 or answers 0 at once, changing nothing, or goes to sleep: exactly when there is work. */
  lemma WaitAnswers(s: State, c: nat)
    requires c < |s.callers| && s.callers[c].Outside?
    ensures var (t, answer) := Wait(s, c);
      if s.shutdown || s.apiUsers == 0xffff_ffff then answer == Return(1) && t == s
      else if s.queue == [] && s.nWorking == 0 && s.pendingSubmissions == 0 then answer == Return(0) && t == s
      else answer == Blocked && t == s.(apiUsers := s.apiUsers + 1, waitingClients := s.waitingClients + 1,
                                        callers := s.callers[c := ClientAsleep])
  {
    assert s.callers[c := Outside] == s.callers;
  }

  /** A client that wakes up answers 1 exactly on shutdown, else 0 exactly if there is no work, else sleeps again. */
  lemma WaitResumeAnswers(s: State, c: nat)
    requires c < |s.callers| && s.callers[c].ClientWoken?
    ensures var (t, answer) := WaitResume(s, c);
      if s.shutdown then answer == Return(1) && t.apiUsers == s.apiUsers - 1 && t.waitingClients == s.waitingClients - 1
      else if s.queue == [] && s.nWorking == 0 && s.pendingSubmissions == 0 then
        && answer == Return(0)
        && t == s.(apiUsers := s.apiUsers - 1, waitingClients := s.waitingClients - 1, callers := s.callers[c := Outside])
      else answer == Blocked && t == s.(callers := s.callers[c := ClientAsleep])
  {
    hide Signal;
  }

  // ---- destroying ---------------------------------------------------------------------------------

  /**
   The first destroy closes the pool. A safe exit leaves the queue to the workers and discards
   nothing; any other exit discards the whole queue. A second destroy is refused and changes nothing.
   */
  lemma DestroyAnswers(s: State, c: nat, safe: bool)
    requires c < |s.callers|
    ensures var (t, answer) := Destroy(s, c, safe);
      if s.shutdown then answer == Return(1) && t == s
      else
        && answer == Blocked && t.shutdown && t.callers[c] == Walking && t.log == s.log && t.started == s.started
        && (safe ==> t.queue == s.queue && t.doomed == [] && t.discarded == s.discarded)
        && (!safe ==> t.queue == [] && t.doomed == s.queue && t.discarded == Min(s.discarded + |s.queue|, 0xffff_ffff_ffff_ffff))
  {
    hide Broadcast;
  }

  /** Once the pool is closed, no step adds to the discarded tasks or takes from them. */
  lemma DiscardedStay(s: State, a: Action)
    requires s.shutdown && Enabled(s, a)
    ensures StaysDiscarded(s, Apply(s, a))
  {
    if a.CallSubmit? || a.TaskSubmits? || a.SubmitterResumes? {
      SubmitWhenShut(s, a);
      StaysShut(s, a);
    } else {
      hide Apply, Enabled;
      OnlyShrinks(s, a);
    }
  }

  /** Any other step than one that submits. */
  lemma OnlyShrinks(s: State, a: Action)
    requires Enabled(s, a) && !(a.CallSubmit? || a.TaskSubmits? || a.SubmitterResumes?)
    ensures Apply(s, a).peak == s.peak && |Apply(s, a).queue| <= |s.queue|
    ensures s.shutdown ==> StaysDiscarded(s, Apply(s, a))
  {
    if a.WorkerEnters? || a.WorkerResumes? || a.WorkerFinishes? || a.CallbackReturns? || a.CleanupReturns? || a.SpuriousWorker? {
      WorkerOnlyShrinks(s, a);
    } else {
      hide SignalIdle, Leave, Saturate;
    }
  }

  lemma WorkerOnlyShrinks(s: State, a: Action)
    requires Enabled(s, a)
    requires a.WorkerEnters? || a.WorkerResumes? || a.WorkerFinishes? || a.CallbackReturns? || a.CleanupReturns? || a.SpuriousWorker?
    ensures Apply(s, a).peak == s.peak && |Apply(s, a).queue| <= |s.queue|
    ensures s.shutdown ==> StaysDiscarded(s, Apply(s, a))
  {
    hide SignalIdle, NotFullWakes, Saturate;
  }

  ghost predicate StaysDiscarded(s: State, t: State) {
    && t.shutdown && t.walked + t.doomed == s.walked + s.doomed && t.log == s.log
    && (s.queue == [] ==> t.queue == [])
  }

  lemma StaysShut(s: State, a: Action)
    requires s.shutdown && Enabled(s, a) && (a.CallSubmit? || a.TaskSubmits? || a.SubmitterResumes?)
    ensures Apply(s, a).shutdown
  {
    hide SignalIdle, Leave, NotifyWorkers, Saturate;
  }

  lemma {:induction false} DiscardedStayInRun(s: State, run: seq<Action>, i: nat)
    requires Runs(s, run) && i <= |run| && Runs(s, run[..i]) && After(s, run[..i]).shutdown
    ensures StaysDiscarded(After(s, run[..i]), After(s, run))
    decreases |run|
  {
    hide Apply, Enabled;
    if i == |run| {
      assert run[..i] == run;
    } else {
      var before := run[..|run| - 1];
      assert before[..i] == run[..i];
      DiscardedStayInRun(s, before, i);
      DiscardedStay(After(s, before), run[|run| - 1]);
    }
  }

  /**
   Over every run in which step `i` closes the pool. After a safe exit nothing is ever discarded,
   and once the pool is destroyed every accepted task is done. After any other exit exactly the tasks
   that were queued at that step are discarded, and no further task is ever dequeued.
   */
  lemma ExitModes(s: State, run: seq<Action>, i: nat)
    requires Inv(s) && Runs(s, run) && i < |run| && run[i].CallDestroy?
    requires Runs(s, run[..i]) && !After(s, run[..i]).shutdown
    ensures var t, u := After(s, run[..i]), After(s, run);
      && u.log == t.log
      && (run[i].safe ==>
            && u.walked + u.doomed == []
            && (u.destroyed ==> forall ix | 0 <= ix < |u.log| :: ix in u.done))
      && (!run[i].safe ==>
            && u.walked + u.doomed == t.queue && u.started == t.started && u.queue == []
            && (u.destroyed ==> u.cleaned == WithCleanup(t.queue)))
  {
    hide Inv, Apply, Enabled;
    var t, u := After(s, run[..i]), After(s, run);
    PrefixRuns(s, run, i);
    PrefixRuns(s, run, i + 1);
    RunKeeps(s, run[..i]);
    assert run[..i + 1][..i] == run[..i];
    Closes(t, run[i]);
    DiscardedStayInRun(s, run, i + 1);
    RunKeeps(s, run);
    if u.destroyed { AfterDestroy(u); }
    Shares(t, u, run[i].safe);
  }

  lemma Closes(s: State, a: Action)
    requires Inv(s) && Enabled(s, a) && a.CallDestroy? && !s.shutdown
    ensures var t := Apply(s, a);
      && t.shutdown && t.walked + t.doomed == (if a.safe then [] else s.queue) && t.log == s.log
      && (!a.safe ==> t.queue == [])
  {
    hide CallersInv, WorkersInv, SleepersInv;
    DestroyAnswers(s, a.c, a.safe);
  }

  /** What the accounting says of an open pool and of the same pool later, closed in the given mode. */
  lemma Shares(s: State, t: State, safe: bool)
    requires Inv(s) && Inv(t) && !s.shutdown && s.log == t.log
    requires t.walked + t.doomed == (if safe then [] else s.queue)
    requires !safe ==> t.queue == []
    ensures !safe ==> t.started == s.started
    ensures t.destroyed ==> t.doomed == [] && t.walked == (if safe then [] else s.queue)
  {
    hide CallersInv, WorkersInv, SleepersInv;
    if !safe {
      Cancel(s.started, t.started, s.queue, s.walked, s.doomed, t.queue, t.walked, t.doomed);
    }
  }

  lemma Cancel(xs: seq<Task>, ys: seq<Task>, queue: seq<Task>, walked: seq<Task>, doomed: seq<Task>,
               queue': seq<Task>, walked': seq<Task>, doomed': seq<Task>)
    requires xs + queue + walked + doomed == ys + queue' + walked' + doomed'
    requires walked == doomed == queue' == [] && walked' + doomed' == queue
    ensures xs == ys
  {
    assert xs + queue + walked + doomed == xs + queue;
    assert ys + queue' + walked' + doomed' == ys + queue;
    assert xs == (xs + queue)[..|xs|];
    assert ys == (ys + queue)[..|ys|];
  }

  // ---- references ---------------------------------------------------------------------------------

  /** A retain is refused exactly on a closing pool or at the largest count; a release undoes any other. */
  lemma RetainAnswers(s: State)
    requires s.references > 0 && !s.freed
    ensures var (t, answer) := Retain(s);
      if s.shutdown || s.references == 0xffff_ffff then answer == Return(1) && t == s
      else answer == Return(0) && t.references == s.references + 1 && Enabled(t, CallRelease) && Apply(t, CallRelease) == s
  {}

  /** A release is refused exactly for the last reference to a pool that is not destroyed; else it frees exactly the last one. */
  lemma ReleaseAnswers(s: State)
    requires s.references > 0
    ensures var (t, answer) := DropReference(s);
      if s.references == 1 && !s.destroyed then answer == Return(1) && t == s
      else answer == Return(0) && t.references == s.references - 1 && (t.freed <==> s.references == 1)
  {}

  // ---- workers ------------------------------------------------------------------------------------

  /**
   A worker at the head of its loop takes the oldest task if there is one, else leaves a closing
   pool and sleeps in an open one; no other worker moves.
   */
  lemma WorkerAnswers(s: State, w: nat, pick: nat)
    requires w < |s.workers|
    ensures var t := WorkerLoop(s, w, pick);
      if s.queue != [] then
        && t.workers == s.workers[w := InFunc(|s.started|, s.queue[0])] && t.started == s.started + [s.queue[0]]
        && t.queue == s.queue[1..] && t.nWorking == s.nWorking + 1 && t.waitingWorkers == s.waitingWorkers
      else if s.shutdown then t == s.(workers := s.workers[w := Exited])
      else t == s.(workers := s.workers[w := NotifyAsleep], waitingWorkers := s.waitingWorkers + 1)
  {
    hide NotFullWakes;
  }

  function Less(a: nat, b: nat): nat { if a <= b then 0 else a - b }

  /** A freed slot wakes one sleeping submission, or all of them exactly if some submission is a batch. */
  lemma FreedSlotWakes(s: State, pick: nat)
    requires CallersCounted(s.callers, s.waitingSubmitters, s.waitingBatches, s.waitingClients)
    ensures var us := NotFullWakes(s.callers, s.waitingSubmitters, s.waitingBatches, pick);
      Count(us, SubmitSleeps) == if exists c :: 0 <= c < |s.callers| && SubmittingBatch(s.callers[c]) then 0
                                 else Less(Count(s.callers, SubmitSleeps), 1)
  {
    var cs, us := s.callers, NotFullWakes(s.callers, s.waitingSubmitters, s.waitingBatches, pick);
    CountLe(cs, SubmitSleeps, Submitting);
    CountLe(cs, SubmittingBatch, Submitting);
    CountZero(cs, SubmittingBatch);
    if s.waitingSubmitters != 0 && s.waitingBatches == 0 {
      SignalWakes(cs, SubmitSleeps, WakeCaller, Woken, pick);
    } else {
      CountZero(us, SubmitSleeps);
    }
  }

  predicate Woken(c: CallerPc) { c.SubmitWoken? }

  /** Accepted tasks wake one sleeping worker each, while there are any. */
  lemma AcceptedTasksWake(s: State, count: nat, picks: seq<nat>)
    requires WorkersCounted(s.workers, s.waitingWorkers, s.nWorking)
    ensures Count(NotifyWorkers(s.workers, s.waitingWorkers, count, picks), NotifySleeps) == Less(Count(s.workers, NotifySleeps), count)
  {
    SignalTimesWakes(s.workers, NotifySleeps, WakeWorker, Notified, picks, count);
    BroadcastWakes(s.workers);
  }

  // ---- the longest queue --------------------------------------------------------------------------

  function Max(a: nat, b: nat): nat { if a < b then b else a }

  /** The length of the longest queue that the run goes through. */
  function Longest(s: State, run: seq<Action>): nat
    requires Runs(s, run)
    decreases |run|
  {
    if run == [] then |s.queue| else Max(Longest(s, run[..|run| - 1]), |After(s, run).queue|)
  }

  lemma StepPeaks(s: State, a: Action)
    requires Enabled(s, a) && |s.queue| <= s.peak
    ensures Apply(s, a).peak == Max(s.peak, |Apply(s, a).queue|)
  {
    hide SubmitBody;
    if a.CallSubmit? {
      BodyPeaks(Counted(s), Some(a.c), a.batch, a.block, a.picks);
    } else if a.TaskSubmits? {
      BodyPeaks(Counted(s), None, a.batch, a.block, a.picks);
    } else if a.SubmitterResumes? {
      BodyPeaks(Unparked(s, a.c), Some(a.c), s.callers[a.c].batch, true, a.picks);
    } else {
      hide Apply, Enabled;
      OnlyShrinks(s, a);
    }
  }

  lemma BodyPeaks(s: State, who: Option<nat>, batch: seq<Task>, block: bool, picks: seq<nat>)
    requires (who.Some? ==> who.value < |s.callers|) && |s.queue| <= s.peak
    ensures var t := SubmitBody(s, who, batch, block, picks).0; t.peak == Max(s.peak, |t.queue|)
  {
    hide SignalIdle, Leave, NotifyWorkers, Saturate;
  }

  /** The peak that the statistics report is the longest the queue has ever been. */
  lemma {:induction false} PeakIsLongest(nWorkers: nat, capacity: nat, nCallers: nat, run: seq<Action>)
    requires Runs(Create(nWorkers, capacity, nCallers), run)
    ensures var s := Create(nWorkers, capacity, nCallers);
      After(s, run).peak == Longest(s, run) && |After(s, run).queue| <= After(s, run).peak
    decreases |run|
  {
    hide Apply, Enabled;
    if run != [] {
      var s, before := Create(nWorkers, capacity, nCallers), run[..|run| - 1];
      PeakIsLongest(nWorkers, capacity, nCallers, before);
      StepPeaks(After(s, before), run[|run| - 1]);
    }
  }
}
