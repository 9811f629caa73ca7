/** What becomes of every accepted task, what the statistics say, and what `wait` promises. */
module PoolHistory {
  import opened Counting
  import opened ConditionVariable
  import opened PoolSpec
  import opened PoolInvariant
  import opened PoolTheorems
  import opened Wrappers

  // ---- each step, and so each run, only extends the history --------------------------------------

  /** The batch a step tries to append. */
  function BatchOf(s: State, a: Action): seq<Task>
    requires Enabled(s, a)
  {
    match a
    case CallSubmit(_, batch, _, _) => batch
    case TaskSubmits(_, batch, _, _) => batch
    case SubmitterResumes(c, _) => s.callers[c].batch
    case _ => []
  }

  /** `t` continues the history of `s`. */
  ghost predicate Extends(s: State, t: State) {
    s.log <= t.log && s.started <= t.started && s.runner <= t.runner && s.done <= t.done && s.cleaned <= t.cleaned
  }

  lemma SubmitAppends(s: State, who: Option<nat>, batch: seq<Task>, block: bool, picks: seq<nat>)
    requires who.Some? ==> who.value < |s.callers|
    ensures var (t, answer) := SubmitBody(s, who, batch, block, picks);
      && t.log == (if answer == Return(0) then s.log + batch else s.log)
      && t.queue == (if answer == Return(0) then s.queue + batch else s.queue)
      && (answer == Return(0) <==> |batch| <= s.Free() && !s.shutdown)
      && t.started == s.started && t.runner == s.runner && t.done == s.done && t.cleaned == s.cleaned
      && t.freed == s.freed && t.destroyed == s.destroyed
  {
    hide SignalIdle, Leave, NotifyWorkers, Saturate;
  }

  lemma WorkerLoopExtends(s: State, w: nat, pick: nat)
    requires w < |s.workers|
    ensures var t := WorkerLoop(s, w, pick);
      && t.log == s.log && t.done == s.done && t.cleaned == s.cleaned
      && s.runner <= t.runner
      && t.started == (if s.queue == [] then s.started else s.started + [s.queue[0]])
      && (s.queue != [] ==> t.workers[w] == InFunc(|s.started|, s.queue[0]))
  {}

  /** What one step may do to the history. */
  ghost predicate StepHistory(s: State, t: State, batch: seq<Task>) {
    && Extends(s, t)
    && (t.log == s.log || (t.log == s.log + batch && t.queue == s.queue + batch))
    && (t.started == s.started || (s.queue != [] && t.started == s.started + [s.queue[0]]))
  }

  lemma WorkerStepExtends(s: State, a: Action)
    requires Enabled(s, a)
    requires a.WorkerEnters? || a.WorkerResumes? || a.WorkerFinishes? || a.CallbackReturns? || a.CleanupReturns? || a.SpuriousWorker?
    ensures StepHistory(s, Apply(s, a), [])
  {
    match a
    case WorkerEnters(w, pick) => WorkerLoopExtends(s, w, pick);
    case WorkerResumes(w, pick) => WorkerLoopExtends(WorkerWake(s, w), w, pick);
    case WorkerFinishes(w, pick) => WorkerLoopExtends(Finish(s, w), w, pick);
    case CallbackReturns(_) =>
    case CleanupReturns(_) =>
    case SpuriousWorker(_) =>
  }

  lemma SubmitStepExtends(s: State, a: Action)
    requires Enabled(s, a) && (a.CallSubmit? || a.TaskSubmits? || a.SubmitterResumes?)
    ensures StepHistory(s, Apply(s, a), BatchOf(s, a))
    ensures Apply(s, a).freed == s.freed && Apply(s, a).destroyed == s.destroyed
  {
    hide SubmitBody;
    match a
    case CallSubmit(c, batch, block, picks) => SubmitAppends(Counted(s), Some(c), batch, block, picks);
    case TaskSubmits(w, batch, block, picks) => SubmitAppends(Counted(s), None, batch, block, picks);
    case SubmitterResumes(c, picks) => SubmitAppends(Unparked(s, c), Some(c), s.callers[c].batch, true, picks);
  }

  lemma OtherStepExtends(s: State, a: Action)
    requires Enabled(s, a)
    requires a.ClientResumes? || a.CallWait? || a.CallDestroy? || a.CallRetain? || a.CallRelease? || a.SpuriousCaller?
    ensures StepHistory(s, Apply(s, a), [])
  {
    hide Leave, Broadcast;
  }

  lemma DestroyerStepExtends(s: State, a: Action)
    requires Enabled(s, a)
    requires a.DestroyerWalks? || a.DestroyerChecks? || a.DestroyerJoins? || a.DestroyerDisposes? || a.DestroyerReleases?
    ensures StepHistory(s, Apply(s, a), [])
  {}

  /**
   A step appends a whole batch to the accepted tasks or nothing, dequeues at most the oldest
   queued task, and never takes anything back.
   */
  lemma StepExtends(s: State, a: Action)
    requires Enabled(s, a)
    ensures StepHistory(s, Apply(s, a), BatchOf(s, a))
  {
    if a.CallSubmit? || a.TaskSubmits? || a.SubmitterResumes? {
      SubmitStepExtends(s, a);
    } else if a.WorkerEnters? || a.WorkerResumes? || a.WorkerFinishes? || a.CallbackReturns? || a.CleanupReturns? || a.SpuriousWorker? {
      WorkerStepExtends(s, a);
    } else if a.DestroyerWalks? || a.DestroyerChecks? || a.DestroyerJoins? || a.DestroyerDisposes? || a.DestroyerReleases? {
      DestroyerStepExtends(s, a);
    } else {
      OtherStepExtends(s, a);
    }
  }

  lemma {:induction false} RunExtends(s: State, run: seq<Action>)
    requires Runs(s, run)
    ensures Extends(s, After(s, run))
    decreases |run|
  {
    if run != [] {
      var before := run[..|run| - 1];
      RunExtends(s, before);
      StepExtends(After(s, before), run[|run| - 1]);
    }
  }

  /** How a step may move a worker it does not belong to. */
  ghost predicate AtMostWoken(s: State, t: State, w: nat)
    requires w < |s.workers|
  {
    |t.workers| == |s.workers| && (t.workers[w] == s.workers[w] || t.workers[w] == WakeWorker(s.workers[w]))
  }

  lemma SubmitOnlyWakes(s: State, who: Option<nat>, batch: seq<Task>, block: bool, picks: seq<nat>, w: nat)
    requires w < |s.workers| && (who.Some? ==> who.value < |s.callers|)
    ensures AtMostWoken(s, SubmitBody(s, who, batch, block, picks).0, w)
  {
    NotifyOnlyWakes(s, |batch|, picks);
    assert Enqueue(s, batch, picks).workers == NotifyWorkers(s.workers, s.waitingWorkers, |batch|, picks);
  }

  lemma NotifyOnlyWakes(s: State, count: nat, picks: seq<nat>)
    ensures OnlyWoken(s.workers, NotifyWorkers(s.workers, s.waitingWorkers, count, picks), NotifySleeps, WakeWorker)
  {
    SignalTimesWakes(s.workers, NotifySleeps, WakeWorker, Notified, picks, count);
  }

  lemma CallsOnlyWake(s: State, a: Action, w: nat)
    requires Enabled(s, a) && w < |s.workers|
    requires !(a.WorkerEnters? || a.WorkerResumes? || a.WorkerFinishes? || a.CallbackReturns? || a.CleanupReturns? || a.SpuriousWorker?)
    ensures AtMostWoken(s, Apply(s, a), w)
  {
    if a.CallSubmit? || a.TaskSubmits? {
      SubmitOnlyWakes(Counted(s), if a.CallSubmit? then Some(a.c) else None, a.batch, a.block, a.picks, w);
    } else if a.SubmitterResumes? {
      SubmitOnlyWakes(Unparked(s, a.c), Some(a.c), s.callers[a.c].batch, true, a.picks, w);
    } else {
      OthersOnlyWake(s, a, w);
    }
  }

  lemma OthersOnlyWake(s: State, a: Action, w: nat)
    requires Enabled(s, a) && w < |s.workers|
    requires a.ClientResumes? || a.CallWait? || a.CallDestroy? || a.CallRetain? || a.CallRelease? || a.SpuriousCaller?
      || a.DestroyerWalks? || a.DestroyerChecks? || a.DestroyerJoins? || a.DestroyerDisposes? || a.DestroyerReleases?
    ensures AtMostWoken(s, Apply(s, a), w)
  {}

  /**
   A callback is entered only for the task being dequeued, which takes the next number. Numbers
   only grow, so no task's callback is entered twice.
   */
  lemma CallbackEnteredOnce(s: State, a: Action, w: nat)
    requires Enabled(s, a) && w < |s.workers| && w < |Apply(s, a).workers|
    requires Apply(s, a).workers[w].InFunc? && !s.workers[w].InFunc?
    ensures s.queue != [] && Apply(s, a).workers[w] == InFunc(|s.started|, s.queue[0])
    ensures |Apply(s, a).started| == |s.started| + 1
  {
    match a
    case WorkerEnters(v, pick) => WorkerLoopExtends(s, v, pick);
    case WorkerResumes(v, pick) => WorkerLoopExtends(WorkerWake(s, v), v, pick);
    case WorkerFinishes(v, pick) => WorkerLoopExtends(Finish(s, v), v, pick);
    case CallbackReturns(_) =>
    case CleanupReturns(_) =>
    case SpuriousWorker(_) =>
    case _ => CallsOnlyWake(s, a, w);
  }

  /** Step `a` enters the callback of the ix-th dequeued task. */
  ghost predicate Enters(s: State, a: Action, ix: nat)
    requires Enabled(s, a)
  {
    exists w :: 0 <= w < |s.workers| && w < |Apply(s, a).workers|
      && !s.workers[w].InFunc? && Apply(s, a).workers[w].InFunc? && Apply(s, a).workers[w].ix == ix
  }

  lemma {:induction false} PrefixRuns(s: State, run: seq<Action>, i: nat)
    requires Runs(s, run) && i <= |run|
    ensures Runs(s, run[..i]) && Extends(After(s, run[..i]), After(s, run))
    ensures i < |run| ==> Enabled(After(s, run[..i]), run[i])
    decreases |run|
  {
    if i == |run| {
      assert run[..i] == run;
    } else {
      var before := run[..|run| - 1];
      PrefixRuns(s, before, i);
      StepExtends(After(s, before), run[|run| - 1]);
      assert before[..i] == run[..i];
    }
  }

  /** Over a whole run no task's callback is entered twice, and callbacks are entered in order of acceptance. */
  lemma EnteredInOrder(s: State, run: seq<Action>, i: nat, j: nat, ix: nat, jx: nat)
    requires Runs(s, run) && i < j < |run|
    requires Runs(s, run[..i]) && Enabled(After(s, run[..i]), run[i]) && Enters(After(s, run[..i]), run[i], ix)
    requires Runs(s, run[..j]) && Enabled(After(s, run[..j]), run[j]) && Enters(After(s, run[..j]), run[j], jx)
    ensures ix < jx
  {
    var a, b := After(s, run[..i]), After(s, run[..j]);
    var v :| 0 <= v < |a.workers| && v < |Apply(a, run[i]).workers|
      && !a.workers[v].InFunc? && Apply(a, run[i]).workers[v].InFunc? && Apply(a, run[i]).workers[v].ix == ix;
    var w :| 0 <= w < |b.workers| && w < |Apply(b, run[j]).workers|
      && !b.workers[w].InFunc? && Apply(b, run[j]).workers[w].InFunc? && Apply(b, run[j]).workers[w].ix == jx;
    hide Apply, Enabled;
    CallbackEnteredOnce(a, run[i], v);
    CallbackEnteredOnce(b, run[j], w);
    PrefixRuns(s, run[..j], i + 1);
    assert run[..j][..i + 1] == run[..i + 1] && run[..i + 1][..i] == run[..i];
  }

  // ---- where each accepted task is ----------------------------------------------------------------

  ghost predicate RunningOn(s: State, ix: nat, w: nat) {
    w < |s.workers| && Busy(s.workers[w]) && s.workers[w].ix == ix
  }

  /**
   First in, first out, exactly once: the accepted tasks are, in order, the dequeued ones, the
   queued ones and the discarded ones; a dequeued task is done, or is being run by exactly one
   worker, and not both.
   */
  lemma ExactlyOnce(s: State)
    requires Inv(s)
    ensures s.log == s.started + s.queue + s.walked + s.doomed
    ensures s.queue == [] || s.walked + s.doomed == []
    ensures forall ix | 0 <= ix < |s.started| :: ix in s.done <==> !exists w :: RunningOn(s, ix, w)
    ensures forall ix: nat, v: nat, w: nat | RunningOn(s, ix, v) && RunningOn(s, ix, w) ::
      v == w && ix < |s.started| && s.workers[w].task == s.started[ix]
  {
    forall ix | 0 <= ix < |s.started|
      ensures ix in s.done <==> !exists w :: RunningOn(s, ix, w)
    {
      if ix !in s.done {
        assert RunningOn(s, ix, s.runner[ix]);
      }
    }
  }

  lemma {:induction false} AllBelow(n: nat, m: set<nat>)
    requires forall i | i in m :: i < n
    requires |m| == n
    ensures forall i | 0 <= i < n :: i in m
  {
    if n > 0 {
      var rest := m - {n - 1};
      FewBelow(n - 1, rest);
      assert n - 1 !in m ==> rest == m;
      AllBelow(n - 1, rest);
      forall i | 0 <= i < n ensures i in m {
        assert i == n - 1 || i in rest;
      }
    }
  }

  lemma {:induction false} FewBelow(n: nat, m: set<nat>)
    requires forall i | i in m :: i < n
    ensures |m| <= n
  {
    if n == 0 {
      assert m == {};
    } else {
      FewBelow(n - 1, m - {n - 1});
    }
  }

  /** After a destroy every accepted task has run to its end or was discarded, never both. */
  lemma AfterDestroy(s: State)
    requires Inv(s) && s.destroyed
    ensures s.log == s.started + s.walked
    ensures forall ix: nat :: ix in s.done <==> ix < |s.started|
    ensures s.cleaned == WithCleanup(s.walked)
    ensures forall ix: nat, w: nat :: !RunningOn(s, ix, w)
  {
    CountZero(s.workers, Busy);
    forall w | 0 <= w < |s.workers| ensures !Busy(s.workers[w]) {
      assert s.workers[w].Exited?;
    }
    AllBelow(|s.started|, s.done);
  }

  // ---- quiescence -----------------------------------------------------------------------------

  /**
   `threadpool_wait` answers 1 exactly when the pool is shutting down or refuses, and else 0 exactly
   when nothing is queued, running or being submitted; then every task accepted so far is done and
   no submission is in progress. Otherwise it sleeps.
   */
  lemma WaitMeansQuiescent(s: State, a: Action)
    requires Inv(s) && Enabled(s, a)
    requires a.CallWait? || a.ClientResumes?
    ensures var answer := if a.CallWait? then Wait(s, a.c).1 else WaitResume(s, a.c).1;
      var refused := s.shutdown || (a.CallWait? && s.apiUsers == UINT_MAX);
      var quiet := s.queue == [] && s.nWorking == 0 && s.pendingSubmissions == 0;
      && (answer == Return(1) <==> refused)
      && (answer == Return(0) <==> !refused && quiet)
      && (answer == Blocked <==> !refused && !quiet)
      && (answer == Return(0) ==>
            && (forall ix | 0 <= ix < |s.log| :: ix in s.done)
            && (forall c | 0 <= c < |s.callers| :: !Submitting(s.callers[c])))
  {
    if !s.shutdown && s.Idle() {
      AllBelow(|s.started|, s.done);
      CountZero(s.callers, Submitting);
    }
  }

  // ---- statistics -------------------------------------------------------------------------------

  /** The statistics agree with each other whenever the lock is free. */
  lemma CountersConserve(s: State)
    requires Inv(s)
    ensures |s.log| <= UINT64_MAX ==> s.accepted == s.completed + s.discarded + s.nWorking + |s.queue|
    ensures s.accepted <= UINT64_MAX && s.completed <= s.accepted && s.discarded <= s.accepted
    ensures s.apiUsers == s.pendingSubmissions + s.waitingClients
    ensures s.pendingSubmissions == s.waitingSubmitters
    ensures |s.queue| <= s.peak <= s.capacity
    ensures s.waitingWorkers + s.nWorking <= |s.workers|
    ensures 0 <= s.waitingBatches <= s.waitingSubmitters
    ensures s.apiUsers >= 0 && s.waitingClients >= 0 && s.waitingWorkers >= 0 && s.nWorking >= 0
  {
    CountLe(s.callers, SubmittingBatch, Submitting);
    CountSplit(s.workers, NotifySleeps, Notified, Idles);
    CountDisjoint(s.workers, Idles, Busy);
  }

  lemma SubmitBoundsUsers(s: State, a: Action)
    requires Enabled(s, a) && s.apiUsers <= UINT_MAX
    requires a.CallSubmit? || a.TaskSubmits? || a.SubmitterResumes?
    ensures Apply(s, a).apiUsers <= UINT_MAX
  {
    hide NotifyWorkers, Saturate, SubmitLeave;
  }

  lemma WorkersLeaveUsers(s: State, a: Action)
    requires Enabled(s, a)
    requires a.WorkerEnters? || a.WorkerResumes? || a.WorkerFinishes? || a.CallbackReturns? || a.CleanupReturns? || a.SpuriousWorker?
    ensures Apply(s, a).apiUsers == s.apiUsers
  {
    hide NotFullWakes, Saturate, SignalIdle;
  }

  /** A call is admitted only below the largest count, so the count never passes it. */
  lemma StepBoundsUsers(s: State, a: Action)
    requires Enabled(s, a) && s.apiUsers <= UINT_MAX
    ensures Apply(s, a).apiUsers <= UINT_MAX
  {
    if a.CallSubmit? || a.TaskSubmits? || a.SubmitterResumes? {
      SubmitBoundsUsers(s, a);
    } else if a.WorkerEnters? || a.WorkerResumes? || a.WorkerFinishes? || a.CallbackReturns? || a.CleanupReturns? || a.SpuriousWorker? {
      WorkersLeaveUsers(s, a);
    } else {
      hide Submit, SubmitResume, WorkerLoop, Finish, Leave, Broadcast;
    }
  }

  lemma {:induction false} RunBoundsUsers(s: State, run: seq<Action>)
    requires Runs(s, run) && s.apiUsers <= UINT_MAX
    ensures After(s, run).apiUsers <= UINT_MAX
    decreases |run|
  {
    hide Apply, Enabled;
    if run != [] {
      RunBoundsUsers(s, run[..|run| - 1]);
      StepBoundsUsers(After(s, run[..|run| - 1]), run[|run| - 1]);
    }
  }

  /** No counter of the struct ever leaves its type, so unbounded integers stand for them. */
  lemma NoCounterWraps(s: State)
    requires Reachable(s)
    ensures 0 <= s.apiUsers <= 0xffff_ffff && 0 <= s.references <= 0xffff_ffff
    ensures 0 <= s.waitingBatches <= s.waitingSubmitters == s.pendingSubmissions <= s.apiUsers
    ensures 0 <= s.waitingClients <= s.apiUsers
    ensures 0 <= s.waitingWorkers <= |s.workers| && 0 <= s.nWorking <= |s.workers|
    ensures s.accepted <= 0xffff_ffff_ffff_ffff && s.completed <= 0xffff_ffff_ffff_ffff && s.discarded <= 0xffff_ffff_ffff_ffff
  {
    var n: nat, capacity: nat, k: nat, run: seq<Action> :|
      n > 0 && capacity > 0 && Runs(Create(n, capacity, k), run) && s == After(Create(n, capacity, k), run);
    RunBoundsUsers(Create(n, capacity, k), run);
    ReachableInv(s);
    CountersConserve(s);
  }

  predicate Idles(w: WorkerPc) { NotifySleeps(w) || Notified(w) }

  lemma {:induction false} CountDisjoint<T>(s: seq<T>, p: T -> bool, q: T -> bool)
    requires forall i | 0 <= i < |s| :: !(p(s[i]) && q(s[i]))
    ensures Count(s, p) + Count(s, q) <= |s|
  {
    if s != [] {
      var t := s[..|s| - 1];
      assert forall i | 0 <= i < |t| :: t[i] == s[i];
      CountDisjoint(t, p, q);
    }
  }

  // ---- the walk outside the lock ------------------------------------------------------------------

  /**
   While the destroyer walks the discarded tasks outside the lock no other step enqueues or
   dequeues anything, so none touches a slot, and what is left to walk stays as it is.
   */
  lemma WalkIsUndisturbed(s: State, a: Action)
    requires Inv(s) && s.doomed != [] && Enabled(s, a) && !a.DestroyerWalks?
    ensures var t := Apply(s, a);
      t.doomed == s.doomed && t.walked == s.walked && t.queue == s.queue == [] && t.log == s.log && t.started == s.started
  {
    if a.CallSubmit? || a.TaskSubmits? || a.SubmitterResumes? {
      SubmitWhenShut(s, a);
    } else {
      hide SubmitBody, SignalIdle, Leave;
    }
  }

  lemma SubmitWhenShut(s: State, a: Action)
    requires s.shutdown && Enabled(s, a) && (a.CallSubmit? || a.TaskSubmits? || a.SubmitterResumes?)
    ensures var t := Apply(s, a);
      t.doomed == s.doomed && t.walked == s.walked && t.queue == s.queue && t.log == s.log && t.started == s.started
  {
    hide SignalIdle, Leave, NotifyWorkers, Saturate;
  }

  // ---- the end of the pool's life -----------------------------------------------------------------

  /**
   The queue and the thread table are released by the destroyer only when no worker is left,
   no call is in progress and no discarded task is still to be walked.
   */
  lemma DisposedWhenUnreachable(s: State, a: Action)
    requires Inv(s) && Enabled(s, a) && a.DestroyerDisposes?
    ensures s.shutdown && !s.destroyed && s.apiUsers == 0 && s.queue == [] && s.doomed == []
    ensures AllExited(s.workers, |s.workers|)
    ensures forall c | 0 <= c < |s.callers| && c != a.c :: s.callers[c].Outside?
  {
    CountZero(s.callers, Destroying);
    CountZero(s.callers, Submitting);
    CountZero(s.callers, Waiting);
    CountZero(s.callers, Releases);
    assert s.workers[0].Exited?;
    forall c | 0 <= c < |s.callers| && c != a.c ensures s.callers[c].Outside? {
      assert !Submitting(s.callers[c]) && !Waiting(s.callers[c]) && !Releases(s.callers[c]);
      if Destroying(s.callers[c]) {
        CountTwo(s.callers, if c < a.c then c else a.c, if c < a.c then a.c else c, Destroying);
      }
    }
  }

  /** The pool is freed only by dropping its last reference, and only once nothing is left in it. */
  lemma FreedByLastOwner(s: State, a: Action)
    requires Inv(s) && Enabled(s, a) && Apply(s, a).freed
    ensures a.DestroyerReleases? || a.CallRelease?
    ensures s.destroyed && s.references == 1 && AtRest(Apply(s, a))
  {
    StepKeeps(s, a);
    FreedIsOver(Apply(s, a));
    FreedOnlyByRelease(s, a);
  }

  lemma FreedOnlyByRelease(s: State, a: Action)
    requires Enabled(s, a) && Ownership(s.references, s.held, s.owned, s.freed, s.destroyed)
    ensures Apply(s, a).freed ==> (a.DestroyerReleases? || a.CallRelease?) && s.references == 1
    ensures Apply(s, a).freed && Apply(s, a).destroyed ==> s.destroyed
  {
    if a.CallSubmit? || a.TaskSubmits? || a.SubmitterResumes? {
      hide Apply;
      SubmitStepExtends(s, a);
    } else {
      hide SubmitBody, SignalIdle, Leave;
    }
  }
}
