/** What each accepted task goes through over a whole run: its callback once, then its cleanup once. */
module PoolTasks {
  import opened Counting
  import opened Wrappers
  import opened PoolSpec
  import opened PoolInvariant
  import opened PoolTheorems
  import opened PoolHistory

  // ---- how far a task has come ---------------------------------------------------------------------

  function StageOf(w: WorkerPc): nat {
    match w
    case InFunc(_, _) => 1
    case InCleanup(_, _) => 2
    case Finishing(_, _) => 3
    case _ => 0
  }

  /** The ix-th task is not dequeued yet, in its callback, in its cleanup, past both, or done. */
  ghost function Stage(s: State, ix: nat): nat {
    if ix >= |s.started| || ix >= |s.runner| then 0
    else if ix in s.done then 4
    else if s.runner[ix] < |s.workers| then StageOf(s.workers[s.runner[ix]])
    else 0
  }

  /** A task moves by one stage, and leaves out the cleanup exactly if it has none. */
  ghost predicate Advances(stage: nat, after: nat, cleanup: bool) {
    || after == stage
    || (stage == 0 && after == 1)
    || (stage == 1 && after == if cleanup then 2 else 3)
    || (stage == 2 && after == 3)
    || (stage == 3 && after == 4)
  }

  ghost predicate HasCleanup(s: State, ix: nat) {
    ix < |s.started| && s.started[ix].cleanup != 0
  }

  lemma CallKeepsStage(s: State, a: Action, ix: nat)
    requires RunOnce(s.workers, s.started, s.runner, s.done) && Enabled(s, a)
    requires !(a.WorkerEnters? || a.WorkerResumes? || a.WorkerFinishes? || a.CallbackReturns? || a.CleanupReturns? || a.SpuriousWorker?)
    ensures Stage(Apply(s, a), ix) == Stage(s, ix) && Apply(s, a).started == s.started
  {
    CallKeepsRuns(s, a);
    hide Apply, Enabled;
    if 0 < Stage(s, ix) < 4 {
      CallsOnlyWake(s, a, s.runner[ix]);
    }
  }

  lemma CallKeepsRuns(s: State, a: Action)
    requires Enabled(s, a)
    requires !(a.WorkerEnters? || a.WorkerResumes? || a.WorkerFinishes? || a.CallbackReturns? || a.CleanupReturns? || a.SpuriousWorker?)
    ensures Apply(s, a).started == s.started && Apply(s, a).runner == s.runner && Apply(s, a).done == s.done
  {
    hide SubmitBody;
    if a.CallSubmit? {
      SubmitAppends(Counted(s), Some(a.c), a.batch, a.block, a.picks);
    } else if a.TaskSubmits? {
      SubmitAppends(Counted(s), None, a.batch, a.block, a.picks);
    } else if a.SubmitterResumes? {
      SubmitAppends(Unparked(s, a.c), Some(a.c), s.callers[a.c].batch, true, a.picks);
    } else {
      hide Leave, SubmitBody, SignalIdle, WorkerLoop, Finish, Submit, SubmitResume;
    }
  }

  lemma LoopMovesStage(s: State, w: nat, pick: nat, ix: nat)
    requires w < |s.workers| && !Busy(s.workers[w]) && RunOnce(s.workers, s.started, s.runner, s.done)
    ensures var t := WorkerLoop(s, w, pick);
      Stage(t, ix) == Stage(s, ix) || (Stage(s, ix) == 0 && Stage(t, ix) == 1)
  {
    hide NotFullWakes;
  }

  lemma FinishMovesStage(s: State, w: nat, ix: nat)
    requires w < |s.workers| && s.workers[w].Finishing? && RunOnce(s.workers, s.started, s.runner, s.done)
    ensures var t := Finish(s, w);
      && t.started == s.started && t.workers == s.workers[w := AtLoop]
      && RunOnce(t.workers, t.started, t.runner, t.done)
      && Stage(t, ix) == if ix == s.workers[w].ix then 4 else Stage(s, ix)
    ensures Stage(s, s.workers[w].ix) == 3
  {
    hide SignalIdle;
  }

  lemma WorkerAdvances(s: State, a: Action, ix: nat)
    requires RunOnce(s.workers, s.started, s.runner, s.done) && Enabled(s, a)
    requires a.WorkerEnters? || a.WorkerResumes? || a.WorkerFinishes? || a.CallbackReturns? || a.CleanupReturns? || a.SpuriousWorker?
    ensures Advances(Stage(s, ix), Stage(Apply(s, a), ix), HasCleanup(s, ix))
  {
    hide WorkerLoop, Finish;
    match a
    case WorkerEnters(w, pick) => LoopMovesStage(s, w, pick, ix);
    case WorkerResumes(w, pick) => LoopMovesStage(WorkerWake(s, w), w, pick, ix);
    case WorkerFinishes(w, pick) =>
      FinishMovesStage(s, w, ix);
      LoopMovesStage(Finish(s, w), w, pick, ix);
    case CallbackReturns(_) =>
    case CleanupReturns(_) =>
    case SpuriousWorker(_) =>
  }

  /** Every step, whoever takes it, keeps the stage of each task or advances it by one. */
  lemma StepAdvances(s: State, a: Action, ix: nat)
    requires RunOnce(s.workers, s.started, s.runner, s.done) && Enabled(s, a)
    ensures Advances(Stage(s, ix), Stage(Apply(s, a), ix), HasCleanup(s, ix))
  {
    hide RunOnce, Stage, Apply, Enabled;
    if a.WorkerEnters? || a.WorkerResumes? || a.WorkerFinishes? || a.CallbackReturns? || a.CleanupReturns? || a.SpuriousWorker? {
      WorkerAdvances(s, a, ix);
    } else {
      CallKeepsStage(s, a, ix);
    }
  }

  // ---- entering a callback and entering a cleanup --------------------------------------------------

  /** Step `a` enters the cleanup of the ix-th dequeued task. */
  ghost predicate EntersCleanup(s: State, a: Action, ix: nat)
    requires Enabled(s, a)
  {
    exists w :: 0 <= w < |s.workers| && w < |Apply(s, a).workers|
      && !s.workers[w].InCleanup? && Apply(s, a).workers[w].InCleanup? && Apply(s, a).workers[w].ix == ix
  }

  /** Two states a step apart, as far as the history of tasks goes. */
  ghost predicate Follows(s: State, t: State) {
    && RunOnce(s.workers, s.started, s.runner, s.done) && RunOnce(t.workers, t.started, t.runner, t.done)
    && s.started <= t.started && s.runner <= t.runner
    && |s.workers| == |t.workers|
    && forall ix: nat :: Advances(Stage(s, ix), Stage(t, ix), HasCleanup(s, ix))
  }

  lemma StepFollows(s: State, a: Action)
    requires Inv(s) && Enabled(s, a)
    ensures Follows(s, Apply(s, a))
  {
    StepKeeps(s, a);
    StepExtends(s, a);
    SameWorkers(s, a);
    hide Apply, Enabled, Advances, RunOnce, Stage, HasCleanup, CallersInv, TasksInv, SleepersInv;
    forall ix: nat ensures Advances(Stage(s, ix), Stage(Apply(s, a), ix), HasCleanup(s, ix)) {
      StepAdvances(s, a, ix);
    }
  }

  lemma SameWorkers(s: State, a: Action)
    requires Inv(s) && Enabled(s, a)
    ensures |Apply(s, a).workers| == |s.workers|
  {
    hide Inv;
    if a.WorkerEnters? || a.WorkerResumes? || a.WorkerFinishes? || a.CallbackReturns? || a.CleanupReturns? || a.SpuriousWorker? {
      hide NotFullWakes, SignalIdle;
    } else {
      assert |s.workers| > 0 by { StillWorkers(s); }
      hide Apply, Enabled;
      CallsOnlyWake(s, a, 0);
    }
  }

  lemma StillWorkers(s: State)
    requires Inv(s)
    ensures |s.workers| > 0
  {}

  lemma Followed(s: State, t: State, ix: nat)
    requires Follows(s, t)
    ensures Advances(Stage(s, ix), Stage(t, ix), HasCleanup(s, ix))
    ensures Stage(s, ix) == 0 ==> !HasCleanup(s, ix)
    ensures Stage(s, ix) > 0 ==> HasCleanup(t, ix) == HasCleanup(s, ix)
  {
    assert Advances(Stage(s, ix), Stage(t, ix), HasCleanup(s, ix));
  }

  lemma EnteredStage(s: State, t: State, w: nat)
    requires Follows(s, t) && w < |t.workers|
    ensures t.workers[w].InFunc? && !s.workers[w].InFunc? ==>
      Stage(s, t.workers[w].ix) == 0 && Stage(t, t.workers[w].ix) == 1
    ensures t.workers[w].InCleanup? && !s.workers[w].InCleanup? ==>
      Stage(s, t.workers[w].ix) == 1 && Stage(t, t.workers[w].ix) == 2
  {}

  lemma StageEntered(s: State, t: State, ix: nat)
    requires Follows(s, t)
    ensures Stage(s, ix) == 0 && Stage(t, ix) == 1 ==>
      && ix < |t.runner| && ix < |t.started| && t.runner[ix] < |t.workers| == |s.workers|
      && !s.workers[t.runner[ix]].InFunc? && t.workers[t.runner[ix]] == InFunc(ix, t.started[ix])
    ensures Stage(s, ix) == 1 && Stage(t, ix) == 2 ==>
      && ix < |t.runner| && ix < |s.started| && t.runner[ix] < |t.workers| == |s.workers|
      && s.workers[t.runner[ix]] == InFunc(ix, s.started[ix]) && t.workers[t.runner[ix]] == InCleanup(ix, s.started[ix])
  {
    forall w | 0 <= w < |s.workers| && s.workers[w].InFunc?
      ensures Stage(s, s.workers[w].ix) == 1 && 1 <= Stage(t, s.workers[w].ix) <= 3
    {
      assert Advances(Stage(s, s.workers[w].ix), Stage(t, s.workers[w].ix), HasCleanup(s, s.workers[w].ix));
    }
  }

  /** A callback is entered exactly when its task is dequeued. */
  lemma EntersIffDequeued(s: State, a: Action, ix: nat)
    requires Inv(s) && Enabled(s, a)
    ensures Enters(s, a, ix) <==> Stage(s, ix) == 0 && Stage(Apply(s, a), ix) == 1
  {
    hide Apply, Enabled, Inv, Stage, Follows;
    var t := Apply(s, a);
    StepFollows(s, a);
    StageEntered(s, t, ix);
    if Enters(s, a, ix) {
      var w :| 0 <= w < |s.workers| && w < |t.workers| && !s.workers[w].InFunc? && t.workers[w].InFunc? && t.workers[w].ix == ix;
      EnteredStage(s, t, w);
    }
  }

  /**
   A cleanup is entered exactly when its task advances past its callback: the callback of the same
   task has just returned on the same worker, and the cleanup is not null.
   */
  lemma CleanupAfterCallback(s: State, a: Action, ix: nat)
    requires Inv(s) && Enabled(s, a)
    ensures EntersCleanup(s, a, ix) <==> Stage(s, ix) == 1 && Stage(Apply(s, a), ix) == 2
    ensures EntersCleanup(s, a, ix) ==>
      && a.CallbackReturns? && HasCleanup(s, ix)
      && s.workers[a.w] == InFunc(ix, s.started[ix]) && Apply(s, a).workers[a.w] == InCleanup(ix, s.started[ix])
  {
    hide Apply, Enabled, Inv, Stage, Follows;
    var t := Apply(s, a);
    StepFollows(s, a);
    StageEntered(s, t, ix);
    Followed(s, t, ix);
    if Stage(s, ix) == 1 && Stage(t, ix) == 2 { OnlyReturns(s, a, t.runner[ix]); }
    if EntersCleanup(s, a, ix) {
      var w :| 0 <= w < |s.workers| && w < |t.workers| && !s.workers[w].InCleanup? && t.workers[w].InCleanup? && t.workers[w].ix == ix;
      EnteredStage(s, t, w);
    }
  }

  lemma OnlyReturns(s: State, a: Action, w: nat)
    requires Enabled(s, a) && w < |s.workers| && w < |Apply(s, a).workers|
    requires s.workers[w].InFunc? && Apply(s, a).workers[w].InCleanup?
    ensures a.CallbackReturns? && a.w == w
  {
    if !(a.WorkerEnters? || a.WorkerResumes? || a.WorkerFinishes? || a.CallbackReturns? || a.CleanupReturns? || a.SpuriousWorker?) {
      CallsOnlyWake(s, a, w);
    }
  }

  // ---- over a run ----------------------------------------------------------------------------------

  /** How often a run enters the callback of the ix-th dequeued task. */
  ghost function CallbacksEntered(s: State, run: seq<Action>, ix: nat): nat
    requires Runs(s, run)
    decreases |run|
  {
    if run == [] then 0
    else CallbacksEntered(s, run[..|run| - 1], ix) + Bit(Enters(After(s, run[..|run| - 1]), run[|run| - 1], ix))
  }

  /** How often a run enters its cleanup. */
  ghost function CleanupsEntered(s: State, run: seq<Action>, ix: nat): nat
    requires Runs(s, run)
    decreases |run|
  {
    if run == [] then 0
    else CleanupsEntered(s, run[..|run| - 1], ix) + Bit(EntersCleanup(After(s, run[..|run| - 1]), run[|run| - 1], ix))
  }

  /**
   Over a whole run the callback of a task is entered once if the task is dequeued, and never
   otherwise; its cleanup is entered once if the callback has returned and the cleanup is not null,
   and never otherwise.
   */
  lemma {:induction false} EachEnteredOnce(s: State, run: seq<Action>, ix: nat)
    requires Inv(s) && Runs(s, run) && ix >= |s.started|
    ensures CallbacksEntered(s, run, ix) == Bit(Stage(After(s, run), ix) >= 1)
    ensures CleanupsEntered(s, run, ix) == Bit(Stage(After(s, run), ix) >= 2 && HasCleanup(After(s, run), ix))
    decreases |run|
  {
    if run != [] {
      var before, a := run[..|run| - 1], run[|run| - 1];
      EachEnteredOnce(s, before, ix);
      RunKeeps(s, before);
      OneStepMore(After(s, before), a, ix);
    }
  }

  lemma OneStepMore(s: State, a: Action, ix: nat)
    requires Inv(s) && Enabled(s, a)
    ensures Bit(Stage(Apply(s, a), ix) >= 1) == Bit(Stage(s, ix) >= 1) + Bit(Enters(s, a, ix))
    ensures Bit(Stage(Apply(s, a), ix) >= 2 && HasCleanup(Apply(s, a), ix))
      == Bit(Stage(s, ix) >= 2 && HasCleanup(s, ix)) + Bit(EntersCleanup(s, a, ix))
  {
    hide Enters, EntersCleanup, Inv, Apply, Enabled, Follows, Stage, HasCleanup;
    StepFollows(s, a);
    Followed(s, Apply(s, a), ix);
    EntersIffDequeued(s, a, ix);
    CleanupAfterCallback(s, a, ix);
  }

  /** A step of a run that enters a cleanup comes after the one that entered the callback. */
  lemma CallbackBeforeCleanup(s: State, run: seq<Action>, i: nat, ix: nat)
    requires Inv(s) && Runs(s, run) && ix >= |s.started| && i < |run|
    requires Runs(s, run[..i]) && Enabled(After(s, run[..i]), run[i]) && EntersCleanup(After(s, run[..i]), run[i], ix)
    ensures run[i].CallbackReturns? && CallbacksEntered(s, run[..i], ix) == 1 && CleanupsEntered(s, run[..i], ix) == 0
  {
    hide Inv, Apply, Enabled, Stage, EntersCleanup;
    RunKeeps(s, run[..i]);
    CleanupAfterCallback(After(s, run[..i]), run[i], ix);
    EachEnteredOnce(s, run[..i], ix);
  }

  /**
   A task that is done, as every dequeued task is after a destroy, has been through its callback
   exactly once, and through its cleanup exactly once unless that is null.
   */
  lemma DoneEnteredOnce(s: State, run: seq<Action>, ix: nat)
    requires Inv(s) && Runs(s, run) && |s.started| <= ix < |After(s, run).started|
    requires ix in After(s, run).done || After(s, run).destroyed
    ensures CallbacksEntered(s, run, ix) == 1
    ensures CleanupsEntered(s, run, ix) == Bit(After(s, run).started[ix].cleanup != 0)
  {
    var t := After(s, run);
    EachEnteredOnce(s, run, ix);
    RunKeeps(s, run);
    if t.destroyed { AfterDestroy(t); }
    assert RunOnce(t.workers, t.started, t.runner, t.done);
  }
}
