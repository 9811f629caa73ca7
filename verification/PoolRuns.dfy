/** Whole runs of the thread pool in memory: every schedule of the specification, step by step. */
module PoolRuns {
  import opened ConditionVariable
  import opened PoolSpec
  import opened PoolInvariant
  import opened PoolTheorems
  import opened PoolHistory
  import opened ThreadPool
  import opened Wrappers

  // ---- what the submitting threads carry on their stacks ------------------------------------------

  /** `us` is `cs` with some sleepers woken. */
  ghost predicate Roused(cs: seq<CallerPc>, us: seq<CallerPc>) {
    |us| == |cs| && forall d | 0 <= d < |cs| :: us[d] == cs[d] || us[d] == WakeCaller(cs[d])
  }

  /** Each submission in progress is of the batch that its thread holds. */
  ghost predicate Carries(cs: seq<CallerPc>, stacks: seq<seq<Task>>) {
    |stacks| == |cs| && forall d | 0 <= d < |cs| && Submitting(cs[d]) :: cs[d].batch == stacks[d]
  }

  lemma RousedCarries(cs: seq<CallerPc>, us: seq<CallerPc>, stacks: seq<seq<Task>>)
    requires Roused(cs, us) && Carries(cs, stacks)
    ensures Carries(us, stacks)
  {
  }

  lemma LeaveRouses(s: State)
    ensures Roused(s.callers, Leave(s).callers) && Roused(s.callers, SignalIdle(s).callers)
  {
  }

  lemma SubmitLeaveRouses(s: State)
    ensures Roused(s.callers, SubmitLeave(s).callers)
  {
    hide Leave, SignalIdle;
    var u := s.(pendingSubmissions := s.pendingSubmissions - 1);
    LeaveRouses(u);
    LeaveRouses(SignalIdle(u));
  }

  lemma NotFullRouses(cs: seq<CallerPc>, submitters: int, batches: int, pick: nat)
    ensures Roused(cs, NotFullWakes(cs, submitters, batches, pick))
  {
  }

  lemma SubmitBodyCarries(s: State, who: Option<nat>, batch: seq<Task>, block: bool, picks: seq<nat>, stacks: seq<seq<Task>>)
    requires who.Some? ==> who.value < |s.callers| && who.value < |stacks| && stacks[who.value] == batch
    requires Carries(s.callers, stacks)
    ensures Carries(SubmitBody(s, who, batch, block, picks).0.callers, stacks)
  {
    hide SubmitLeave, NotifyWorkers, Roused;
    SubmitLeaveRouses(s);
    SubmitLeaveRouses(Enqueue(s, batch, picks));
    RousedCarries(s.callers, SubmitLeave(s).callers, stacks);
    RousedCarries(s.callers, SubmitLeave(Enqueue(s, batch, picks)).callers, stacks);
  }

  /** What the threads hold after a step. */
  function Held(stacks: seq<seq<Task>>, a: Action): seq<seq<Task>> {
    if a.CallSubmit? && a.c < |stacks| then stacks[a.c := a.batch] else stacks
  }

  lemma SubmitStepCarries(s: State, a: Action, stacks: seq<seq<Task>>)
    requires Enabled(s, a) && BySubmitter(a) && Carries(s.callers, stacks)
    ensures Carries(Apply(s, a).callers, Held(stacks, a))
  {
    hide SubmitBody;
    match a
    case CallSubmit(c, batch, block, picks) => SubmitBodyCarries(Counted(s), Some(c), batch, block, picks, Held(stacks, a));
    case TaskSubmits(w, batch, block, picks) => SubmitBodyCarries(Counted(s), None, batch, block, picks, stacks);
    case SubmitterResumes(c, picks) => SubmitBodyCarries(Unparked(s, c), Some(c), s.callers[c].batch, true, picks, stacks);
  }

  lemma WorkerStepCarries(s: State, a: Action, stacks: seq<seq<Task>>)
    requires Enabled(s, a) && ByWorker(a) && Carries(s.callers, stacks)
    ensures Carries(Apply(s, a).callers, stacks)
  {
    hide NotFullWakes, SignalIdle, Roused;
    NotFullRouses(s.callers, s.waitingSubmitters, s.waitingBatches, a.pick);
    if a.WorkerFinishes? {
      var t := Finished(s, a.w);
      LeaveRouses(t);
      RousedCarries(s.callers, SignalIdle(t).callers, stacks);
      var u := SignalIdle(t);
      NotFullRouses(u.callers, u.waitingSubmitters, u.waitingBatches, a.pick);
      RousedCarries(u.callers, NotFullWakes(u.callers, u.waitingSubmitters, u.waitingBatches, a.pick), stacks);
    } else {
      RousedCarries(s.callers, NotFullWakes(s.callers, s.waitingSubmitters, s.waitingBatches, a.pick), stacks);
    }
  }

  lemma ClientStepCarries(s: State, a: Action, stacks: seq<seq<Task>>)
    requires Enabled(s, a) && ByClient(a) && Carries(s.callers, stacks)
    ensures Carries(Apply(s, a).callers, stacks)
  {
    hide Leave, Roused;
    if a.CallWait? || a.ClientResumes? {
      var u := Unregistered(if a.CallWait? then Registered(s, a.c) else s, a.c);
      LeaveRouses(u);
      RousedCarries(u.callers, Leave(u).callers, stacks);
    }
  }

  lemma DestroyCarries(s: State, c: nat, safe: bool, stacks: seq<seq<Task>>)
    requires c < |s.callers| && Carries(s.callers, stacks)
    ensures Carries(Destroy(s, c, safe).0.callers, stacks)
  {
    hide Saturate;
    var us := Broadcast(s.callers, CallSleeps, WakeCaller);
    assert Roused(s.callers, us);
    RousedCarries(s.callers, us, stacks);
  }

  lemma OtherStepCarries(s: State, a: Action, stacks: seq<seq<Task>>)
    requires Enabled(s, a) && Carries(s.callers, stacks)
    requires !BySubmitter(a) && !ByWorker(a) && !ByClient(a)
    ensures Carries(Apply(s, a).callers, stacks)
  {
    if a.CallDestroy? {
      hide Destroy;
      DestroyCarries(s, a.c, a.safe, stacks);
    } else {
      hide Saturate, Broadcast;
    }
  }

  lemma StepCarries(s: State, a: Action, stacks: seq<seq<Task>>)
    requires Enabled(s, a) && Carries(s.callers, stacks)
    ensures Carries(Apply(s, a).callers, Held(stacks, a))
  {
    hide Apply, Enabled, Carries;
    if BySubmitter(a) {
      SubmitStepCarries(s, a, stacks);
    } else if ByWorker(a) {
      WorkerStepCarries(s, a, stacks);
    } else if ByClient(a) {
      ClientStepCarries(s, a, stacks);
    } else {
      OtherStepCarries(s, a, stacks);
    }
  }

  // ---- one step of a pool in memory ---------------------------------------------------------------

  predicate ByWorker(a: Action) {
    a.WorkerEnters? || a.WorkerResumes? || a.WorkerFinishes?
  }

  predicate BySubmitter(a: Action) {
    a.CallSubmit? || a.TaskSubmits? || a.SubmitterResumes?
  }

  predicate ByClient(a: Action) {
    a.CallWait? || a.ClientResumes? || a.CallRetain? || a.CallRelease?
  }

  method WorkerStep(pool: ThreadPool, a: Action)
    requires pool.Valid() && Enabled(pool.model, a) && ByWorker(a)
    modifies pool
    ensures pool.Valid() && pool.model == Apply(old(pool.model), a) && pool.queue == old(pool.queue)
  {
    hide ThreadPool.Valid, WorkerLoop, Finish, WorkerWake;
    match a
    case WorkerEnters(w, pick) => pool.WorkerLoop(w, pick);
    case WorkerResumes(w, pick) => pool.WorkerResumes(w, pick);
    case WorkerFinishes(w, pick) => pool.WorkerFinishes(w, pick);
  }

  method SubmitterStep(pool: ThreadPool, a: Action, stacks: seq<seq<Task>>)
    requires pool.Valid() && Enabled(pool.model, a) && BySubmitter(a) && Carries(pool.model.callers, stacks)
    modifies pool, pool.queue
    ensures pool.Valid() && pool.model == Apply(old(pool.model), a) && pool.queue == old(pool.queue)
  {
    hide ThreadPool.Valid, Submit, SubmitResume;
    match a
    case CallSubmit(c, batch, block, picks) => var answer := pool.AddBatch(c, false, batch, block, picks);
    case TaskSubmits(w, batch, block, picks) => var answer := pool.AddBatch(0, true, batch, block, picks);
    case SubmitterResumes(c, picks) => var answer := pool.AddBatchResumes(c, stacks[c], picks);
  }

  method ClientStep(pool: ThreadPool, a: Action)
    requires pool.Valid() && Enabled(pool.model, a) && ByClient(a)
    modifies pool
    ensures pool.Valid() && pool.model == Apply(old(pool.model), a) && pool.queue == old(pool.queue)
  {
    hide ThreadPool.Valid, Wait, WaitResume;
    match a
    case CallWait(c) => var answer := pool.WaitIdle(c);
    case ClientResumes(c) => var answer := pool.WaitResumes(c);
    case CallRetain => var answer := pool.Retain();
    case CallRelease => var answer := pool.Release(None);
  }

  method CloseStep(pool: ThreadPool, a: Action)
    requires pool.Valid() && Enabled(pool.model, a)
    requires a.CallDestroy? || a.DestroyerWalks? || a.DestroyerChecks?
    modifies pool
    ensures pool.Valid() && pool.model == Apply(old(pool.model), a) && pool.queue == old(pool.queue)
  {
    pool.Looked();
    hide ThreadPool.Valid, Destroy, Walk, Check;
    match a
    case CallDestroy(c, safe) => var answer, discarded := pool.Destroy(c, safe);
    case DestroyerWalks(c) => var task := pool.WalkOne();
    case DestroyerChecks(c) => var answer := pool.CheckCalls(c);
  }

  method LastStep(pool: ThreadPool, a: Action)
    requires pool.Valid() && Inv(pool.model) && Enabled(pool.model, a)
    requires a.DestroyerDisposes? || a.DestroyerReleases?
    modifies pool
    ensures pool.Valid() && pool.model == Apply(old(pool.model), a)
    ensures pool.queue == old(pool.queue) || pool.queue == null
  {
    hide ThreadPool.Valid, Inv, Dispose, DropReference, Disowned;
    match a
    case DestroyerDisposes(c) => pool.DisposeArrays(c);
    case DestroyerReleases(c) => var answer := pool.Release(Some(c));
  }

  /** One step of any kind, with the batches that the submitting threads hold. */
  method Step(pool: ThreadPool, a: Action, stacks: seq<seq<Task>>)
    requires pool.Valid() && Inv(pool.model) && Enabled(pool.model, a) && Carries(pool.model.callers, stacks)
    modifies pool, pool.queue
    ensures pool.Valid() && pool.model == Apply(old(pool.model), a)
    ensures pool.queue == old(pool.queue) || pool.queue == null
  {
    hide ThreadPool.Valid, Inv, Apply, Enabled, Carries;
    if ByWorker(a) {
      WorkerStep(pool, a);
    } else if BySubmitter(a) {
      SubmitterStep(pool, a, stacks);
    } else if ByClient(a) {
      ClientStep(pool, a);
    } else if a.CallDestroy? || a.DestroyerWalks? || a.DestroyerChecks? {
      CloseStep(pool, a);
    } else if a.DestroyerDisposes? || a.DestroyerReleases? {
      LastStep(pool, a);
    } else {
      pool.Unseen(a);
    }
  }

  // ---- whole runs ---------------------------------------------------------------------------------

  lemma OneMore(s: State, run: seq<Action>, i: nat)
    requires i < |run| && Runs(s, run[..i + 1])
    ensures Runs(s, run[..i]) && Enabled(After(s, run[..i]), run[i])
    ensures After(s, run[..i + 1]) == Apply(After(s, run[..i]), run[i])
  {
    hide Enabled, Apply;
    assert run[..i + 1][..i] == run[..i];
  }

  /**
   A new pool in memory can take every schedule of the specification, and is then in the state
   that the specification says: so what is proved of every run holds of the pool in memory.
   */
  method RunAll(nWorkers: nat, capacity: nat, nCallers: nat, run: seq<Action>) returns (pool: ThreadPool)
    requires nWorkers > 0 && capacity > 0
    requires Runs(Create(nWorkers, capacity, nCallers), run)
    ensures pool.Valid() && pool.model == After(Create(nWorkers, capacity, nCallers), run)
    ensures Inv(pool.model)
  {
    hide ThreadPool.Valid, Inv, Apply, Enabled, Carries, Create;
    ghost var s := Create(nWorkers, capacity, nCallers);
    pool := new ThreadPool(nWorkers, capacity, nCallers);
    var stacks: seq<seq<Task>> := seq(nCallers, _ => []);
    Started(nWorkers, capacity, nCallers, stacks);
    assert run[..0] == [];
    for i := 0 to |run|
      invariant fresh(pool) && (pool.queue == null || fresh(pool.queue)) && pool.Valid()
      invariant Runs(s, run[..i]) && pool.model == After(s, run[..i])
      invariant Inv(pool.model) && Carries(pool.model.callers, stacks)
    {
      PrefixRuns(s, run, i + 1);
      OneMore(s, run, i);
      StepKeeps(pool.model, run[i]);
      StepCarries(pool.model, run[i], stacks);
      Step(pool, run[i], stacks);
      stacks := Held(stacks, run[i]);
    }
    assert run[..|run|] == run;
  }

  lemma Started(nWorkers: nat, capacity: nat, nCallers: nat, stacks: seq<seq<Task>>)
    requires nWorkers > 0 && capacity > 0 && |stacks| == nCallers
    ensures var s := Create(nWorkers, capacity, nCallers);
      Inv(s) && Carries(s.callers, stacks) && Runs(s, [])
  {
    CreateEstablishes(nWorkers, capacity, nCallers);
  }
}
