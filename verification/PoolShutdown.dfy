/** Once the pool is shutting down, every schedule drives it to its end. */
module PoolShutdown {
  import opened Counting
  import opened ConditionVariable
  import opened PoolSpec
  import opened PoolInvariant
  import opened PoolTheorems

  // ---- how much is left to do -------------------------------------------------------------------

  function WorkerWork(w: WorkerPc): nat {
    match w
    case InFunc(_, _) => 4
    case InCleanup(_, _) => 3
    case Exited => 0
    case _ => 2
  }

  /** `n` is the number of workers to join. */
  function CallerWork(c: CallerPc, n: nat): nat {
    match c
    case Outside => 0
    case Walking => n + 5
    case ApiWoken => n + 4
    case ApiAsleep => n + 3
    case Joining(next) => if next <= n then n - next + 2 else 2
    case Releasing => 1
    case _ => 2
  }

  function WorkersWork(ws: seq<WorkerPc>): nat {
    if ws == [] then 0 else WorkersWork(ws[..|ws| - 1]) + WorkerWork(ws[|ws| - 1])
  }

  function CallersWork(cs: seq<CallerPc>, n: nat): nat {
    if cs == [] then 0 else CallersWork(cs[..|cs| - 1], n) + CallerWork(cs[|cs| - 1], n)
  }

  /** Queued tasks, discarded tasks, running tasks, calls in progress and live workers, weighted. */
  function Remaining(s: State): nat {
    3 * |s.queue| + |s.doomed| + WorkersWork(s.workers) + CallersWork(s.callers, |s.workers|)
  }

  lemma {:induction false} WorkersWorkUpdate(ws: seq<WorkerPc>, w: nat, x: WorkerPc)
    requires w < |ws|
    ensures WorkersWork(ws[w := x]) + WorkerWork(ws[w]) == WorkersWork(ws) + WorkerWork(x)
  {
    var last := |ws| - 1;
    if w == last {
      assert ws[w := x][..last] == ws[..last];
    } else {
      assert ws[w := x][..last] == ws[..last][w := x];
      WorkersWorkUpdate(ws[..last], w, x);
    }
  }

  lemma {:induction false} CallersWorkUpdate(cs: seq<CallerPc>, c: nat, x: CallerPc, n: nat)
    requires c < |cs|
    ensures CallersWork(cs[c := x], n) + CallerWork(cs[c], n) == CallersWork(cs, n) + CallerWork(x, n)
  {
    var last := |cs| - 1;
    if c == last {
      assert cs[c := x][..last] == cs[..last];
    } else {
      assert cs[c := x][..last] == cs[..last][c := x];
      CallersWorkUpdate(cs[..last], c, x, n);
    }
  }

  // ---- after shutdown nobody is there to be woken but the destroyer -------------------------------

  lemma NobodySleeps(s: State)
    requires s.shutdown && Quiet(s.shutdown, s.workers, s.callers)
    ensures Count(s.callers, SubmitSleeps) == 0 && Count(s.callers, ClientSleeps) == 0
    ensures forall asleep: CallerPc -> bool | (forall c :: asleep(c) ==> CallSleeps(c)) ::
      Broadcast(s.callers, asleep, WakeCaller) == s.callers
  {
    forall c | 0 <= c < |s.callers| ensures !SubmitSleeps(s.callers[c]) && !ClientSleeps(s.callers[c]) {
      assert !CallSleeps(s.callers[c]);
    }
    CountZero(s.callers, SubmitSleeps);
    CountZero(s.callers, ClientSleeps);
    forall asleep: CallerPc -> bool | (forall c :: asleep(c) ==> CallSleeps(c))
      ensures Broadcast(s.callers, asleep, WakeCaller) == s.callers
    {
      var us := Broadcast(s.callers, asleep, WakeCaller);
      forall c | 0 <= c < |s.callers| ensures us[c] == s.callers[c] {
        assert !CallSleeps(s.callers[c]);
      }
    }
  }

  /** Leaving a call may wake the destroyer, which costs less than the call had left to do. */
  lemma LeaveCosts(s: State)
    ensures var t := Leave(s);
      && |t.callers| == |s.callers|
      && CallersWork(t.callers, |s.workers|) <= CallersWork(s.callers, |s.workers|) + 1
  {
    if s.shutdown && s.apiUsers == 1 && Count(s.callers, ApiSleeps) > 0 {
      CallersWorkUpdate(s.callers, Chosen(s.callers, ApiSleeps, 0), ApiWoken, |s.workers|);
    }
  }

  lemma WorkerLoopWorks(s: State, w: nat, pick: nat)
    requires w < |s.workers| && s.workers[w].AtLoop? && s.shutdown
    requires Quiet(s.shutdown, s.workers, s.callers)
    ensures Remaining(WorkerLoop(s, w, pick)) < Remaining(s)
    ensures WorkerLoop(s, w, pick).callers == s.callers
  {
    NobodySleeps(s);
    WorkersWorkUpdate(s.workers, w, WorkerLoop(s, w, pick).workers[w]);
  }

  lemma FinishWorks(s: State, w: nat)
    requires w < |s.workers| && s.workers[w].Finishing? && s.shutdown
    requires Quiet(s.shutdown, s.workers, s.callers)
    ensures Remaining(Finish(s, w)) == Remaining(s)
    ensures Finish(s, w).callers == s.callers && Finish(s, w).workers == s.workers[w := AtLoop]
    ensures Quiet(s.shutdown, Finish(s, w).workers, s.callers)
  {
    NobodySleeps(s);
    WorkersWorkUpdate(s.workers, w, AtLoop);
    WorkerMoves(s.workers, w, AtLoop);
  }

  lemma WakeWorks(s: State, w: nat)
    requires w < |s.workers| && s.workers[w].NotifyWoken?
    ensures Remaining(WorkerWake(s, w)) == Remaining(s)
    ensures Count(WorkerWake(s, w).workers, NotifySleeps) == Count(s.workers, NotifySleeps)
  {
    WorkersWorkUpdate(s.workers, w, AtLoop);
    WorkerMoves(s.workers, w, AtLoop);
  }

  lemma SubmitLeaveCosts(s: State)
    requires s.shutdown && Quiet(s.shutdown, s.workers, s.callers)
    ensures var t := SubmitLeave(s);
      && t == s.(apiUsers := t.apiUsers, pendingSubmissions := t.pendingSubmissions, callers := t.callers)
      && CallersWork(t.callers, |s.workers|) <= CallersWork(s.callers, |s.workers|) + 1
  {
    NobodySleeps(s);
    var u := s.(pendingSubmissions := s.pendingSubmissions - 1);
    assert SignalIdle(u).callers == s.callers;
    LeaveCosts(SignalIdle(u));
  }

  lemma SubmitResumeWorks(s: State, c: nat, picks: seq<nat>)
    requires c < |s.callers| && s.callers[c].SubmitWoken? && s.shutdown
    requires Quiet(s.shutdown, s.workers, s.callers)
    ensures Remaining(SubmitResume(s, c, picks).0) < Remaining(s)
  {
    var t := Unparked(s, c);
    CallersWorkUpdate(s.callers, c, Outside, |s.workers|);
    assert Quiet(t.shutdown, t.workers, t.callers);
    SubmitLeaveCosts(t);
  }

  lemma WaitResumeWorks(s: State, c: nat)
    requires c < |s.callers| && s.callers[c].ClientWoken? && s.shutdown
    ensures Remaining(WaitResume(s, c).0) < Remaining(s)
  {
    CallersWorkUpdate(s.callers, c, Outside, |s.workers|);
    LeaveCosts(Unregistered(s, c));
  }

  lemma WorkerStepWorks(s: State, a: Action)
    requires Inv(s) && s.shutdown && Enabled(s, a)
    requires a.WorkerEnters? || a.WorkerResumes? || a.WorkerFinishes? || a.CallbackReturns? || a.CleanupReturns?
    ensures Remaining(Apply(s, a)) < Remaining(s)
  {
    hide WorkersWork, CallersWork;
    match a
    case WorkerEnters(w, pick) => WorkerLoopWorks(s, w, pick);
    case WorkerResumes(w, pick) => WakeWorks(s, w); WorkerLoopWorks(WorkerWake(s, w), w, pick);
    case WorkerFinishes(w, pick) => FinishWorks(s, w); WorkerLoopWorks(Finish(s, w), w, pick);
    case CallbackReturns(w) => WorkersWorkUpdate(s.workers, w, FuncReturns(s.workers[w]));
    case CleanupReturns(w) => WorkersWorkUpdate(s.workers, w, Finishing(s.workers[w].ix, s.workers[w].task));
  }

  lemma DestroyerStepWorks(s: State, a: Action)
    requires Enabled(s, a)
    requires a.DestroyerWalks? || a.DestroyerChecks? || a.DestroyerJoins? || a.DestroyerDisposes? || a.DestroyerReleases?
    ensures Remaining(Apply(s, a)) < Remaining(s)
  {
    hide WorkersWork, CallersWork;
    var n := |s.workers|;
    match a
    case DestroyerWalks(c) =>
    case DestroyerChecks(c) => CallersWorkUpdate(s.callers, c, if s.apiUsers != 0 then ApiAsleep else Joining(0), n);
    case DestroyerJoins(c) => CallersWorkUpdate(s.callers, c, Joining(s.callers[c].next + 1), n);
    case DestroyerDisposes(c) => CallersWorkUpdate(s.callers, c, Releasing, n);
    case DestroyerReleases(c) => CallersWorkUpdate(s.callers, c, Outside, n);
  }

  /** Every step a thread takes on its own brings a closing pool closer to its end. */
  lemma StepWorks(s: State, a: Action)
    requires Inv(s) && s.shutdown && Enabled(s, a) && a.Internal()
    ensures Remaining(Apply(s, a)) < Remaining(s)
  {
    if a.WorkerEnters? || a.WorkerResumes? || a.WorkerFinishes? || a.CallbackReturns? || a.CleanupReturns? {
      WorkerStepWorks(s, a);
    } else if a.SubmitterResumes? {
      SubmitResumeWorks(s, a.c, a.picks);
    } else if a.ClientResumes? {
      WaitResumeWorks(s, a.c);
    } else {
      DestroyerStepWorks(s, a);
    }
  }

  lemma ShutdownStays(s: State, a: Action)
    requires Enabled(s, a) && s.shutdown
    ensures Apply(s, a).shutdown
  {}

  /** A call on a closing pool is refused and costs nothing, whoever makes it. */
  lemma RefusedWorks(s: State, a: Action)
    requires Inv(s) && s.shutdown && Enabled(s, a)
    requires !a.Internal() && !a.SpuriousWorker? && !a.SpuriousCaller?
    ensures Remaining(Apply(s, a)) == Remaining(s)
  {
    hide SubmitBody, WaitResume, WorkersWork, CallersWork;
  }

  /** Any schedule of steps and calls, but without spurious wake-ups. */
  predicate NoneSpurious(run: seq<Action>) {
    forall i | 0 <= i < |run| :: !run[i].SpuriousWorker? && !run[i].SpuriousCaller?
  }

  /** The number of steps that the pool's threads take of their own. */
  function Own(run: seq<Action>): nat {
    if run == [] then 0 else Own(run[..|run| - 1]) + Bit(run[|run| - 1].Internal())
  }

  /**
   Whatever the schedule, and whatever calls are made meanwhile, the threads of a closing pool
   take at most `Remaining` steps of their own.
   */
  lemma {:induction false} ShutdownIsBounded(s: State, run: seq<Action>)
    requires Inv(s) && s.shutdown && Runs(s, run) && NoneSpurious(run)
    ensures After(s, run).shutdown && Own(run) + Remaining(After(s, run)) <= Remaining(s)
    decreases |run|
  {
    hide Remaining, Enabled;
    if run != [] {
      var before, last := run[..|run| - 1], run[|run| - 1];
      ShutdownIsBounded(s, before);
      RunKeeps(s, before);
      ShutdownStays(After(s, before), last);
      if last.Internal() {
        StepWorks(After(s, before), last);
      } else {
        RefusedWorks(After(s, before), last);
      }
    }
  }

  /**
   Shutdown always finishes: once no thread has a step of its own left, every worker has been
   joined, every call answered, the queue emptied and the pool destroyed; and it took at most
   `Remaining` such steps to get there.
   */
  lemma ShutdownFinishes(s: State, run: seq<Action>)
    requires Inv(s) && s.shutdown && Runs(s, run) && NoneSpurious(run)
    requires Stuck(After(s, run))
    ensures Own(run) <= Remaining(s)
    ensures var t := After(s, run); t.destroyed && AtRest(t)
  {
    ShutdownIsBounded(s, run);
    RunKeeps(s, run);
    DeadlockFree(After(s, run));
  }

  /** And every schedule can be continued to such an end, by the pool's own threads alone. */
  lemma ShutdownCanFinish(s: State, run: seq<Action>) returns (all: seq<Action>)
    requires Inv(s) && s.shutdown && Runs(s, run) && NoneSpurious(run)
    ensures run <= all && Runs(s, all) && NoneSpurious(all) && Stuck(After(s, all))
    ensures forall i | |run| <= i < |all| :: all[i].Internal()
    decreases Remaining(s) - Own(run)
  {
    hide Remaining, Enabled;
    if Stuck(After(s, run)) {
      all := run;
    } else {
      var a: Action :| a.Internal() && Enabled(After(s, run), a);
      var more := run + [a];
      assert more[..|more| - 1] == run;
      ShutdownIsBounded(s, more);
      all := ShutdownCanFinish(s, more);
      assert all[|run|] == more[|run|] == a;
    }
  }
}
