/** Waiting for quiescence, destroying the pool, and its reference count keep the invariant. */
module PoolClosing {
  import opened Counting
  import opened ConditionVariable
  import opened PoolSpec
  import opened PoolInvariant
  import opened PoolCalls

  // ---- waiting ------------------------------------------------------------------------------

  lemma RegisteredKeepsCallers(s: State, c: nat)
    requires c < |s.callers| && s.callers[c].Outside? && !s.shutdown
    requires CallersInv(s, 0, 0)
    ensures CallersInv(Registered(s, c), 0, 0)
  {
    hide Count, ValidBatch, AllExited;
    CallerMoves(s.callers, c, ClientWoken);
    CountZero(s.callers, Destroying);
    assert forall d | 0 <= d < |s.callers| :: !Destroying(s.callers[d]);
  }

  lemma RegisteredKeeps(s: State, c: nat)
    requires c < |s.callers| && s.callers[c].Outside? && !s.shutdown
    requires CallersInv(s, 0, 0) && WorkersInv(s, 0) && TasksInv(s) && SleepersInv(s)
    ensures Inv(Registered(s, c))
  {
    RegisteredKeepsCallers(s, c);
    MoveKeepsSleepers(s, c, ClientWoken);
  }

  lemma ClientLeavesKeepsCallers(s: State, c: nat)
    requires c < |s.callers| && s.callers[c].ClientWoken?
    requires CallersInv(s, 0, 0)
    ensures CallersInv(Unregistered(s, c), 0, 1)
  {
    hide Count, ValidBatch, AllExited;
    CallerMoves(s.callers, c, Outside);
  }

  lemma ClientMovesKeepsCallers(s: State, c: nat, x: CallerPc)
    requires c < |s.callers| && Waiting(s.callers[c]) && Waiting(x)
    requires CallersInv(s, 0, 0)
    ensures CallersInv(s.(callers := s.callers[c := x]), 0, 0)
  {
    hide Count, ValidBatch, AllExited;
    CallerMoves(s.callers, c, x);
  }

  lemma LeaveClientKeeps(s: State, t: State)
    requires WorkersInv(s, 0) && TasksInv(s) && s.apiUsers > 0
    requires t == s.(apiUsers := t.apiUsers, waitingClients := t.waitingClients, callers := t.callers)
    ensures WorkersInv(t, 0) && TasksInv(t)
  {}

  lemma WaitResumeKeeps(s: State, c: nat)
    requires c < |s.callers| && s.callers[c].ClientWoken?
    requires CallersInv(s, 0, 0) && WorkersInv(s, 0) && TasksInv(s) && SleepersInv(s)
    ensures Inv(WaitResume(s, c).0)
  {
    if !s.shutdown && !s.Idle() {
      ClientMovesKeepsCallers(s, c, ClientAsleep);
      MoveKeepsSleepers(s, c, ClientAsleep);
    } else {
      var u := Unregistered(s, c);
      ClientLeavesKeepsCallers(s, c);
      MoveKeepsSleepers(s, c, Outside);
      LeaveServes(u);
      CountZero(s.callers, Waiting);
      LeaveClientKeeps(s, Leave(u));
    }
  }

  lemma WaitKeeps(s: State, c: nat)
    requires c < |s.callers| && s.callers[c].Outside?
    requires CallersInv(s, 0, 0) && WorkersInv(s, 0) && TasksInv(s) && SleepersInv(s)
    ensures Inv(Wait(s, c).0)
  {
    if !s.shutdown && s.apiUsers != UINT_MAX {
      RegisteredKeeps(s, c);
      WaitResumeKeeps(Registered(s, c), c);
    }
  }

  // ---- destroying ---------------------------------------------------------------------------

  /** The calls once a destroyer has woken them all: nobody sleeps, and the counts stand. */
  function Closed(cs: seq<CallerPc>, c: nat): (us: seq<CallerPc>)
    requires c < |cs|
    ensures |us| == |cs|
  {
    Broadcast(cs, CallSleeps, WakeCaller)[c := Walking]
  }

  lemma ClosedCounts(cs: seq<CallerPc>, c: nat)
    requires c < |cs| && cs[c].Outside? && Count(cs, Destroying) == 0
    ensures var us := Closed(cs, c);
      && Count(us, Submitting) == Count(cs, Submitting)
      && Count(us, SubmittingBatch) == Count(cs, SubmittingBatch)
      && Count(us, Waiting) == Count(cs, Waiting)
      && Count(us, Releases) == Count(cs, Releases)
      && Count(us, Destroying) == 1
      && Count(us, ApiSleeps) == 0 && Count(us, ClientSleeps) == 0
  {
    var vs := Broadcast(cs, CallSleeps, WakeCaller);
    WakingKeepsCounts(cs, vs, CallSleeps);
    CountLe(vs, ApiSleeps, Destroying);
    forall d | 0 <= d < |vs| ensures !ClientSleeps(vs[d]) {
      assert CallSleeps(cs[d]) || vs[d] == cs[d];
    }
    CountZero(vs, ClientSleeps);
    assert vs[c] == Outside;
    CallerMoves(vs, c, Walking);
  }

  lemma ClosedCallers(cs: seq<CallerPc>, c: nat)
    requires c < |cs| && cs[c].Outside? && Count(cs, Destroying) == 0
    ensures forall d | 0 <= d < |cs| :: var x := Closed(cs, c)[d];
      && !CallSleeps(x) && !x.ApiAsleep? && !x.ApiWoken? && !x.Joining?
      && (Submitting(x) ==> Submitting(cs[d]) && x.batch == cs[d].batch)
  {
    CountZero(cs, Destroying);
    forall d | 0 <= d < |cs|
      ensures var x := Closed(cs, c)[d];
        && !CallSleeps(x) && !x.ApiAsleep? && !x.ApiWoken? && !x.Joining?
        && (Submitting(x) ==> Submitting(cs[d]) && x.batch == cs[d].batch)
    {
      assert !Destroying(cs[d]);
      assert CallSleeps(cs[d]) || d == c || Closed(cs, c)[d] == cs[d];
    }
  }

  lemma DestroyKeepsCallers(s: State, c: nat, safe: bool)
    requires c < |s.callers| && s.callers[c].Outside? && !s.shutdown && !s.destroyed
    requires CallersInv(s, 0, 0)
    ensures CallersInv(Destroy(s, c, safe).0, 0, 0)
  {
    var t := Destroy(s, c, safe).0;
    ClosedCounts(s.callers, c);
    ClosedCallers(s.callers, c);
    assert t.callers == Closed(s.callers, c);
    forall d | 0 <= d < |t.callers|
      ensures !t.callers[d].SubmitAsleep? && !t.callers[d].ApiAsleep? && !t.callers[d].ApiWoken? && !t.callers[d].Joining?
      ensures Submitting(t.callers[d]) ==> ValidBatch(s.capacity, t.callers[d].batch)
    {
      assert !CallSleeps(Closed(s.callers, c)[d]);
    }
  }

  lemma DestroyKeepsWorkers(s: State, c: nat, safe: bool)
    requires c < |s.callers| && !s.shutdown
    requires WorkersInv(s, 0)
    ensures WorkersInv(Destroy(s, c, safe).0, 0)
  {
    var us := Broadcast(s.workers, NotifySleeps, WakeWorker);
    BroadcastWakes(s.workers);
    CountSame(s.workers, us, Busy);
    WokenWorkersKeep(s, us);
  }

  lemma DestroyKeepsTasks(s: State, c: nat, safe: bool)
    requires c < |s.callers| && !s.shutdown
    requires TasksInv(s)
    ensures TasksInv(Destroy(s, c, safe).0)
  {
    assert s.log == s.started + s.queue;
  }

  lemma DestroyServesSleepers(s: State, c: nat, safe: bool)
    requires c < |s.callers| && s.callers[c].Outside? && !s.shutdown
    requires CallersInv(s, 0, 0)
    ensures SleepersInv(Destroy(s, c, safe).0)
  {
    BroadcastWakes(s.workers);
    ClosedCounts(s.callers, c);
    ClosedCallers(s.callers, c);
    assert Destroy(s, c, safe).0.callers == Closed(s.callers, c);
  }

  lemma DestroyKeeps(s: State, c: nat, safe: bool)
    requires c < |s.callers| && s.callers[c].Outside?
    requires CallersInv(s, 0, 0) && WorkersInv(s, 0) && TasksInv(s) && SleepersInv(s)
    ensures Inv(Destroy(s, c, safe).0)
  {
    if !s.shutdown {
      DestroyKeepsCallers(s, c, safe);
      DestroyKeepsWorkers(s, c, safe);
      DestroyKeepsTasks(s, c, safe);
      DestroyServesSleepers(s, c, safe);
    }
  }

  lemma WalkKeeps(s: State)
    requires s.doomed != []
    requires CallersInv(s, 0, 0) && WorkersInv(s, 0) && TasksInv(s) && SleepersInv(s)
    ensures Inv(Walk(s))
  {
    WalkAccounts(s);
  }

  lemma WalkAccounts(s: State)
    requires s.doomed != [] && Accounted(s)
    ensures Accounted(Walk(s))
  {
    var t := Walk(s);
    assert t.walked[..|s.walked|] == s.walked;
    assert s.doomed == [s.doomed[0]] + t.doomed;
  }

  /** The destroyer moves on to waiting for the calls, or to joining the workers. */
  lemma DestroyerMovesKeepsCallers(s: State, c: nat, x: CallerPc)
    requires c < |s.callers| && Destroying(s.callers[c]) && Destroying(x) && s.doomed == []
    requires x.Joining? ==> s.apiUsers == 0 && AllExited(s.workers, x.next)
    requires CallersInv(s, 0, 0)
    ensures CallersInv(s.(callers := s.callers[c := x]), 0, 0)
  {
    hide Count, ValidBatch, AllExited;
    CallerMoves(s.callers, c, x);
  }

  lemma DestroyerMovesKeeps(s: State, c: nat, x: CallerPc)
    requires c < |s.callers| && Destroying(s.callers[c]) && Destroying(x) && s.doomed == []
    requires x.Joining? ==> s.apiUsers == 0 && AllExited(s.workers, x.next)
    requires x.ApiAsleep? ==> s.apiUsers > 0
    requires CallersInv(s, 0, 0) && WorkersInv(s, 0) && TasksInv(s) && SleepersInv(s)
    ensures Inv(s.(callers := s.callers[c := x]))
  {
    DestroyerMovesKeepsCallers(s, c, x);
    MoveKeepsSleepers(s, c, x);
  }

  lemma DisposeKeeps(s: State, c: nat)
    requires c < |s.callers| && s.callers[c].Joining? && s.callers[c].next == |s.workers|
    requires CallersInv(s, 0, 0) && WorkersInv(s, 0) && TasksInv(s) && SleepersInv(s)
    ensures Inv(Dispose(s, c))
  {
    CallerMoves(s.callers, c, Releasing);
    MoveKeepsSleepers(s, c, Releasing);
    CountZero(s.callers, Destroying);
    assert s.workers[0].Exited?;
  }

  lemma ReleaseKeeps(s: State, c: nat)
    requires c < |s.callers| && s.callers[c].Releasing? && s.references > 0
    requires CallersInv(s, 0, 0) && WorkersInv(s, 0) && TasksInv(s) && SleepersInv(s)
    ensures Inv(DropReference(Disowned(s, c)).0)
  {
    CallerMoves(s.callers, c, Outside);
    MoveKeepsSleepers(s, c, Outside);
    CountZero(s.callers, Releases);
  }

  lemma SpuriousCallerKeeps(s: State, c: nat)
    requires c < |s.callers| && (CallSleeps(s.callers[c]) || ApiSleeps(s.callers[c]))
    requires CallersInv(s, 0, 0) && WorkersInv(s, 0) && TasksInv(s) && SleepersInv(s)
    ensures Inv(s.(callers := s.callers[c := WakeCaller(s.callers[c])]))
  {
    SpuriousKeepsCallers(s, c);
    MoveKeepsSleepers(s, c, WakeCaller(s.callers[c]));
    hide CallersInv, SleepersInv;
  }

  lemma SpuriousKeepsCallers(s: State, c: nat)
    requires c < |s.callers| && (CallSleeps(s.callers[c]) || ApiSleeps(s.callers[c]))
    requires CallersInv(s, 0, 0)
    ensures CallersInv(s.(callers := s.callers[c := WakeCaller(s.callers[c])]), 0, 0)
  {
    hide Count, ValidBatch, AllExited;
    CallerMoves(s.callers, c, WakeCaller(s.callers[c]));
  }
}
