/** The inductive invariant of the thread pool: no lost wake-ups, exact counters, exact history. */
module PoolInvariant {
  import opened Counting
  import opened ConditionVariable
  import opened PoolSpec

  function Min(a: nat, b: nat): nat { if a < b then a else b }

  predicate ValidBatch(capacity: nat, batch: seq<Task>) {
    && 1 <= |batch| <= capacity
    && forall i | 0 <= i < |batch| :: batch[i].func != 0
  }

  /** The queue stays within its capacity, and only callable tasks are queued or waiting. */
  ghost predicate QueueFits(capacity: nat, queue: seq<Task>, peak: nat) {
    && 1 <= capacity
    && |queue| <= peak <= capacity
    && forall i | 0 <= i < |queue| :: queue[i].func != 0
  }

  ghost predicate BatchesFit(cs: seq<CallerPc>, capacity: nat) {
    forall c | 0 <= c < |cs| && Submitting(cs[c]) :: ValidBatch(capacity, cs[c].batch)
  }

  ghost predicate WorkersCounted(ws: seq<WorkerPc>, waiting: int, working: int) {
    && |ws| >= 1
    && waiting == Count(ws, NotifySleeps) + Count(ws, Notified)
    && working == Count(ws, Busy)
  }

  ghost predicate CallersCounted(cs: seq<CallerPc>, submitters: int, batches: int, clients: int) {
    && submitters == Count(cs, Submitting)
    && batches == Count(cs, SubmittingBatch)
    && clients == Count(cs, Waiting)
  }

  /**
   `inCall` submissions hold the lock: they are counted as calls but do not sleep. `leaving`
   calls hold the lock and are finished but for giving up their place among the users.
   */
  ghost predicate CallsCounted(pending: int, users: int, submitters: int, clients: int, inCall: int, leaving: int) {
    && pending == submitters + inCall
    && users == pending + clients + leaving
  }

  /**
   No lost worker wake-up: while a worker sleeps, every queued task has a woken worker on its
   way to the lock. `atLock` more workers hold the lock and are about to look at the queue.
   */
  ghost predicate WorkersServed(ws: seq<WorkerPc>, queued: nat, atLock: nat) {
    Count(ws, NotifySleeps) > 0 ==> queued <= Count(ws, Notified) + atLock
  }

  /**
   No lost submitter wake-up, whatever the mix of batch sizes: a sleeping submission does not
   fit, or it is a single task and each free slot has a woken single submission on its way to
   the lock. `atLock` more of those hold the lock and are about to take a slot.
   */
  ghost predicate SubmittersServed(cs: seq<CallerPc>, room: int, atLock: nat := 0) {
    forall c | 0 <= c < |cs| && cs[c].SubmitAsleep? ::
      |cs[c].batch| > room || (|cs[c].batch| == 1 && room <= Count(cs, WokenSingle) + atLock)
  }

  ghost predicate ClientsServed(cs: seq<CallerPc>, idle: bool) {
    Count(cs, ClientSleeps) > 0 ==> !idle
  }

  ghost predicate DestroyerServed(cs: seq<CallerPc>, users: int) {
    Count(cs, ApiSleeps) > 0 ==> users > 0
  }

  /** After shutdown nobody sleeps for work, for room or for quiescence. */
  ghost predicate Quiet(shutdown: bool, ws: seq<WorkerPc>, cs: seq<CallerPc>) {
    shutdown ==>
      && Count(ws, NotifySleeps) == 0
      && forall c | 0 <= c < |cs| :: !CallSleeps(cs[c])
  }

  /** Tasks are discarded only by a shutdown, which leaves the queue empty. */
  ghost predicate Discarding(shutdown: bool, queue: seq<Task>, walked: seq<Task>, doomed: seq<Task>) {
    && (!shutdown ==> walked == doomed == [])
    && (walked + doomed != [] ==> queue == [])
  }

  ghost predicate ExitsAtEnd(ws: seq<WorkerPc>, shutdown: bool, queue: seq<Task>) {
    forall w | 0 <= w < |ws| && ws[w].Exited? :: shutdown && queue == []
  }

  ghost predicate AllExited(ws: seq<WorkerPc>, n: nat) {
    n <= |ws| && forall w | 0 <= w < n :: ws[w].Exited?
  }

  /** There is one destroyer, and what it has waited for stays true. */
  ghost predicate DestroyerAt(cs: seq<CallerPc>, shutdown: bool, destroyed: bool, owned: bool,
                              doomed: seq<Task>, users: int, ws: seq<WorkerPc>) {
    && Count(cs, Destroying) == Bit(shutdown && !destroyed)
    && Count(cs, Releases) == Bit(destroyed && owned)
    && forall c | 0 <= c < |cs| ::
      && (cs[c].ApiAsleep? || cs[c].ApiWoken? ==> doomed == [])
      && (cs[c].Joining? ==> doomed == [] && users == 0 && AllExited(ws, cs[c].next))
  }

  ghost predicate DestroyedAtEnd(destroyed: bool, shutdown: bool, users: int, doomed: seq<Task>, queue: seq<Task>, ws: seq<WorkerPc>) {
    destroyed ==> shutdown && users == 0 && doomed == [] && queue == [] && AllExited(ws, |ws|)
  }

  function WithCleanup(ts: seq<Task>): seq<Task> {
    if ts == [] then []
    else WithCleanup(ts[..|ts| - 1]) + (if ts[|ts| - 1].cleanup != 0 then [ts[|ts| - 1]] else [])
  }

  /** Every accepted task is dequeued, queued or discarded, in that order of acceptance. */
  ghost predicate Accounted(s: State) {
    && s.log == s.started + s.queue + s.walked + s.doomed
    && s.cleaned == WithCleanup(s.walked)
    && s.accepted == Min(|s.log|, UINT64_MAX)
    && s.discarded == Min(|s.walked| + |s.doomed|, UINT64_MAX)
  }

  /** Each dequeued task is with the one worker that took it until it is done, and never again. */
  ghost predicate RunOnce(ws: seq<WorkerPc>, started: seq<Task>, runner: seq<nat>, done: set<nat>) {
    && |runner| == |started|
    && (forall w | 0 <= w < |ws| && Busy(ws[w]) ::
          && ws[w].ix < |started|
          && ws[w].task == started[ws[w].ix]
          && runner[ws[w].ix] == w
          && ws[w].ix !in done)
    && (forall ix | 0 <= ix < |started| && ix !in done ::
          runner[ix] < |ws| && Busy(ws[runner[ix]]) && ws[runner[ix]].ix == ix)
    && (forall ix | ix in done :: ix < |started|)
  }

  ghost predicate Completed(started: nat, done: set<nat>, working: int, completed: nat) {
    && |done| + working == started
    && completed == Min(|done|, UINT64_MAX)
  }

  ghost predicate Ownership(references: nat, held: nat, owned: bool, freed: bool, destroyed: bool) {
    && references == held + Bit(owned)
    && references <= UINT_MAX
    && (freed <==> references == 0)
    && (!owned ==> destroyed)
  }

  /** What concerns the calling threads, but for the sleepers on `all_idle` and `api_idle`. */
  ghost predicate CallersInv(s: State, inCall: nat, leaving: nat, atLock: nat := 0) {
    && BatchesFit(s.callers, s.capacity)
    && CallersCounted(s.callers, s.waitingSubmitters, s.waitingBatches, s.waitingClients)
    && CallsCounted(s.pendingSubmissions, s.apiUsers, s.waitingSubmitters, s.waitingClients, inCall, leaving)
    && SubmittersServed(s.callers, s.Free(), atLock)
    && DestroyerAt(s.callers, s.shutdown, s.destroyed, s.owned, s.doomed, s.apiUsers, s.workers)
  }

  ghost predicate WorkersInv(s: State, atLock: nat) {
    && WorkersCounted(s.workers, s.waitingWorkers, s.nWorking)
    && WorkersServed(s.workers, |s.queue|, atLock)
    && ExitsAtEnd(s.workers, s.shutdown, s.queue)
    && RunOnce(s.workers, s.started, s.runner, s.done)
    && Completed(|s.started|, s.done, s.nWorking, s.completed)
  }

  ghost predicate TasksInv(s: State) {
    && QueueFits(s.capacity, s.queue, s.peak)
    && Accounted(s)
    && Discarding(s.shutdown, s.queue, s.walked, s.doomed)
    && DestroyedAtEnd(s.destroyed, s.shutdown, s.apiUsers, s.doomed, s.queue, s.workers)
    && Ownership(s.references, s.held, s.owned, s.freed, s.destroyed)
  }

  ghost predicate SleepersInv(s: State) {
    && ClientsServed(s.callers, s.Idle())
    && DestroyerServed(s.callers, s.apiUsers)
    && Quiet(s.shutdown, s.workers, s.callers)
  }

  ghost predicate InvHeld(s: State, inCall: nat, atLock: nat) {
    CallersInv(s, inCall, 0) && WorkersInv(s, atLock) && TasksInv(s) && SleepersInv(s)
  }

  /** What holds whenever the lock is free. */
  ghost predicate Inv(s: State) {
    InvHeld(s, 0, 0)
  }

  // ---- how a move of one thread changes the counts -----------------------------------------

  lemma WorkerMoves(ws: seq<WorkerPc>, w: nat, x: WorkerPc)
    requires w < |ws|
    ensures var us := ws[w := x];
      && Count(us, NotifySleeps) + Bit(ws[w].NotifyAsleep?) == Count(ws, NotifySleeps) + Bit(x.NotifyAsleep?)
      && Count(us, Notified) + Bit(ws[w].NotifyWoken?) == Count(ws, Notified) + Bit(x.NotifyWoken?)
      && Count(us, Busy) + Bit(Busy(ws[w])) == Count(ws, Busy) + Bit(Busy(x))
  {
    CountUpdate(ws, w, x, NotifySleeps);
    CountUpdate(ws, w, x, Notified);
    CountUpdate(ws, w, x, Busy);
  }

  lemma CallerMoves(cs: seq<CallerPc>, c: nat, x: CallerPc)
    requires c < |cs|
    ensures var us := cs[c := x];
      && Count(us, Submitting) + Bit(Submitting(cs[c])) == Count(cs, Submitting) + Bit(Submitting(x))
      && Count(us, SubmittingBatch) + Bit(SubmittingBatch(cs[c])) == Count(cs, SubmittingBatch) + Bit(SubmittingBatch(x))
      && Count(us, Waiting) + Bit(Waiting(cs[c])) == Count(cs, Waiting) + Bit(Waiting(x))
      && Count(us, Destroying) + Bit(Destroying(cs[c])) == Count(cs, Destroying) + Bit(Destroying(x))
      && Count(us, Releases) + Bit(cs[c].Releasing?) == Count(cs, Releases) + Bit(x.Releasing?)
      && Count(us, WokenSingle) + Bit(WokenSingle(cs[c])) == Count(cs, WokenSingle) + Bit(WokenSingle(x))
      && Count(us, ClientSleeps) + Bit(ClientSleeps(cs[c])) == Count(cs, ClientSleeps) + Bit(ClientSleeps(x))
      && Count(us, ApiSleeps) + Bit(ApiSleeps(cs[c])) == Count(cs, ApiSleeps) + Bit(ApiSleeps(x))
  {
    CountUpdate(cs, c, x, Submitting);
    CountUpdate(cs, c, x, SubmittingBatch);
    CountUpdate(cs, c, x, Waiting);
    CountUpdate(cs, c, x, Destroying);
    CountUpdate(cs, c, x, Releases);
    CountUpdate(cs, c, x, WokenSingle);
    CountUpdate(cs, c, x, ClientSleeps);
    CountUpdate(cs, c, x, ApiSleeps);
  }

  /** Waking callers changes none of the counts of calls in progress. */
  lemma WakingKeepsCounts(cs: seq<CallerPc>, us: seq<CallerPc>, asleep: CallerPc -> bool)
    requires OnlyWoken(cs, us, asleep, WakeCaller)
    ensures Count(us, Submitting) == Count(cs, Submitting)
    ensures Count(us, SubmittingBatch) == Count(cs, SubmittingBatch)
    ensures Count(us, Waiting) == Count(cs, Waiting)
    ensures Count(us, Destroying) == Count(cs, Destroying)
    ensures Count(us, Releases) == Count(cs, Releases)
  {
    CountSame(cs, us, Submitting);
    CountSame(cs, us, SubmittingBatch);
    CountSame(cs, us, Waiting);
    CountSame(cs, us, Destroying);
    CountSame(cs, us, Releases);
  }

  lemma WokenCallersKeep(s: State, us: seq<CallerPc>, asleep: CallerPc -> bool, inCall: nat, leaving: nat)
    requires OnlyWoken(s.callers, us, asleep, WakeCaller)
    requires forall c | asleep(c) :: ClientSleeps(c) || ApiSleeps(c)
    requires CallersInv(s, inCall, leaving)
    ensures CallersInv(s.(callers := us), inCall, leaving)
  {
    hide Count, ValidBatch, AllExited;
    WakingKeepsCounts(s.callers, us, asleep);
    CountSame(s.callers, us, WokenSingle);
  }

  // ---- signal_idle, leave ------------------------------------------------------------------

  lemma SignalIdleServes(s: State, inCall: nat, leaving: nat)
    requires CallersInv(s, inCall, leaving) && DestroyerServed(s.callers, s.apiUsers) && Quiet(s.shutdown, s.workers, s.callers)
    ensures var t := SignalIdle(s);
      && t == s.(callers := t.callers)
      && OnlyWoken(s.callers, t.callers, ClientSleeps, WakeCaller)
      && CallersInv(t, inCall, leaving) && SleepersInv(t)
  {
    var t := SignalIdle(s);
    CountZero(t.callers, ClientSleeps);
    if s.waitingClients != 0 && s.Idle() {
      WokenCallersKeep(s, t.callers, ClientSleeps, inCall, leaving);
      CountSame(s.callers, t.callers, ApiSleeps);
    } else {
      CountZero(s.callers, Waiting);
    }
  }

  lemma OneUserLess(s: State)
    requires CallersInv(s, 0, 1)
    ensures CallersInv(s.(apiUsers := s.apiUsers - 1), 0, 0)
    ensures Count(s.callers, ApiSleeps) > 0 ==> s.shutdown
    ensures Count(s.callers, ApiSleeps) <= 1
  {
    CountLe(s.callers, ApiSleeps, Destroying);
  }

  /** Signalling `api_idle` once wakes the destroyer, for nobody else sleeps there. */
  lemma SignalWakesDestroyer(cs: seq<CallerPc>)
    requires Count(cs, ApiSleeps) <= 1
    ensures var us := Signal(cs, ApiSleeps, WakeCaller, 0);
      OnlyWoken(cs, us, ApiSleeps, WakeCaller) && Count(us, ApiSleeps) == 0
  {
    if Count(cs, ApiSleeps) > 0 {
      CallerMoves(cs, Chosen(cs, ApiSleeps, 0), ApiWoken);
    }
  }

  lemma LeaveKeepsCallers(s: State)
    requires CallersInv(s, 0, 1)
    ensures CallersInv(Leave(s), 0, 0)
  {
    OneUserLess(s);
    SignalWakesDestroyer(s.callers);
    if s.shutdown && s.apiUsers == 1 {
      WokenCallersKeep(s.(apiUsers := s.apiUsers - 1), Leave(s).callers, ApiSleeps, 0, 0);
    }
  }

  lemma LeaveServesSleepers(s: State)
    requires s.apiUsers > 0 && Count(s.callers, ApiSleeps) <= Bit(s.shutdown)
    requires ClientsServed(s.callers, s.Idle()) && Quiet(s.shutdown, s.workers, s.callers)
    ensures SleepersInv(Leave(s))
  {
    hide Signal, Count, Chosen;
    SignalWakesDestroyer(s.callers);
    if s.shutdown && s.apiUsers == 1 {
      CountSame(s.callers, Leave(s).callers, ClientSleeps);
    }
  }

  lemma LeaveServes(s: State)
    requires CallersInv(s, 0, 1) && ClientsServed(s.callers, s.Idle()) && Quiet(s.shutdown, s.workers, s.callers)
    ensures var t := Leave(s);
      && t == s.(apiUsers := s.apiUsers - 1, callers := t.callers)
      && OnlyWoken(s.callers, t.callers, ApiSleeps, WakeCaller)
      && CallersInv(t, 0, 0) && SleepersInv(t)
  {
    OneUserLess(s);
    SignalWakesDestroyer(s.callers);
    LeaveKeepsCallers(s);
    LeaveServesSleepers(s);
  }

  lemma SubmitLeaveServes(s: State)
    requires CallersInv(s, 1, 0) && Quiet(s.shutdown, s.workers, s.callers)
    ensures var t := SubmitLeave(s);
      && t == s.(apiUsers := s.apiUsers - 1, pendingSubmissions := s.pendingSubmissions - 1, callers := t.callers)
      && |t.callers| == |s.callers|
      && (forall c | 0 <= c < |s.callers| :: t.callers[c] == s.callers[c] || t.callers[c] == WakeCaller(s.callers[c]))
      && CallersInv(t, 0, 0) && SleepersInv(t)
  {
    var u := s.(pendingSubmissions := s.pendingSubmissions - 1);
    OneSubmissionLess(s);
    hide CallersInv, SleepersInv, Count;
    SignalIdleServes(u, 0, 1);
    LeaveServes(SignalIdle(u));
  }

  lemma OneSubmissionLess(s: State)
    requires CallersInv(s, 1, 0)
    ensures var u := s.(pendingSubmissions := s.pendingSubmissions - 1);
      CallersInv(u, 0, 1) && DestroyerServed(u.callers, u.apiUsers)
  {
    hide ValidBatch, AllExited;
  }
}
