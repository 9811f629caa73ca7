/**
 The thread pool as a transition system. A step is one critical section, from taking the
 lock to releasing it or to going to sleep on a condition variable, or one action of a thread
 that does not hold the lock: a task callback or cleanup returning, the destroyer cleaning up
 one discarded task, a join, a spurious wake-up.

 The queue is a plain FIFO sequence here; `ThreadPool` refines it by the ring buffer.
 */
module PoolSpec {
  import opened Counting
  import opened ConditionVariable
  import opened Wrappers

  /** A task descriptor; the pointers are numbers and 0 is NULL. */
  datatype Task = Task(func: nat, args: nat, cleanup: nat)

  datatype WorkerPc =
    | AtLoop                          // about to take the lock for the head of the loop
    | NotifyAsleep                    // asleep on `notify`
    | NotifyWoken                     // woken, waiting for the lock
    | InFunc(ix: nat, task: Task)     // the callback of the ix-th dequeued task is running
    | InCleanup(ix: nat, task: Task)  // its cleanup is running
    | Finishing(ix: nat, task: Task)  // both have returned; about to take the lock
    | Exited

  datatype CallerPc =
    | Outside
    | SubmitAsleep(batch: seq<Task>)  // asleep on `not_full`
    | SubmitWoken(batch: seq<Task>)
    | ClientAsleep                    // asleep on `all_idle`
    | ClientWoken
    | Walking                         // the destroyer, cleaning up outside the lock
    | ApiAsleep                       // the destroyer, asleep on `api_idle`
    | ApiWoken
    | Joining(next: nat)
    | Releasing                       // the destroyer, about to drop its reference

  predicate NotifySleeps(w: WorkerPc) { w.NotifyAsleep? }
  predicate Notified(w: WorkerPc) { w.NotifyWoken? }
  predicate Busy(w: WorkerPc) { w.InFunc? || w.InCleanup? || w.Finishing? }
  function WakeWorker(w: WorkerPc): WorkerPc { if w.NotifyAsleep? then NotifyWoken else w }

  predicate SubmitSleeps(c: CallerPc) { c.SubmitAsleep? }
  predicate ClientSleeps(c: CallerPc) { c.ClientAsleep? }
  predicate ApiSleeps(c: CallerPc) { c.ApiAsleep? }
  predicate CallSleeps(c: CallerPc) { SubmitSleeps(c) || ClientSleeps(c) }
  predicate Submitting(c: CallerPc) { c.SubmitAsleep? || c.SubmitWoken? }
  predicate SubmittingBatch(c: CallerPc) { Submitting(c) && |c.batch| > 1 }
  predicate WokenSingle(c: CallerPc) { c.SubmitWoken? && |c.batch| == 1 }
  predicate Waiting(c: CallerPc) { c.ClientAsleep? || c.ClientWoken? }
  predicate Destroying(c: CallerPc) { c.Walking? || c.ApiAsleep? || c.ApiWoken? || c.Joining? }
  predicate Releases(c: CallerPc) { c.Releasing? }
  function WakeCaller(c: CallerPc): CallerPc {
    match c
    case SubmitAsleep(batch) => SubmitWoken(batch)
    case ClientAsleep => ClientWoken
    case ApiAsleep => ApiWoken
    case _ => c
  }

  const UINT_MAX: nat := 0xffff_ffff
  const UINT64_MAX: nat := 0xffff_ffff_ffff_ffff

  datatype State = State(
    // the fields of the pool
    capacity: nat, queue: seq<Task>, peak: nat,
    shutdown: bool, destroyed: bool,
    references: nat,
    apiUsers: int, pendingSubmissions: int,
    waitingSubmitters: int, waitingBatches: int, waitingClients: int,
    waitingWorkers: int, nWorking: int,
    accepted: nat, completed: nat, discarded: nat,
    // where each thread is
    workers: seq<WorkerPc>, callers: seq<CallerPc>,
    // the discarded tasks the destroyer still has to clean up
    doomed: seq<Task>,
    // history: accepted tasks in order; dequeued tasks in order and who took them; which of
    // those have ended; discarded tasks already walked; cleanups the walk has called
    log: seq<Task>, started: seq<Task>, runner: seq<nat>, done: set<nat>,
    walked: seq<Task>, cleaned: seq<Task>,
    // ownership: retained references, whether the creator's reference is still held, and
    // whether the last owner has freed the pool
    held: nat, owned: bool, freed: bool)
  {
    function Free(): int { capacity - |queue| }
    predicate Idle() { queue == [] && nWorking == 0 && pendingSubmissions == 0 }
  }

  datatype Answer = Blocked | Return(code: int)

  function Create(nWorkers: nat, capacity: nat, nCallers: nat): State {
    State(capacity, [], 0, false, false, 1, 0, 0, 0, 0, 0, 0, 0, 0, 0, 0,
          seq(nWorkers, _ => AtLoop), seq(nCallers, _ => Outside),
          [], [], [], [], {}, [], [], 0, true, false)
  }

  function Saturate(counter: nat, count: nat): nat {
    if count > UINT64_MAX - counter then UINT64_MAX else counter + count
  }

  // ---- leaving a call ---------------------------------------------------------------------

  function SignalIdle(s: State): (t: State)
    ensures t == s.(callers := t.callers) && |t.callers| == |s.callers|
  {
    if s.waitingClients != 0 && s.Idle()
    then s.(callers := Broadcast(s.callers, ClientSleeps, WakeCaller))
    else s
  }

  function Leave(s: State): (t: State)
    ensures t == s.(apiUsers := s.apiUsers - 1, callers := t.callers) && |t.callers| == |s.callers|
  {
    var s := s.(apiUsers := s.apiUsers - 1);
    if s.shutdown && s.apiUsers == 0
    then s.(callers := Signal(s.callers, ApiSleeps, WakeCaller, 0))
    else s
  }

  function SubmitLeave(s: State): (t: State)
    ensures t == s.(apiUsers := s.apiUsers - 1, pendingSubmissions := s.pendingSubmissions - 1, callers := t.callers)
    ensures |t.callers| == |s.callers|
  {
    Leave(SignalIdle(s.(pendingSubmissions := s.pendingSubmissions - 1)))
  }

  // ---- submitting -------------------------------------------------------------------------

  function NotifyWorkers(ws: seq<WorkerPc>, waiting: int, count: nat, picks: seq<nat>): seq<WorkerPc> {
    if waiting == 0 then ws
    else if count >= waiting && count > 1 then Broadcast(ws, NotifySleeps, WakeWorker)
    else SignalTimes(ws, NotifySleeps, WakeWorker, picks, count)
  }

  function Enqueue(s: State, batch: seq<Task>, picks: seq<nat>): State {
    var length := |s.queue| + |batch|;
    s.(queue := s.queue + batch,
       peak := if length > s.peak then length else s.peak,
       accepted := Saturate(s.accepted, |batch|),
       workers := NotifyWorkers(s.workers, s.waitingWorkers, |batch|, picks),
       log := s.log + batch)
  }

  /**
   The loop of a submission whose call is already counted. `who` is the calling thread, or
   None when the call comes from a running task of this pool, which never blocks.
   */
  function SubmitBody(s: State, who: Option<nat>, batch: seq<Task>, block: bool, picks: seq<nat>): (State, Answer)
    requires who.Some? ==> who.value < |s.callers|
  {
    if |batch| > s.Free() && !s.shutdown then
      if !block || who.None? then (SubmitLeave(s), Return(2))
      else (s.(waitingSubmitters := s.waitingSubmitters + 1,
               waitingBatches := s.waitingBatches + Bit(|batch| > 1),
               callers := s.callers[who.value := SubmitAsleep(batch)]), Blocked)
    else if s.shutdown then (SubmitLeave(s), Return(1))
    else (SubmitLeave(Enqueue(s, batch, picks)), Return(0))
  }

  predicate Refused(s: State, batch: seq<Task>) {
    || batch == []
    || s.shutdown || s.apiUsers == UINT_MAX || |batch| > s.capacity
    || exists i | 0 <= i < |batch| :: batch[i].func == 0
  }

  function Counted(s: State): State {
    s.(apiUsers := s.apiUsers + 1, pendingSubmissions := s.pendingSubmissions + 1)
  }

  function Submit(s: State, who: Option<nat>, batch: seq<Task>, block: bool, picks: seq<nat>): (State, Answer)
    requires who.Some? ==> who.value < |s.callers|
  {
    if Refused(s, batch) then (s, Return(1)) else SubmitBody(Counted(s), who, batch, block, picks)
  }

  function Unparked(s: State, c: nat): State
    requires c < |s.callers| && s.callers[c].SubmitWoken?
  {
    s.(waitingBatches := s.waitingBatches - Bit(|s.callers[c].batch| > 1),
       waitingSubmitters := s.waitingSubmitters - 1,
       callers := s.callers[c := Outside])
  }

  function SubmitResume(s: State, c: nat, picks: seq<nat>): (State, Answer)
    requires c < |s.callers| && s.callers[c].SubmitWoken?
  {
    SubmitBody(Unparked(s, c), Some(c), s.callers[c].batch, true, picks)
  }

  // ---- waiting for quiescence -------------------------------------------------------------

  function Unregistered(s: State, c: nat): State
    requires c < |s.callers|
  {
    s.(waitingClients := s.waitingClients - 1, callers := s.callers[c := Outside])
  }

  function WaitResume(s: State, c: nat): (State, Answer)
    requires c < |s.callers|
  {
    if !s.shutdown && !s.Idle() then (s.(callers := s.callers[c := ClientAsleep]), Blocked)
    else (Leave(Unregistered(s, c)), Return(if s.shutdown then 1 else 0))
  }

  function Registered(s: State, c: nat): State
    requires c < |s.callers|
  {
    s.(apiUsers := s.apiUsers + 1, waitingClients := s.waitingClients + 1, callers := s.callers[c := ClientWoken])
  }

  function Wait(s: State, c: nat): (State, Answer)
    requires c < |s.callers|
  {
    if s.shutdown || s.apiUsers == UINT_MAX then (s, Return(1)) else WaitResume(Registered(s, c), c)
  }

  // ---- workers ----------------------------------------------------------------------------

  function NotFullWakes(cs: seq<CallerPc>, submitters: int, batches: int, pick: nat): seq<CallerPc> {
    if submitters == 0 then cs
    else if batches != 0 then Broadcast(cs, SubmitSleeps, WakeCaller)
    else Signal(cs, SubmitSleeps, WakeCaller, pick)
  }

  function Dequeue(s: State, w: nat, pick: nat): State
    requires w < |s.workers| && s.queue != []
  {
    s.(queue := s.queue[1..],
       callers := NotFullWakes(s.callers, s.waitingSubmitters, s.waitingBatches, pick),
       nWorking := s.nWorking + 1,
       workers := s.workers[w := InFunc(|s.started|, s.queue[0])],
       started := s.started + [s.queue[0]],
       runner := s.runner + [w])
  }

  /** The head of the worker's loop, entered with the lock held. */
  function WorkerLoop(s: State, w: nat, pick: nat): State
    requires w < |s.workers|
  {
    if s.queue == [] && !s.shutdown then
      s.(waitingWorkers := s.waitingWorkers + 1, workers := s.workers[w := NotifyAsleep])
    else if s.queue == [] then s.(workers := s.workers[w := Exited])
    else Dequeue(s, w, pick)
  }

  function WorkerWake(s: State, w: nat): State
    requires w < |s.workers|
  {
    s.(waitingWorkers := s.waitingWorkers - 1, workers := s.workers[w := AtLoop])
  }

  function Finished(s: State, w: nat): State
    requires w < |s.workers| && s.workers[w].Finishing?
  {
    s.(nWorking := s.nWorking - 1, completed := Saturate(s.completed, 1),
       workers := s.workers[w := AtLoop], done := s.done + {s.workers[w].ix})
  }

  function Finish(s: State, w: nat): State
    requires w < |s.workers| && s.workers[w].Finishing?
  {
    SignalIdle(Finished(s, w))
  }

  function FuncReturns(w: WorkerPc): WorkerPc
    requires w.InFunc?
  {
    if w.task.cleanup != 0 then InCleanup(w.ix, w.task) else Finishing(w.ix, w.task)
  }

  // ---- destroying -------------------------------------------------------------------------

  function Destroy(s: State, c: nat, safe: bool): (State, Answer)
    requires c < |s.callers|
  {
    if s.shutdown then (s, Return(1))
    else
      var dropped := if safe then [] else s.queue;
      (s.(shutdown := true,
          queue := if safe then s.queue else [],
          discarded := if safe then s.discarded else Saturate(s.discarded, |dropped|),
          doomed := dropped,
          workers := Broadcast(s.workers, NotifySleeps, WakeWorker),
          callers := Broadcast(s.callers, CallSleeps, WakeCaller)[c := Walking]), Blocked)
  }

  function Walk(s: State): State
    requires s.doomed != []
  {
    var task := s.doomed[0];
    s.(doomed := s.doomed[1..], walked := s.walked + [task],
       cleaned := if task.cleanup != 0 then s.cleaned + [task] else s.cleaned)
  }

  function Check(s: State, c: nat): State
    requires c < |s.callers|
  {
    s.(callers := s.callers[c := if s.apiUsers != 0 then ApiAsleep else Joining(0)])
  }

  function Dispose(s: State, c: nat): State
    requires c < |s.callers|
  {
    s.(destroyed := true, callers := s.callers[c := Releasing])
  }

  function Disowned(s: State, c: nat): State
    requires c < |s.callers|
  {
    s.(callers := s.callers[c := Outside], owned := false)
  }

  function Retain(s: State): (State, Answer) {
    if s.shutdown || s.references == UINT_MAX then (s, Return(1))
    else (s.(references := s.references + 1, held := s.held + 1), Return(0))
  }

  function DropReference(s: State): (State, Answer)
    requires s.references > 0
  {
    if s.references == 1 && !s.destroyed then (s, Return(1))
    else (s.(references := s.references - 1, freed := s.references == 1), Return(0))
  }

  // ---- the system -------------------------------------------------------------------------

  datatype Action =
    | WorkerEnters(w: nat, pick: nat)
    | WorkerResumes(w: nat, pick: nat)
    | WorkerFinishes(w: nat, pick: nat)
    | CallbackReturns(w: nat)
    | CleanupReturns(w: nat)
    | SubmitterResumes(c: nat, picks: seq<nat>)
    | ClientResumes(c: nat)
    | DestroyerWalks(c: nat)
    | DestroyerChecks(c: nat)
    | DestroyerJoins(c: nat)
    | DestroyerDisposes(c: nat)
    | DestroyerReleases(c: nat)
    | CallSubmit(c: nat, batch: seq<Task>, block: bool, picks: seq<nat>)
    | TaskSubmits(w: nat, batch: seq<Task>, block: bool, picks: seq<nat>)
    | CallWait(c: nat)
    | CallDestroy(c: nat, safe: bool)
    | CallRetain
    | CallRelease
    | SpuriousWorker(w: nat)
    | SpuriousCaller(c: nat)
  {
    /** A step the pool owes: not a new call, and not a spurious wake-up. */
    predicate Internal() {
      || WorkerEnters? || WorkerResumes? || WorkerFinishes? || CallbackReturns? || CleanupReturns?
      || SubmitterResumes? || ClientResumes?
      || DestroyerWalks? || DestroyerChecks? || DestroyerJoins? || DestroyerDisposes? || DestroyerReleases?
    }
  }

  /** A thread outside the pool may call it, and so may a cleanup that the destroyer is running. */
  predicate MayCall(s: State, c: nat) {
    c < |s.callers| && (s.callers[c].Outside? || (s.callers[c].Walking? && s.doomed != []))
  }

  predicate Enabled(s: State, a: Action) {
    && !s.freed
    && match a
       case WorkerEnters(w, _) => w < |s.workers| && s.workers[w].AtLoop?
       case WorkerResumes(w, _) => w < |s.workers| && s.workers[w].NotifyWoken?
       case WorkerFinishes(w, _) => w < |s.workers| && s.workers[w].Finishing?
       case CallbackReturns(w) => w < |s.workers| && s.workers[w].InFunc?
       case CleanupReturns(w) => w < |s.workers| && s.workers[w].InCleanup?
       case SubmitterResumes(c, _) => c < |s.callers| && s.callers[c].SubmitWoken?
       case ClientResumes(c) => c < |s.callers| && s.callers[c].ClientWoken?
       case DestroyerWalks(c) => c < |s.callers| && s.callers[c].Walking? && s.doomed != []
       case DestroyerChecks(c) => c < |s.callers| && ((s.callers[c].Walking? && s.doomed == []) || s.callers[c].ApiWoken?)
       case DestroyerJoins(c) => c < |s.callers| && s.callers[c].Joining? && s.callers[c].next < |s.workers| && s.workers[s.callers[c].next].Exited?
       case DestroyerDisposes(c) => c < |s.callers| && s.callers[c].Joining? && s.callers[c].next == |s.workers|
       case DestroyerReleases(c) => c < |s.callers| && s.callers[c].Releasing? && s.references > 0
       case CallSubmit(c, _, _, _) => MayCall(s, c)
       case TaskSubmits(w, _, _, _) => w < |s.workers| && (s.workers[w].InFunc? || s.workers[w].InCleanup?)
       case CallWait(c) => MayCall(s, c)
       case CallDestroy(c, _) => MayCall(s, c)
       case CallRetain => true
       // releasing a reference one does not own is a caller's error once the pool is destroyed
       case CallRelease => s.references > 0 && (s.held > 0 || !s.destroyed)
       case SpuriousWorker(w) => w < |s.workers| && s.workers[w].NotifyAsleep?
       case SpuriousCaller(c) => c < |s.callers| && (CallSleeps(s.callers[c]) || ApiSleeps(s.callers[c]))
  }

  function Apply(s: State, a: Action): State
    requires Enabled(s, a)
  {
    match a
    case WorkerEnters(w, pick) => WorkerLoop(s, w, pick)
    case WorkerResumes(w, pick) => WorkerLoop(WorkerWake(s, w), w, pick)
    case WorkerFinishes(w, pick) => WorkerLoop(Finish(s, w), w, pick)
    case CallbackReturns(w) => s.(workers := s.workers[w := FuncReturns(s.workers[w])])
    case CleanupReturns(w) => s.(workers := s.workers[w := Finishing(s.workers[w].ix, s.workers[w].task)])
    case SubmitterResumes(c, picks) => SubmitResume(s, c, picks).0
    case ClientResumes(c) => WaitResume(s, c).0
    case DestroyerWalks(c) => Walk(s)
    case DestroyerChecks(c) => Check(s, c)
    case DestroyerJoins(c) => s.(callers := s.callers[c := Joining(s.callers[c].next + 1)])
    case DestroyerDisposes(c) => Dispose(s, c)
    case DestroyerReleases(c) => DropReference(Disowned(s, c)).0
    case CallSubmit(c, batch, block, picks) => Submit(s, Some(c), batch, block, picks).0
    case TaskSubmits(w, batch, block, picks) => Submit(s, None, batch, block, picks).0
    case CallWait(c) => Wait(s, c).0
    case CallDestroy(c, safe) => Destroy(s, c, safe).0
    case CallRetain => Retain(s).0
    case CallRelease =>
      var (t, answer) := DropReference(s);
      if answer == Return(0) && s.held > 0 then t.(held := s.held - 1) else t
    case SpuriousWorker(w) => s.(workers := s.workers[w := WakeWorker(s.workers[w])])
    case SpuriousCaller(c) => s.(callers := s.callers[c := WakeCaller(s.callers[c])])
  }

  /** `run` is a legal sequence of steps from `s`. */
  predicate Runs(s: State, run: seq<Action>)
    decreases |run|, 0
  {
    run == [] || (Runs(s, run[..|run| - 1]) && Enabled(After(s, run[..|run| - 1]), run[|run| - 1]))
  }

  function After(s: State, run: seq<Action>): State
    requires Runs(s, run)
    decreases |run|, 1
  {
    if run == [] then s else Apply(After(s, run[..|run| - 1]), run[|run| - 1])
  }
}
