/**
 A condition variable seen through the threads that sleep on it: `signal` wakes one sleeper
 if there is one, `broadcast` wakes them all. Which sleeper a signal wakes is the scheduler's
 choice, given as `pick`; a `pick` that names no sleeper falls back on some sleeper, so every
 number is a legal choice and every choice is covered.
 */
module ConditionVariable {
  import opened Counting

  function AnySleeper<T>(ts: seq<T>, asleep: T -> bool): (i: nat)
    requires Count(ts, asleep) > 0
    ensures i < |ts| && asleep(ts[i])
  {
    var last := |ts| - 1;
    if asleep(ts[last]) then last else AnySleeper(ts[..last], asleep)
  }

  function Chosen<T>(ts: seq<T>, asleep: T -> bool, pick: nat): (i: nat)
    requires Count(ts, asleep) > 0
    ensures i < |ts| && asleep(ts[i])
    ensures pick < |ts| && asleep(ts[pick]) ==> i == pick
  {
    if pick < |ts| && asleep(ts[pick]) then pick else AnySleeper(ts, asleep)
  }

  function Signal<T>(ts: seq<T>, asleep: T -> bool, wake: T -> T, pick: nat): seq<T> {
    if Count(ts, asleep) == 0 then ts
    else var i := Chosen(ts, asleep, pick); ts[i := wake(ts[i])]
  }

  function Head(picks: seq<nat>): nat {
    if picks == [] then 0 else picks[0]
  }

  function Tail(picks: seq<nat>): seq<nat> {
    if picks == [] then [] else picks[1..]
  }

  function SignalTimes<T>(ts: seq<T>, asleep: T -> bool, wake: T -> T, picks: seq<nat>, k: nat): seq<T>
    decreases k
  {
    if k == 0 then ts
    else SignalTimes(Signal(ts, asleep, wake, Head(picks)), asleep, wake, Tail(picks), k - 1)
  }

  /** One turn of the signalling loop. */
  lemma SignalOnce<T>(ts: seq<T>, asleep: T -> bool, wake: T -> T, picks: seq<nat>, k: nat)
    ensures SignalTimes(ts, asleep, wake, picks, 0) == ts
    ensures SignalTimes(ts, asleep, wake, picks, k + 1)
         == SignalTimes(Signal(ts, asleep, wake, Head(picks)), asleep, wake, Tail(picks), k)
  {}

  /** `us` is `ts` with some sleepers woken and nothing else changed. */
  ghost predicate OnlyWoken<T>(ts: seq<T>, us: seq<T>, asleep: T -> bool, wake: T -> T) {
    && |us| == |ts|
    && forall i | 0 <= i < |ts| :: us[i] == ts[i] || (asleep(ts[i]) && us[i] == wake(ts[i]))
  }

  function Broadcast<T>(ts: seq<T>, asleep: T -> bool, wake: T -> T): (us: seq<T>)
    ensures OnlyWoken(ts, us, asleep, wake)
    ensures forall i | 0 <= i < |ts| && asleep(ts[i]) :: us[i] == wake(ts[i])
  {
    seq(|ts|, i requires 0 <= i < |ts| => if asleep(ts[i]) then wake(ts[i]) else ts[i])
  }

  lemma SignalWakes<T>(ts: seq<T>, asleep: T -> bool, wake: T -> T, woken: T -> bool, pick: nat)
    requires forall t | asleep(t) :: !asleep(wake(t)) && woken(wake(t)) && !woken(t)
    ensures var us := Signal(ts, asleep, wake, pick);
      && OnlyWoken(ts, us, asleep, wake)
      && Count(us, asleep) == (if Count(ts, asleep) == 0 then 0 else Count(ts, asleep) - 1)
      && Count(us, woken) == Count(ts, woken) + Count(ts, asleep) - Count(us, asleep)
  {
    if Count(ts, asleep) > 0 {
      var i := Chosen(ts, asleep, pick);
      CountUpdate(ts, i, wake(ts[i]), asleep);
      CountUpdate(ts, i, wake(ts[i]), woken);
    }
  }

  lemma OnlyWokenTwice<T>(ts: seq<T>, us: seq<T>, vs: seq<T>, asleep: T -> bool, wake: T -> T)
    requires forall t | asleep(t) :: !asleep(wake(t))
    requires OnlyWoken(ts, us, asleep, wake) && OnlyWoken(us, vs, asleep, wake)
    ensures OnlyWoken(ts, vs, asleep, wake)
  {}

  lemma NoneWoken<T>(ts: seq<T>, asleep: T -> bool, wake: T -> T)
    ensures OnlyWoken(ts, ts, asleep, wake)
  {}

  /** Repeated signalling wakes only sleepers, and wakes `k` of them while that many sleep. */
  lemma {:induction false} SignalTimesWakes<T>(ts: seq<T>, asleep: T -> bool, wake: T -> T, woken: T -> bool, picks: seq<nat>, k: nat)
    requires forall t | asleep(t) :: !asleep(wake(t)) && woken(wake(t)) && !woken(t)
    ensures var us := SignalTimes(ts, asleep, wake, picks, k);
      && OnlyWoken(ts, us, asleep, wake)
      && Count(us, asleep) == (if Count(ts, asleep) <= k then 0 else Count(ts, asleep) - k)
      && Count(us, woken) == Count(ts, woken) + Count(ts, asleep) - Count(us, asleep)
    decreases k
  {
    hide Signal, OnlyWoken, Head, Tail;
    if k == 0 {
      NoneWoken(ts, asleep, wake);
    } else {
      var us := Signal(ts, asleep, wake, Head(picks));
      SignalWakes(ts, asleep, wake, woken, Head(picks));
      SignalTimesWakes(us, asleep, wake, woken, Tail(picks), k - 1);
      OnlyWokenTwice(ts, us, SignalTimes(us, asleep, wake, Tail(picks), k - 1), asleep, wake);
    }
  }
}
