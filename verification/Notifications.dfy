/** The protocol by which resolver threads hand finished jobs to the selector (selector_notify_block, pselect and
    handle_block_notifications in utils/selector.c), as a state machine over the steps of all threads. The
    signal is blocked everywhere but inside pselect. */
module Notifications {
  import opened Bytes

  /** Where a resolver thread is in selector_notify_block. Each thread notifies once; its identifier also names
      its job. */
  datatype Pc = Resolving | HasJob | InLock | Linked | Unlocked | Finished | OutOfMemory

  datatype Thread = Thread(fd: int, pc: Pc)

  datatype Owner = Worker(t: nat) | Main

  /** Where the selector's thread is. Draining carries the jobs its cursor has still to visit. */
  datatype Selector = Running | Sleeping | Dispatching | Locking | Draining(rest: seq<nat>) | Cleared

  datatype State = State(
    threads: map<nat, Thread>,
    mutex: Option<Owner>,
    jobs: seq<nat>,
    signal: bool,
    selector: Selector,
    fds: set<int>,
    delivered: seq<nat>,
    dropped: seq<nat>)

  datatype Action =
    // a request handler starts a resolver
    | Spawn(t: nat, fd: int)
    // a resolver
    | Alloc(t: nat, ok: bool)
    | Lock(t: nat)
    | Link(t: nat)
    | Unlock(t: nat)
    | Kill(t: nat)
    // the selector: handlers and the sweep may register and unregister anything
    | ChangeFds(fds: set<int>)
    | Sleep
    | WakeBySignal
    | WakeByReadiness(signalLeft: bool)
    | WakeByError
    | DispatchDone
    | LockJobs
    | Deliver(fdsAfter: set<int>)
    | Clear
    | UnlockJobs

  predicate At(s: State, t: nat, pc: Pc) {
    t in s.threads && s.threads[t].pc == pc
  }

  predicate Enabled(s: State, a: Action) {
    match a
    case Spawn(t, fd) => s.selector == Dispatching && t !in s.threads
    case Alloc(t, ok) => At(s, t, Resolving)
    case Lock(t) => At(s, t, HasJob) && s.mutex == None
    case Link(t) => At(s, t, InLock)
    case Unlock(t) => At(s, t, Linked)
    case Kill(t) => At(s, t, Unlocked)
    case ChangeFds(_) => s.selector == Running || s.selector == Dispatching
    case Sleep => s.selector == Running
    case WakeBySignal => s.selector == Sleeping && s.signal
    // ready descriptors or the timeout; a signal that arrived meanwhile may or may not be consumed
    case WakeByReadiness(left) => s.selector == Sleeping && (left ==> s.signal)
    case WakeByError => s.selector == Sleeping
    case DispatchDone => s.selector == Dispatching
    case LockJobs => s.selector == Locking && s.mutex == None
    case Deliver(_) => s.selector.Draining? && s.selector.rest != [] && s.selector.rest[0] in s.threads
    case Clear => s.selector == Draining([])
    case UnlockJobs => s.selector == Cleared
  }

  function Move(s: State, t: nat, pc: Pc): State
    requires t in s.threads
  {
    s.(threads := s.threads[t := s.threads[t].(pc := pc)])
  }

  function Do(s: State, a: Action): State
    requires Enabled(s, a)
  {
    match a
    case Spawn(t, fd) => s.(threads := s.threads[t := Thread(fd, Resolving)])
    case Alloc(t, ok) => Move(s, t, if ok then HasJob else OutOfMemory)
    case Lock(t) => Move(s, t, InLock).(mutex := Some(Worker(t)))
    case Link(t) => Move(s, t, Linked).(jobs := [t] + s.jobs)
    case Unlock(t) => Move(s, t, Unlocked).(mutex := None)
    case Kill(t) => Move(s, t, Finished).(signal := true)
    case ChangeFds(fds) => s.(fds := fds)
    case Sleep => s.(selector := Sleeping)
    case WakeBySignal => s.(selector := Locking, signal := false)
    case WakeByReadiness(left) => s.(selector := Dispatching, signal := left)
    case WakeByError => s.(selector := Running)
    case DispatchDone => s.(selector := Locking)
    case LockJobs => s.(selector := Draining(s.jobs), mutex := Some(Main))
    case Deliver(fdsAfter) =>
      var t := s.selector.rest[0];
      var s' := s.(selector := Draining(s.selector.rest[1..]));
      if s.threads[t].fd in s.fds then s'.(delivered := s.delivered + [t], fds := fdsAfter)
      else s'.(dropped := s.dropped + [t])
    case Clear => s.(selector := Cleared, jobs := [])
    case UnlockJobs => s.(selector := Running, mutex := None)
  }

  const START := State(map[], None, [], false, Running, {}, [], [])

  ghost predicate Run(s: State, actions: seq<Action>, end: State)
    decreases |actions|
  {
    if actions == [] then end == s
    else Enabled(s, actions[0]) && Run(Do(s, actions[0]), actions[1..], end)
  }

  // ---------- Invariants ----------

  predicate Enqueued(s: State, t: nat) {
    At(s, t, Linked) || At(s, t, Unlocked) || At(s, t, Finished)
  }

  /** The jobs not yet dealt with. */
  function Outstanding(s: State): seq<nat> {
    if s.selector.Draining? then s.selector.rest else s.jobs
  }

  /** How often a job is waiting, delivered or dropped. */
  ghost function Tally(s: State, t: nat): nat {
    multiset(Outstanding(s))[t] + multiset(s.delivered)[t] + multiset(s.dropped)[t]
  }

  /** Each enqueued job is accounted for exactly once, no other job at all. */
  ghost predicate Accounted(s: State) {
    forall t: nat :: Tally(s, t) == if Enqueued(s, t) then 1 else 0
  }

  ghost predicate MutexHeld(s: State) {
    && (forall t :: At(s, t, InLock) || At(s, t, Linked) <==> s.mutex == Some(Worker(t)))
    && (s.mutex == Some(Main) <==> s.selector.Draining? || s.selector.Cleared?)
    && (s.selector.Cleared? ==> s.jobs == [])
  }

  ghost predicate AboutToKill(s: State) {
    exists t :: At(s, t, Linked) || At(s, t, Unlocked)
  }

  /** A job waits while the selector is on its way into pselect, or asleep in it, only if the signal is pending or
      some thread has yet to send it. */
  ghost predicate NoLostWakeup(s: State) {
    (s.selector == Running || s.selector == Sleeping) && s.jobs != [] ==> s.signal || AboutToKill(s)
  }

  ghost predicate Inv(s: State) {
    Accounted(s) && MutexHeld(s) && NoLostWakeup(s)
  }

  lemma MutexStep(s: State, a: Action)
    requires MutexHeld(s) && Enabled(s, a)
    ensures MutexHeld(Do(s, a))
  {
  }

  /** Linking a job adds it to the list; the other steps only move jobs about. */
  lemma TallyStep(s: State, a: Action, t: nat)
    requires MutexHeld(s) && Enabled(s, a)
    ensures Tally(Do(s, a), t) == Tally(s, t) + if a == Link(t) then 1 else 0
  {
    if a.Link? {
      LinkTally(s, a.t, t);
    } else if a.Deliver? {
      DeliverTally(s, a, t);
    } else {
      OtherTally(s, a, t);
    }
  }

  lemma LinkTally(s: State, u: nat, t: nat)
    requires MutexHeld(s) && Enabled(s, Link(u))
    ensures Tally(Do(s, Link(u)), t) == Tally(s, t) + if u == t then 1 else 0
  {
    assert s.mutex == Some(Worker(u)) && !s.selector.Draining?;
    assert Outstanding(Do(s, Link(u))) == [u] + Outstanding(s);
  }

  lemma DeliverTally(s: State, a: Action, t: nat)
    requires a.Deliver? && Enabled(s, a)
    ensures Tally(Do(s, a), t) == Tally(s, t)
  {
    var rest := s.selector.rest;
    assert rest == [rest[0]] + rest[1..];
    if s.threads[rest[0]].fd in s.fds {
      assert Do(s, a).delivered == s.delivered + [rest[0]];
    } else {
      assert Do(s, a).dropped == s.dropped + [rest[0]];
    }
  }

  lemma OtherTally(s: State, a: Action, t: nat)
    requires !a.Link? && !a.Deliver? && MutexHeld(s) && Enabled(s, a)
    ensures Tally(Do(s, a), t) == Tally(s, t)
  {
    var s' := Do(s, a);
    assert Outstanding(s') == Outstanding(s) && s'.delivered == s.delivered && s'.dropped == s.dropped;
  }

  lemma EnqueuedStep(s: State, a: Action, t: nat)
    requires Enabled(s, a)
    ensures a == Link(t) ==> !Enqueued(s, t)
    ensures Enqueued(Do(s, a), t) <==> Enqueued(s, t) || a == Link(t)
  {
  }

  lemma AccountedStep(s: State, a: Action)
    requires Accounted(s) && MutexHeld(s) && Enabled(s, a)
    ensures Accounted(Do(s, a))
  {
    hide Tally, Enqueued, Do, MutexHeld;
    forall t: nat ensures Tally(Do(s, a), t) == if Enqueued(Do(s, a), t) then 1 else 0 {
      TallyStep(s, a, t);
      EnqueuedStep(s, a, t);
    }
  }

  lemma WakeupStep(s: State, a: Action)
    requires NoLostWakeup(s) && MutexHeld(s) && Enabled(s, a)
    ensures NoLostWakeup(Do(s, a))
  {
    var s' := Do(s, a);
    if (s'.selector == Running || s'.selector == Sleeping) && s'.jobs != [] && !s'.signal {
      if a.Link? || a.Unlock? {
        assert At(s', a.t, Linked) || At(s', a.t, Unlocked);
      } else {
        var t :| At(s, t, Linked) || At(s, t, Unlocked);
        assert At(s', t, Linked) || At(s', t, Unlocked);
      }
    }
  }

  lemma {:induction false} RunKeepsInv(s: State, actions: seq<Action>, end: State)
    requires Inv(s) && Run(s, actions, end)
    ensures Inv(end)
    decreases |actions|
  {
    if actions != [] {
      MutexStep(s, actions[0]);
      AccountedStep(s, actions[0]);
      WakeupStep(s, actions[0]);
      RunKeepsInv(Do(s, actions[0]), actions[1..], end);
    }
  }

  // ---------- What the runs guarantee ----------

  /** No lost wakeup, under every interleaving. */
  lemma SleepingWithJobsIsWoken(actions: seq<Action>, s: State)
    requires Run(START, actions, s) && s.selector == Sleeping && s.jobs != []
    ensures s.signal || exists t :: At(s, t, Linked) || At(s, t, Unlocked)
  {
    RunKeepsInv(START, actions, s);
  }

  /** Exactly once, under every interleaving: a job is never delivered twice nor both delivered and dropped; a
      thread that has notified has its job waiting, delivered or dropped; and no other job ever shows up. */
  lemma ExactlyOnce(actions: seq<Action>, s: State, t: nat)
    requires Run(START, actions, s)
    ensures multiset(s.delivered)[t] + multiset(s.dropped)[t] <= 1
    ensures t in s.delivered || t in s.dropped ==> t in s.threads && Enqueued(s, t) && t !in Outstanding(s)
    ensures At(s, t, Finished) ==> t in s.delivered || t in s.dropped || t in Outstanding(s)
  {
    RunKeepsInv(START, actions, s);
    assert Tally(s, t) == if Enqueued(s, t) then 1 else 0;
    assert t in s.delivered <==> multiset(s.delivered)[t] > 0;
    assert t in s.dropped <==> multiset(s.dropped)[t] > 0;
    assert t in Outstanding(s) <==> multiset(Outstanding(s))[t] > 0;
  }

  /** Step k of a run takes up job t, in state mid; whether the descriptor it is for was then registered. */
  ghost predicate TakenUp(actions: seq<Action>, k: nat, mid: State, t: nat, registered: bool) {
    && k < |actions| && Run(START, actions[..k], mid) && Takes(mid, actions[k], t)
    && registered == (mid.threads[t].fd in mid.fds)
  }

  predicate Takes(s: State, a: Action, t: nat) {
    a.Deliver? && Enabled(s, a) && t == s.selector.rest[0]
  }

  /** What the two lists mean, under every interleaving: a job is delivered iff it was taken up when its descriptor was
      registered, whatever has been unregistered since, and dropped iff it was taken up when its descriptor was not. */
  lemma {:induction false} DeliveredIffRegistered(actions: seq<Action>, s: State, t: nat)
    requires Run(START, actions, s)
    ensures t in s.delivered <==> exists k: nat, mid :: TakenUp(actions, k, mid, t, true)
    ensures t in s.dropped <==> exists k: nat, mid :: TakenUp(actions, k, mid, t, false)
    decreases |actions|
  {
    hide Do, Enabled, Takes, TakenUp;
    if actions == [] {
      NothingTakenUp(t);
    } else {
      var n := |actions| - 1;
      assert actions[..n] + [actions[n]] == actions;
      var mid := RunLast(START, actions[..n], actions[n], s);
      DeliveredIffRegistered(actions[..n], mid, t);
      TakenUpLast(actions[..n], mid, actions[n], t, true);
      TakenUpLast(actions[..n], mid, actions[n], t, false);
      LastTaken(mid, actions[n], t);
    }
  }

  lemma NothingTakenUp(t: nat)
    ensures forall k: nat, mid, registered :: !TakenUp([], k, mid, t, registered)
  {
  }

  lemma {:induction false} RunAppend(s: State, xs: seq<Action>, mid: State, ys: seq<Action>, end: State)
    requires Run(s, xs, mid) && Run(mid, ys, end)
    ensures Run(s, xs + ys, end)
    decreases |xs|
  {
    if xs == [] {
      assert xs + ys == ys;
    } else {
      assert (xs + ys)[1..] == xs[1..] + ys;
      RunAppend(Do(s, xs[0]), xs[1..], mid, ys, end);
    }
  }

  lemma {:induction false} RunLast(s: State, actions: seq<Action>, a: Action, end: State) returns (mid: State)
    requires Run(s, actions + [a], end)
    ensures Run(s, actions, mid) && Enabled(mid, a) && end == Do(mid, a)
    decreases |actions|
  {
    hide Do, Enabled;
    if actions == [] {
      assert [] + [a] == [a];
      mid := s;
    } else {
      assert (actions + [a])[1..] == actions[1..] + [a];
      mid := RunLast(Do(s, actions[0]), actions[1..], a, end);
    }
  }

  lemma {:induction false} RunDetermined(s: State, actions: seq<Action>, x: State, y: State)
    requires Run(s, actions, x) && Run(s, actions, y)
    ensures x == y
    decreases |actions|
  {
    hide Do, Enabled;
    if actions != [] {
      RunDetermined(Do(s, actions[0]), actions[1..], x, y);
    }
  }

  lemma TakenUpLast(before: seq<Action>, mid: State, a: Action, t: nat, registered: bool)
    requires Run(START, before, mid) && Enabled(mid, a)
    ensures (exists k: nat, m :: TakenUp(before + [a], k, m, t, registered))
       <==> (exists k: nat, m :: TakenUp(before, k, m, t, registered))
            || (Takes(mid, a, t) && registered == (mid.threads[t].fd in mid.fds))
  {
    var all, n := before + [a], |before|;
    assert all[..n] == before;
    forall k: nat, m | TakenUp(all, k, m, t, registered)
      ensures k < n ==> TakenUp(before, k, m, t, registered)
      ensures k == n ==> m == mid
    {
      if k < n {
        assert all[..k] == before[..k] && all[k] == before[k];
      } else {
        RunDetermined(START, before, m, mid);
      }
    }
    forall k: nat, m | TakenUp(before, k, m, t, registered) ensures TakenUp(all, k, m, t, registered) {
      assert all[..k] == before[..k] && all[k] == before[k];
    }
    if Takes(mid, a, t) && registered == (mid.threads[t].fd in mid.fds) {
      assert TakenUp(all, n, mid, t, registered);
    }
  }

  lemma LastTaken(s: State, a: Action, t: nat)
    requires Enabled(s, a)
    ensures Takes(s, a, t) ==> t in s.threads
    ensures t in Do(s, a).delivered <==> t in s.delivered || (Takes(s, a, t) && s.threads[t].fd in s.fds)
    ensures t in Do(s, a).dropped <==> t in s.dropped || (Takes(s, a, t) && s.threads[t].fd !in s.fds)
  {
  }

  // ---------- Jobs that wait get done ----------

  /** A job is dealt with: its callback was made, or its descriptor was gone. */
  predicate Settled(s: State, t: nat) {
    t in s.delivered || t in s.dropped
  }

  /** On its way round its loop the selector still has the job before it; past the list it has dealt with it. */
  predicate OnTheWay(s: State, t: nat) {
    Settled(s, t) || match s.selector
      case Sleeping => t in s.jobs
      case Dispatching => t in s.jobs
      case Locking => t in s.jobs
      case Draining(rest) => t in rest
      case _ => false
  }

  lemma OnTheWayStep(s: State, a: Action, t: nat)
    requires Enabled(s, a) && !a.WakeByError? && OnTheWay(s, t)
    ensures OnTheWay(Do(s, a), t)
  {
    if s.selector.Draining? && a.Deliver? {
      var rest := s.selector.rest;
      assert rest == [rest[0]] + rest[1..];
      LastTaken(s, a, t);
    }
  }

  lemma {:induction false} OnTheWayRun(s: State, actions: seq<Action>, end: State, t: nat)
    requires Run(s, actions, end) && WakeByError !in actions && OnTheWay(s, t)
    ensures OnTheWay(end, t)
    decreases |actions|
  {
    hide Do, Enabled, OnTheWay;
    if actions != [] {
      OnTheWayStep(s, actions[0], t);
      OnTheWayRun(Do(s, actions[0]), actions[1..], end, t);
    }
  }

  /** However the threads interleave, whatever wakes the selector up and whatever callbacks do to the registrations:
      once the selector is back from a pselect that did not fail, every job that waited while it slept has been dealt
      with, exactly once. */
  lemma {:induction false} BackMeansSettled(actions: seq<Action>, s: State, more: seq<Action>, end: State)
    requires Run(START, actions, s) && s.selector == Sleeping
    requires Run(s, more, end) && WakeByError !in more && end.selector == Running
    ensures forall t :: t in s.jobs ==> multiset(end.delivered)[t] + multiset(end.dropped)[t] == 1
  {
    RunAppend(START, actions, s, more, end);
    hide Do, Enabled, Run;
    forall t | t in s.jobs ensures multiset(end.delivered)[t] + multiset(end.dropped)[t] == 1 {
      assert OnTheWay(s, t);
      OnTheWayRun(s, more, end, t);
      ExactlyOnce(actions + more, end, t);
      assert t in multiset(end.delivered) || t in multiset(end.dropped);
    }
  }

  /** Delivering the rest of the list, when callbacks leave the registrations alone. */
  lemma {:induction false} DrainRest(s: State) returns (actions: seq<Action>, end: State)
    requires Inv(s) && s.selector.Draining?
    ensures Run(s, actions, end) && Inv(end) && end.selector == Draining([])
    ensures end.threads == s.threads && end.mutex == s.mutex
    ensures forall t :: t in s.selector.rest ==> t in end.delivered || t in end.dropped
    ensures forall t :: t in s.delivered || t in s.dropped ==> t in end.delivered || t in end.dropped
    decreases |s.selector.rest|
  {
    var rest := s.selector.rest;
    if rest == [] {
      actions, end := [], s;
    } else {
      assert multiset(rest)[rest[0]] > 0;
      assert Tally(s, rest[0]) > 0;
      assert Enqueued(s, rest[0]);
      var a := Deliver(s.fds);
      var s' := Do(s, a);
      MutexStep(s, a);
      AccountedStep(s, a);
      actions, end := DrainRest(s');
      forall t | t in rest ensures t in end.delivered || t in end.dropped {
        if t == rest[0] {
          assert t in s'.delivered || t in s'.dropped;
        } else {
          assert t in rest[1..];
        }
      }
      actions := [a] + actions;
      assert actions[1..] == actions[1..];
    }
  }

  /** Why the wakeup matters: in any reachable state where every thread is done notifying and jobs wait while the
      selector sleeps, the signal alone can take the selector through to the end of the list, without any descriptor
      becoming ready. */
  lemma {:induction false} WaitingJobsGetDone(actions: seq<Action>, s: State) returns (more: seq<Action>, end: State)
    requires Run(START, actions, s) && s.selector == Sleeping && s.jobs != []
    requires forall t :: t in s.threads ==> s.threads[t].pc == Finished || s.threads[t].pc == OutOfMemory
    ensures more != [] && more[0] == WakeBySignal && Run(s, more, end)
    ensures end.selector == Running && end.jobs == []
    ensures forall t :: t in s.jobs ==> t in end.delivered || t in end.dropped
  {
    hide Run, Inv, NoLostWakeup, MutexHeld, Accounted, Enabled, Do;
    var s1 := WakeAndLock(actions, s);
    var drain, s2 := DrainRest(s1);
    RunAppend(s, [WakeBySignal, LockJobs], s1, drain, s2);
    end := ClearAndUnlock(s2);
    RunAppend(s, [WakeBySignal, LockJobs] + drain, s2, [Clear, UnlockJobs], end);
    more := [WakeBySignal, LockJobs] + drain + [Clear, UnlockJobs];
  }

  lemma WakeAndLock(actions: seq<Action>, s: State) returns (s1: State)
    requires Run(START, actions, s) && s.selector == Sleeping && s.jobs != []
    requires forall t :: t in s.threads ==> s.threads[t].pc == Finished || s.threads[t].pc == OutOfMemory
    ensures Run(s, [WakeBySignal, LockJobs], s1) && Inv(s1) && s1.selector == Draining(s.jobs)
  {
    hide Run;
    assert Inv(START);
    RunKeepsInv(START, actions, s);
    MutexIsFree(s);
    s1 := RunTwo(s, WakeBySignal, LockJobs);
    RunKeepsInv(s, [WakeBySignal, LockJobs], s1);
  }

  lemma ClearAndUnlock(s: State) returns (end: State)
    requires s.selector == Draining([])
    ensures Run(s, [Clear, UnlockJobs], end)
    ensures end.selector == Running && end.jobs == [] && end.delivered == s.delivered && end.dropped == s.dropped
  {
    end := RunTwo(s, Clear, UnlockJobs);
  }

  lemma MutexIsFree(s: State)
    requires MutexHeld(s) && NoLostWakeup(s) && s.selector == Sleeping
    requires forall t :: t in s.threads ==> s.threads[t].pc == Finished || s.threads[t].pc == OutOfMemory
    ensures s.mutex == None && (s.jobs != [] ==> s.signal)
  {
    forall t ensures s.mutex != Some(Worker(t)) {
      assert !At(s, t, InLock) && !At(s, t, Linked);
    }
    OwnerCases(s.mutex);
  }

  lemma OwnerCases(m: Option<Owner>)
    ensures m == None || m == Some(Main) || exists t :: m == Some(Worker(t))
  {
    match m
    case Some(Worker(t)) => assert m == Some(Worker(t));
    case _ =>
  }

  lemma RunTwo(s: State, a: Action, b: Action) returns (end: State)
    requires Enabled(s, a) && Enabled(Do(s, a), b)
    ensures end == Do(Do(s, a), b) && Run(s, [a, b], end)
  {
    end := Do(Do(s, a), b);
    assert [a, b][1..] == [b] && [b][1..] == [];
    assert Run(Do(s, a), [b], end);
  }
}
