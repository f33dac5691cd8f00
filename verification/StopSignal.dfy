/** StopSignal (src/feed_handler/stop_signal.h) under any number of waiting and signalling threads, as a
    machine of atomic steps. Taking the mutex, testing the flags under it, going to sleep (which gives the
    mutex up), flipping a flag, unlocking and notifying are separate steps, so a notify can fall between
    any two of them. */
module StopSignals {
  import opened BookTypes

  /** A thread in WaitFor; `last` once its timeout has passed, when it only looks a last time. */
  datatype Waiter =
    | Outside
    | TakingLock(last: bool)
    | Testing(last: bool)     // holds the mutex
    | FallingAsleep           // holds the mutex, saw no flag
    | Asleep
    | Returned(stopping: bool)

  datatype Flag = Stop | Fatal

  /** A thread in RequestStop (Stop) or LatchFatal (Fatal). */
  datatype Signaller =
    | Quiet
    | WantsLock(flag: Flag)
    | Flipping(flag: Flag)          // holds the mutex
    | Unlocking(notifies: bool)     // holds the mutex
    | Notifying

  datatype Holder = Nobody | WaiterHolds(waiter: nat) | SignallerHolds(signaller: nat)

  datatype System = System(
    waiters: seq<Waiter>,
    signallers: seq<Signaller>,
    holder: Holder,
    stopRequested: bool,
    fatal: bool,
    /** How many RequestStop calls were told that they made the request. */
    winners: nat)

  predicate Stopping(s: System) {
    s.stopRequested || s.fatal
  }

  datatype Action =
    | StartWait(w: nat)
    | LockToTest(w: nat)
    | Test(w: nat)
    | FallAsleep(w: nat)
    | WakeSpuriously(w: nat)
    | TimeOut(w: nat)
    | StartSignal(t: nat, flag: Flag)
    | LockToFlip(t: nat)
    | Flip(t: nat)
    | Unlock(t: nat)
    | NotifyAll(t: nat)

  function Initial(waiters: nat, signallers: nat): System {
    System(seq(waiters, _ => Outside), seq(signallers, _ => Quiet), Nobody, false, false, 0)
  }

  predicate Enabled(s: System, action: Action) {
    match action
    case StartWait(w) => w < |s.waiters| && (s.waiters[w].Outside? || s.waiters[w].Returned?)
    case LockToTest(w) => w < |s.waiters| && s.waiters[w].TakingLock? && s.holder.Nobody?
    case Test(w) => w < |s.waiters| && s.waiters[w].Testing?
    case FallAsleep(w) => w < |s.waiters| && s.waiters[w].FallingAsleep?
    case WakeSpuriously(w) => w < |s.waiters| && s.waiters[w].Asleep?
    case TimeOut(w) => w < |s.waiters| && s.waiters[w].Asleep?
    case StartSignal(t, _) => t < |s.signallers| && s.signallers[t].Quiet?
    case LockToFlip(t) => t < |s.signallers| && s.signallers[t].WantsLock? && s.holder.Nobody?
    case Flip(t) => t < |s.signallers| && s.signallers[t].Flipping?
    case Unlock(t) => t < |s.signallers| && s.signallers[t].Unlocking?
    case NotifyAll(t) => t < |s.signallers| && s.signallers[t].Notifying?
  }

  function WithWaiter(s: System, w: nat, waiter: Waiter): System
    requires w < |s.waiters|
  {
    s.(waiters := s.waiters[w := waiter])
  }

  function WithSignaller(s: System, t: nat, signaller: Signaller): System
    requires t < |s.signallers|
  {
    s.(signallers := s.signallers[t := signaller])
  }

  /** Testing the flags under the mutex: a flag seen, or the timeout passed, ends the wait. */
  function Tested(s: System, w: nat): System
    requires w < |s.waiters| && s.waiters[w].Testing?
  {
    if Stopping(s) || s.waiters[w].last then WithWaiter(s, w, Returned(Stopping(s))).(holder := Nobody)
    else WithWaiter(s, w, FallingAsleep)
  }

  /** A second RequestStop finds the flag up and does not notify. */
  function Flipped(s: System, t: nat): System
    requires t < |s.signallers| && s.signallers[t].Flipping?
  {
    match s.signallers[t].flag
    case Fatal => WithSignaller(s, t, Unlocking(true)).(fatal := true)
    case Stop =>
      if s.stopRequested then WithSignaller(s, t, Unlocking(false))
      else WithSignaller(s, t, Unlocking(true)).(stopRequested := true, winners := s.winners + 1)
  }

  function Woken(waiters: seq<Waiter>): (after: seq<Waiter>)
    ensures |after| == |waiters|
    ensures forall w :: 0 <= w < |waiters| ==> after[w] == if waiters[w].Asleep? then TakingLock(false) else waiters[w]
  {
    seq(|waiters|, w requires 0 <= w < |waiters| => if waiters[w].Asleep? then TakingLock(false) else waiters[w])
  }

  function Next(s: System, action: Action): System
    requires Enabled(s, action)
  {
    match action
    case StartWait(w) => WithWaiter(s, w, TakingLock(false))
    case LockToTest(w) => WithWaiter(s, w, Testing(s.waiters[w].last)).(holder := WaiterHolds(w))
    case Test(w) => Tested(s, w)
    case FallAsleep(w) => WithWaiter(s, w, Asleep).(holder := Nobody)
    case WakeSpuriously(w) => WithWaiter(s, w, TakingLock(false))
    case TimeOut(w) => WithWaiter(s, w, TakingLock(true))
    case StartSignal(t, flag) => WithSignaller(s, t, WantsLock(flag))
    case LockToFlip(t) => WithSignaller(s, t, Flipping(s.signallers[t].flag)).(holder := SignallerHolds(t))
    case Flip(t) => Flipped(s, t)
    case Unlock(t) => WithSignaller(s, t, if s.signallers[t].notifies then Notifying else Quiet).(holder := Nobody)
    case NotifyAll(t) => WithSignaller(s, t, Quiet).(waiters := Woken(s.waiters))
  }

  function Execute(waiters: nat, signallers: nat, actions: seq<Action>): Option<System> {
    if actions == [] then Some(Initial(waiters, signallers))
    else
      var before := Execute(waiters, signallers, actions[..|actions| - 1]);
      if before.Some? && Enabled(before.value, actions[|actions| - 1]) then
        Some(Next(before.value, actions[|actions| - 1]))
      else None
  }

  // --------------------------------------------------------------------------------------- the invariant

  predicate WillNotify(signaller: Signaller) {
    signaller == Unlocking(true) || signaller.Notifying?
  }

  predicate WaiterInside(waiter: Waiter) {
    waiter.Testing? || waiter.FallingAsleep?
  }

  predicate SignallerInside(signaller: Signaller) {
    signaller.Flipping? || signaller.Unlocking?
  }

  /** At most one thread is between its lock and its unlock: the one that holds the mutex. */
  ghost predicate Exclusive(s: System) {
    && (forall w :: 0 <= w < |s.waiters| ==> (WaiterInside(s.waiters[w]) <==> s.holder == WaiterHolds(w)))
    && (forall t :: 0 <= t < |s.signallers| ==> (SignallerInside(s.signallers[t]) <==> s.holder == SignallerHolds(t)))
  }

  /** A thread about to sleep, with the mutex, saw no flag; one asleep under a flag has a notify to come. */
  ghost predicate NotLost(s: System) {
    && (forall w :: 0 <= w < |s.waiters| && s.waiters[w].FallingAsleep? ==> !Stopping(s))
    && (forall w :: 0 <= w < |s.waiters| && s.waiters[w].Asleep? && Stopping(s) ==> NotifyComing(s))
    && (forall w :: 0 <= w < |s.waiters| && s.waiters[w] == Returned(true) ==> Stopping(s))
    && s.winners == if s.stopRequested then 1 else 0
  }

  ghost predicate NotifyComing(s: System) {
    exists t :: 0 <= t < |s.signallers| && WillNotify(s.signallers[t])
  }

  ghost predicate Inv(s: System) {
    Exclusive(s) && NotLost(s)
  }

  lemma ComingStays(s: System, r: System)
    requires NotifyComing(s) && |r.signallers| == |s.signallers|
    requires forall t :: 0 <= t < |s.signallers| && WillNotify(s.signallers[t]) ==> WillNotify(r.signallers[t])
    ensures NotifyComing(r)
  {
    var t :| 0 <= t < |s.signallers| && WillNotify(s.signallers[t]);
    assert WillNotify(r.signallers[t]);
  }

  lemma FlipKeeps(s: System, t: nat)
    requires Inv(s) && t < |s.signallers| && s.signallers[t].Flipping?
    ensures Inv(Flipped(s, t))
  {
    var r := Flipped(s, t);
    assert forall w :: 0 <= w < |s.waiters| ==> !WaiterInside(s.waiters[w]);
    if r.signallers[t] == Unlocking(true) {
      assert WillNotify(r.signallers[t]);
    } else if NotifyComing(s) {
      ComingStays(s, r);
    }
  }

  lemma UnlockKeeps(s: System, t: nat)
    requires Inv(s) && t < |s.signallers| && s.signallers[t].Unlocking?
    ensures Inv(Next(s, Unlock(t)))
  {
    var r := Next(s, Unlock(t));
    if NotifyComing(s) {
      ComingStays(s, r);
    }
  }

  lemma WaiterStepKeeps(s: System, action: Action)
    requires Inv(s) && Enabled(s, action)
    requires action.StartWait? || action.LockToTest? || action.Test? || action.FallAsleep? || action.WakeSpuriously?
             || action.TimeOut?
    ensures Inv(Next(s, action))
  {
    var r := Next(s, action);
    if NotifyComing(s) {
      ComingStays(s, r);
    }
  }

  lemma StepKeeps(s: System, action: Action)
    requires Inv(s) && Enabled(s, action)
    ensures Inv(Next(s, action))
  {
    var r := Next(s, action);
    match action
    case Flip(t) => FlipKeeps(s, t);
    case Unlock(t) => UnlockKeeps(s, t);
    case NotifyAll(t) =>
      assert forall w :: 0 <= w < |r.waiters| ==> !r.waiters[w].Asleep?;
    case StartSignal(t, flag) =>
      if NotifyComing(s) { ComingStays(s, r); }
    case LockToFlip(t) =>
      if NotifyComing(s) { ComingStays(s, r); }
    case _ => WaiterStepKeeps(s, action);
  }

  lemma {:induction false} AlwaysInv(waiters: nat, signallers: nat, actions: seq<Action>)
    requires Execute(waiters, signallers, actions).Some?
    ensures Inv(Execute(waiters, signallers, actions).value)
  {
    if actions != [] {
      hide Next, Inv;
      AlwaysInv(waiters, signallers, actions[..|actions| - 1]);
      StepKeeps(Execute(waiters, signallers, actions[..|actions| - 1]).value, actions[|actions| - 1]);
    }
  }

  // --------------------------------------------------------------------------------------- what it means

  /** Nobody sleeps or is about to, and a flag is up. */
  ghost predicate AllAwake(s: System) {
    && Stopping(s)
    && forall w :: 0 <= w < |s.waiters| ==> !s.waiters[w].Asleep? && !s.waiters[w].FallingAsleep?
  }

  /** A flag that is up keeps threads from falling asleep again. */
  lemma AwakeStays(s: System, action: Action)
    requires AllAwake(s) && Enabled(s, action)
    ensures AllAwake(Next(s, action))
  {
    FlagsLatch(s, action);
  }

  lemma {:induction false} AwakeStaysAlong(waiters: nat, signallers: nat, actions: seq<Action>, more: seq<Action>)
    requires Execute(waiters, signallers, actions + more).Some?
    requires Execute(waiters, signallers, actions).Some? && AllAwake(Execute(waiters, signallers, actions).value)
    ensures AllAwake(Execute(waiters, signallers, actions + more).value)
    decreases |more|
  {
    hide Next, Enabled, AllAwake;
    if more == [] {
      assert actions + more == actions;
    } else {
      var all, front := actions + more, more[..|more| - 1];
      assert all[..|all| - 1] == actions + front;
      AwakeStaysAlong(waiters, signallers, actions, front);
      AwakeStays(Execute(waiters, signallers, actions + front).value, more[|more| - 1]);
    }
  }

  lemma {:induction false} PrefixRuns(waiters: nat, signallers: nat, actions: seq<Action>, more: seq<Action>)
    requires Execute(waiters, signallers, actions + more).Some?
    ensures Execute(waiters, signallers, actions).Some?
    decreases |more|
  {
    hide Next, Enabled;
    if more == [] {
      assert actions + more == actions;
    } else {
      var all, front := actions + more, more[..|more| - 1];
      assert all[..|all| - 1] == actions + front;
      PrefixRuns(waiters, signallers, actions, front);
    }
  }

  /** A thread notifies only when a flag is up. */
  ghost predicate NotifiesUnderAFlag(s: System) {
    forall t :: 0 <= t < |s.signallers| && WillNotify(s.signallers[t]) ==> Stopping(s)
  }

  lemma {:induction false} AlwaysUnderAFlag(waiters: nat, signallers: nat, actions: seq<Action>)
    requires Execute(waiters, signallers, actions).Some?
    ensures NotifiesUnderAFlag(Execute(waiters, signallers, actions).value)
  {
    if actions != [] {
      AlwaysUnderAFlag(waiters, signallers, actions[..|actions| - 1]);
      FlagStep(Execute(waiters, signallers, actions[..|actions| - 1]).value, actions[|actions| - 1]);
    }
  }

  lemma FlagStep(s: System, action: Action)
    requires NotifiesUnderAFlag(s) && Enabled(s, action)
    ensures NotifiesUnderAFlag(Next(s, action))
  {
    FlagsLatch(s, action);
  }

  /** No lost wakeup, in any interleaving of any number of threads: once one RequestStop or LatchFatal has
      notified, no thread is asleep or about to sleep in WaitFor, then or at any later time, whatever the
      other signalling threads are doing. */
  lemma {:induction false} NoWaiterLeftBehind(waiters: nat, signallers: nat, actions: seq<Action>, t: nat, more: seq<Action>)
    requires Execute(waiters, signallers, actions + [NotifyAll(t)] + more).Some?
    ensures AllAwake(Execute(waiters, signallers, actions + [NotifyAll(t)] + more).value)
  {
    hide Execute, Inv, AllAwake;
    var notified := actions + [NotifyAll(t)];
    PrefixRuns(waiters, signallers, notified, more);
    PrefixRuns(waiters, signallers, actions, [NotifyAll(t)]);
    AlwaysInv(waiters, signallers, actions);
    AlwaysUnderAFlag(waiters, signallers, actions);
    var s := Execute(waiters, signallers, actions).value;
    LastStep(waiters, signallers, actions, NotifyAll(t));
    NotifyWakes(s, t);
    AwakeStaysAlong(waiters, signallers, notified, more);
  }

  lemma LastStep(waiters: nat, signallers: nat, actions: seq<Action>, action: Action)
    requires Execute(waiters, signallers, actions).Some? && Execute(waiters, signallers, actions + [action]).Some?
    ensures Enabled(Execute(waiters, signallers, actions).value, action)
    ensures Execute(waiters, signallers, actions + [action]).value == Next(Execute(waiters, signallers, actions).value, action)
  {
    hide Next, Enabled;
    assert (actions + [action])[..|actions|] == actions;
  }

  lemma NotifyWakes(s: System, t: nat)
    requires Inv(s) && NotifiesUnderAFlag(s) && Enabled(s, NotifyAll(t))
    ensures AllAwake(Next(s, NotifyAll(t)))
  {
  }

  /** The same without naming the notify: a thread can only sleep under a flag while some signaller is still
      to notify. */
  lemma {:induction false} SleepersHaveANotifyComing(waiters: nat, signallers: nat, actions: seq<Action>)
    requires Execute(waiters, signallers, actions).Some? && Stopping(Execute(waiters, signallers, actions).value)
    ensures var s := Execute(waiters, signallers, actions).value;
            NotifyComing(s) || AllAwake(s)
  {
    hide Execute;
    AlwaysInv(waiters, signallers, actions);
  }

  /** WaitFor says true only under a flag, and exactly the first RequestStop says it made the request. */
  lemma {:induction false} AnswersAreTrue(waiters: nat, signallers: nat, actions: seq<Action>)
    requires Execute(waiters, signallers, actions).Some?
    ensures var s := Execute(waiters, signallers, actions).value;
            && (forall w :: 0 <= w < |s.waiters| && s.waiters[w] == Returned(true) ==> Stopping(s))
            && s.winners == if s.stopRequested then 1 else 0
  {
    hide Execute;
    AlwaysInv(waiters, signallers, actions);
  }

  /** What looking at the flags decides, in every run: true exactly under a flag, false exactly without one
      once the timeout has passed, and otherwise the thread goes to sleep. */
  lemma {:induction false} LookDecides(waiters: nat, signallers: nat, actions: seq<Action>, w: nat)
    requires Execute(waiters, signallers, actions + [Test(w)]).Some?
    ensures Execute(waiters, signallers, actions).Some?
    ensures var s, r := Execute(waiters, signallers, actions).value, Execute(waiters, signallers, actions + [Test(w)]).value;
            && w < |s.waiters| == |r.waiters| && s.waiters[w].Testing?
            && r.stopRequested == s.stopRequested && r.fatal == s.fatal
            && (r.waiters[w] == Returned(true) <==> s.stopRequested || s.fatal)
            && (r.waiters[w] == Returned(false) <==> !s.stopRequested && !s.fatal && s.waiters[w].last)
            && (r.waiters[w] == FallingAsleep <==> !s.stopRequested && !s.fatal && !s.waiters[w].last)
  {
    hide Execute;
    PrefixRuns(waiters, signallers, actions, [Test(w)]);
    LastStep(waiters, signallers, actions, Test(w));
  }

  /** Nothing else ends a wait. */
  lemma OnlyALookReturns(s: System, action: Action, w: nat)
    requires Enabled(s, action) && w < |s.waiters| && action != Test(w)
    ensures w < |Next(s, action).waiters|
    ensures Next(s, action).waiters[w].Returned? ==> s.waiters[w] == Next(s, action).waiters[w]
  {
    match action
    case Test(v) => assert Tested(s, v).waiters[w] == s.waiters[w];
    case _ =>
  }

  /** A flag is up, and the thread neither sleeps, nor is about to, nor was told otherwise. */
  ghost predicate WillBeTold(s: System, w: nat) {
    && Stopping(s) && w < |s.waiters|
    && !s.waiters[w].Asleep? && !s.waiters[w].FallingAsleep? && s.waiters[w] != Returned(false)
  }

  lemma StillToBeTold(s: System, action: Action, w: nat)
    requires WillBeTold(s, w) && Enabled(s, action)
    ensures WillBeTold(Next(s, action), w)
  {
    FlagsLatch(s, action);
  }

  lemma {:induction false} ToldAlong(waiters: nat, signallers: nat, actions: seq<Action>, more: seq<Action>, w: nat)
    requires Execute(waiters, signallers, actions + more).Some?
    requires Execute(waiters, signallers, actions).Some? && WillBeTold(Execute(waiters, signallers, actions).value, w)
    ensures WillBeTold(Execute(waiters, signallers, actions + more).value, w)
    decreases |more|
  {
    hide Next, Enabled, WillBeTold;
    if more == [] {
      assert actions + more == actions;
    } else {
      var all, front := actions + more, more[..|more| - 1];
      assert all[..|all| - 1] == actions + front;
      ToldAlong(waiters, signallers, actions, front, w);
      StillToBeTold(Execute(waiters, signallers, actions + front).value, more[|more| - 1], w);
    }
  }

  /** A wait that starts with a flag up never sleeps and can only return true, whatever the other threads do. */
  lemma {:induction false} WaitUnderAFlagSaysTrue(waiters: nat, signallers: nat, actions: seq<Action>, w: nat, more: seq<Action>)
    requires Execute(waiters, signallers, actions).Some? && Stopping(Execute(waiters, signallers, actions).value)
    requires Execute(waiters, signallers, actions + [StartWait(w)] + more).Some?
    ensures WillBeTold(Execute(waiters, signallers, actions + [StartWait(w)] + more).value, w)
  {
    hide Execute;
    PrefixRuns(waiters, signallers, actions + [StartWait(w)], more);
    LastStep(waiters, signallers, actions, StartWait(w));
    ToldAlong(waiters, signallers, actions + [StartWait(w)], more, w);
  }

  /** So can every wait that one notify finds unfinished, asleep or not, whatever the other threads do. */
  lemma {:induction false} NotifiedWaitSaysTrue(waiters: nat, signallers: nat, actions: seq<Action>, t: nat, w: nat, more: seq<Action>)
    requires Execute(waiters, signallers, actions + [NotifyAll(t)] + more).Some?
    requires Execute(waiters, signallers, actions).Some?
    requires var s := Execute(waiters, signallers, actions).value; w < |s.waiters| && s.waiters[w] != Returned(false)
    ensures WillBeTold(Execute(waiters, signallers, actions + [NotifyAll(t)] + more).value, w)
  {
    hide Execute, Inv, AllAwake;
    PrefixRuns(waiters, signallers, actions + [NotifyAll(t)], more);
    AlwaysInv(waiters, signallers, actions);
    AlwaysUnderAFlag(waiters, signallers, actions);
    LastStep(waiters, signallers, actions, NotifyAll(t));
    NotifyTells(Execute(waiters, signallers, actions).value, t, w);
    ToldAlong(waiters, signallers, actions + [NotifyAll(t)], more, w);
  }

  lemma NotifyTells(s: System, t: nat, w: nat)
    requires Inv(s) && NotifiesUnderAFlag(s) && Enabled(s, NotifyAll(t))
    requires w < |s.waiters| && s.waiters[w] != Returned(false)
    ensures WillBeTold(Next(s, NotifyAll(t)), w)
  {
    NotifyWakes(s, t);
  }

  /** Both flags latch: no step takes one down. */
  lemma FlagsLatch(s: System, action: Action)
    requires Enabled(s, action)
    ensures s.stopRequested ==> Next(s, action).stopRequested
    ensures s.fatal ==> Next(s, action).fatal
  {
    match action
    case Test(w) => assert Tested(s, w).stopRequested == s.stopRequested;
    case _ =>
  }
}
