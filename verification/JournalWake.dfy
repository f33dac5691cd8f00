/** How the connection thread wakes the journal thread (Wake and WaitForEvent in
    src/feed_handler/journal_thread.cpp), as a machine of atomic steps: pushing, reading the sleeping hint,
    passing through the mutex, notifying, popping, and going to sleep (which gives the mutex up) are
    separate steps. Memory is sequentially consistent. */
module JournalWake {
  import opened BookTypes

  /** Frames only notify when the hint says the journal thread sleeps; control events always do. */
  datatype Kind = FrameQueued | ControlQueued

  datatype Producer = Idle | ReadingHint | TakingMutex | Notifying

  datatype Consumer =
    | Working
    | FoundEmpty        // the first pop failed
    | Popping           // holds the mutex, the hint is up
    | FallingAsleep     // holds the mutex, popped nothing
    | Asleep
    | Waking            // notified or timed out, wants the mutex back

  datatype System = System(queue: seq<Kind>, producer: Producer, consumer: Consumer, sleeping: bool)

  const INITIAL := System([], Idle, Working, false)

  datatype Action =
    | Push(kind: Kind)
    | ReadHint
    | PassMutex
    | Notify
    | TryPop
    | LockMutex
    | PopLocked
    | FallAsleep
    | TimeOut
    | LockAgain

  predicate MutexHeld(consumer: Consumer) {
    consumer.Popping? || consumer.FallingAsleep?
  }

  predicate Enabled(s: System, action: Action) {
    match action
    case Push(_) => s.producer.Idle?
    case ReadHint => s.producer.ReadingHint?
    case PassMutex => s.producer.TakingMutex? && !MutexHeld(s.consumer)
    case Notify => s.producer.Notifying?
    case TryPop => s.consumer.Working?
    case LockMutex => s.consumer.FoundEmpty?
    case PopLocked => s.consumer.Popping?
    case FallAsleep => s.consumer.FallingAsleep?
    case TimeOut => s.consumer.Asleep?
    case LockAgain => s.consumer.Waking?
  }

  function Next(s: System, action: Action): System
    requires Enabled(s, action)
  {
    match action
    case Push(kind) =>
      s.(queue := s.queue + [kind], producer := if kind.ControlQueued? then TakingMutex else ReadingHint)
    case ReadHint => s.(producer := if s.sleeping then TakingMutex else Idle)
    case PassMutex => s.(producer := Notifying)
    case Notify => s.(producer := Idle, consumer := if s.consumer.Asleep? then Waking else s.consumer)
    case TryPop => if s.queue == [] then s.(consumer := FoundEmpty) else s.(queue := s.queue[1..])
    case LockMutex => s.(consumer := Popping, sleeping := true)
    case PopLocked =>
      if s.queue == [] then s.(consumer := FallingAsleep)
      else s.(queue := s.queue[1..], sleeping := false, consumer := Working)
    case FallAsleep => s.(consumer := Asleep)
    case TimeOut => s.(consumer := Waking)
    case LockAgain => s.(consumer := Popping)
  }

  function Execute(actions: seq<Action>): Option<System> {
    if actions == [] then Some(INITIAL)
    else
      var before := Execute(actions[..|actions| - 1]);
      if before.Some? && Enabled(before.value, actions[|actions| - 1]) then
        Some(Next(before.value, actions[|actions| - 1]))
      else None
  }

  /** An event queued behind the journal thread's back was pushed after it looked, so its push still has
      the hint to read, the mutex to pass or the notify to give; and no notify can be given away before
      the thread is really asleep. */
  ghost predicate Inv(s: System) {
    && (s.sleeping <==> !s.consumer.Working? && !s.consumer.FoundEmpty?)
    && (s.consumer.FallingAsleep? && s.queue != [] ==> s.producer.ReadingHint? || s.producer.TakingMutex?)
    && (s.consumer.Asleep? && s.queue != [] ==> !s.producer.Idle?)
  }

  lemma StepKeeps(s: System, action: Action)
    requires Inv(s) && Enabled(s, action)
    ensures Inv(Next(s, action))
  {
  }

  lemma {:induction false} AlwaysInv(actions: seq<Action>)
    requires Execute(actions).Some?
    ensures Inv(Execute(actions).value)
  {
    if actions != [] {
      AlwaysInv(actions[..|actions| - 1]);
      StepKeeps(Execute(actions[..|actions| - 1]).value, actions[|actions| - 1]);
    }
  }

  /** The run with the remaining steps of the push under way, and nothing else, taken after it. */
  function Notified(actions: seq<Action>): seq<Action> {
    var before := Execute(actions);
    if before.None? then actions
    else
      match before.value.producer
      case Idle => actions
      case ReadingHint => actions + [ReadHint, PassMutex, Notify]
      case TakingMutex => actions + [PassMutex, Notify]
      case Notifying => actions + [Notify]
  }

  lemma ExecuteAppend(actions: seq<Action>, action: Action)
    requires Execute(actions).Some? && Enabled(Execute(actions).value, action)
    ensures Execute(actions + [action]) == Some(Next(Execute(actions).value, action))
  {
    assert (actions + [action])[..|actions|] == actions;
  }

  /** No lost wakeup: whenever an event is queued while the journal thread is asleep, the push that queued
      it is still under way, none of its remaining steps can block, and they wake the thread without
      waiting out the idle poll. */
  lemma {:induction false} AlwaysWoken(actions: seq<Action>)
    requires Execute(actions).Some?
    requires Execute(actions).value.consumer.Asleep? && Execute(actions).value.queue != []
    ensures Execute(Notified(actions)).Some?
    ensures Execute(Notified(actions)).value.consumer.Waking?
    ensures Execute(Notified(actions)).value.queue == Execute(actions).value.queue
  {
    hide Execute;
    AlwaysInv(actions);
    var s := Execute(actions).value;
    match s.producer
    case ReadingHint =>
      ExecuteAppend(actions, ReadHint);
      ExecuteAppend(actions + [ReadHint], PassMutex);
      ExecuteAppend(actions + [ReadHint] + [PassMutex], Notify);
      assert actions + [ReadHint, PassMutex, Notify] == actions + [ReadHint] + [PassMutex] + [Notify];
    case TakingMutex =>
      ExecuteAppend(actions, PassMutex);
      ExecuteAppend(actions + [PassMutex], Notify);
      assert actions + [PassMutex, Notify] == actions + [PassMutex] + [Notify];
    case Notifying =>
      ExecuteAppend(actions, Notify);
  }
}
