/** The two aggregated books of src/order_book/l2_policy.h under the engine's readiness machine
    (src/order_book/engine.h): L2Policy, whose batches must chain by change id, and
    UnsequencedL2Policy, which has no sequence to check. */
module L2Books {
  import opened BookTypes
  import opened L2Values
  import opened L2LevelMaps
  import opened Engines
  import B = L2Batches

  // ------------------------------------------------------------------------------ unsequenced book

  datatype L2State = L2State(levels: LevelTotals, readiness: Readiness)

  const FRESH := L2State(map[], Uninitialized)

  datatype L2Message = L2Message(isSnapshot: bool, updates: seq<L2Update>)

  function Step(state: L2State, message: L2Message): L2State {
    if message.isSnapshot then
      var levels := SnapshotLevels(message.updates);
      L2State(levels, AfterIssue(Ready, MessageIssue(false, Crossed(levels))))
    else if state.readiness != Ready then state
    else
      var levels := ApplyAll(state.levels, message.updates);
      L2State(levels, AfterIssue(Ready, MessageIssue(AnyUnknownLevel(state.levels, message.updates), Crossed(levels))))
  }

  /** The issue a message makes the engine report; none when the message is skipped. */
  function StepIssue(state: L2State, message: L2Message): Option<IntegrityIssue> {
    if message.isSnapshot then MessageIssue(false, Crossed(SnapshotLevels(message.updates)))
    else if state.readiness != Ready then None
    else
      MessageIssue(AnyUnknownLevel(state.levels, message.updates), Crossed(ApplyAll(state.levels, message.updates)))
  }

  function Run(messages: seq<L2Message>): L2State {
    if messages == [] then FRESH else Step(Run(messages[..|messages| - 1]), messages[|messages| - 1])
  }

  /** Every update is of a level that is there by then, or a New. */
  predicate AllKnown(levels: LevelTotals, updates: seq<L2Update>) {
    forall i :: 0 <= i < |updates| ==> !B.UnknownAt(levels, updates, i)
  }

  lemma KnownIsUnflagged(levels: LevelTotals, updates: seq<L2Update>)
    ensures AllKnown(levels, updates) <==> !AnyUnknownLevel(levels, updates)
  {
    hide AnyUnknownLevel;
    B.UnknownLevelMeans(levels, updates);
  }

  /** messages[s] is a snapshot and every later message is one too, or a batch of levels there by then. */
  ghost predicate KnownFrom(messages: seq<L2Message>, s: nat) {
    && s < |messages| && messages[s].isSnapshot
    && forall i :: s < i < |messages| && !messages[i].isSnapshot ==> AllKnown(Run(messages[..i]).levels, messages[i].updates)
  }

  /** In every run a ready unsequenced book is not crossed: every bid level is below every ask level.
      Since some snapshot every batch was of levels there by then. */
  lemma {:induction false} ReadyIsUncrossed(messages: seq<L2Message>)
    requires Run(messages).readiness == Ready
    ensures messages != [] && !Crossed(Run(messages).levels) && Separated(Run(messages).levels)
    ensures exists s: nat :: KnownFrom(messages, s)
  {
    hide Crossed, Separated, AnyUnknownLevel, AllKnown;
    UncrossedIsSeparated(Run(messages).levels);
    var n := |messages| - 1;
    if messages[n].isSnapshot {
      assert KnownFrom(messages, n);
    } else {
      ReadyIsUncrossed(messages[..n]);
      var s: nat :| KnownFrom(messages[..n], s);
      KnownIsUnflagged(Run(messages[..n]).levels, messages[n].updates);
      assert forall i :: s < i < n ==> messages[..n][i] == messages[i] && messages[..n][..i] == messages[..i];
      assert KnownFrom(messages, s);
    }
  }

  // -------------------------------------------------------------------------------- sequenced book

  datatype SequencedState = SequencedState(levels: LevelTotals, lastChangeId: int, readiness: Readiness)

  const FRESH_SEQUENCED := SequencedState(map[], 0, Uninitialized)

  datatype SequencedMessage =
    | Snapshot(entries: seq<L2Update>, changeId: int)
    | Batch(updates: seq<L2Update>, changeId: int, prevChangeId: int)

  /** A gap desyncs the book and leaves its levels alone. */
  function SequencedStep(state: SequencedState, message: SequencedMessage): SequencedState {
    match message
    case Snapshot(entries, changeId) =>
      var levels := SnapshotLevels(entries);
      SequencedState(levels, changeId, AfterIssue(Ready, MessageIssue(false, Crossed(levels))))
    case Batch(updates, changeId, prevChangeId) =>
      if state.readiness != Ready then state
      else if prevChangeId != state.lastChangeId then state.(readiness := Desynced)
      else
        var levels := ApplyAll(state.levels, updates);
        SequencedState(levels, changeId,
                       AfterIssue(Ready, MessageIssue(AnyUnknownLevel(state.levels, updates), Crossed(levels))))
  }

  function SequencedRun(messages: seq<SequencedMessage>): SequencedState {
    if messages == [] then FRESH_SEQUENCED
    else SequencedStep(SequencedRun(messages[..|messages| - 1]), messages[|messages| - 1])
  }

  /** messages[s] is a snapshot and everything after it is a batch that names its predecessor. */
  ghost predicate UnbrokenFrom(messages: seq<SequencedMessage>, s: nat) {
    && s < |messages| && messages[s].Snapshot?
    && forall i :: s < i < |messages| ==>
         messages[i].Batch? && messages[i].prevChangeId == messages[i - 1].changeId
  }

  /** The snapshot at s with every later batch applied. */
  function Rebuilt(messages: seq<SequencedMessage>, s: nat): LevelTotals
    requires UnbrokenFrom(messages, s)
    decreases |messages|
  {
    var n := |messages| - 1;
    if n == s then SnapshotLevels(messages[n].entries)
    else
      RebuiltFront(messages, s);
      ApplyAll(Rebuilt(messages[..n], s), messages[n].updates)
  }

  lemma RebuiltFront(messages: seq<SequencedMessage>, s: nat)
    requires UnbrokenFrom(messages, s) && s < |messages| - 1
    ensures UnbrokenFrom(messages[..|messages| - 1], s)
  {
  }

  /** In every run, a ready sequenced book is not crossed and is its last snapshot with an unbroken
      prev_change_id chain of batches applied to it, up to the last message received. */
  lemma {:induction false} ReadyIsUnbroken(messages: seq<SequencedMessage>) returns (s: nat)
    requires SequencedRun(messages).readiness == Ready
    ensures UnbrokenFrom(messages, s)
    ensures SequencedRun(messages).levels == Rebuilt(messages, s)
    ensures SequencedRun(messages).lastChangeId == messages[|messages| - 1].changeId
    ensures !Crossed(SequencedRun(messages).levels) && Separated(SequencedRun(messages).levels)
  {
    hide Crossed, Separated, AnyUnknownLevel, ApplyAll, SnapshotLevels;
    UncrossedIsSeparated(SequencedRun(messages).levels);
    var n := |messages| - 1;
    if messages[n].Snapshot? {
      s := n;
    } else {
      var front := messages[..n];
      s := ReadyIsUnbroken(front);
      assert forall i :: s < i < n ==> messages[i] == front[i];
      assert messages[n].prevChangeId == messages[n - 1].changeId;
    }
  }

  lemma LastBatchKnown(messages: seq<SequencedMessage>)
    requires messages != [] && messages[|messages| - 1].Batch? && SequencedRun(messages).readiness == Ready
    ensures var n := |messages| - 1;
            && SequencedRun(messages[..n]).readiness == Ready
            && AllKnown(SequencedRun(messages[..n]).levels, messages[n].updates)
  {
    hide AllKnown, Crossed, AnyUnknownLevel, ApplyAll, SnapshotLevels;
    var n := |messages| - 1;
    KnownIsUnflagged(SequencedRun(messages[..n]).levels, messages[n].updates);
  }

  /** ... and every batch of that chain was of levels there by then. */
  lemma {:induction false} ReadyBatchesKnown(messages: seq<SequencedMessage>, s: nat)
    requires SequencedRun(messages).readiness == Ready && UnbrokenFrom(messages, s)
    ensures forall i :: s < i < |messages| ==> AllKnown(SequencedRun(messages[..i]).levels, messages[i].updates)
  {
    hide AllKnown, SequencedRun;
    var n := |messages| - 1;
    if s < n {
      LastBatchKnown(messages);
      RebuiltFront(messages, s);
      ReadyBatchesKnown(messages[..n], s);
      assert forall i :: s < i < n ==> messages[..n][i] == messages[i] && messages[..n][..i] == messages[..i];
    }
  }

  // ------------------------------------------------------------------------------ the source's form

  class L2Policy {
    const levels: L2Levels
    var lastChangeId: int

    constructor ()
      ensures levels.Valid() && levels.levels == map[] && lastChangeId == 0 && fresh(levels)
    {
      levels := new L2Levels();
      lastChangeId := 0;
    }

    method ApplySnapshot(entries: seq<L2Update>, changeId: int) returns (changes: L2Changes)
      requires levels.Valid()
      modifies this, levels
      ensures levels.Valid() && levels.levels == SnapshotLevels(entries) && lastChangeId == changeId
      ensures FollowLevels(map[], changes.levelChanges) == levels.levels
      ensures changes.bidTopChanged && changes.askTopChanged
      ensures changes.issue == MessageIssue(false, Crossed(levels.levels))
    {
      changes := levels.ReplaceWith(entries);
      lastChangeId := changeId;
    }

    method ApplyBatch(updates: seq<L2Update>, changeId: int, prevChangeId: int) returns (changes: L2Changes)
      requires levels.Valid()
      modifies this, levels
      ensures levels.Valid()
      ensures FollowLevels(old(levels.levels), changes.levelChanges) == levels.levels
      ensures changes.bidTopChanged <==> L2Values.Best(old(levels.levels), Bid) != L2Values.Best(levels.levels, Bid)
      ensures changes.askTopChanged <==> L2Values.Best(old(levels.levels), Ask) != L2Values.Best(levels.levels, Ask)
      ensures prevChangeId != old(lastChangeId) ==>
                && changes.issue == Some(Gap) && lastChangeId == old(lastChangeId)
                && levels.levels == old(levels.levels)
      ensures prevChangeId == old(lastChangeId) ==>
                && levels.levels == ApplyAll(old(levels.levels), updates) && lastChangeId == changeId
                && changes.issue == MessageIssue(AnyUnknownLevel(old(levels.levels), updates), Crossed(levels.levels))
    {
      if prevChangeId != lastChangeId {
        changes := NO_CHANGES.(issue := Some(Gap));
        return;
      }
      changes := levels.ApplyUpdates(updates);
      lastChangeId := changeId;
    }
  }

  /** What the engine tells of a change set, with the book's best entries as they are then. */
  function NoticesOf(changes: L2Changes, levels: LevelTotals): seq<Notice> {
    Notices(changes.bidTopChanged, changes.askTopChanged, L2Values.Best(levels, Bid), L2Values.Best(levels, Ask),
            changes.levelChanges, [], changes.issue)
  }

  class SequencedOrderBook {
    const policy: L2Policy
    var readiness: Readiness
    /** Everything the listener was told. */
    var heard: seq<Notice>

    /** The listener knows the best entry of each side. */
    ghost predicate Valid()
      reads this, policy.levels
    {
      && policy.levels.Valid()
      && Told(heard, Bid) == L2Values.Best(policy.levels.levels, Bid)
      && Told(heard, Ask) == L2Values.Best(policy.levels.levels, Ask)
    }

    ghost function State(): SequencedState
      reads this, policy, policy.levels
    {
      SequencedState(policy.levels.levels, policy.lastChangeId, readiness)
    }

    constructor ()
      ensures Valid() && State() == FRESH_SEQUENCED && fresh(policy) && fresh(policy.levels) && heard == []
    {
      policy := new L2Policy();
      readiness, heard := Uninitialized, [];
      new;
      NothingIsBest();
    }

    method Notify(changes: L2Changes)
      requires policy.levels.Valid()
      requires !changes.bidTopChanged ==> Told(heard, Bid) == L2Values.Best(policy.levels.levels, Bid)
      requires !changes.askTopChanged ==> Told(heard, Ask) == L2Values.Best(policy.levels.levels, Ask)
      modifies this`heard
      ensures Valid() && heard == old(heard) + NoticesOf(changes, policy.levels.levels)
    {
      hide L2Levels.Valid, Told, L2Values.Best, Notices;
      var bestBid := policy.levels.Best(Bid);
      var bestAsk := policy.levels.Best(Ask);
      var notices := Engines.Notify(changes.bidTopChanged, changes.askTopChanged, bestBid, bestAsk, changes.levelChanges, [],
                                    changes.issue);
      ToldAfter(heard, changes.bidTopChanged, changes.askTopChanged, bestBid, bestAsk, changes.levelChanges, [],
                changes.issue);
      heard := heard + notices;
    }

    method ApplySnapshot(message: SequencedMessage) returns (ghost changes: L2Changes)
      requires Valid() && message.Snapshot?
      modifies this, policy, policy.levels
      ensures Valid() && State() == SequencedStep(old(State()), message)
      ensures heard == old(heard) + NoticesOf(changes, policy.levels.levels)
      ensures changes.bidTopChanged && changes.askTopChanged
      ensures FollowLevels(map[], changes.levelChanges) == policy.levels.levels
      ensures changes.issue == MessageIssue(false, Crossed(policy.levels.levels))
    {
      hide L2Levels.Valid, Told, L2Values.Best, NoticesOf;
      var reported := policy.ApplySnapshot(message.entries, message.changeId);
      readiness := if reported.issue.Some? then Desynced else Ready;
      Notify(reported);
      changes := reported;
    }

    method ApplyBatch(message: SequencedMessage) returns (ghost changes: L2Changes)
      requires Valid() && message.Batch?
      modifies this, policy, policy.levels
      ensures Valid() && State() == SequencedStep(old(State()), message)
      ensures old(readiness) != Ready ==> heard == old(heard)
      ensures old(readiness) == Ready ==>
                && heard == old(heard) + NoticesOf(changes, policy.levels.levels)
                && FollowLevels(old(policy.levels.levels), changes.levelChanges) == policy.levels.levels
                && (changes.issue == Some(Gap) <== message.prevChangeId != old(policy.lastChangeId))
                && (changes.issue.Some? <==> readiness == Desynced)
    {
      hide L2Levels.Valid, Told, L2Values.Best, NoticesOf;
      changes := NO_CHANGES;
      if readiness != Ready {
        return;
      }
      var reported := policy.ApplyBatch(message.updates, message.changeId, message.prevChangeId);
      if reported.issue.Some? {
        readiness := Desynced;
      }
      Notify(reported);
      changes := reported;
    }
  }

  lemma NothingIsBest()
    ensures L2Values.Best(map[], Bid).None? && L2Values.Best(map[], Ask).None?
  {
  }

  class UnsequencedOrderBook {
    const levels: L2Levels
    var readiness: Readiness
    /** Everything the listener was told. */
    var heard: seq<Notice>

    /** The listener knows the best entry of each side. */
    ghost predicate Valid()
      reads this, levels
    {
      && levels.Valid()
      && Told(heard, Bid) == L2Values.Best(levels.levels, Bid)
      && Told(heard, Ask) == L2Values.Best(levels.levels, Ask)
    }

    ghost function State(): L2State
      reads this, levels
    {
      L2State(levels.levels, readiness)
    }

    constructor ()
      ensures Valid() && State() == FRESH && fresh(levels) && heard == []
    {
      levels := new L2Levels();
      readiness, heard := Uninitialized, [];
      new;
      NothingIsBest();
    }

    method Notify(changes: L2Changes)
      requires levels.Valid()
      requires !changes.bidTopChanged ==> Told(heard, Bid) == L2Values.Best(levels.levels, Bid)
      requires !changes.askTopChanged ==> Told(heard, Ask) == L2Values.Best(levels.levels, Ask)
      modifies this`heard
      ensures Valid() && heard == old(heard) + NoticesOf(changes, levels.levels)
    {
      hide L2Levels.Valid, Told, L2Values.Best, Notices;
      var bestBid := levels.Best(Bid);
      var bestAsk := levels.Best(Ask);
      var notices := Engines.Notify(changes.bidTopChanged, changes.askTopChanged, bestBid, bestAsk, changes.levelChanges, [],
                                    changes.issue);
      ToldAfter(heard, changes.bidTopChanged, changes.askTopChanged, bestBid, bestAsk, changes.levelChanges, [],
                changes.issue);
      heard := heard + notices;
    }

    method ApplySnapshot(message: L2Message) returns (ghost changes: L2Changes)
      requires Valid() && message.isSnapshot
      modifies this, levels
      ensures Valid() && State() == Step(old(State()), message)
      ensures heard == old(heard) + NoticesOf(changes, levels.levels)
      ensures changes.bidTopChanged && changes.askTopChanged
      ensures FollowLevels(map[], changes.levelChanges) == levels.levels
      ensures changes.issue == StepIssue(old(State()), message)
    {
      hide L2Levels.Valid, Told, L2Values.Best, NoticesOf;
      var reported := levels.ReplaceWith(message.updates);
      readiness := if reported.issue.Some? then Desynced else Ready;
      Notify(reported);
      changes := reported;
    }

    method ApplyBatch(message: L2Message) returns (ghost changes: L2Changes)
      requires Valid() && !message.isSnapshot
      modifies this, levels
      ensures Valid() && State() == Step(old(State()), message)
      ensures old(readiness) != Ready ==> heard == old(heard)
      ensures old(readiness) == Ready ==>
                && heard == old(heard) + NoticesOf(changes, levels.levels)
                && FollowLevels(old(levels.levels), changes.levelChanges) == levels.levels
                && changes.issue == StepIssue(old(State()), message)
    {
      hide L2Levels.Valid, Told, L2Values.Best, NoticesOf;
      changes := NO_CHANGES;
      if readiness != Ready {
        return;
      }
      var reported := levels.ApplyUpdates(message.updates);
      if reported.issue.Some? {
        readiness := Desynced;
      }
      Notify(reported);
      changes := reported;
    }
  }
}
