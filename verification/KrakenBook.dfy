/** The Kraken level3 book: KrakenL3Policy (src/order_book/kraken_l3_policy.h) under the engine's
    readiness machine (src/order_book/engine.h). */
module KrakenBooks {
  import opened BookTypes
  import opened L3List
  import opened L3Levels
  import opened L3Depth
  import opened Engines
  import opened L3Policies
  import opened L3Prices
  import B = L3Batches
  import opened ArrivalOrder
  import opened KrakenChecksum

  // ------------------------------------------------------------------------ the book as a value

  datatype KrakenState = KrakenState(orders: seq<Order>, readiness: Readiness)

  /** One parsed level3 message. A snapshot's timestamps are not used. */
  datatype KrakenMessage = KrakenMessage(isSnapshot: bool, updates: seq<TimedUpdate>, checksum: bv32)

  const FRESH := KrakenState([], Uninitialized)

  /** The checksum is reported only when nothing more specific was. */
  function WithChecksum(issue: Option<IntegrityIssue>, orders: seq<Order>, checksum: bv32): Option<IntegrityIssue> {
    if BookChecksum(orders) != checksum then ReportIssue(issue, ChecksumMismatch) else issue
  }

  function SnapshotOrders(depth: nat, snapshot: seq<L3Update>): seq<Order> {
    Truncate(ApplyAll([], AsAdds(snapshot)), depth)
  }

  function SnapshotIssue(depth: nat, snapshot: seq<L3Update>, checksum: bv32): Option<IntegrityIssue> {
    var orders := SnapshotOrders(depth, snapshot);
    WithChecksum(MessageIssue(false, Crossed(orders)), orders, checksum)
  }

  function BatchOrders(depth: nat, orders: seq<Order>, updates: seq<TimedUpdate>): seq<Order> {
    Truncate(ApplyAll(orders, Plain(Reordered(updates))), depth)
  }

  function BatchIssue(depth: nat, orders: seq<Order>, updates: seq<TimedUpdate>, checksum: bv32): Option<IntegrityIssue> {
    var after := BatchOrders(depth, orders, updates);
    WithChecksum(MessageIssue(HitsUnknownOrder(orders, Plain(Reordered(updates))), Crossed(after)), after, checksum)
  }

  /** A snapshot replaces everything; a batch is a no-op unless the book is ready. */
  function Step(depth: nat, state: KrakenState, message: KrakenMessage): KrakenState {
    if message.isSnapshot then
      var snapshot := Plain(message.updates);
      KrakenState(SnapshotOrders(depth, snapshot),
                  AfterIssue(Ready, SnapshotIssue(depth, snapshot, message.checksum)))
    else if state.readiness != Ready then state
    else
      KrakenState(BatchOrders(depth, state.orders, message.updates),
                  AfterIssue(Ready, BatchIssue(depth, state.orders, message.updates, message.checksum)))
  }

  /** The issue a message makes the engine report; none when the message is skipped. */
  function StepIssue(depth: nat, state: KrakenState, message: KrakenMessage): Option<IntegrityIssue> {
    if message.isSnapshot then SnapshotIssue(depth, Plain(message.updates), message.checksum)
    else if state.readiness != Ready then None
    else BatchIssue(depth, state.orders, message.updates, message.checksum)
  }

  function Run(depth: nat, messages: seq<KrakenMessage>): KrakenState {
    if messages == [] then FRESH else Step(depth, Run(depth, messages[..|messages| - 1]), messages[|messages| - 1])
  }

  /** A message that was not skipped. */
  predicate Applied(depth: nat, messages: seq<KrakenMessage>, i: nat)
    requires i < |messages|
  {
    messages[i].isSnapshot || Run(depth, messages[..i]).readiness == Ready
  }

  /** Every update of message `i`, in the order it is applied, is of an order resting by then, or an Add. */
  predicate KnownThroughout(depth: nat, messages: seq<KrakenMessage>, i: nat)
    requires i < |messages|
  {
    var updates := Plain(Reordered(messages[i].updates));
    forall j :: 0 <= j < |updates| ==> !B.UnknownAt(Run(depth, messages[..i]).orders, updates, j)
  }

  lemma {:induction false} UniqueAlong(depth: nat, messages: seq<KrakenMessage>)
    ensures UniqueIds(Run(depth, messages).orders)
  {
    if messages != [] {
      var front, last := messages[..|messages| - 1], messages[|messages| - 1];
      UniqueAlong(depth, front);
      var plain := if last.isSnapshot then AsAdds(Plain(last.updates)) else Plain(Reordered(last.updates));
      var before := if last.isSnapshot then [] else Run(depth, front).orders;
      B.BatchDoesThis(before, plain);
      TruncateUnique(ApplyAll(before, plain), depth);
    }
  }

  lemma TruncateUnique(orders: seq<Order>, depth: nat)
    requires UniqueIds(orders)
    ensures UniqueIds(Truncate(orders, depth))
  {
    KeptMembers(orders, orders, Bid, depth);
    var half := KeepBest(orders, Bid, depth);
    KeptMembers(half, half, Ask, depth);
  }

  lemma LastBatchKnown(depth: nat, messages: seq<KrakenMessage>)
    requires messages != [] && !messages[|messages| - 1].isSnapshot && Run(depth, messages).readiness == Ready
    ensures KnownThroughout(depth, messages, |messages| - 1)
  {
    hide BookChecksum, Crossed, BatchOrders, SnapshotOrders, B.UnknownAt, HitsUnknownOrder, Reordered;
    var n := |messages| - 1;
    UniqueAlong(depth, messages[..n]);
    B.UnknownOrderMeans(Run(depth, messages[..n]).orders, Plain(Reordered(messages[n].updates)));
  }

  lemma SameBatch(depth: nat, a: seq<KrakenMessage>, b: seq<KrakenMessage>, i: nat)
    requires i < |a| && i < |b| && a[i] == b[i] && a[..i] == b[..i]
    ensures KnownThroughout(depth, a, i) <==> KnownThroughout(depth, b, i)
  {
  }

  /** In every run, a ready book is not crossed, every bid being below every ask; since some snapshot it
      has skipped nothing and every batch was of orders resting by then; and it checks out against the
      last message. */
  lemma {:induction false} ReadyBookChecksOut(depth: nat, messages: seq<KrakenMessage>)
    requires Run(depth, messages).readiness == Ready
    ensures messages != []
    ensures !Crossed(Run(depth, messages).orders)
    ensures Separated(Run(depth, messages).orders)
    ensures BookChecksum(Run(depth, messages).orders) == messages[|messages| - 1].checksum
    ensures exists s :: 0 <= s < |messages| && messages[s].isSnapshot &&
              forall i :: s <= i < |messages| ==> Applied(depth, messages, i) && (i > s ==> KnownThroughout(depth, messages, i))
  {
    hide BookChecksum, Crossed, Separated, BatchOrders, SnapshotOrders, HitsUnknownOrder, KnownThroughout;
    UncrossedIsSeparated(Run(depth, messages).orders);
    var n := |messages| - 1;
    if messages[n].isSnapshot {
      assert messages[n].isSnapshot && Applied(depth, messages, n);
    } else {
      var front := messages[..n];
      ReadyBookChecksOut(depth, front);
      var s :| 0 <= s < |front| && front[s].isSnapshot &&
               forall i :: s <= i < |front| ==> Applied(depth, front, i) && (i > s ==> KnownThroughout(depth, front, i));
      forall i | s <= i < |messages| ensures Applied(depth, messages, i) && (i > s ==> KnownThroughout(depth, messages, i)) {
        if i < n {
          assert Applied(depth, front, i) && front[..i] == messages[..i];
          SameBatch(depth, front, messages, i);
        } else {
          LastBatchKnown(depth, messages);
        }
      }
      assert messages[s].isSnapshot;
    }
  }

  /** The windowed checksum the policy computes, for any windows of at least ten levels, is the
      checksum of the whole book. */
  lemma WindowedChecksum(bids: OrderLevels, asks: OrderLevels, orders: seq<Order>, m: nat, n: nat)
    requires Match(Bid, bids, orders) && Match(Ask, asks, orders)
    requires m <= |bids| && (m >= CHECKSUM_LEVELS || m == |bids|)
    requires n <= |asks| && (n >= CHECKSUM_LEVELS || n == |asks|)
    ensures Checksum(Window(Bid, bids, orders, m), Window(Ask, asks, orders, n)) == BookChecksum(orders)
  {
    WindowSuffices(Bid, bids, orders, m);
    WindowSuffices(Ask, asks, orders, n);
  }

  // ---------------------------------------------------------------------------- the source's form

  class KrakenL3Policy {
    const book: L3Policy

    constructor (subscribedDepth: nat)
      requires subscribedDepth > 0
      ensures book.Valid() && book.orders == [] && book.maxDepth == subscribedDepth && fresh(book)
    {
      book := new L3Policy(subscribedDepth);
    }

    method ApplySnapshot(snapshot: seq<L3Update>, checksum: bv32) returns (changes: ChangeSet)
      requires book.Valid()
      modifies book
      ensures book.Valid()
      ensures book.orders == SnapshotOrders(book.maxDepth, snapshot)
      ensures Reports(changes, [], ApplyAll([], AsAdds(snapshot)))
      ensures changes.bidTopChanged && changes.askTopChanged
      ensures changes.issue == SnapshotIssue(book.maxDepth, snapshot, checksum)
    {
      changes := book.ApplySnapshot(snapshot);
      changes := VerifyChecksum(changes, checksum);
    }

    method ApplyBatch(updates: seq<TimedUpdate>, checksum: bv32) returns (changes: ChangeSet)
      requires book.Valid()
      modifies book
      ensures book.Valid()
      ensures book.orders == BatchOrders(book.maxDepth, old(book.orders), updates)
      ensures Reports(changes, old(book.orders), ApplyAll(old(book.orders), Plain(Reordered(updates))))
      ensures changes.bidTopChanged <==> L3List.Best(old(book.orders), Bid) != L3List.Best(book.orders, Bid)
      ensures changes.askTopChanged <==> L3List.Best(old(book.orders), Ask) != L3List.Best(book.orders, Ask)
      ensures changes.issue == BatchIssue(book.maxDepth, old(book.orders), updates, checksum)
    {
      var ordered := AddsInArrivalOrder(updates);
      changes := book.ApplyBatch(ordered);
      changes := VerifyChecksum(changes, checksum);
    }

    /** Only the checksum's own ten levels are copied out of the book. */
    method VerifyChecksum(changes: ChangeSet, checksum: bv32) returns (after: ChangeSet)
      requires book.Valid()
      ensures after == changes.(issue := WithChecksum(changes.issue, book.orders, checksum))
    {
      hide Checksum, BookChecksum;
      var bids := book.EntriesOf(Bid, CHECKSUM_LEVELS);
      var asks := book.EntriesOf(Ask, CHECKSUM_LEVELS);
      var computed := KrakenL3Checksum(bids, asks);
      WindowedChecksum(book.bidLevels, book.askLevels, book.orders,
                       if CHECKSUM_LEVELS < |book.bidLevels| then CHECKSUM_LEVELS else |book.bidLevels|,
                       if CHECKSUM_LEVELS < |book.askLevels| then CHECKSUM_LEVELS else |book.askLevels|);
      after := if computed != checksum then changes.(issue := ReportIssue(changes.issue, ChecksumMismatch)) else changes;
    }
  }

  /** What the engine tells of a change set, with the book's best entries as they are then. */
  function NoticesOf(changes: ChangeSet, orders: seq<Order>): seq<Notice> {
    Notices(changes.bidTopChanged, changes.askTopChanged, L3List.Best(orders, Bid), L3List.Best(orders, Ask),
            changes.levelChanges, changes.orderEvents, changes.issue)
  }

  class KrakenOrderBook {
    const policy: KrakenL3Policy
    var readiness: Readiness
    /** Everything the listener was told. */
    var heard: seq<Notice>

    /** The listener knows the best entry of each side. */
    ghost predicate Valid()
      reads this, policy.book
    {
      && policy.book.Valid()
      && Told(heard, Bid) == L3List.Best(policy.book.orders, Bid)
      && Told(heard, Ask) == L3List.Best(policy.book.orders, Ask)
    }

    ghost function State(): KrakenState
      reads this, policy.book
    {
      KrakenState(policy.book.orders, readiness)
    }

    constructor (subscribedDepth: nat)
      requires subscribedDepth > 0
      ensures Valid() && fresh(policy.book) && State() == FRESH && policy.book.maxDepth == subscribedDepth && heard == []
    {
      policy := new KrakenL3Policy(subscribedDepth);
      readiness, heard := Uninitialized, [];
    }

    method Notify(changes: ChangeSet)
      requires policy.book.Valid()
      requires !changes.bidTopChanged ==> Told(heard, Bid) == L3List.Best(policy.book.orders, Bid)
      requires !changes.askTopChanged ==> Told(heard, Ask) == L3List.Best(policy.book.orders, Ask)
      modifies this`heard
      ensures Valid() && heard == old(heard) + NoticesOf(changes, policy.book.orders)
    {
      hide L3Policy.Valid, Told, L3List.Best, Notices;
      var bestBid := policy.book.Best(Bid);
      var bestAsk := policy.book.Best(Ask);
      var notices := Engines.Notify(changes.bidTopChanged, changes.askTopChanged, bestBid, bestAsk, changes.levelChanges,
                                    changes.orderEvents, changes.issue);
      ToldAfter(heard, changes.bidTopChanged, changes.askTopChanged, bestBid, bestAsk, changes.levelChanges,
                changes.orderEvents, changes.issue);
      heard := heard + notices;
    }

    method ApplySnapshot(message: KrakenMessage) returns (ghost changes: ChangeSet)
      requires Valid() && message.isSnapshot
      modifies this, policy.book
      ensures Valid() && State() == Step(policy.book.maxDepth, old(State()), message)
      ensures heard == old(heard) + NoticesOf(changes, policy.book.orders)
      ensures changes.bidTopChanged && changes.askTopChanged
      ensures Reports(changes, [], ApplyAll([], AsAdds(Plain(message.updates))))
      ensures changes.issue == StepIssue(policy.book.maxDepth, old(State()), message)
    {
      hide L3Policy.Valid, Told, L3List.Best, Reports, SnapshotIssue, SnapshotOrders, NoticesOf, AsAdds, ApplyAll, Plain;
      var reported := policy.ApplySnapshot(Plain(message.updates), message.checksum);
      readiness := Ready;
      if reported.issue.Some? {
        readiness := Desynced;
      }
      Notify(reported);
      changes := reported;
    }

    method ApplyBatch(message: KrakenMessage) returns (ghost changes: ChangeSet)
      requires Valid() && !message.isSnapshot
      modifies this, policy.book
      ensures Valid() && State() == Step(policy.book.maxDepth, old(State()), message)
      ensures old(readiness) != Ready ==> heard == old(heard)
      ensures old(readiness) == Ready ==>
                && heard == old(heard) + NoticesOf(changes, policy.book.orders)
                && Reports(changes, old(policy.book.orders), ApplyAll(old(policy.book.orders), Plain(Reordered(message.updates))))
                && changes.issue == StepIssue(policy.book.maxDepth, old(State()), message)
    {
      hide L3Policy.Valid, Told, L3List.Best, Reports, BatchIssue, BatchOrders, NoticesOf, ApplyAll, Plain, Reordered;
      changes := L3Policies.NO_CHANGES;
      if readiness != Ready {
        return;
      }
      var reported := policy.ApplyBatch(message.updates, message.checksum);
      if reported.issue.Some? {
        readiness := Desynced;
      }
      Notify(reported);
      changes := reported;
    }
  }
}
