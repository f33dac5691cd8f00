/** L3Policy of src/order_book/l3_policy.h: two level maps and an order index kept in step, proved to
    be the flat arrival-ordered list `orders` of L3List after every call. */
module L3Policies {
  import opened BookTypes
  import opened LevelMaps
  import opened L3List
  import opened L3Levels
  import opened L3Depth
  import opened L3View
  import opened L3Prices
  import B = L3Batches

  datatype ChangeSet = ChangeSet(
    bidTopChanged: bool,
    askTopChanged: bool,
    levelChanges: seq<LevelChange>,
    orderEvents: seq<OrderEvent>,
    issue: Option<IntegrityIssue>)

  const NO_CHANGES := ChangeSet(false, false, [], [], None)

  /** A listener told these changes goes from the book `before` to the book `now`, at level and at
      order granularity. */
  ghost predicate Reports(changes: ChangeSet, before: seq<Order>, now: seq<Order>) {
    && FollowLevels(Totals(before), changes.levelChanges) == Totals(now)
    && FollowOrders(IndexOf(before), changes.orderEvents) == IndexOf(now)
    && EventsFit(IndexOf(before), changes.orderEvents)
    && SameLevels(changes.orderEvents, changes.levelChanges)
  }

  /** Each event fits what a listener holds when it is told it: an Added order is new, and a Modified or
      a Deleted one is known at the side and price the event names. */
  ghost predicate EventsFit(index: OrderIndex, events: seq<OrderEvent>) {
    events == [] ||
    (var n := |events| - 1;
     EventsFit(index, events[..n]) && EventFits(FollowOrders(index, events[..n]), events[n]))
  }

  predicate EventFits(held: OrderIndex, event: OrderEvent) {
    if event.kind == Added then event.id !in held
    else
      && event.id in held && held[event.id].side == event.side && held[event.id].price == event.price
      && (event.kind == Deleted ==> event.quantity == 0)
  }

  /** Every order event comes with one change, of the level it happened at. */
  predicate SameLevels(events: seq<OrderEvent>, changes: seq<LevelChange>) {
    && |events| == |changes|
    && forall i :: 0 <= i < |events| ==> events[i].side == changes[i].side && events[i].price == changes[i].price
  }

  lemma NothingToReport(orders: seq<Order>)
    ensures Reports(NO_CHANGES, orders, orders)
  {
  }

  lemma SameReport(changes: ChangeSet, other: ChangeSet, before: seq<Order>, now: seq<Order>)
    requires Reports(changes, before, now)
    requires other.levelChanges == changes.levelChanges && other.orderEvents == changes.orderEvents
    ensures Reports(other, before, now)
  {
  }

  lemma ReportedLevels(changes: ChangeSet, before: seq<Order>, now: seq<Order>)
    requires Reports(changes, before, now)
    ensures FollowLevels(Totals(before), changes.levelChanges) == Totals(now)
  {
  }

  lemma EventsFitOne(index: OrderIndex, events: seq<OrderEvent>, event: OrderEvent)
    requires EventsFit(index, events) && EventFits(FollowOrders(index, events), event)
    ensures EventsFit(index, events + [event])
  {
    assert (events + [event])[..|events|] == events;
  }

  function WithEvent(changes: ChangeSet, event: OrderEvent, change: LevelChange): ChangeSet {
    changes.(orderEvents := changes.orderEvents + [event], levelChanges := changes.levelChanges + [change])
  }

  function LevelQuantity(level: seq<Order>): Option<int> {
    if level == [] then None else Some(Total(level))
  }

  lemma ReportsRemoval(changes: ChangeSet, before: seq<Order>, orders: seq<Order>, o: Order)
    requires UniqueIds(orders) && o in orders && Reports(changes, before, orders)
    ensures Reports(
              WithEvent(changes, OrderEvent(Deleted, o.id, o.side, o.price, 0),
                        LevelChange(o.side, o.price, LevelQuantity(AtLevel(Without(orders, o.id), o.side, o.price)))),
              before, Without(orders, o.id))
  {
    var event := OrderEvent(Deleted, o.id, o.side, o.price, 0);
    var change := LevelChange(o.side, o.price, LevelQuantity(AtLevel(Without(orders, o.id), o.side, o.price)));
    FollowLevelsOne(Totals(before), changes.levelChanges, change);
    FollowOrdersOne(IndexOf(before), changes.orderEvents, event);
    assert EventFits(IndexOf(orders), event) by {
      IndexFacts(orders);
    }
    EventsFitOne(IndexOf(before), changes.orderEvents, event);
    TotalsWithout(orders, o);
    IndexWithout(orders, o.id);
    assert [event][..0] == [];
  }

  lemma ReportsArrival(changes: ChangeSet, before: seq<Order>, orders: seq<Order>, o: Order)
    requires UniqueIds(orders) && !Holds(orders, o.id) && Reports(changes, before, orders)
    ensures Reports(
              WithEvent(changes, OrderEvent(Added, o.id, o.side, o.price, o.quantity),
                        LevelChange(o.side, o.price, Some(Total(AtLevel(orders + [o], o.side, o.price))))),
              before, orders + [o])
  {
    var event := OrderEvent(Added, o.id, o.side, o.price, o.quantity);
    var change := LevelChange(o.side, o.price, Some(Total(AtLevel(orders + [o], o.side, o.price))));
    FollowLevelsOne(Totals(before), changes.levelChanges, change);
    FollowOrdersOne(IndexOf(before), changes.orderEvents, event);
    assert EventFits(IndexOf(orders), event) by {
      IndexHolds(orders, o.id);
    }
    EventsFitOne(IndexOf(before), changes.orderEvents, event);
    TotalsAppend(orders, o);
    IndexAppend(orders, o);
    assert [event][..0] == [];
  }

  lemma ReportsModify(changes: ChangeSet, before: seq<Order>, orders: seq<Order>, o: Order, quantity: int)
    requires UniqueIds(orders) && o in orders && Reports(changes, before, orders)
    ensures var after := Requantify(orders, o.id, quantity);
            Reports(
              WithEvent(changes, OrderEvent(Modified, o.id, o.side, o.price, quantity),
                        LevelChange(o.side, o.price, Some(Total(AtLevel(after, o.side, o.price))))),
              before, after)
  {
    var after := Requantify(orders, o.id, quantity);
    var event := OrderEvent(Modified, o.id, o.side, o.price, quantity);
    var change := LevelChange(o.side, o.price, Some(Total(AtLevel(after, o.side, o.price))));
    FollowLevelsOne(Totals(before), changes.levelChanges, change);
    FollowOrdersOne(IndexOf(before), changes.orderEvents, event);
    TotalsRequantify(orders, o, quantity);
    IndexFacts(orders);
    EventsFitOne(IndexOf(before), changes.orderEvents, event);
    IndexRequantify(orders, o.id, quantity);
    assert [event][..0] == [];
  }

  lemma IndexHolds(orders: seq<Order>, id: OrderId)
    requires UniqueIds(orders)
    ensures id in IndexOf(orders) <==> Holds(orders, id)
  {
    IndexFacts(orders);
  }

  /** The order an index entry stands for. */
  lemma IndexedOrder(orders: seq<Order>, id: OrderId) returns (o: Order)
    requires UniqueIds(orders) && id in IndexOf(orders)
    ensures o in orders && o.id == id && IndexOf(orders)[id] == OrderRecord(o.side, o.price, o.quantity)
  {
    IndexFacts(orders);
    var i :| 0 <= i < |orders| && orders[i].id == id;
    o := orders[i];
  }

  function Opposite(side: Side): Side {
    if side.Bid? then Ask else Bid
  }

  /** Everything that holds once an order has left the list and its level. */
  lemma RemovalStep(side: Side, levels: OrderLevels, others: OrderLevels, orders: seq<Order>, o: Order)
    requires UniqueIds(orders) && o in orders && o.side == side
    requires Match(side, levels, orders) && Match(Opposite(side), others, orders)
    ensures Has(side, levels, o.price)
    ensures var rest, left := RemoveId(At(side, levels, o.price), o.id), Without(orders, o.id);
            && UniqueIds(left) && IndexOf(left) == IndexOf(orders) - {o.id}
            && Match(side, if rest == [] then Erase(side, levels, o.price) else Put(side, levels, o.price, rest), left)
            && Match(Opposite(side), others, left)
            && rest == Ids(AtLevel(left, side, o.price))
            && (forall id :: id in rest ==> id in IndexOf(left))
            && SumOf(IndexOf(left), rest) == Total(AtLevel(left, side, o.price))
  {
    MatchWithout(side, levels, orders, o);
    MatchWithoutElsewhere(Opposite(side), others, orders, o);
    WithoutMembers(orders, o.id);
    IndexWithout(orders, o.id);
    AtLevelWithout(orders, o.id, side, o.price);
    assert LevelOk(side, levels, orders, o.price);
    IdsWithout(AtLevel(orders, side, o.price), o.id);
    AtLevelMembers(Without(orders, o.id), side, o.price);
    SumOfLevel(Without(orders, o.id), AtLevel(Without(orders, o.id), side, o.price));
  }

  /** The level's ids with the newcomer's are the grown level's. */
  lemma ArrivalIds(side: Side, levels: OrderLevels, orders: seq<Order>, o: Order)
    requires UniqueIds(orders + [o]) && o.side == side && Match(side, levels, orders)
    ensures var ids, grown := (if Has(side, levels, o.price) then At(side, levels, o.price) else []) + [o.id], orders + [o];
            && (forall id :: id in ids ==> id in IndexOf(grown))
            && SumOf(IndexOf(grown), ids) == Total(AtLevel(grown, side, o.price))
  {
    hide Position, IndexOf, Total, SumOf;
    assert LevelOk(side, levels, orders, o.price);
    AtLevelAppend(orders, side, o.price, o);
    assert Ids(AtLevel(orders, side, o.price) + [o]) == Ids(AtLevel(orders, side, o.price)) + [o.id];
    AtLevelMembers(orders + [o], side, o.price);
    SumOfLevel(orders + [o], AtLevel(orders + [o], side, o.price));
  }

  /** Everything that holds once a new order has joined the list and its level. */
  lemma ArrivalStep(side: Side, levels: OrderLevels, others: OrderLevels, orders: seq<Order>, o: Order)
    requires UniqueIds(orders) && !Holds(orders, o.id) && o.side == side
    requires Match(side, levels, orders) && Match(Opposite(side), others, orders)
    ensures var ids, grown := (if Has(side, levels, o.price) then At(side, levels, o.price) else []) + [o.id], orders + [o];
            && UniqueIds(grown)
            && IndexOf(grown) == IndexOf(orders)[o.id := OrderRecord(o.side, o.price, o.quantity)]
            && Match(side, Put(side, levels, o.price, ids), grown)
            && Match(Opposite(side), others, grown)
            && (forall id :: id in ids ==> id in IndexOf(grown))
            && SumOf(IndexOf(grown), ids) == Total(AtLevel(grown, side, o.price))
  {
    hide Put, Position, Total, IndexOf, SumOf;
    MatchAppend(side, levels, orders, o);
    MatchAppendElsewhere(Opposite(side), others, orders, o);
    IndexAppend(orders, o);
    ArrivalIds(side, levels, orders, o);
  }

  /** Everything that holds once an order's quantity has changed. */
  lemma ModifyStep(side: Side, levels: OrderLevels, others: OrderLevels, orders: seq<Order>, o: Order, quantity: int)
    requires UniqueIds(orders) && o in orders && o.side == side
    requires Match(side, levels, orders) && Match(Opposite(side), others, orders)
    ensures var after := Requantify(orders, o.id, quantity);
            && UniqueIds(after) && Match(side, levels, after) && Match(Opposite(side), others, after)
            && o.id in IndexOf(orders)
            && IndexOf(after) == IndexOf(orders)[o.id := IndexOf(orders)[o.id].(quantity := quantity)]
            && Has(side, levels, o.price)
            && (forall id :: id in At(side, levels, o.price) ==> id in IndexOf(after))
            && SumOf(IndexOf(after), At(side, levels, o.price)) == Total(AtLevel(after, side, o.price))
  {
    var after := Requantify(orders, o.id, quantity);
    RequantifyFacts(orders, o.id, quantity);
    MatchRequantify(side, levels, orders, o.id, quantity);
    MatchRequantify(Opposite(side), others, orders, o.id, quantity);
    IndexFacts(orders);
    IndexRequantify(orders, o.id, quantity);
    AtLevelMembers(orders, side, o.price);
    assert LevelOk(side, levels, orders, o.price);
    assert LevelOk(side, levels, after, o.price);
    AtLevelMembers(after, side, o.price);
    SumOfLevel(after, AtLevel(after, side, o.price));
  }

  /** Everything that holds once a side has been cut to `depth` levels. */
  lemma TruncationStep(side: Side, levels: OrderLevels, others: OrderLevels, orders: seq<Order>, depth: nat)
    requires UniqueIds(orders) && depth <= |levels|
    requires Match(side, levels, orders) && Match(Opposite(side), others, orders)
    ensures var kept := KeepBest(orders, side, depth);
            && UniqueIds(kept) && IndexOf(kept) == IndexOf(orders) - IdsFrom(levels, depth)
            && Match(side, levels[..depth], kept) && Match(Opposite(side), others, kept)
  {
    KeptMembers(orders, orders, side, depth);
    IndexTruncate(side, levels, orders, depth);
    MatchTruncate(side, levels, orders, depth);
    MatchTruncateElsewhere(Opposite(side), others, orders, side, depth);
  }

  lemma IdsInStep(levels: OrderLevels, from: nat, i: nat)
    requires from <= i < |levels|
    ensures IdsIn(levels, from, i + 1) ==
            IdsIn(levels, from, i) + (set k | 0 <= k < |levels[i].value| :: levels[i].value[k])
  {
  }

  lemma NoEntries(side: Side, levels: OrderLevels, orders: seq<Order>)
    ensures Entries(LevelOrders(side, levels, orders, 0)) == []
  {
  }

  lemma EntriesConcat(a: seq<Order>, b: seq<Order>)
    ensures Entries(a + b) == Entries(a) + Entries(b)
  {
  }

  /** The integrity issue a whole message leaves behind: the first unknown order, else crossing. */
  function MessageIssue(hitsUnknown: bool, crossed: bool): Option<IntegrityIssue> {
    if hitsUnknown then Some(UnknownOrder) else if crossed then Some(CrossedBook) else None
  }

  class L3Policy {
    const maxDepth: nat
    var bidLevels: OrderLevels
    var askLevels: OrderLevels
    var orderIndex: OrderIndex
    /** The flat list the three structures stand for. */
    ghost var orders: seq<Order>

    ghost predicate Valid()
      reads this
    {
      && maxDepth > 0
      && UniqueIds(orders)
      && orderIndex == IndexOf(orders)
      && Match(Bid, bidLevels, orders)
      && Match(Ask, askLevels, orders)
    }

    function Levels(side: Side): OrderLevels
      reads this
    {
      if side.Bid? then bidLevels else askLevels
    }

    constructor (depth: nat)
      requires depth > 0
      ensures Valid() && orders == [] && maxDepth == depth
    {
      maxDepth := depth;
      bidLevels, askLevels, orderIndex, orders := [], [], map[], [];
    }

    method SetLevels(side: Side, levels: OrderLevels)
      modifies this
      ensures Levels(side) == levels
      ensures side.Bid? ==> askLevels == old(askLevels)
      ensures side.Ask? ==> bidLevels == old(bidLevels)
      ensures orderIndex == old(orderIndex) && orders == old(orders)
    {
      if side.Bid? {
        bidLevels := levels;
      } else {
        askLevels := levels;
      }
    }

    method LevelAggregate(ids: seq<OrderId>) returns (total: int)
      requires forall id :: id in ids ==> id in orderIndex
      ensures total == SumOf(orderIndex, ids)
    {
      total := 0;
      for i := 0 to |ids|
        invariant total == SumOf(orderIndex, ids[..i])
      {
        total := total + orderIndex[ids[i]].quantity;
        assert ids[..i + 1][..i] == ids[..i];
      }
      assert ids[..|ids|] == ids;
    }

    method Best(side: Side) returns (best: Option<BookEntry>)
      requires Valid()
      ensures best == L3List.Best(orders, side)
      ensures IsBest(orders, side, best)
    {
      var levels := Levels(side);
      BestIsBest(orders, side);
      MatchBest(side, levels, orders);
      if levels == [] {
        return None;
      }
      AtLevelMembers(orders, side, levels[0].price);
      SumOfLevel(orders, AtLevel(orders, side, levels[0].price));
      var total := LevelAggregate(levels[0].value);
      best := Some(BookEntry(levels[0].price, total));
    }

    method OrderQuantity(id: OrderId) returns (quantity: Option<int>)
      requires Valid()
      ensures quantity.None? <==> !Holds(orders, id)
      ensures forall o :: o in orders && o.id == id ==> quantity == Some(o.quantity)
    {
      IndexFacts(orders);
      quantity := if id in orderIndex then Some(orderIndex[id].quantity) else None;
    }

    /** The orders of the first `maxLevels` levels of a side, as view entries; all of them for a
        large enough `maxLevels`. */
    method EntriesOf(side: Side, maxLevels: nat) returns (entries: seq<BookEntry>)
      requires Valid()
      ensures entries == Entries(LevelOrders(side, Levels(side), orders,
                                             if maxLevels < |Levels(side)| then maxLevels else |Levels(side)|))
      ensures maxLevels >= |Levels(side)| ==> entries == Entries(SideView(orders, side))
      ensures FromBest(side, entries)
    {
      hide AtLevel, SideView, IndexOf, UniqueIds, LevelOrders, Entries, FromBest;
      var levels := Levels(side);
      entries := [];
      var levelCount := 0;
      NoEntries(side, levels, orders);
      while levelCount < |levels| && levelCount != maxLevels
        invariant levelCount <= |levels| && levelCount <= maxLevels
        invariant entries == Entries(LevelOrders(side, levels, orders, levelCount))
      {
        var price, ids := levels[levelCount].price, levels[levelCount].value;
        LevelIds(side, levels, orders, levelCount);
        LevelOrdersNext(side, levels, orders, levelCount);
        var levelEntries := LevelEntries(side, price, ids);
        EntriesConcat(LevelOrders(side, levels, orders, levelCount), AtLevel(orders, side, price));
        entries := entries + levelEntries;
        levelCount := levelCount + 1;
      }
      LevelsAreSideView(side, levels, orders);
      LevelsGoFromBest(side, levels, orders, levelCount);
    }

    method LevelEntries(side: Side, price: int, ids: seq<OrderId>) returns (entries: seq<BookEntry>)
      requires Valid()
      requires ids == Ids(AtLevel(orders, side, price))
      ensures entries == Entries(AtLevel(orders, side, price))
    {
      ghost var level := AtLevel(orders, side, price);
      AtLevelMembers(orders, side, price);
      IndexFacts(orders);
      entries := [];
      for k := 0 to |ids|
        invariant entries == Entries(level)[..k]
      {
        assert level[k] in level;
        entries := entries + [BookEntry(price, orderIndex[ids[k]].quantity)];
      }
    }

    method RemoveOrderFromLevel(side: Side, price: int, id: OrderId, changes: ChangeSet,
                                ghost o: Order, ghost before: seq<Order>)
      returns (after: ChangeSet)
      requires maxDepth > 0 && UniqueIds(orders)
      requires o in orders && o.id == id && o.side == side && o.price == price
      requires orderIndex == IndexOf(orders) - {id}
      requires Match(Bid, bidLevels, orders) && Match(Ask, askLevels, orders)
      requires Reports(changes, before, orders)
      modifies this
      ensures Valid() && orders == Without(old(orders), id)
      ensures Reports(after, before, orders)
      ensures after.issue == changes.issue
    {
      hide Match, Reports, UniqueIds, IndexOf, Without, AtLevel, Total, RemoveId, Put, Erase, SumOf, Ids;
      var levels := Levels(side);
      RemovalStep(side, levels, Levels(Opposite(side)), orders, o);
      ReportsRemoval(changes, before, orders, o);
      orders := Without(orders, id);

      var event := OrderEvent(Deleted, id, side, price, 0);
      var ids := RemoveId(At(side, levels, price), id);
      if ids == [] {
        SetLevels(side, Erase(side, levels, price));
        after := WithEvent(changes, event, LevelChange(side, price, None));
      } else {
        SetLevels(side, Put(side, levels, price, ids));
        var total := LevelAggregate(ids);
        after := WithEvent(changes, event, LevelChange(side, price, Some(total)));
      }
    }

    method AddOrderToLevel(update: L3Update, changes: ChangeSet, ghost before: seq<Order>) returns (after: ChangeSet)
      requires maxDepth > 0 && UniqueIds(orders) && !Holds(orders, update.id)
      requires orderIndex == IndexOf(orders)[update.id := OrderRecord(update.side, update.price, update.quantity)]
      requires Match(Bid, bidLevels, orders) && Match(Ask, askLevels, orders)
      requires Reports(changes, before, orders)
      modifies this
      ensures Valid()
      ensures orders == old(orders) + [Order(update.id, update.side, update.price, update.quantity)]
      ensures Reports(after, before, orders)
      ensures after.issue == changes.issue
    {
      hide Match, Reports, UniqueIds, IndexOf, AtLevel, Total, Put, SumOf;
      var side, price := update.side, update.price;
      var levels := Levels(side);
      ghost var o := Order(update.id, side, price, update.quantity);
      ArrivalStep(side, levels, Levels(Opposite(side)), orders, o);
      ReportsArrival(changes, before, orders, o);
      orders := orders + [o];

      var ids := (if Has(side, levels, price) then At(side, levels, price) else []) + [update.id];
      SetLevels(side, Put(side, levels, price, ids));
      var total := LevelAggregate(ids);
      after := WithEvent(changes, OrderEvent(Added, update.id, side, price, update.quantity),
                         LevelChange(side, price, Some(total)));
    }

    /** A re-announced id leaves its old level first. */
    method AddOrder(update: L3Update, changes: ChangeSet, ghost before: seq<Order>) returns (after: ChangeSet)
      requires Valid() && Reports(changes, before, orders)
      modifies this
      ensures Valid() && orders == Announce(old(orders), update)
      ensures Reports(after, before, orders)
      ensures after.issue == changes.issue
    {
      after := changes;
      IndexHolds(orders, update.id);
      WithoutMembers(orders, update.id);
      if update.id in orderIndex {
        var record := orderIndex[update.id];
        ghost var o := IndexedOrder(orders, update.id);
        orderIndex := orderIndex - {update.id};
        after := RemoveOrderFromLevel(record.side, record.price, update.id, after, o, before);
      }
      orderIndex := orderIndex[update.id := OrderRecord(update.side, update.price, update.quantity)];
      after := AddOrderToLevel(update, after, before);
    }

    method ModifyOrder(update: L3Update, changes: ChangeSet, ghost before: seq<Order>) returns (after: ChangeSet)
      requires Valid() && Reports(changes, before, orders)
      modifies this
      ensures Valid() && orders == Requantify(old(orders), update.id, update.quantity)
      ensures Reports(after, before, orders)
      ensures after.issue == if Holds(old(orders), update.id) then changes.issue else ReportIssue(changes.issue, UnknownOrder)
    {
      IndexHolds(orders, update.id);
      if update.id !in orderIndex {
        RequantifyFacts(orders, update.id, update.quantity);
        after := changes.(issue := ReportIssue(changes.issue, UnknownOrder));
        return;
      }
      ghost var o := IndexedOrder(orders, update.id);
      after := ModifyKnownOrder(update.id, update.quantity, changes, o, before);
    }

    method ModifyKnownOrder(id: OrderId, quantity: int, changes: ChangeSet, ghost o: Order, ghost before: seq<Order>)
      returns (after: ChangeSet)
      requires Valid() && Reports(changes, before, orders)
      requires o in orders && o.id == id
      requires id in orderIndex && orderIndex[id] == OrderRecord(o.side, o.price, o.quantity)
      modifies this
      ensures Valid() && orders == Requantify(old(orders), id, quantity)
      ensures Reports(after, before, orders)
      ensures after.issue == changes.issue
    {
      var side, price := orderIndex[id].side, orderIndex[id].price;
      var levels := Levels(side);
      ModifyStep(side, levels, Levels(Opposite(side)), orders, o, quantity);
      ReportsModify(changes, before, orders, o, quantity);
      orderIndex := orderIndex[id := orderIndex[id].(quantity := quantity)];
      orders := Requantify(orders, id, quantity);

      var total := LevelAggregate(At(side, levels, price));
      after := WithEvent(changes, OrderEvent(Modified, id, side, price, quantity),
                         LevelChange(side, price, Some(total)));
    }

    method DeleteOrder(update: L3Update, changes: ChangeSet, ghost before: seq<Order>) returns (after: ChangeSet)
      requires Valid() && Reports(changes, before, orders)
      modifies this
      ensures Valid() && orders == Without(old(orders), update.id)
      ensures Reports(after, before, orders)
      ensures after.issue == if Holds(old(orders), update.id) then changes.issue else ReportIssue(changes.issue, UnknownOrder)
    {
      IndexHolds(orders, update.id);
      if update.id !in orderIndex {
        WithoutMembers(orders, update.id);
        after := changes.(issue := ReportIssue(changes.issue, UnknownOrder));
        return;
      }
      ghost var o := IndexedOrder(orders, update.id);
      var record := orderIndex[update.id];
      orderIndex := orderIndex - {update.id};
      after := RemoveOrderFromLevel(record.side, record.price, update.id, changes, o, before);
    }

    method EraseIds(ids: seq<OrderId>)
      modifies this`orderIndex
      ensures orderIndex == old(orderIndex) - (set k | 0 <= k < |ids| :: ids[k])
    {
      for k := 0 to |ids|
        invariant orderIndex == old(orderIndex) - (set j | 0 <= j < k :: ids[j])
      {
        orderIndex := orderIndex - {ids[k]};
        assert (set j | 0 <= j < k + 1 :: ids[j]) == (set j | 0 <= j < k :: ids[j]) + {ids[k]};
      }
    }

    /** Drops the levels of a side beyond maxDepth, and their orders with them. */
    method TruncateToDepth(side: Side)
      requires Valid()
      modifies this
      ensures Valid() && orders == KeepBest(old(orders), side, maxDepth)
      ensures |Levels(side)| == if old(|Levels(side)|) <= maxDepth then old(|Levels(side)|) else maxDepth
      ensures forall o, d :: o in orders && o.side == side && d in old(orders) && d !in orders ==>
                d.side == side && if side == Bid then o.price > d.price else o.price < d.price
    {
      hide Match, IndexOf, UniqueIds, KeepBest;
      ghost var kept := KeepBest(orders, side, maxDepth);
      forall o, d | o in kept && o.side == side && d in orders && d !in kept
        ensures d.side == side && Better(side, o.price, d.price)
      {
        KeptBeatsDropped(orders, side, maxDepth, o, d);
      }
      var levels := Levels(side);
      if |levels| <= maxDepth {
        KeepAll(side, levels, orders, maxDepth);
        return;
      }
      TruncationStep(side, levels, Levels(Opposite(side)), orders, maxDepth);
      for i := maxDepth to |levels|
        invariant orderIndex == old(orderIndex) - IdsIn(levels, maxDepth, i)
        invariant bidLevels == old(bidLevels) && askLevels == old(askLevels) && orders == old(orders)
      {
        EraseIds(levels[i].value);
        IdsInStep(levels, maxDepth, i);
      }
      SetLevels(side, levels[..maxDepth]);
      orders := KeepBest(orders, side, maxDepth);
    }

    method ApplySnapshot(snapshot: seq<L3Update>) returns (changes: ChangeSet)
      requires Valid()
      modifies this
      ensures Valid()
      ensures orders == Truncate(ApplyAll([], AsAdds(snapshot)), maxDepth)
      ensures B.BatchMeans([], AsAdds(snapshot), ApplyAll([], AsAdds(snapshot)))
      ensures Reports(changes, [], ApplyAll([], AsAdds(snapshot)))
      ensures changes.bidTopChanged && changes.askTopChanged
      ensures changes.issue == MessageIssue(false, Crossed(orders))
    {
      hide Reports, Totals, FollowLevels;
      bidLevels, askLevels, orderIndex, orders := [], [], map[], [];
      changes := NO_CHANGES;
      NothingToReport([]);
      ghost var adds := AsAdds(snapshot);
      for i := 0 to |snapshot|
        invariant Valid() && orders == ApplyAll([], adds[..i])
        invariant Reports(changes, [], orders) && changes.issue.None?
      {
        assert adds[..i + 1][..i] == adds[..i];
        changes := AddOrder(snapshot[i], changes, []);
      }
      assert adds[..|snapshot|] == adds;
      B.BatchDoesThis([], adds);
      hide B.BatchMeans;
      ghost var reported, whole := changes, orders;
      TruncateToDepth(Bid);
      TruncateToDepth(Ask);

      changes := changes.(bidTopChanged := true, askTopChanged := true);
      var bestBid := Best(Bid);
      var bestAsk := Best(Ask);
      if IsCrossed(bestBid, bestAsk) {
        changes := changes.(issue := ReportIssue(changes.issue, CrossedBook));
      }
      SameReport(reported, changes, [], whole);
    }

    method ApplyBatch(updates: seq<L3Update>) returns (changes: ChangeSet)
      requires Valid()
      modifies this
      ensures Valid()
      ensures orders == Truncate(ApplyAll(old(orders), updates), maxDepth)
      ensures B.BatchMeans(old(orders), updates, ApplyAll(old(orders), updates))
      ensures Reports(changes, old(orders), ApplyAll(old(orders), updates))
      ensures CutLevels(FollowLevels(Totals(old(orders)), changes.levelChanges), maxDepth) == Totals(orders)
      ensures changes.bidTopChanged <==> L3List.Best(old(orders), Bid) != L3List.Best(orders, Bid)
      ensures changes.askTopChanged <==> L3List.Best(old(orders), Ask) != L3List.Best(orders, Ask)
      ensures changes.issue == MessageIssue(HitsUnknownOrder(old(orders), updates), Crossed(orders))
    {
      hide Reports, Totals, FollowLevels;
      changes := NO_CHANGES;
      ghost var before := orders;
      NothingToReport(before);
      var oldBestBid := Best(Bid);
      var oldBestAsk := Best(Ask);

      for i := 0 to |updates|
        invariant Valid() && orders == ApplyAll(before, updates[..i])
        invariant Reports(changes, before, orders)
        invariant changes.issue == MessageIssue(HitsUnknownOrder(before, updates[..i]), false)
      {
        assert updates[..i + 1][..i] == updates[..i];
        match updates[i].event {
          case Added => changes := AddOrder(updates[i], changes, before);
          case Modified => changes := ModifyOrder(updates[i], changes, before);
          case Deleted => changes := DeleteOrder(updates[i], changes, before);
        }
      }
      assert updates[..|updates|] == updates;
      B.BatchDoesThis(before, updates);
      hide B.BatchMeans;
      ReportedLevels(changes, before, orders);
      CutIsTruncate(orders, maxDepth);
      ghost var reported, whole := changes, orders;
      TruncateToDepth(Bid);
      TruncateToDepth(Ask);

      var newBestBid := Best(Bid);
      var newBestAsk := Best(Ask);
      changes := changes.(bidTopChanged := oldBestBid != newBestBid, askTopChanged := oldBestAsk != newBestAsk);
      if IsCrossed(newBestBid, newBestAsk) {
        changes := changes.(issue := ReportIssue(changes.issue, CrossedBook));
      }
      SameReport(reported, changes, before, whole);
    }
  }
}
