/** What an order-by-order book means, said without levels or an index: the resting orders of both
    sides in arrival order. An Add forgets any order of the same id and joins the end, a Modify
    changes a quantity in place, a Delete removes, and after a whole message only the orders at the
    `depth` best prices of each side are kept. L3Policy is proved to be this list. */
module L3List {
  import opened BookTypes
  import StableSort

  datatype Order = Order(id: OrderId, side: Side, price: int, quantity: int)

  datatype L3Update = L3Update(event: OrderEventKind, id: OrderId, side: Side, price: int, quantity: int)

  datatype OrderRecord = OrderRecord(side: Side, price: int, quantity: int)

  type OrderIndex = map<OrderId, OrderRecord>

  // ---------------------------------------------------------------- the list and its operations

  predicate UniqueIds(orders: seq<Order>) {
    forall i, j :: 0 <= i < j < |orders| ==> orders[i].id != orders[j].id
  }

  predicate Holds(orders: seq<Order>, id: OrderId) {
    exists i :: 0 <= i < |orders| && orders[i].id == id
  }

  function Without(orders: seq<Order>, id: OrderId): seq<Order> {
    if orders == [] then []
    else
      var last := orders[|orders| - 1];
      Without(orders[..|orders| - 1], id) + if last.id == id then [] else [last]
  }

  function Requantify(orders: seq<Order>, id: OrderId, quantity: int): seq<Order> {
    if orders == [] then []
    else
      var last := orders[|orders| - 1];
      Requantify(orders[..|orders| - 1], id, quantity)
      + [if last.id == id then last.(quantity := quantity) else last]
  }

  function Announce(orders: seq<Order>, update: L3Update): seq<Order> {
    Without(orders, update.id) + [Order(update.id, update.side, update.price, update.quantity)]
  }

  function Apply(orders: seq<Order>, update: L3Update): seq<Order> {
    match update.event
    case Added => Announce(orders, update)
    case Modified => Requantify(orders, update.id, update.quantity)
    case Deleted => Without(orders, update.id)
  }

  function ApplyAll(orders: seq<Order>, updates: seq<L3Update>): seq<Order> {
    if updates == [] then orders
    else Apply(ApplyAll(orders, updates[..|updates| - 1]), updates[|updates| - 1])
  }

  /** Some update of the message modifies or deletes an order that is not resting at that point. */
  predicate HitsUnknownOrder(orders: seq<Order>, updates: seq<L3Update>) {
    updates != [] &&
    (var n := |updates| - 1;
     || HitsUnknownOrder(orders, updates[..n])
     || (updates[n].event != Added && !Holds(ApplyAll(orders, updates[..n]), updates[n].id)))
  }

  lemma HitsAppend(orders: seq<Order>, updates: seq<L3Update>, update: L3Update)
    ensures HitsUnknownOrder(orders, updates + [update]) <==>
            || HitsUnknownOrder(orders, updates)
            || (update.event != Added && !Holds(ApplyAll(orders, updates), update.id))
  {
    assert (updates + [update])[..|updates|] == updates;
  }

  /** A snapshot's entries are all resting orders, whatever their event field says. */
  function AsAdds(updates: seq<L3Update>): (adds: seq<L3Update>)
    ensures |adds| == |updates|
    ensures forall i :: 0 <= i < |adds| ==> adds[i] == updates[i].(event := Added)
  {
    seq(|updates|, i requires 0 <= i < |updates| => updates[i].(event := Added))
  }

  // ------------------------------------------------------------------------------ price levels

  /** One level's orders, oldest first. */
  function AtLevel(orders: seq<Order>, side: Side, price: int): seq<Order> {
    if orders == [] then []
    else
      var last := orders[|orders| - 1];
      AtLevel(orders[..|orders| - 1], side, price)
      + if last.side == side && last.price == price then [last] else []
  }

  function Ids(orders: seq<Order>): (ids: seq<OrderId>)
    ensures |ids| == |orders|
  {
    seq(|orders|, i requires 0 <= i < |orders| => orders[i].id)
  }

  function Entries(orders: seq<Order>): (entries: seq<BookEntry>)
    ensures |entries| == |orders|
  {
    seq(|orders|, i requires 0 <= i < |orders| => BookEntry(orders[i].price, orders[i].quantity))
  }

  function Total(orders: seq<Order>): int {
    if orders == [] then 0 else Total(orders[..|orders| - 1]) + orders[|orders| - 1].quantity
  }

  function Totals(orders: seq<Order>): LevelTotals {
    map key | key in (set o | o in orders :: (o.side, o.price)) :: Total(AtLevel(orders, key.0, key.1))
  }

  function Prices(orders: seq<Order>, side: Side): set<int> {
    set o | o in orders && o.side == side :: o.price
  }

  function BetterPrices(orders: seq<Order>, side: Side, price: int): set<int> {
    set p | p in Prices(orders, side) && Rank(side, p) < Rank(side, price)
  }

  /** Drops the orders of `side` that are not at one of its `depth` best prices in `book`. */
  function KeepBestOf(book: seq<Order>, orders: seq<Order>, side: Side, depth: nat): seq<Order> {
    if orders == [] then []
    else
      var last := orders[|orders| - 1];
      KeepBestOf(book, orders[..|orders| - 1], side, depth)
      + if last.side == side && |BetterPrices(book, side, last.price)| >= depth then [] else [last]
  }

  function KeepBest(orders: seq<Order>, side: Side, depth: nat): seq<Order> {
    KeepBestOf(orders, orders, side, depth)
  }

  function Truncate(orders: seq<Order>, depth: nat): seq<Order> {
    KeepBest(KeepBest(orders, Bid, depth), Ask, depth)
  }

  // ------------------------------------------------------------------------------------ queries

  function BestPrice(orders: seq<Order>, side: Side): Option<int> {
    if orders == [] then None
    else
      var best := BestPrice(orders[..|orders| - 1], side);
      var last := orders[|orders| - 1];
      if last.side != side then best
      else if best.None? || Rank(side, last.price) < Rank(side, best.value) then Some(last.price)
      else best
  }

  function Best(orders: seq<Order>, side: Side): Option<BookEntry> {
    match BestPrice(orders, side)
    case None => None
    case Some(price) => Some(BookEntry(price, Total(AtLevel(orders, side, price))))
  }

  predicate Crossed(orders: seq<Order>) {
    IsCrossed(Best(orders, Bid), Best(orders, Ask))
  }

  function OnSide(orders: seq<Order>, side: Side): seq<Order> {
    if orders == [] then []
    else
      var last := orders[|orders| - 1];
      OnSide(orders[..|orders| - 1], side) + if last.side == side then [last] else []
  }

  function PriceKey(side: Side): Order -> int {
    (o: Order) => Rank(side, o.price)
  }

  /** The side best price first, ties in arrival order. */
  function SideView(orders: seq<Order>, side: Side): seq<Order> {
    StableSort.Sort(OnSide(orders, side), PriceKey(side))
  }

  function IndexOf(orders: seq<Order>): OrderIndex {
    if orders == [] then map[]
    else
      var last := orders[|orders| - 1];
      IndexOf(orders[..|orders| - 1])[last.id := OrderRecord(last.side, last.price, last.quantity)]
  }

  /** What an order listener holds after being told `events` one by one. */
  function FollowOrders(index: OrderIndex, events: seq<OrderEvent>): OrderIndex {
    if events == [] then index
    else
      var before := FollowOrders(index, events[..|events| - 1]);
      var last := events[|events| - 1];
      match last.kind
      case Added => before[last.id := OrderRecord(last.side, last.price, last.quantity)]
      case Modified => if last.id in before then before[last.id := before[last.id].(quantity := last.quantity)] else before
      case Deleted => before - {last.id}
  }

  lemma FollowOrdersOne(index: OrderIndex, events: seq<OrderEvent>, event: OrderEvent)
    ensures FollowOrders(index, events + [event]) == FollowOrders(FollowOrders(index, events), [event])
  {
    assert (events + [event])[..|events|] == events;
    assert [event][..0] == [];
  }

  function SumOf(index: OrderIndex, ids: seq<OrderId>): int
    requires forall id :: id in ids ==> id in index
  {
    if ids == [] then 0 else SumOf(index, ids[..|ids| - 1]) + index[ids[|ids| - 1]].quantity
  }

  // --------------------------------------------------------------------------- basic list facts

  lemma {:induction false} AtLevelMembers(orders: seq<Order>, side: Side, price: int)
    ensures forall o :: o in AtLevel(orders, side, price) <==> o in orders && o.side == side && o.price == price
  {
    if orders != [] {
      var front := orders[..|orders| - 1];
      AtLevelMembers(front, side, price);
      assert orders == front + [orders[|orders| - 1]];
    }
  }

  lemma {:induction false} WithoutKeepsOthers(orders: seq<Order>, id: OrderId)
    ensures forall o :: o in Without(orders, id) <==> o in orders && o.id != id
  {
    if orders != [] {
      var front, last := orders[..|orders| - 1], orders[|orders| - 1];
      WithoutKeepsOthers(front, id);
      assert orders == front + [last];
    }
  }

  lemma {:induction false} WithoutUnique(orders: seq<Order>, id: OrderId)
    requires UniqueIds(orders)
    ensures UniqueIds(Without(orders, id))
  {
    if orders != [] {
      var front, last := orders[..|orders| - 1], orders[|orders| - 1];
      WithoutUnique(front, id);
      WithoutKeepsOthers(front, id);
      var left := Without(front, id);
      forall i | 0 <= i < |left| ensures left[i].id != last.id {
        assert left[i] in front;
      }
    }
  }

  lemma {:induction false} WithoutUnknown(orders: seq<Order>, id: OrderId)
    requires !Holds(orders, id)
    ensures Without(orders, id) == orders
  {
    if orders != [] {
      var front, last := orders[..|orders| - 1], orders[|orders| - 1];
      assert orders == front + [last];
      HoldsAppend(front, last, id);
      WithoutUnknown(front, id);
    }
  }

  lemma WithoutMembers(orders: seq<Order>, id: OrderId)
    ensures forall o :: o in Without(orders, id) <==> o in orders && o.id != id
    ensures UniqueIds(orders) ==> UniqueIds(Without(orders, id))
    ensures !Holds(Without(orders, id), id)
    ensures !Holds(orders, id) ==> Without(orders, id) == orders
  {
    WithoutKeepsOthers(orders, id);
    if UniqueIds(orders) {
      WithoutUnique(orders, id);
    }
    if !Holds(orders, id) {
      WithoutUnknown(orders, id);
    }
    var left := Without(orders, id);
    forall i | 0 <= i < |left| ensures left[i].id != id {
      assert left[i] in left;
    }
  }

  lemma {:induction false} AtLevelWithout(orders: seq<Order>, id: OrderId, side: Side, price: int)
    ensures AtLevel(Without(orders, id), side, price) == Without(AtLevel(orders, side, price), id)
  {
    if orders != [] {
      var front, last := orders[..|orders| - 1], orders[|orders| - 1];
      AtLevelWithout(front, id, side, price);
      WithoutAppend(AtLevel(front, side, price), id, last);
      AtLevelAppend(Without(front, id), side, price, last);
      assert Without(front, id) + [] == Without(front, id);
      assert AtLevel(front, side, price) + [] == AtLevel(front, side, price);
    }
  }

  lemma AtLevelAppend(orders: seq<Order>, side: Side, price: int, o: Order)
    ensures AtLevel(orders + [o], side, price) ==
            AtLevel(orders, side, price) + if o.side == side && o.price == price then [o] else []
  {
    assert (orders + [o])[..|orders|] == orders;
  }

  lemma WithoutAppend(orders: seq<Order>, id: OrderId, o: Order)
    ensures Without(orders + [o], id) == Without(orders, id) + if o.id == id then [] else [o]
  {
    assert (orders + [o])[..|orders|] == orders;
  }

  lemma {:induction false} RequantifyFacts(orders: seq<Order>, id: OrderId, quantity: int)
    ensures |Requantify(orders, id, quantity)| == |orders|
    ensures forall i :: 0 <= i < |orders| ==>
              Requantify(orders, id, quantity)[i] ==
              if orders[i].id == id then orders[i].(quantity := quantity) else orders[i]
    ensures UniqueIds(orders) ==> UniqueIds(Requantify(orders, id, quantity))
    ensures !Holds(orders, id) ==> Requantify(orders, id, quantity) == orders
  {
    if orders != [] {
      RequantifyFacts(orders[..|orders| - 1], id, quantity);
    }
  }

  lemma {:induction false} AtLevelRequantify(orders: seq<Order>, id: OrderId, quantity: int, side: Side, price: int)
    ensures AtLevel(Requantify(orders, id, quantity), side, price) ==
            Requantify(AtLevel(orders, side, price), id, quantity)
  {
    if orders != [] {
      var front, last := orders[..|orders| - 1], orders[|orders| - 1];
      AtLevelRequantify(front, id, quantity, side, price);
      var changed := if last.id == id then last.(quantity := quantity) else last;
      AtLevelAppend(Requantify(front, id, quantity), side, price, changed);
      var level := AtLevel(front, side, price);
      if last.side == side && last.price == price {
        assert (level + [last])[..|level|] == level;
      } else {
        assert level + [] == level;
      }
    }
  }

  lemma {:induction false} IdsRequantify(orders: seq<Order>, id: OrderId, quantity: int)
    ensures Ids(Requantify(orders, id, quantity)) == Ids(orders)
  {
    RequantifyFacts(orders, id, quantity);
  }

  // -------------------------------------------------------------------------------- index facts

  lemma {:induction false} IndexRecords(orders: seq<Order>)
    requires UniqueIds(orders)
    ensures forall i :: 0 <= i < |orders| ==>
              orders[i].id in IndexOf(orders) &&
              IndexOf(orders)[orders[i].id] == OrderRecord(orders[i].side, orders[i].price, orders[i].quantity)
  {
    if orders != [] {
      var front, last := orders[..|orders| - 1], orders[|orders| - 1];
      IndexRecords(front);
      forall i | 0 <= i < |front| ensures orders[i] == front[i] && orders[i].id != last.id {
      }
    }
  }

  lemma {:induction false} IndexKeys(orders: seq<Order>, id: OrderId)
    ensures id in IndexOf(orders) <==> Holds(orders, id)
  {
    if orders != [] {
      var front, last := orders[..|orders| - 1], orders[|orders| - 1];
      IndexKeys(front, id);
      HoldsAppend(front, last, id);
      assert orders == front + [last];
    }
  }

  lemma HoldsAppend(orders: seq<Order>, o: Order, id: OrderId)
    ensures Holds(orders + [o], id) <==> Holds(orders, id) || o.id == id
  {
    var grown := orders + [o];
    assert grown[|orders|] == o;
    if Holds(orders, id) {
      var i :| 0 <= i < |orders| && orders[i].id == id;
      assert grown[i].id == id;
    }
    if Holds(grown, id) && o.id != id {
      var i :| 0 <= i < |grown| && grown[i].id == id;
      assert orders[i].id == id;
    }
  }

  lemma IndexFacts(orders: seq<Order>)
    requires UniqueIds(orders)
    ensures forall o :: o in orders ==>
              o.id in IndexOf(orders) && IndexOf(orders)[o.id] == OrderRecord(o.side, o.price, o.quantity)
    ensures forall id :: id in IndexOf(orders) <==> Holds(orders, id)
  {
    IndexRecords(orders);
    forall id ensures id in IndexOf(orders) <==> Holds(orders, id) {
      IndexKeys(orders, id);
    }
  }

  lemma UpdateRemove<K, V>(m: map<K, V>, key: K, value: V, gone: K)
    ensures m[key := value] - {gone} == if key == gone then m - {gone} else (m - {gone})[key := value]
  {
  }

  lemma {:induction false} IndexWithout(orders: seq<Order>, id: OrderId)
    ensures IndexOf(Without(orders, id)) == IndexOf(orders) - {id}
  {
    if orders != [] {
      var front, last := orders[..|orders| - 1], orders[|orders| - 1];
      IndexWithout(front, id);
      UpdateRemove(IndexOf(front), last.id, OrderRecord(last.side, last.price, last.quantity), id);
      if last.id == id {
        assert Without(orders, id) == Without(front, id);
      } else {
        IndexAppend(Without(front, id), last);
      }
    }
  }

  lemma IndexAppend(orders: seq<Order>, o: Order)
    ensures IndexOf(orders + [o]) == IndexOf(orders)[o.id := OrderRecord(o.side, o.price, o.quantity)]
  {
    assert (orders + [o])[..|orders|] == orders;
  }

  lemma LastIsOnlyHolder(orders: seq<Order>)
    requires UniqueIds(orders) && orders != []
    ensures !Holds(orders[..|orders| - 1], orders[|orders| - 1].id)
  {
  }

  lemma {:induction false} IndexRequantify(orders: seq<Order>, id: OrderId, quantity: int)
    requires UniqueIds(orders) && id in IndexOf(orders)
    ensures IndexOf(Requantify(orders, id, quantity)) ==
            IndexOf(orders)[id := IndexOf(orders)[id].(quantity := quantity)]
  {
    var front, last := orders[..|orders| - 1], orders[|orders| - 1];
    if last.id == id {
      LastIsOnlyHolder(orders);
      RequantifyFacts(front, id, quantity);
      IndexAppend(front, last.(quantity := quantity));
    } else {
      IndexRequantify(front, id, quantity);
      IndexAppend(Requantify(front, id, quantity), last);
    }
  }

  /** Summing a level through the index gives the level's total. */
  lemma {:induction false} SumOfLevel(orders: seq<Order>, level: seq<Order>)
    requires UniqueIds(orders) && forall o :: o in level ==> o in orders
    ensures forall id :: id in Ids(level) ==> id in IndexOf(orders)
    ensures SumOf(IndexOf(orders), Ids(level)) == Total(level)
  {
    hide IndexOf, UniqueIds, Holds;
    IndexFacts(orders);
    forall id | id in Ids(level) ensures id in IndexOf(orders) {
      var i :| 0 <= i < |level| && Ids(level)[i] == id;
      assert level[i] in level;
    }
    if level != [] {
      var front, last := level[..|level| - 1], level[|level| - 1];
      SumOfLevel(orders, front);
      assert last in orders;
      assert Ids(level)[..|level| - 1] == Ids(front);
    }
  }
}
