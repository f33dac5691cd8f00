/** The three structures of L3Policy (src/order_book/l3_policy.h) against each other, for every state whose
    levels and index stand for one order list: what every `.at` and assert of the source relies on. */
module L3Structures {
  import opened BookTypes
  import opened LevelMaps
  import opened L3List
  import opened L3Levels

  /** A level lists no order twice. */
  lemma {:induction false} AtLevelOnce(orders: seq<Order>, side: Side, price: int)
    requires UniqueIds(orders)
    ensures UniqueIds(AtLevel(orders, side, price))
  {
    if orders != [] {
      var front, last := orders[..|orders| - 1], orders[|orders| - 1];
      AtLevelOnce(front, side, price);
      AtLevelMembers(front, side, price);
      var level := AtLevel(front, side, price);
      forall i | 0 <= i < |level| ensures level[i].id != last.id {
        assert level[i] in level && level[i] in front;
      }
    }
  }

  predicate Distinct(ids: seq<OrderId>) {
    forall i, j :: 0 <= i < j < |ids| ==> ids[i] != ids[j]
  }

  lemma LevelIsSound(side: Side, levels: OrderLevels, orders: seq<Order>, k: nat)
    requires UniqueIds(orders) && Match(side, levels, orders) && k < |levels|
    ensures levels[k].value != [] && Distinct(levels[k].value)
    ensures forall id :: id in levels[k].value ==>
              id in IndexOf(orders) && IndexOf(orders)[id].side == side && IndexOf(orders)[id].price == levels[k].price
  {
    hide IndexOf, AtLevel;
    var price := levels[k].price;
    PositionUnique(side, levels, price, k);
    assert LevelOk(side, levels, orders, price);
    var level := AtLevel(orders, side, price);
    AtLevelOnce(orders, side, price);
    AtLevelMembers(orders, side, price);
    IndexFacts(orders);
    forall id | id in levels[k].value
      ensures id in IndexOf(orders) && IndexOf(orders)[id].side == side && IndexOf(orders)[id].price == price
    {
      var i :| 0 <= i < |level| && level[i].id == id;
      assert level[i] in level;
    }
  }

  /** Every indexed order sits in the level its record names, once, and in no other level: an id is in level
      k of a side exactly when its record names that side and that level's price. */
  lemma IndexedExactlyOnce(side: Side, levels: OrderLevels, orders: seq<Order>, id: OrderId, k: nat)
    requires UniqueIds(orders) && Match(side, levels, orders) && k < |levels|
    ensures id in levels[k].value <==>
            id in IndexOf(orders) && IndexOf(orders)[id].side == side && IndexOf(orders)[id].price == levels[k].price
    ensures Distinct(levels[k].value)
  {
    hide IndexOf, AtLevel;
    LevelIsSound(side, levels, orders, k);
    if id in IndexOf(orders) && IndexOf(orders)[id].side == side && IndexOf(orders)[id].price == levels[k].price {
      IndexedHasALevel(side, levels, orders, id);
      PositionUnique(side, levels, levels[k].price, k);
    }
  }

  lemma IndexedHasALevel(side: Side, levels: OrderLevels, orders: seq<Order>, id: OrderId)
    requires UniqueIds(orders) && Match(side, levels, orders)
    requires id in IndexOf(orders) && IndexOf(orders)[id].side == side
    ensures Has(side, levels, IndexOf(orders)[id].price) && id in At(side, levels, IndexOf(orders)[id].price)
  {
    hide IndexOf, AtLevel;
    var price := IndexOf(orders)[id].price;
    IndexFacts(orders);
    AtLevelMembers(orders, side, price);
    assert LevelOk(side, levels, orders, price);
    var i :| 0 <= i < |orders| && orders[i].id == id;
    assert orders[i] in AtLevel(orders, side, price);
    var level := AtLevel(orders, side, price);
    var j :| 0 <= j < |level| && level[j] == orders[i];
    assert Ids(level)[j] == id;
  }
}
