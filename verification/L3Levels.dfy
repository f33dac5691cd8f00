/** How one side's level map of L3Policy stands for the flat list of L3List: a level exists exactly
    for the prices some order rests at, and holds those orders' ids oldest first. */
module L3Levels {
  import opened BookTypes
  import opened LevelMaps
  import opened L3List

  type OrderLevels = seq<Level<seq<OrderId>>>

  ghost predicate LevelOk(side: Side, levels: OrderLevels, orders: seq<Order>, price: int) {
    && (Has(side, levels, price) <==> AtLevel(orders, side, price) != [])
    && (Has(side, levels, price) ==> At(side, levels, price) == Ids(AtLevel(orders, side, price)))
  }

  ghost predicate Match(side: Side, levels: OrderLevels, orders: seq<Order>) {
    Ordered(side, levels) && forall price :: LevelOk(side, levels, orders, price)
  }

  /** std::remove of one id, then erase. */
  function RemoveId(ids: seq<OrderId>, id: OrderId): seq<OrderId> {
    if ids == [] then []
    else RemoveId(ids[..|ids| - 1], id) + if ids[|ids| - 1] == id then [] else [ids[|ids| - 1]]
  }

  lemma {:induction false} IdsWithout(orders: seq<Order>, id: OrderId)
    ensures Ids(Without(orders, id)) == RemoveId(Ids(orders), id)
  {
    if orders != [] {
      IdsWithout(orders[..|orders| - 1], id);
      assert Ids(orders)[..|orders| - 1] == Ids(orders[..|orders| - 1]);
    }
  }

  // ------------------------------------------------------- the operations keep the levels in step

  /** An order joins the end of its level, which is created when it has none. */
  lemma MatchAppend(side: Side, levels: OrderLevels, orders: seq<Order>, o: Order)
    requires Match(side, levels, orders) && o.side == side
    ensures var ids := (if Has(side, levels, o.price) then At(side, levels, o.price) else []) + [o.id];
            Match(side, Put(side, levels, o.price, ids), orders + [o])
  {
    var ids := (if Has(side, levels, o.price) then At(side, levels, o.price) else []) + [o.id];
    var after := Put(side, levels, o.price, ids);
    PutOrdered(side, levels, o.price, ids);
    forall price ensures LevelOk(side, after, orders + [o], price) {
      assert LevelOk(side, levels, orders, price);
      AtLevelAppend(orders, side, price, o);
      if price != o.price {
        PutOther(side, levels, o.price, ids, price);
      } else {
        assert Ids(AtLevel(orders, side, price) + [o]) == Ids(AtLevel(orders, side, price)) + [o.id];
      }
    }
  }

  lemma MatchAppendElsewhere(side: Side, levels: OrderLevels, orders: seq<Order>, o: Order)
    requires Match(side, levels, orders) && o.side != side
    ensures Match(side, levels, orders + [o])
  {
    forall price ensures LevelOk(side, levels, orders + [o], price) {
      assert LevelOk(side, levels, orders, price);
      AtLevelAppend(orders, side, price, o);
    }
  }

  /** A level that holds no order of the id is not touched by its removal. */
  lemma AtLevelWithoutElsewhere(orders: seq<Order>, o: Order, side: Side, price: int)
    requires UniqueIds(orders) && o in orders && (o.side != side || o.price != price)
    ensures AtLevel(Without(orders, o.id), side, price) == AtLevel(orders, side, price)
  {
    AtLevelWithout(orders, o.id, side, price);
    AtLevelMembers(orders, side, price);
    var level := AtLevel(orders, side, price);
    forall i | 0 <= i < |level| ensures level[i].id != o.id {
      assert level[i] in level;
    }
    WithoutMembers(level, o.id);
  }

  /** A removed order leaves its level, which goes with its last order. */
  lemma MatchWithout(side: Side, levels: OrderLevels, orders: seq<Order>, o: Order)
    requires Match(side, levels, orders) && UniqueIds(orders) && o in orders && o.side == side
    ensures Has(side, levels, o.price)
    ensures var rest := RemoveId(At(side, levels, o.price), o.id);
            Match(side, if rest == [] then Erase(side, levels, o.price) else Put(side, levels, o.price, rest),
                  Without(orders, o.id))
  {
    assert LevelOk(side, levels, orders, o.price);
    AtLevelMembers(orders, side, o.price);
    var rest := RemoveId(At(side, levels, o.price), o.id);
    var after := if rest == [] then Erase(side, levels, o.price) else Put(side, levels, o.price, rest);
    EraseOrdered(side, levels, o.price);
    PutOrdered(side, levels, o.price, rest);
    AtLevelWithout(orders, o.id, side, o.price);
    IdsWithout(AtLevel(orders, side, o.price), o.id);
    forall price ensures LevelOk(side, after, Without(orders, o.id), price) {
      assert LevelOk(side, levels, orders, price);
      if price != o.price {
        AtLevelWithoutElsewhere(orders, o, side, price);
        PutOther(side, levels, o.price, rest, price);
        EraseOther(side, levels, o.price, price);
      }
    }
  }

  lemma MatchWithoutElsewhere(side: Side, levels: OrderLevels, orders: seq<Order>, o: Order)
    requires Match(side, levels, orders) && UniqueIds(orders) && o in orders && o.side != side
    ensures Match(side, levels, Without(orders, o.id))
  {
    forall price ensures LevelOk(side, levels, Without(orders, o.id), price) {
      assert LevelOk(side, levels, orders, price);
      AtLevelWithoutElsewhere(orders, o, side, price);
    }
  }

  lemma MatchRequantify(side: Side, levels: OrderLevels, orders: seq<Order>, id: OrderId, quantity: int)
    requires Match(side, levels, orders)
    ensures Match(side, levels, Requantify(orders, id, quantity))
  {
    forall price ensures LevelOk(side, levels, Requantify(orders, id, quantity), price) {
      assert LevelOk(side, levels, orders, price);
      AtLevelRequantify(orders, id, quantity, side, price);
      IdsRequantify(AtLevel(orders, side, price), id, quantity);
      RequantifyFacts(AtLevel(orders, side, price), id, quantity);
    }
  }

  // ---------------------------------------------------------------------------- level aggregates

  lemma TotalsAt(orders: seq<Order>, side: Side, price: int)
    ensures (side, price) in Totals(orders) <==> AtLevel(orders, side, price) != []
    ensures (side, price) in Totals(orders) ==> Totals(orders)[(side, price)] == Total(AtLevel(orders, side, price))
  {
    AtLevelMembers(orders, side, price);
    if AtLevel(orders, side, price) != [] {
      var o := AtLevel(orders, side, price)[0];
      assert o in orders;
    }
  }

  /** If only one level differs, the totals differ in that one key. */
  lemma TotalsOneLevel(before: seq<Order>, after: seq<Order>, side: Side, price: int)
    requires forall s, p :: (s, p) != (side, price) ==> AtLevel(after, s, p) == AtLevel(before, s, p)
    ensures Totals(after) ==
            if AtLevel(after, side, price) == [] then Totals(before) - {(side, price)}
            else Totals(before)[(side, price) := Total(AtLevel(after, side, price))]
  {
    hide Totals, AtLevel, Total;
    var expected := if AtLevel(after, side, price) == [] then Totals(before) - {(side, price)}
                    else Totals(before)[(side, price) := Total(AtLevel(after, side, price))];
    forall s, p
      ensures (s, p) in Totals(after) <==> (s, p) in expected
      ensures (s, p) in Totals(after) ==> Totals(after)[(s, p)] == expected[(s, p)]
    {
      TotalsAt(before, s, p);
      TotalsAt(after, s, p);
    }
    SameTotals(Totals(after), expected);
  }

  lemma SameTotals(a: LevelTotals, b: LevelTotals)
    requires forall s, p :: (s, p) in a <==> (s, p) in b
    requires forall s, p :: (s, p) in a ==> a[(s, p)] == b[(s, p)]
    ensures a == b
  {
    forall key | key in a || key in b ensures key in a && key in b && a[key] == b[key] {
      var s, p := key.0, key.1;
      assert key == (s, p);
      assert (s, p) in a <==> (s, p) in b;
      assert (s, p) in a ==> a[(s, p)] == b[(s, p)];
    }
  }

  lemma TotalsWithout(orders: seq<Order>, o: Order)
    requires UniqueIds(orders) && o in orders
    ensures var after := Without(orders, o.id);
            Totals(after) ==
            if AtLevel(after, o.side, o.price) == [] then Totals(orders) - {(o.side, o.price)}
            else Totals(orders)[(o.side, o.price) := Total(AtLevel(after, o.side, o.price))]
  {
    forall s, p | (s, p) != (o.side, o.price)
      ensures AtLevel(Without(orders, o.id), s, p) == AtLevel(orders, s, p)
    {
      AtLevelWithoutElsewhere(orders, o, s, p);
    }
    TotalsOneLevel(orders, Without(orders, o.id), o.side, o.price);
  }

  lemma TotalsAppend(orders: seq<Order>, o: Order)
    ensures Totals(orders + [o]) ==
            Totals(orders)[(o.side, o.price) := Total(AtLevel(orders + [o], o.side, o.price))]
  {
    forall s, p | (s, p) != (o.side, o.price)
      ensures AtLevel(orders + [o], s, p) == AtLevel(orders, s, p)
    {
      AtLevelAppend(orders, s, p, o);
    }
    AtLevelAppend(orders, o.side, o.price, o);
    TotalsOneLevel(orders, orders + [o], o.side, o.price);
  }

  lemma TotalsRequantify(orders: seq<Order>, o: Order, quantity: int)
    requires UniqueIds(orders) && o in orders
    ensures var after := Requantify(orders, o.id, quantity);
            Totals(after) == Totals(orders)[(o.side, o.price) := Total(AtLevel(after, o.side, o.price))]
  {
    var after := Requantify(orders, o.id, quantity);
    forall s, p | (s, p) != (o.side, o.price) ensures AtLevel(after, s, p) == AtLevel(orders, s, p) {
      AtLevelRequantify(orders, o.id, quantity, s, p);
      AtLevelMembers(orders, s, p);
      var level := AtLevel(orders, s, p);
      forall i | 0 <= i < |level| ensures level[i].id != o.id {
        assert level[i] in level;
      }
      RequantifyFacts(level, o.id, quantity);
    }
    AtLevelRequantify(orders, o.id, quantity, o.side, o.price);
    AtLevelMembers(orders, o.side, o.price);
    RequantifyFacts(AtLevel(orders, o.side, o.price), o.id, quantity);
    TotalsOneLevel(orders, after, o.side, o.price);
  }

  // ------------------------------------------------------------------------------------- queries

  /** The best price of the list: none when the side is empty, else a price of the side that no
      other price of the side beats. */
  lemma {:induction false} BestPriceIsBest(orders: seq<Order>, side: Side)
    ensures BestPrice(orders, side).None? <==> forall o :: o in orders ==> o.side != side
    ensures BestPrice(orders, side).Some? ==>
              && (exists o :: o in orders && o.side == side && o.price == BestPrice(orders, side).value)
              && (forall o :: o in orders && o.side == side ==>
                    Rank(side, BestPrice(orders, side).value) <= Rank(side, o.price))
  {
    if orders != [] {
      var front, last := orders[..|orders| - 1], orders[|orders| - 1];
      BestPriceIsBest(front, side);
      assert orders == front + [last];
      assert last in orders;
    }
  }

  /** begin() of the level map is the best entry of the list. */
  lemma MatchBest(side: Side, levels: OrderLevels, orders: seq<Order>)
    requires Match(side, levels, orders)
    ensures levels == [] <==> Best(orders, side).None?
    ensures levels != [] ==>
              && Best(orders, side) == Some(BookEntry(levels[0].price, Total(AtLevel(orders, side, levels[0].price))))
              && levels[0].value == Ids(AtLevel(orders, side, levels[0].price))
  {
    BestPriceIsBest(orders, side);
    if levels != [] {
      var front := levels[0].price;
      PositionUnique(side, levels, front, 0);
      assert LevelOk(side, levels, orders, front);
      AtLevelMembers(orders, side, front);
      assert AtLevel(orders, side, front)[0] in orders;
      var best := BestPrice(orders, side).value;
      AtLevelMembers(orders, side, best);
      assert LevelOk(side, levels, orders, best);
      FrontIsBest(side, levels, best);
    } else {
      forall o | o in orders ensures o.side != side {
        AtLevelMembers(orders, side, o.price);
        assert LevelOk(side, levels, orders, o.price);
      }
    }
  }
}
