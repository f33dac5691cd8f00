/** Depth truncation: cutting the level map after `depth` levels is keeping the orders at the
    `depth` best prices of the list. */
module L3Depth {
  import opened BookTypes
  import opened LevelMaps
  import opened L3List
  import opened L3Levels

  lemma {:induction false} KeptMembers(book: seq<Order>, orders: seq<Order>, side: Side, depth: nat)
    ensures forall o :: o in KeepBestOf(book, orders, side, depth) <==>
                        o in orders && !(o.side == side && |BetterPrices(book, side, o.price)| >= depth)
    ensures UniqueIds(orders) ==> UniqueIds(KeepBestOf(book, orders, side, depth))
  {
    if orders != [] {
      var front, last := orders[..|orders| - 1], orders[|orders| - 1];
      KeptMembers(book, front, side, depth);
      assert orders == front + [last];
      if UniqueIds(orders) {
        forall o | o in KeepBestOf(book, front, side, depth) ensures o.id != last.id {
          assert o in front;
        }
      }
    }
  }

  lemma {:induction false} AtLevelKept(book: seq<Order>, orders: seq<Order>, side: Side, depth: nat, s: Side, price: int)
    ensures AtLevel(KeepBestOf(book, orders, side, depth), s, price) ==
            if s == side && |BetterPrices(book, side, price)| >= depth then [] else AtLevel(orders, s, price)
  {
    hide BetterPrices;
    if orders != [] {
      var front, last := orders[..|orders| - 1], orders[|orders| - 1];
      var kept := KeepBestOf(book, front, side, depth);
      AtLevelKept(book, front, side, depth, s, price);
      AtLevelAppend(kept, s, price, last);
      assert kept + [] == kept;
    }
  }

  ghost function FirstPrices(levels: OrderLevels, n: nat): set<int>
    requires n <= |levels|
  {
    if n == 0 then {} else FirstPrices(levels, n - 1) + {levels[n - 1].price}
  }

  lemma {:induction false} FirstPricesMembers(levels: OrderLevels, n: nat, price: int)
    requires n <= |levels|
    ensures price in FirstPrices(levels, n) <==> exists i :: 0 <= i < n && levels[i].price == price
  {
    if n > 0 {
      FirstPricesMembers(levels, n - 1, price);
    }
  }

  lemma {:induction false} FirstPricesCount(side: Side, levels: OrderLevels, n: nat)
    requires Ordered(side, levels) && n <= |levels|
    ensures |FirstPrices(levels, n)| == n
  {
    if n > 0 {
      var last := levels[n - 1].price;
      FirstPricesCount(side, levels, n - 1);
      FirstPricesMembers(levels, n - 1, last);
      forall i | 0 <= i < n - 1 ensures levels[i].price != last {
        assert Rank(side, levels[i].price) < Rank(side, last);
      }
      assert last !in FirstPrices(levels, n - 1);
    }
  }

  /** The i-th level has exactly i better prices above it in the list. */
  lemma BetterCount(side: Side, levels: OrderLevels, orders: seq<Order>, k: nat)
    requires Match(side, levels, orders) && k < |levels|
    ensures |BetterPrices(orders, side, levels[k].price)| == k
  {
    FirstPricesCount(side, levels, k);
    var better := BetterPrices(orders, side, levels[k].price);
    forall p ensures p in better <==> p in FirstPrices(levels, k) {
      FirstPricesMembers(levels, k, p);
      BetterIsAbove(side, levels, orders, k, p);
    }
    assert better == FirstPrices(levels, k);
  }

  lemma BetterIsAbove(side: Side, levels: OrderLevels, orders: seq<Order>, k: nat, price: int)
    requires Match(side, levels, orders) && k < |levels|
    ensures price in BetterPrices(orders, side, levels[k].price) <==>
            exists i :: 0 <= i < k && levels[i].price == price
  {
    AtLevelMembers(orders, side, price);
    assert LevelOk(side, levels, orders, price);
    if i :| 0 <= i < k && levels[i].price == price {
      PositionUnique(side, levels, price, i);
      assert AtLevel(orders, side, price)[0] in orders;
    }
    if price in BetterPrices(orders, side, levels[k].price) {
      var i := Position(side, levels, price);
      assert levels[i].price == price && i < k;
    }
  }

  lemma HasPrefix(side: Side, levels: OrderLevels, depth: nat, price: int)
    requires Ordered(side, levels) && depth <= |levels|
    ensures Ordered(side, levels[..depth])
    ensures Has(side, levels[..depth], price) <==> Has(side, levels, price) && Position(side, levels, price) < depth
    ensures Has(side, levels[..depth], price) ==> At(side, levels[..depth], price) == At(side, levels, price)
  {
    hide Position;
    if Has(side, levels, price) && Position(side, levels, price) < depth {
      PositionUnique(side, levels[..depth], price, Position(side, levels, price));
    }
    if Has(side, levels[..depth], price) {
      PositionUnique(side, levels, price, Position(side, levels[..depth], price));
    }
  }

  /** levels.erase(cutoff, end()) is KeepBest. */
  lemma MatchTruncate(side: Side, levels: OrderLevels, orders: seq<Order>, depth: nat)
    requires Match(side, levels, orders) && depth <= |levels|
    ensures Match(side, levels[..depth], KeepBest(orders, side, depth))
  {
    var kept := KeepBest(orders, side, depth);
    HasPrefix(side, levels, depth, 0);
    forall price ensures LevelOk(side, levels[..depth], kept, price) {
      assert LevelOk(side, levels, orders, price);
      HasPrefix(side, levels, depth, price);
      AtLevelKept(orders, orders, side, depth, side, price);
      if Has(side, levels, price) {
        BetterCount(side, levels, orders, Position(side, levels, price));
      }
    }
  }

  lemma MatchTruncateElsewhere(other: Side, levels: OrderLevels, orders: seq<Order>, side: Side, depth: nat)
    requires Match(other, levels, orders) && other != side
    ensures Match(other, levels, KeepBest(orders, side, depth))
  {
    forall price ensures LevelOk(other, levels, KeepBest(orders, side, depth), price) {
      assert LevelOk(other, levels, orders, price);
      AtLevelKept(orders, orders, side, depth, other, price);
    }
  }

  /** A side of at most `depth` levels loses nothing. */
  lemma KeepAll(side: Side, levels: OrderLevels, orders: seq<Order>, depth: nat)
    requires Match(side, levels, orders) && |levels| <= depth
    ensures KeepBest(orders, side, depth) == orders
  {
    forall o | o in orders && o.side == side ensures |BetterPrices(orders, side, o.price)| < depth {
      AtLevelMembers(orders, side, o.price);
      assert LevelOk(side, levels, orders, o.price);
      BetterCount(side, levels, orders, Position(side, levels, o.price));
    }
    KeepAllOf(orders, orders, side, depth);
  }

  lemma {:induction false} KeepAllOf(book: seq<Order>, orders: seq<Order>, side: Side, depth: nat)
    requires forall o :: o in orders && o.side == side ==> |BetterPrices(book, side, o.price)| < depth
    ensures KeepBestOf(book, orders, side, depth) == orders
  {
    if orders != [] {
      KeepAllOf(book, orders[..|orders| - 1], side, depth);
    }
  }

  /** The ids of the levels from `from` up to `to`. */
  ghost function IdsIn(levels: OrderLevels, from: nat, to: nat): set<OrderId>
    requires from <= to <= |levels|
  {
    set i, k | from <= i < to && 0 <= k < |levels[i].value| :: levels[i].value[k]
  }

  ghost function IdsFrom(levels: OrderLevels, from: nat): set<OrderId>
    requires from <= |levels|
  {
    IdsIn(levels, from, |levels|)
  }

  /** Which ids the cut levels hold: those of the orders that KeepBest drops. */
  lemma CutIds(side: Side, levels: OrderLevels, orders: seq<Order>, depth: nat, o: Order)
    requires Match(side, levels, orders) && UniqueIds(orders) && depth <= |levels| && o in orders
    ensures o.id in IdsFrom(levels, depth) <==> o !in KeepBest(orders, side, depth)
  {
    KeptMembers(orders, orders, side, depth);
    AtLevelMembers(orders, side, o.price);
    assert LevelOk(side, levels, orders, o.price);
    if o.side == side {
      var i := Position(side, levels, o.price);
      BetterCount(side, levels, orders, i);
      var level := AtLevel(orders, side, o.price);
      var k :| 0 <= k < |level| && level[k] == o;
      assert levels[i].value[k] == o.id;
    }
    if o.id in IdsFrom(levels, depth) {
      var i, k :| depth <= i < |levels| && 0 <= k < |levels[i].value| && levels[i].value[k] == o.id;
      PositionUnique(side, levels, levels[i].price, i);
      assert LevelOk(side, levels, orders, levels[i].price);
      var level := AtLevel(orders, side, levels[i].price);
      AtLevelMembers(orders, side, levels[i].price);
      assert level[k] in orders && level[k].id == o.id;
      SameOrder(orders, level[k], o);
      BetterCount(side, levels, orders, i);
    }
  }

  lemma SameOrder(orders: seq<Order>, a: Order, b: Order)
    requires UniqueIds(orders) && a in orders && b in orders && a.id == b.id
    ensures a == b
  {
    var i :| 0 <= i < |orders| && orders[i] == a;
    var j :| 0 <= j < |orders| && orders[j] == b;
    assert i == j;
  }

  lemma DistinctOrders(orders: seq<Order>, a: Order, b: Order)
    requires UniqueIds(orders) && a in orders && b in orders && a != b
    ensures a.id != b.id
  {
    if a.id == b.id {
      SameOrder(orders, a, b);
    }
  }

  /** Erasing the cut levels' ids from the index is indexing the kept orders. */
  lemma IndexTruncate(side: Side, levels: OrderLevels, orders: seq<Order>, depth: nat)
    requires Match(side, levels, orders) && UniqueIds(orders) && depth <= |levels|
    ensures IndexOf(KeepBest(orders, side, depth)) == IndexOf(orders) - IdsFrom(levels, depth)
  {
    var kept := KeepBest(orders, side, depth);
    KeptMembers(orders, orders, side, depth);
    IndexFacts(orders);
    IndexFacts(kept);
    forall id ensures id in IndexOf(kept) <==> id in IndexOf(orders) - IdsFrom(levels, depth)
              ensures id in IndexOf(kept) ==> IndexOf(kept)[id] == IndexOf(orders)[id]
    {
      HeldByKept(side, levels, orders, depth, id);
      if Holds(kept, id) {
        var j :| 0 <= j < |kept| && kept[j].id == id;
        assert kept[j] in kept;
      }
    }
  }

  lemma HeldByKept(side: Side, levels: OrderLevels, orders: seq<Order>, depth: nat, id: OrderId)
    requires Match(side, levels, orders) && UniqueIds(orders) && depth <= |levels|
    ensures Holds(KeepBest(orders, side, depth), id) <==> Holds(orders, id) && id !in IdsFrom(levels, depth)
  {
    var kept := KeepBest(orders, side, depth);
    KeptMembers(orders, orders, side, depth);
    if Holds(orders, id) {
      var i :| 0 <= i < |orders| && orders[i].id == id;
      var o := orders[i];
      CutIds(side, levels, orders, depth, o);
      if o !in kept {
        forall j | 0 <= j < |kept| ensures kept[j].id != id {
          assert kept[j] in kept;
          DistinctOrders(orders, kept[j], o);
        }
      }
    } else {
      forall j | 0 <= j < |kept| ensures kept[j].id != id {
        assert kept[j] in kept;
        assert kept[j] in orders;
      }
    }
  }

  // -------------------------------------------------------------------- cutting a map of level totals

  function LevelPrices(levels: LevelTotals, side: Side): set<int> {
    set key | key in levels && key.0 == side :: key.1
  }

  function BetterLevels(levels: LevelTotals, side: Side, price: int): set<int> {
    set p | p in LevelPrices(levels, side) && Rank(side, p) < Rank(side, price)
  }

  /** Keeps the `depth` best prices of a side. */
  function CutSide(levels: LevelTotals, side: Side, depth: nat): LevelTotals {
    map key | key in levels && (key.0 == side ==> |BetterLevels(levels, side, key.1)| < depth) :: levels[key]
  }

  function CutLevels(levels: LevelTotals, depth: nat): LevelTotals {
    CutSide(CutSide(levels, Bid, depth), Ask, depth)
  }

  lemma BetterOfTotals(orders: seq<Order>, side: Side, price: int)
    ensures BetterLevels(Totals(orders), side, price) == BetterPrices(orders, side, price)
  {
    forall p ensures p in LevelPrices(Totals(orders), side) <==> p in Prices(orders, side) {
      if p in LevelPrices(Totals(orders), side) {
        assert (side, p) in Totals(orders);
      }
      if p in Prices(orders, side) {
        assert (side, p) in Totals(orders);
      }
    }
    assert LevelPrices(Totals(orders), side) == Prices(orders, side);
  }

  lemma CutIsKeepBest(orders: seq<Order>, side: Side, depth: nat)
    ensures CutSide(Totals(orders), side, depth) == Totals(KeepBest(orders, side, depth))
  {
    hide Totals, AtLevel, Total, BetterLevels, BetterPrices, KeepBestOf;
    var cut, kept := CutSide(Totals(orders), side, depth), KeepBest(orders, side, depth);
    forall s, p
      ensures (s, p) in cut <==> (s, p) in Totals(kept)
      ensures (s, p) in cut ==> cut[(s, p)] == Totals(kept)[(s, p)]
    {
      TotalsAt(orders, s, p);
      TotalsAt(kept, s, p);
      AtLevelKept(orders, orders, side, depth, s, p);
      BetterOfTotals(orders, side, p);
    }
    SameTotals(cut, Totals(kept));
  }

  /** Truncating the book is cutting its level totals to the `depth` best prices per side. */
  lemma CutIsTruncate(orders: seq<Order>, depth: nat)
    ensures CutLevels(Totals(orders), depth) == Totals(Truncate(orders, depth))
  {
    hide Totals, CutSide, KeepBest;
    CutIsKeepBest(orders, Bid, depth);
    CutIsKeepBest(KeepBest(orders, Bid, depth), Ask, depth);
  }
}
