/** What best, view and depth mean in plain prices: bids are better the higher they are and asks the
    lower they are. */
module L3Prices {
  import opened BookTypes
  import opened L3List
  import opened L3Depth
  import opened L3Levels
  import opened L3View
  import opened LevelMaps
  import StableSort

  /** `a` is a strictly better price than `b` on this side. */
  predicate Better(side: Side, a: int, b: int) {
    if side == Bid then a > b else a < b
  }

  /** Every bid is below every ask. */
  predicate Separated(orders: seq<Order>) {
    forall b, a :: b in orders && a in orders && b.side == Bid && a.side == Ask ==> b.price < a.price
  }

  /** Nothing when the side is empty; else a price an order of the side rests at, which no order of
      the side beats, with everything resting there. */
  predicate IsBest(orders: seq<Order>, side: Side, best: Option<BookEntry>) {
    match best
    case None => forall o :: o in orders ==> o.side != side
    case Some(entry) =>
      && (exists o :: o in orders && o.side == side && o.price == entry.price)
      && (forall o :: o in orders && o.side == side ==> if side == Bid then o.price <= entry.price else o.price >= entry.price)
      && entry.quantity == Total(AtLevel(orders, side, entry.price))
  }

  lemma {:induction false} BestPriceIsBest(orders: seq<Order>, side: Side)
    ensures match BestPrice(orders, side)
            case None => forall o :: o in orders ==> o.side != side
            case Some(price) =>
              && (exists o :: o in orders && o.side == side && o.price == price)
              && (forall o :: o in orders && o.side == side ==> if side == Bid then o.price <= price else o.price >= price)
  {
    if orders != [] {
      var front, last := orders[..|orders| - 1], orders[|orders| - 1];
      assert orders == front + [last];
      BestPriceIsBest(front, side);
      assert last in orders;
      if BestPrice(front, side).Some? {
        var o :| o in front && o.side == side && o.price == BestPrice(front, side).value;
        assert o in orders;
      }
    }
  }

  lemma BestIsBest(orders: seq<Order>, side: Side)
    ensures IsBest(orders, side, Best(orders, side))
  {
    BestPriceIsBest(orders, side);
  }

  /** Only one entry can be the best of a side. */
  lemma BestIsOne(orders: seq<Order>, side: Side, best: Option<BookEntry>)
    ensures IsBest(orders, side, best) <==> best == Best(orders, side)
  {
    BestIsBest(orders, side);
  }

  /** Not crossed is every bid below every ask. */
  lemma UncrossedIsSeparated(orders: seq<Order>)
    ensures !Crossed(orders) <==> Separated(orders)
  {
    hide BestPrice, Total, AtLevel;
    BestPriceIsBest(orders, Bid);
    BestPriceIsBest(orders, Ask);
  }

  // ---------------------------------------------------------------------------------------- the view

  /** Bids never rise and asks never fall. */
  predicate FromBest(side: Side, entries: seq<BookEntry>) {
    forall i, j :: 0 <= i < j < |entries| ==>
      if side == Bid then entries[i].price >= entries[j].price else entries[i].price <= entries[j].price
  }

  lemma {:induction false} OnSideMembers(orders: seq<Order>, side: Side)
    ensures forall o :: o in OnSide(orders, side) <==> o in orders && o.side == side
  {
    if orders != [] {
      var front, last := orders[..|orders| - 1], orders[|orders| - 1];
      assert orders == front + [last];
      OnSideMembers(front, side);
    }
  }

  lemma {:induction false} OnSideOfOneSide(orders: seq<Order>, side: Side)
    requires forall o :: o in orders ==> o.side == side
    ensures OnSide(orders, side) == orders
  {
    if orders != [] {
      var front, last := orders[..|orders| - 1], orders[|orders| - 1];
      assert orders == front + [last];
      OnSideOfOneSide(front, side);
    }
  }

  lemma ViewMembers(orders: seq<Order>, side: Side)
    ensures forall o :: o in SideView(orders, side) <==> o in orders && o.side == side
  {
    OnSideMembers(orders, side);
    StableSort.SortIsStable(OnSide(orders, side), PriceKey(side));
    forall o ensures o in SideView(orders, side) <==> o in OnSide(orders, side) {
      assert o in SideView(orders, side) <==> o in multiset(SideView(orders, side));
      assert o in OnSide(orders, side) <==> o in multiset(OnSide(orders, side));
    }
  }

  /** The view runs from the best price, holds exactly the side's orders, and orders at one price
      stay in arrival order. */
  lemma ViewGoesFromBest(orders: seq<Order>, side: Side)
    ensures FromBest(side, Entries(SideView(orders, side)))
    ensures forall o :: o in SideView(orders, side) <==> o in orders && o.side == side
    ensures forall price :: AtLevel(SideView(orders, side), side, price) == AtLevel(orders, side, price)
  {
    var view, key := SideView(orders, side), PriceKey(side);
    ViewMembers(orders, side);
    StableSort.SortIsStable(OnSide(orders, side), key);
    RisingIsFromBest(view, side);
    OnSideOfOneSide(view, side);
    forall price ensures AtLevel(view, side, price) == AtLevel(orders, side, price) {
      LevelIsKey(view, side, price);
      LevelIsKey(orders, side, price);
    }
  }

  lemma RisingIsFromBest(view: seq<Order>, side: Side)
    requires StableSort.NonDecreasing(view, PriceKey(side))
    ensures FromBest(side, Entries(view))
  {
    var entries, key := Entries(view), PriceKey(side);
    forall i, j | 0 <= i < j < |entries|
      ensures if side == Bid then entries[i].price >= entries[j].price else entries[i].price <= entries[j].price
    {
      assert key(view[i]) <= key(view[j]);
    }
  }

  lemma LevelsGoFromBest(side: Side, levels: OrderLevels, orders: seq<Order>, n: nat)
    requires Ordered(side, levels) && n <= |levels|
    ensures FromBest(side, Entries(LevelOrders(side, levels, orders, n)))
  {
    LevelOrdersAscend(side, levels, orders, n);
    RisingIsFromBest(LevelOrders(side, levels, orders, n), side);
  }

  // --------------------------------------------------------------------------------------- the depth

  function Above(prices: set<int>, side: Side, price: int): set<int> {
    set q | q in prices && Better(side, q, price)
  }

  /** The prices of a set that fewer than `depth` others of it beat. */
  function Top(prices: set<int>, side: Side, depth: nat): set<int> {
    set p | p in prices && |Above(prices, side, p)| < depth
  }

  lemma BetterPricesAbove(orders: seq<Order>, side: Side, price: int)
    ensures BetterPrices(orders, side, price) == Above(Prices(orders, side), side, price)
  {
  }

  lemma SubsetSize(a: set<int>, b: set<int>)
    requires a <= b
    ensures |a| <= |b|
  {
    assert b == a + (b - a);
  }

  /** A kept order is at a strictly better price than every dropped order of its side. */
  lemma KeptBeatsDropped(orders: seq<Order>, side: Side, depth: nat, kept: Order, dropped: Order)
    requires kept in KeepBest(orders, side, depth) && dropped in orders && dropped !in KeepBest(orders, side, depth)
    requires kept.side == side
    ensures dropped.side == side && Better(side, kept.price, dropped.price)
  {
    hide BetterPrices;
    KeptMembers(orders, orders, side, depth);
    BetterPricesAbove(orders, side, kept.price);
    BetterPricesAbove(orders, side, dropped.price);
    var prices := Prices(orders, side);
    if !Better(side, kept.price, dropped.price) {
      SubsetSize(Above(prices, side, dropped.price), Above(prices, side, kept.price));
    }
  }

  lemma {:induction false} WorstExists(prices: set<int>, side: Side) returns (worst: int)
    requires |prices| > 0
    ensures worst in prices && forall p :: p in prices && p != worst ==> Better(side, p, worst)
    decreases |prices|
  {
    EmptyMeansNoMember(prices);
    var p :| p in prices;
    var rest := prices - {p};
    assert prices == rest + {p};
    if |rest| == 0 {
      worst := p;
    } else {
      var w := WorstExists(rest, side);
      worst := if Better(side, p, w) then w else p;
    }
  }

  /** `depth` prices are kept, or all of them when there are no more. */
  lemma {:induction false} TopCount(prices: set<int>, side: Side, depth: nat)
    ensures |Top(prices, side, depth)| == if |prices| <= depth then |prices| else depth
    decreases |prices|
  {
    if |prices| <= depth {
      forall p | p in prices ensures |Above(prices, side, p)| < depth {
        SubsetSize(Above(prices, side, p), prices - {p});
      }
      assert Top(prices, side, depth) == prices;
    } else {
      var w := WorstExists(prices, side);
      var rest := prices - {w};
      assert Above(prices, side, w) == rest;
      forall p | p in rest ensures Above(prices, side, p) == Above(rest, side, p) {
      }
      assert Top(prices, side, depth) == Top(rest, side, depth);
      TopCount(rest, side, depth);
    }
  }

  lemma KeptPrices(orders: seq<Order>, side: Side, depth: nat)
    ensures Prices(KeepBest(orders, side, depth), side) == Top(Prices(orders, side), side, depth)
  {
    hide BetterPrices;
    KeptMembers(orders, orders, side, depth);
    var kept := KeepBest(orders, side, depth);
    forall o | o in orders && o.side == side
      ensures o in kept <==> o.price in Top(Prices(orders, side), side, depth)
    {
      BetterPricesAbove(orders, side, o.price);
    }
  }

  lemma KeptElsewhere(orders: seq<Order>, side: Side, other: Side, depth: nat)
    requires other != side
    ensures Prices(KeepBest(orders, side, depth), other) == Prices(orders, other)
    ensures forall o: Order :: o.side == other ==> (o in KeepBest(orders, side, depth) <==> o in orders)
  {
    KeptMembers(orders, orders, side, depth);
  }

  /** Truncating keeps orders only, as many of the best prices of each side as the depth allows, and
      on each side everything kept is at a strictly better price than everything dropped. */
  lemma TruncateKeepsTheBest(orders: seq<Order>, depth: nat, side: Side)
    ensures var kept := Truncate(orders, depth);
            && (forall o :: o in kept ==> o in orders)
            && (forall o, d :: o in kept && d in orders && d !in kept && o.side == d.side == side ==>
                  if side == Bid then o.price > d.price else o.price < d.price)
            && |Prices(kept, side)| == if |Prices(orders, side)| <= depth then |Prices(orders, side)| else depth
  {
    hide KeepBest, Prices;
    var half := KeepBest(orders, Bid, depth);
    var kept := KeepBest(half, Ask, depth);
    KeptElsewhere(orders, Bid, Ask, depth);
    KeptElsewhere(half, Ask, Bid, depth);
    KeptAreThere(orders, Bid, depth);
    KeptAreThere(half, Ask, depth);
    KeptPrices(if side == Bid then orders else half, side, depth);
    TopCount(Prices(if side == Bid then orders else half, side), side, depth);
    forall o, d | o in kept && d in orders && d !in kept && o.side == d.side == side
      ensures Better(side, o.price, d.price)
    {
      KeptBeatsDropped(if side == Bid then orders else half, side, depth, o, d);
    }
  }

  lemma KeptAreThere(orders: seq<Order>, side: Side, depth: nat)
    ensures forall o :: o in KeepBest(orders, side, depth) ==> o in orders
  {
    KeptMembers(orders, orders, side, depth);
  }
}
