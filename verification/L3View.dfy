/** The book view: reading the levels in order, each oldest order first, is the stable sort of the
    list by price. */
module L3View {
  import opened BookTypes
  import opened LevelMaps
  import opened L3List
  import opened L3Levels
  import StableSort

  /** The orders of the first `n` levels, level by level. */
  ghost function LevelOrders(side: Side, levels: OrderLevels, orders: seq<Order>, n: nat): seq<Order>
    requires n <= |levels|
  {
    if n == 0 then []
    else LevelOrders(side, levels, orders, n - 1) + AtLevel(orders, side, levels[n - 1].price)
  }

  lemma LevelOrdersNext(side: Side, levels: OrderLevels, orders: seq<Order>, n: nat)
    requires n < |levels|
    ensures LevelOrders(side, levels, orders, n + 1) ==
            LevelOrders(side, levels, orders, n) + AtLevel(orders, side, levels[n].price)
  {
  }

  /** A level's ids are those of the orders at its price, oldest first. */
  lemma LevelIds(side: Side, levels: OrderLevels, orders: seq<Order>, n: nat)
    requires Match(side, levels, orders) && n < |levels|
    ensures levels[n].value == Ids(AtLevel(orders, side, levels[n].price))
  {
    hide AtLevel, Ids;
    PositionUnique(side, levels, levels[n].price, n);
    assert LevelOk(side, levels, orders, levels[n].price);
  }

  /** One level is what the price key selects from the side. */
  lemma {:induction false} LevelIsKey(orders: seq<Order>, side: Side, price: int)
    ensures StableSort.WithKey(OnSide(orders, side), PriceKey(side), Rank(side, price)) == AtLevel(orders, side, price)
  {
    if orders != [] {
      var front, last := orders[..|orders| - 1], orders[|orders| - 1];
      LevelIsKey(front, side, price);
      StableSort.WithKeyAppend(OnSide(front, side), PriceKey(side), Rank(side, price), last);
      assert OnSide(front, side) + [] == OnSide(front, side);
    }
  }

  lemma {:induction false} KeyOfUniform(s: seq<Order>, side: Side, price: int, k: int)
    requires forall o :: o in s ==> o.price == price
    ensures StableSort.WithKey(s, PriceKey(side), k) == if k == Rank(side, price) then s else []
  {
    if s != [] {
      var front, last := s[..|s| - 1], s[|s| - 1];
      assert s == front + [last];
      KeyOfUniform(front, side, price, k);
    }
  }

  lemma KeyOfLevel(orders: seq<Order>, side: Side, price: int, other: int)
    ensures StableSort.WithKey(AtLevel(orders, side, price), PriceKey(side), Rank(side, other)) ==
            if price == other then AtLevel(orders, side, price) else []
  {
    AtLevelMembers(orders, side, price);
    KeyOfUniform(AtLevel(orders, side, price), side, price, Rank(side, other));
  }

  ghost predicate Listed(levels: OrderLevels, n: nat, price: int)
    requires n <= |levels|
  {
    n > 0 && (levels[n - 1].price == price || Listed(levels, n - 1, price))
  }

  lemma {:induction false} ListedMembership(side: Side, levels: OrderLevels, n: nat, price: int)
    requires Ordered(side, levels) && n <= |levels|
    ensures Listed(levels, n, price) <==> exists i :: 0 <= i < n && levels[i].price == price
  {
    if n > 0 {
      ListedMembership(side, levels, n - 1, price);
    }
  }

  lemma ListedOnce(side: Side, levels: OrderLevels, n: nat)
    requires Ordered(side, levels) && n < |levels|
    ensures !Listed(levels, n, levels[n].price)
  {
    ListedMembership(side, levels, n, levels[n].price);
    forall i | 0 <= i < n ensures levels[i].price != levels[n].price {
      assert Rank(side, levels[i].price) < Rank(side, levels[n].price);
    }
  }

  lemma KeyOfOneMore(side: Side, levels: OrderLevels, orders: seq<Order>, n: nat, price: int)
    requires Ordered(side, levels) && 0 < n <= |levels|
    requires StableSort.WithKey(LevelOrders(side, levels, orders, n - 1), PriceKey(side), Rank(side, price)) ==
             if Listed(levels, n - 1, price) then AtLevel(orders, side, price) else []
    ensures StableSort.WithKey(LevelOrders(side, levels, orders, n), PriceKey(side), Rank(side, price)) ==
            if Listed(levels, n, price) then AtLevel(orders, side, price) else []
  {
    hide AtLevel, StableSort.WithKey, PriceKey;
    var last := levels[n - 1].price;
    var level := AtLevel(orders, side, last);
    StableSort.WithKeyConcat(LevelOrders(side, levels, orders, n - 1), level, PriceKey(side), Rank(side, price));
    KeyOfLevel(orders, side, last, price);
    ListedOnce(side, levels, n - 1);
  }

  lemma {:induction false} KeyOfLevels(side: Side, levels: OrderLevels, orders: seq<Order>, n: nat, price: int)
    requires Ordered(side, levels) && n <= |levels|
    ensures StableSort.WithKey(LevelOrders(side, levels, orders, n), PriceKey(side), Rank(side, price)) ==
            if Listed(levels, n, price) then AtLevel(orders, side, price) else []
  {
    hide AtLevel;
    if n > 0 {
      KeyOfLevels(side, levels, orders, n - 1, price);
      KeyOfOneMore(side, levels, orders, n, price);
    }
  }

  lemma {:induction false} LevelOrdersAscend(side: Side, levels: OrderLevels, orders: seq<Order>, n: nat)
    requires Ordered(side, levels) && n <= |levels|
    ensures StableSort.NonDecreasing(LevelOrders(side, levels, orders, n), PriceKey(side))
    ensures forall o :: o in LevelOrders(side, levels, orders, n) ==>
              exists i :: 0 <= i < n && levels[i].price == o.price
  {
    if n > 0 {
      LevelOrdersAscend(side, levels, orders, n - 1);
      var front := LevelOrders(side, levels, orders, n - 1);
      var level := AtLevel(orders, side, levels[n - 1].price);
      AtLevelMembers(orders, side, levels[n - 1].price);
      forall o | o in front ensures Rank(side, o.price) < Rank(side, levels[n - 1].price) {
        var i :| 0 <= i < n - 1 && levels[i].price == o.price;
      }
      forall o | o in level ensures o.price == levels[n - 1].price {
      }
      AscendConcat(front, level, PriceKey(side), Rank(side, levels[n - 1].price));
    }
  }

  lemma AscendConcat<T>(a: seq<T>, b: seq<T>, key: T -> int, k: int)
    requires StableSort.NonDecreasing(a, key)
    requires forall x :: x in a ==> key(x) <= k
    requires forall x :: x in b ==> key(x) == k
    ensures StableSort.NonDecreasing(a + b, key)
  {
    var c := a + b;
    forall i, j | 0 <= i < j < |c| ensures key(c[i]) <= key(c[j]) {
      assert j < |a| || c[j] in b;
      assert i >= |a| || c[i] in a;
      assert i < |a| || c[i] in b;
    }
  }

  /** Walking all levels best first visits the side as its stable sort by price. */
  lemma LevelsAreSideView(side: Side, levels: OrderLevels, orders: seq<Order>)
    requires Match(side, levels, orders)
    ensures LevelOrders(side, levels, orders, |levels|) == SideView(orders, side)
  {
    var walk := LevelOrders(side, levels, orders, |levels|);
    var key := PriceKey(side);
    LevelOrdersAscend(side, levels, orders, |levels|);
    forall k ensures StableSort.WithKey(walk, key, k) == StableSort.WithKey(OnSide(orders, side), key, k) {
      var price := if side.Bid? then -k else k;
      assert Rank(side, price) == k;
      KeyOfLevels(side, levels, orders, |levels|, price);
      LevelIsKey(orders, side, price);
      assert LevelOk(side, levels, orders, price);
      HasIsMembership(side, levels, price);
      ListedMembership(side, levels, |levels|, price);
    }
    StableSort.SortIsTheStableSort(OnSide(orders, side), walk, key);
  }
}
