/** LevelMap of src/order_book/types.h: a std::map from price to a level, whose comparator puts the
    best price of the side first. It is kept as the sequence of its entries in iteration order, so
    begin() is element 0 and erase(cutoff, end()) is a prefix. */
module LevelMaps {
  import opened BookTypes

  datatype Level<+V> = Level(price: int, value: V)

  predicate Ordered<V>(side: Side, levels: seq<Level<V>>) {
    forall i, j :: 0 <= i < j < |levels| ==> Rank(side, levels[i].price) < Rank(side, levels[j].price)
  }

  /** How many levels come strictly before `price`: where it is, or would be inserted. */
  function Position<V>(side: Side, levels: seq<Level<V>>, price: int): (k: nat)
    ensures k <= |levels|
    ensures forall i :: 0 <= i < k ==> Rank(side, levels[i].price) < Rank(side, price)
    ensures k < |levels| ==> Rank(side, price) <= Rank(side, levels[k].price)
  {
    if levels == [] || Rank(side, price) <= Rank(side, levels[0].price) then 0
    else 1 + Position(side, levels[1..], price)
  }

  predicate Has<V>(side: Side, levels: seq<Level<V>>, price: int) {
    var k := Position(side, levels, price);
    k < |levels| && levels[k].price == price
  }

  function At<V>(side: Side, levels: seq<Level<V>>, price: int): V
    requires Has(side, levels, price)
  {
    levels[Position(side, levels, price)].value
  }

  /** insert_or_assign. */
  function Put<V>(side: Side, levels: seq<Level<V>>, price: int, value: V): seq<Level<V>> {
    var k := Position(side, levels, price);
    if Has(side, levels, price) then levels[k := Level(price, value)]
    else levels[..k] + [Level(price, value)] + levels[k..]
  }

  /** erase(key); nothing happens when the key is absent. */
  function Erase<V>(side: Side, levels: seq<Level<V>>, price: int): seq<Level<V>> {
    var k := Position(side, levels, price);
    if Has(side, levels, price) then levels[..k] + levels[k + 1..] else levels
  }

  lemma PositionUnique<V>(side: Side, levels: seq<Level<V>>, price: int, k: nat)
    requires Ordered(side, levels)
    requires k < |levels| && levels[k].price == price
    ensures Has(side, levels, price) && Position(side, levels, price) == k
    ensures At(side, levels, price) == levels[k].value
  {
  }

  /** Has is membership: the search finds a price exactly when some level carries it. */
  lemma HasIsMembership<V>(side: Side, levels: seq<Level<V>>, price: int)
    requires Ordered(side, levels)
    ensures Has(side, levels, price) <==> exists i :: 0 <= i < |levels| && levels[i].price == price
  {
    if i :| 0 <= i < |levels| && levels[i].price == price {
      PositionUnique(side, levels, price, i);
    }
  }

  lemma PutOrdered<V>(side: Side, levels: seq<Level<V>>, price: int, value: V)
    requires Ordered(side, levels)
    ensures Ordered(side, Put(side, levels, price, value))
    ensures Has(side, Put(side, levels, price, value), price)
    ensures At(side, Put(side, levels, price, value), price) == value
  {
    var after := Put(side, levels, price, value);
    var k := Position(side, levels, price);
    if !Has(side, levels, price) {
      InsertedOrdered(side, levels, Level(price, value), k);
    }
    PositionUnique(side, after, price, k);
  }

  lemma InsertedOrdered<V>(side: Side, levels: seq<Level<V>>, level: Level<V>, k: nat)
    requires Ordered(side, levels) && k <= |levels|
    requires forall i :: 0 <= i < k ==> Rank(side, levels[i].price) < Rank(side, level.price)
    requires forall i :: k <= i < |levels| ==> Rank(side, level.price) < Rank(side, levels[i].price)
    ensures Ordered(side, levels[..k] + [level] + levels[k..])
  {
  }

  /** The index of a surviving level after a Put or an Erase at another price. */
  lemma SameLevel<V>(side: Side, before: seq<Level<V>>, after: seq<Level<V>>, i: nat, j: nat)
    requires Ordered(side, before) && Ordered(side, after)
    requires i < |before| && j < |after| && before[i] == after[j]
    ensures Has(side, before, before[i].price) && Has(side, after, before[i].price)
    ensures At(side, before, before[i].price) == At(side, after, before[i].price)
  {
    PositionUnique(side, before, before[i].price, i);
    PositionUnique(side, after, before[i].price, j);
  }

  /** Where a level at another price sits after a Put. */
  function PutIndex<V>(side: Side, levels: seq<Level<V>>, price: int, value: V, i: nat): (j: nat)
    requires i < |levels| && levels[i].price != price
    ensures j < |Put(side, levels, price, value)| && Put(side, levels, price, value)[j] == levels[i]
  {
    if Has(side, levels, price) || i < Position(side, levels, price) then i else i + 1
  }

  /** Where a level at another price sat before a Put. */
  function PutSource<V>(side: Side, levels: seq<Level<V>>, price: int, value: V, j: nat): (i: nat)
    requires j < |Put(side, levels, price, value)| && Put(side, levels, price, value)[j].price != price
    ensures i < |levels| && Put(side, levels, price, value)[j] == levels[i]
  {
    if Has(side, levels, price) || j < Position(side, levels, price) then j else j - 1
  }

  /** Put leaves every other key as it was. */
  lemma PutOther<V>(side: Side, levels: seq<Level<V>>, price: int, value: V, other: int)
    requires Ordered(side, levels) && other != price
    ensures Has(side, Put(side, levels, price, value), other) <==> Has(side, levels, other)
    ensures Has(side, levels, other) ==>
              At(side, Put(side, levels, price, value), other) == At(side, levels, other)
  {
    var after := Put(side, levels, price, value);
    PutOrdered(side, levels, price, value);
    if Has(side, levels, other) {
      var i := Position(side, levels, other);
      SameLevel(side, levels, after, i, PutIndex(side, levels, price, value, i));
    }
    if Has(side, after, other) {
      var j := Position(side, after, other);
      var i := PutSource(side, levels, price, value, j);
      SameLevel(side, levels, after, i, j);
    }
  }

  lemma EraseOrdered<V>(side: Side, levels: seq<Level<V>>, price: int)
    requires Ordered(side, levels)
    ensures Ordered(side, Erase(side, levels, price))
    ensures !Has(side, Erase(side, levels, price), price)
  {
    var after := Erase(side, levels, price);
    var k := Position(side, levels, price);
    if Has(side, levels, price) {
      assert forall i :: 0 <= i < |after| ==> after[i] == levels[if i < k then i else i + 1];
    }
  }

  /** Erase leaves every other key as it was. */
  lemma EraseOther<V>(side: Side, levels: seq<Level<V>>, price: int, other: int)
    requires Ordered(side, levels) && other != price
    ensures Has(side, Erase(side, levels, price), other) <==> Has(side, levels, other)
    ensures Has(side, levels, other) ==>
              At(side, Erase(side, levels, price), other) == At(side, levels, other)
  {
    EraseOrdered(side, levels, price);
    if Has(side, levels, other) {
      EraseKeeps(side, levels, price, other);
    }
    if Has(side, Erase(side, levels, price), other) {
      EraseAddsNone(side, levels, price, other);
    }
  }

  lemma EraseKeeps<V>(side: Side, levels: seq<Level<V>>, price: int, other: int)
    requires Ordered(side, levels) && other != price && Has(side, levels, other)
    requires Ordered(side, Erase(side, levels, price))
    ensures Has(side, Erase(side, levels, price), other)
    ensures At(side, Erase(side, levels, price), other) == At(side, levels, other)
  {
    var after := Erase(side, levels, price);
    var k := Position(side, levels, price);
    if Has(side, levels, price) {
      var i := Position(side, levels, other);
      SameLevel(side, levels, after, i, if i < k then i else i - 1);
    }
  }

  lemma EraseAddsNone<V>(side: Side, levels: seq<Level<V>>, price: int, other: int)
    requires Ordered(side, levels) && other != price
    requires Ordered(side, Erase(side, levels, price)) && Has(side, Erase(side, levels, price), other)
    ensures Has(side, levels, other)
  {
    var after := Erase(side, levels, price);
    var k := Position(side, levels, price);
    if Has(side, levels, price) {
      var j := Position(side, after, other);
      SameLevel(side, levels, after, if j < k then j else j + 1, j);
    }
  }

  /** begin() is the best price: no level of the side ranks before it. */
  lemma FrontIsBest<V>(side: Side, levels: seq<Level<V>>, price: int)
    requires Ordered(side, levels) && Has(side, levels, price)
    ensures Rank(side, levels[0].price) <= Rank(side, price)
  {
  }
}
