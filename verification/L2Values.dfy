/** What an aggregated book means: a quantity per side and price, changed level by level. */
module L2Values {
  import opened BookTypes

  datatype L2Operation = New | Change | Delete

  datatype L2Update = L2Update(side: Side, price: int, quantity: int, operation: L2Operation)

  predicate Tracked(levels: LevelTotals, update: L2Update) {
    (update.side, update.price) in levels
  }

  /** A Delete or a Change of a level that is not there is an anomaly and changes nothing. A New of a
      level that is already there overwrites it: the source only asserts against that in debug. */
  predicate HitsUnknownLevel(levels: LevelTotals, update: L2Update) {
    update.operation != New && !Tracked(levels, update)
  }

  function ApplyOne(levels: LevelTotals, update: L2Update): LevelTotals {
    if HitsUnknownLevel(levels, update) then levels
    else if update.operation == Delete then levels - {(update.side, update.price)}
    else levels[(update.side, update.price) := update.quantity]
  }

  function ApplyAll(levels: LevelTotals, updates: seq<L2Update>): LevelTotals {
    if updates == [] then levels else ApplyOne(ApplyAll(levels, updates[..|updates| - 1]), updates[|updates| - 1])
  }

  predicate AnyUnknownLevel(levels: LevelTotals, updates: seq<L2Update>) {
    updates != [] &&
    (var n := |updates| - 1;
     AnyUnknownLevel(levels, updates[..n]) || HitsUnknownLevel(ApplyAll(levels, updates[..n]), updates[n]))
  }

  /** A snapshot's levels; a Delete entry in one is skipped. */
  function SnapshotLevels(entries: seq<L2Update>): LevelTotals {
    if entries == [] then map[]
    else
      var before := SnapshotLevels(entries[..|entries| - 1]);
      var last := entries[|entries| - 1];
      if last.operation == Delete then before else before[(last.side, last.price) := last.quantity]
  }

  function SidePrices(levels: LevelTotals, side: Side): set<int> {
    set key | key in levels && key.0 == side :: key.1
  }

  lemma {:induction false} BestExists(side: Side, prices: set<int>)
    requires prices != {}
    ensures exists p :: p in prices && forall q :: q in prices ==> Rank(side, p) <= Rank(side, q)
    decreases prices
  {
    EmptyMeansNoMember(prices);
    var p :| p in prices;
    if prices == {p} {
      assert forall q :: q in prices ==> Rank(side, p) <= Rank(side, q);
    } else {
      var rest := prices - {p};
      BestExists(side, rest);
      var r :| r in rest && forall q :: q in rest ==> Rank(side, r) <= Rank(side, q);
      var best := if Rank(side, p) < Rank(side, r) then p else r;
      assert best in prices && forall q :: q in prices ==> Rank(side, best) <= Rank(side, q);
    }
  }

  function Best(levels: LevelTotals, side: Side): Option<BookEntry> {
    var prices := SidePrices(levels, side);
    if prices == {} then None
    else
      BestExists(side, prices);
      var p :| p in prices && forall q :: q in prices ==> Rank(side, p) <= Rank(side, q);
      Some(BookEntry(p, levels[(side, p)]))
  }

  predicate Crossed(levels: LevelTotals) {
    IsCrossed(Best(levels, Bid), Best(levels, Ask))
  }

  function MessageIssue(hitsUnknown: bool, crossed: bool): Option<IntegrityIssue> {
    if hitsUnknown then Some(UnknownLevel) else if crossed then Some(CrossedBook) else None
  }

  // --------------------------------------------------------------------- what it means in plain prices

  /** Every bid level is below every ask level. */
  ghost predicate Separated(levels: LevelTotals) {
    forall b, a :: (Bid, b) in levels && (Ask, a) in levels ==> b < a
  }

  /** Nothing when the side is empty; else the quantity of a level that no level of the side beats:
      the highest bid, the lowest ask. */
  ghost predicate IsBest(levels: LevelTotals, side: Side, best: Option<BookEntry>) {
    match best
    case None => forall p :: (side, p) !in levels
    case Some(entry) =>
      && (side, entry.price) in levels && levels[(side, entry.price)] == entry.quantity
      && (forall p :: (side, p) in levels ==> if side == Bid then p <= entry.price else p >= entry.price)
  }

  lemma BestIsOne(levels: LevelTotals, side: Side, best: Option<BookEntry>)
    ensures IsBest(levels, side, best) <==> best == Best(levels, side)
  {
    var prices := SidePrices(levels, side);
    forall p ensures (side, p) in levels <==> p in prices {
      if p in prices {
        var key :| key in levels && key.0 == side && key.1 == p;
        assert key == (side, p);
      }
    }
    EmptyMeansNoMember(prices);
  }

  /** Not crossed is every bid below every ask. */
  lemma UncrossedIsSeparated(levels: LevelTotals)
    ensures !Crossed(levels) <==> Separated(levels)
  {
    hide Best;
    BestIsOne(levels, Bid, Best(levels, Bid));
    BestIsOne(levels, Ask, Best(levels, Ask));
  }
}
