/** L2Levels of src/order_book/l2_policy.h: two price maps, proved to be the value of L2Values. */
module L2LevelMaps {
  import opened BookTypes
  import opened LevelMaps
  import opened L2Values
  import B = L2Batches

  datatype L2Changes = L2Changes(
    bidTopChanged: bool,
    askTopChanged: bool,
    levelChanges: seq<LevelChange>,
    issue: Option<IntegrityIssue>)

  const NO_CHANGES := L2Changes(false, false, [], None)

  ghost predicate SideOk(side: Side, entries: seq<Level<int>>, levels: LevelTotals, price: int) {
    && (Has(side, entries, price) <==> (side, price) in levels)
    && (Has(side, entries, price) ==> At(side, entries, price) == levels[(side, price)])
  }

  ghost predicate SideMatch(side: Side, entries: seq<Level<int>>, levels: LevelTotals) {
    Ordered(side, entries) && forall price :: SideOk(side, entries, levels, price)
  }

  lemma PutMatches(side: Side, entries: seq<Level<int>>, levels: LevelTotals, price: int, quantity: int)
    requires SideMatch(side, entries, levels)
    ensures SideMatch(side, Put(side, entries, price, quantity), levels[(side, price) := quantity])
  {
    PutOrdered(side, entries, price, quantity);
    var put, after := Put(side, entries, price, quantity), levels[(side, price) := quantity];
    forall p ensures SideOk(side, put, after, p) {
      assert SideOk(side, entries, levels, p);
      if p != price {
        PutOther(side, entries, price, quantity, p);
      }
    }
  }

  lemma EraseMatches(side: Side, entries: seq<Level<int>>, levels: LevelTotals, price: int)
    requires SideMatch(side, entries, levels)
    ensures SideMatch(side, Erase(side, entries, price), levels - {(side, price)})
  {
    EraseOrdered(side, entries, price);
    forall p ensures SideOk(side, Erase(side, entries, price), levels - {(side, price)}, p) {
      assert SideOk(side, entries, levels, p);
      if p != price {
        EraseOther(side, entries, price, p);
      }
    }
  }

  lemma OtherSideMatches(side: Side, entries: seq<Level<int>>, levels: LevelTotals, after: LevelTotals)
    requires SideMatch(side, entries, levels)
    requires forall p :: (side, p) in after <==> (side, p) in levels
    requires forall p :: (side, p) in after ==> after[(side, p)] == levels[(side, p)]
    ensures SideMatch(side, entries, after)
  {
    forall p ensures SideOk(side, entries, after, p) {
      assert SideOk(side, entries, levels, p);
    }
  }

  lemma FrontMatches(side: Side, entries: seq<Level<int>>, levels: LevelTotals)
    requires SideMatch(side, entries, levels)
    ensures entries == [] ==> Best(levels, side).None?
    ensures entries != [] ==> Best(levels, side) == Some(BookEntry(entries[0].price, entries[0].value))
  {
    if entries == [] {
      forall p ensures (side, p) !in levels {
        assert SideOk(side, entries, levels, p);
      }
      forall key | key in levels ensures key.0 != side {
        assert key == (key.0, key.1);
      }
    } else {
      var front := entries[0].price;
      PositionUnique(side, entries, front, 0);
      assert SideOk(side, entries, levels, front);
      var prices := SidePrices(levels, side);
      assert (side, front) in levels;
      assert front in prices;
      forall q | q in prices ensures Rank(side, front) <= Rank(side, q) {
        var key :| key in levels && key.0 == side && key.1 == q;
        assert key == (side, q);
        assert SideOk(side, entries, levels, q);
        FrontIsBest(side, entries, q);
      }
    }
  }

  class L2Levels {
    var bids: seq<Level<int>>
    var asks: seq<Level<int>>
    /** The aggregate quantity per level that the two maps stand for. */
    ghost var levels: LevelTotals

    ghost predicate Valid()
      reads this
    {
      SideMatch(Bid, bids, levels) && SideMatch(Ask, asks, levels)
    }

    constructor ()
      ensures Valid() && levels == map[]
    {
      bids, asks, levels := [], [], map[];
    }

    method Best(side: Side) returns (best: Option<BookEntry>)
      requires Valid()
      ensures best == L2Values.Best(levels, side)
      ensures IsBest(levels, side, best)
    {
      hide L2Values.Best;
      BestIsOne(levels, side, L2Values.Best(levels, side));
      var entries := if side.Bid? then bids else asks;
      FrontMatches(side, entries, levels);
      best := if entries == [] then None else Some(BookEntry(entries[0].price, entries[0].value));
    }

    method Assign(side: Side, price: int, quantity: int)
      requires Valid()
      modifies this
      ensures Valid() && levels == old(levels)[(side, price) := quantity]
    {
      hide Put, SideMatch;
      var after := levels[(side, price) := quantity];
      if side.Bid? {
        PutMatches(Bid, bids, levels, price, quantity);
        OtherSideMatches(Ask, asks, levels, after);
        bids := Put(Bid, bids, price, quantity);
      } else {
        PutMatches(Ask, asks, levels, price, quantity);
        OtherSideMatches(Bid, bids, levels, after);
        asks := Put(Ask, asks, price, quantity);
      }
      levels := after;
    }

    method Remove(side: Side, price: int)
      requires Valid()
      modifies this
      ensures Valid() && levels == old(levels) - {(side, price)}
    {
      hide Erase, SideMatch;
      var after := levels - {(side, price)};
      if side.Bid? {
        EraseMatches(Bid, bids, levels, price);
        OtherSideMatches(Ask, asks, levels, after);
        bids := Erase(Bid, bids, price);
      } else {
        EraseMatches(Ask, asks, levels, price);
        OtherSideMatches(Bid, bids, levels, after);
        asks := Erase(Ask, asks, price);
      }
      levels := after;
    }

    method ApplyOne(update: L2Update, changes: L2Changes, ghost before: LevelTotals) returns (after: L2Changes)
      requires Valid() && FollowLevels(before, changes.levelChanges) == levels
      modifies this
      ensures Valid() && levels == L2Values.ApplyOne(old(levels), update)
      ensures FollowLevels(before, after.levelChanges) == levels
      ensures after.issue == if HitsUnknownLevel(old(levels), update) then ReportIssue(changes.issue, UnknownLevel) else changes.issue
    {
      hide FollowLevels;
      var tracked := Has(update.side, if update.side.Bid? then bids else asks, update.price);
      assert SideOk(update.side, if update.side.Bid? then bids else asks, levels, update.price);
      if update.operation != New && !tracked {
        after := changes.(issue := ReportIssue(changes.issue, UnknownLevel));
        return;
      }
      var quantity := if update.operation == Delete then None else Some(update.quantity);
      var change := LevelChange(update.side, update.price, quantity);
      FollowLevelsOne(before, changes.levelChanges, change);
      after := changes.(levelChanges := changes.levelChanges + [change]);
      if update.operation == Delete {
        Remove(update.side, update.price);
      } else {
        Assign(update.side, update.price, update.quantity);
      }
    }

    method ReplaceWith(entries: seq<L2Update>) returns (changes: L2Changes)
      requires Valid()
      modifies this
      ensures Valid() && levels == SnapshotLevels(entries)
      ensures FollowLevels(map[], changes.levelChanges) == levels
      ensures changes.bidTopChanged && changes.askTopChanged
      ensures changes.issue == MessageIssue(false, Crossed(levels))
    {
      bids, asks, levels := [], [], map[];
      changes := NO_CHANGES;
      for i := 0 to |entries|
        invariant Valid() && levels == SnapshotLevels(entries[..i])
        invariant FollowLevels(map[], changes.levelChanges) == levels && changes.issue.None?
      {
        assert entries[..i + 1][..i] == entries[..i];
        if entries[i].operation != Delete {
          var change := LevelChange(entries[i].side, entries[i].price, Some(entries[i].quantity));
          FollowLevelsOne(map[], changes.levelChanges, change);
          Assign(entries[i].side, entries[i].price, entries[i].quantity);
          changes := changes.(levelChanges := changes.levelChanges + [change]);
        }
      }
      assert entries[..|entries|] == entries;
      changes := changes.(bidTopChanged := true, askTopChanged := true);
      var bestBid := Best(Bid);
      var bestAsk := Best(Ask);
      if IsCrossed(bestBid, bestAsk) {
        changes := changes.(issue := ReportIssue(changes.issue, CrossedBook));
      }
    }

    method ApplyUpdates(updates: seq<L2Update>) returns (changes: L2Changes)
      requires Valid()
      modifies this
      ensures Valid() && levels == ApplyAll(old(levels), updates)
      ensures B.BatchMeans(old(levels), updates, levels)
      ensures FollowLevels(old(levels), changes.levelChanges) == levels
      ensures changes.bidTopChanged <==> L2Values.Best(old(levels), Bid) != L2Values.Best(levels, Bid)
      ensures changes.askTopChanged <==> L2Values.Best(old(levels), Ask) != L2Values.Best(levels, Ask)
      ensures changes.issue == MessageIssue(AnyUnknownLevel(old(levels), updates), Crossed(levels))
    {
      hide L2Values.Best, FollowLevels, SideMatch;
      ghost var before := levels;
      changes := NO_CHANGES;
      FollowNone(before);
      var oldBestBid := Best(Bid);
      var oldBestAsk := Best(Ask);
      for i := 0 to |updates|
        invariant Valid() && levels == ApplyAll(before, updates[..i])
        invariant FollowLevels(before, changes.levelChanges) == levels
        invariant changes.issue == MessageIssue(AnyUnknownLevel(before, updates[..i]), false)
      {
        assert updates[..i + 1][..i] == updates[..i];
        changes := ApplyOne(updates[i], changes, before);
      }
      assert updates[..|updates|] == updates;
      B.BatchDoesThis(before, updates);
      hide B.BatchMeans;
      var newBestBid := Best(Bid);
      var newBestAsk := Best(Ask);
      changes := changes.(bidTopChanged := oldBestBid != newBestBid, askTopChanged := oldBestAsk != newBestAsk);
      if IsCrossed(newBestBid, newBestAsk) {
        changes := changes.(issue := ReportIssue(changes.issue, CrossedBook));
      }
    }
  }

  lemma FollowNone(levels: LevelTotals)
    ensures FollowLevels(levels, []) == levels
  {
  }
}
