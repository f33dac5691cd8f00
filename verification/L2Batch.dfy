/** What an aggregated snapshot or batch means, level by level and without running it: the latest New
    of a level puts it there, a Delete since then takes it away, and the latest word on it says how
    much. */
module L2Batches {
  import opened BookTypes
  import opened L2Values

  predicate Names(update: L2Update, side: Side, price: int) {
    update.side == side && update.price == price
  }

  /** The last New of a level, or -1. */
  function LastNew(updates: seq<L2Update>, side: Side, price: int): (i: int)
    ensures -1 <= i < |updates|
    ensures i >= 0 ==> Names(updates[i], side, price) && updates[i].operation == New
    ensures forall j :: i < j < |updates| && Names(updates[j], side, price) ==> updates[j].operation != New
  {
    if updates == [] then -1
    else
      var n := |updates| - 1;
      if Names(updates[n], side, price) && updates[n].operation == New then n else LastNew(updates[..n], side, price)
  }

  /** The last update of a level, or -1. */
  function LastNamed(updates: seq<L2Update>, side: Side, price: int): (i: int)
    ensures -1 <= i < |updates|
    ensures i >= 0 ==> Names(updates[i], side, price)
    ensures forall j :: i < j < |updates| ==> !Names(updates[j], side, price)
  {
    if updates == [] then -1
    else
      var n := |updates| - 1;
      if Names(updates[n], side, price) then n else LastNamed(updates[..n], side, price)
  }

  predicate DeletedAfter(updates: seq<L2Update>, from: int, side: Side, price: int) {
    exists i :: 0 <= i < |updates| && from < i && Names(updates[i], side, price) && updates[i].operation == Delete
  }

  /** The level is there after the batch. */
  predicate There(levels: LevelTotals, updates: seq<L2Update>, side: Side, price: int) {
    && (LastNew(updates, side, price) >= 0 || (side, price) in levels)
    && !DeletedAfter(updates, LastNew(updates, side, price), side, price)
  }

  ghost predicate BatchMeans(levels: LevelTotals, updates: seq<L2Update>, after: LevelTotals) {
    && (forall side, price :: (side, price) in after <==> There(levels, updates, side, price))
    && (forall side, price :: (side, price) in after ==>
          if LastNamed(updates, side, price) >= 0 then
            after[(side, price)] == updates[LastNamed(updates, side, price)].quantity
          else (side, price) in levels && after[(side, price)] == levels[(side, price)])
  }

  lemma NextUpdate(updates: seq<L2Update>, update: L2Update, side: Side, price: int)
    ensures LastNew(updates + [update], side, price) ==
            if Names(update, side, price) && update.operation == New then |updates| else LastNew(updates, side, price)
    ensures LastNamed(updates + [update], side, price) ==
            if Names(update, side, price) then |updates| else LastNamed(updates, side, price)
  {
    assert (updates + [update])[..|updates|] == updates;
  }

  lemma DeletedNext(updates: seq<L2Update>, update: L2Update, from: int, side: Side, price: int)
    ensures DeletedAfter(updates + [update], from, side, price) <==>
            || DeletedAfter(updates, from, side, price)
            || (from < |updates| && Names(update, side, price) && update.operation == Delete)
  {
    var more := updates + [update];
    assert more[|updates|] == update;
    if DeletedAfter(updates, from, side, price) {
      var i :| 0 <= i < |updates| && from < i && Names(updates[i], side, price) && updates[i].operation == Delete;
      assert more[i] == updates[i];
    }
  }

  lemma ThereNext(levels: LevelTotals, updates: seq<L2Update>, update: L2Update, side: Side, price: int)
    ensures There(levels, updates + [update], side, price) <==>
            if !Names(update, side, price) then There(levels, updates, side, price)
            else update.operation == New || (update.operation == Change && There(levels, updates, side, price))
  {
    NextUpdate(updates, update, side, price);
    DeletedNext(updates, update, LastNew(updates + [update], side, price), side, price);
  }

  lemma BatchNext(levels: LevelTotals, updates: seq<L2Update>, before: LevelTotals, update: L2Update)
    requires BatchMeans(levels, updates, before)
    ensures BatchMeans(levels, updates + [update], ApplyOne(before, update))
  {
    hide There;
    var after, more := ApplyOne(before, update), updates + [update];
    assert more[|updates|] == update;
    forall side, price ensures (side, price) in after <==> There(levels, more, side, price) {
      ThereNext(levels, updates, update, side, price);
      assert (side, price) in before <==> There(levels, updates, side, price);
    }
    forall side, price | (side, price) in after
      ensures if LastNamed(more, side, price) >= 0 then
                after[(side, price)] == more[LastNamed(more, side, price)].quantity
              else (side, price) in levels && after[(side, price)] == levels[(side, price)]
    {
      NextUpdate(updates, update, side, price);
    }
  }

  /** The whole batch. */
  lemma {:induction false} BatchDoesThis(levels: LevelTotals, updates: seq<L2Update>)
    ensures BatchMeans(levels, updates, ApplyAll(levels, updates))
  {
    if updates == [] {
      forall side, price ensures (side, price) in levels <==> There(levels, updates, side, price) {}
    } else {
      var front, last := updates[..|updates| - 1], updates[|updates| - 1];
      BatchDoesThis(levels, front);
      BatchNext(levels, front, ApplyAll(levels, front), last);
      assert updates == front + [last];
    }
  }

  lemma SameQuantity(levels: LevelTotals, updates: seq<L2Update>, a: LevelTotals, b: LevelTotals, side: Side, price: int)
    requires BatchMeans(levels, updates, a) && BatchMeans(levels, updates, b)
    requires (side, price) in a && (side, price) in b
    ensures a[(side, price)] == b[(side, price)]
  {
  }

  /** No other book satisfies the meaning of a batch. */
  lemma BatchLeavesExactly(levels: LevelTotals, updates: seq<L2Update>, after: LevelTotals)
    ensures BatchMeans(levels, updates, after) <==> after == ApplyAll(levels, updates)
  {
    hide There;
    BatchDoesThis(levels, updates);
    var applied := ApplyAll(levels, updates);
    hide ApplyAll;
    if BatchMeans(levels, updates, after) {
      forall key ensures key in after <==> key in applied {
        assert key == (key.0, key.1);
        assert (key.0, key.1) in after <==> There(levels, updates, key.0, key.1);
        assert (key.0, key.1) in applied <==> There(levels, updates, key.0, key.1);
      }
      forall key | key in after ensures after[key] == applied[key] {
        SameQuantity(levels, updates, after, applied, key.0, key.1);
      }
      assert after == applied;
    }
  }

  /** Update `i` changes or deletes a level that is not there by then. */
  predicate UnknownAt(levels: LevelTotals, updates: seq<L2Update>, i: nat)
    requires i < |updates|
  {
    updates[i].operation != New && !There(levels, updates[..i], updates[i].side, updates[i].price)
  }

  lemma UnknownInFront(levels: LevelTotals, updates: seq<L2Update>, n: nat, i: nat)
    requires i < n <= |updates|
    ensures UnknownAt(levels, updates[..n], i) <==> UnknownAt(levels, updates, i)
  {
    assert updates[..n][..i] == updates[..i];
  }

  lemma LastUnknown(levels: LevelTotals, updates: seq<L2Update>)
    requires updates != []
    ensures var n := |updates| - 1;
            UnknownAt(levels, updates, n) <==> HitsUnknownLevel(ApplyAll(levels, updates[..n]), updates[n])
  {
    var n := |updates| - 1;
    BatchDoesThis(levels, updates[..n]);
    hide ApplyAll, There;
    assert (updates[n].side, updates[n].price) in ApplyAll(levels, updates[..n]) <==>
           There(levels, updates[..n], updates[n].side, updates[n].price);
  }

  /** A batch is flagged exactly when one of its updates is of a level unknown by then. */
  lemma {:induction false} UnknownLevelMeans(levels: LevelTotals, updates: seq<L2Update>)
    ensures AnyUnknownLevel(levels, updates) <==> exists i :: 0 <= i < |updates| && UnknownAt(levels, updates, i)
  {
    hide UnknownAt, HitsUnknownLevel, ApplyAll;
    if updates != [] {
      var n := |updates| - 1;
      UnknownLevelMeans(levels, updates[..n]);
      LastUnknown(levels, updates);
      forall i | 0 <= i < n ensures UnknownAt(levels, updates[..n], i) <==> UnknownAt(levels, updates, i) {
        UnknownInFront(levels, updates, n, i);
      }
    }
  }

  // ------------------------------------------------------------------------------------- snapshots

  /** The last entry of a level that is not a Delete, or -1. */
  function LastKept(entries: seq<L2Update>, side: Side, price: int): (i: int)
    ensures -1 <= i < |entries|
    ensures i >= 0 ==> Names(entries[i], side, price) && entries[i].operation != Delete
    ensures forall j :: i < j < |entries| && Names(entries[j], side, price) ==> entries[j].operation == Delete
  {
    if entries == [] then -1
    else
      var n := |entries| - 1;
      if Names(entries[n], side, price) && entries[n].operation != Delete then n else LastKept(entries[..n], side, price)
  }

  /** A snapshot holds the levels it lists, each with the quantity listed last. */
  lemma {:induction false} SnapshotHolds(entries: seq<L2Update>, side: Side, price: int)
    ensures var i := LastKept(entries, side, price);
            && ((side, price) in SnapshotLevels(entries) <==> i >= 0)
            && (i >= 0 ==> SnapshotLevels(entries)[(side, price)] == entries[i].quantity)
  {
    if entries != [] {
      SnapshotHolds(entries[..|entries| - 1], side, price);
    }
  }
}
