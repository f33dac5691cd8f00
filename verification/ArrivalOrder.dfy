/** AddsInArrivalOrder of src/order_book/kraken_l3_policy.h: the Adds of one message are reordered
    among the positions Adds hold, by timestamp; everything else stays where it is. A timestamp is the
    feed's fixed-width UTC text, here the instant it denotes, which orders the same way. */
module ArrivalOrder {
  import opened BookTypes
  import opened L3List
  import StableSort

  datatype TimedUpdate = TimedUpdate(update: L3Update, timestamp: int)

  predicate IsAdd(entry: TimedUpdate) {
    entry.update.event == Added
  }

  function Timestamp(): TimedUpdate -> int {
    (entry: TimedUpdate) => entry.timestamp
  }

  function Adds(updates: seq<TimedUpdate>): (adds: seq<TimedUpdate>)
    ensures |adds| <= |updates|
  {
    if updates == [] then []
    else Adds(updates[..|updates| - 1]) + if IsAdd(updates[|updates| - 1]) then [updates[|updates| - 1]] else []
  }

  /** Puts `adds` one by one into the Add positions of `updates`. */
  function Refill(updates: seq<TimedUpdate>, adds: seq<TimedUpdate>): (r: seq<TimedUpdate>)
    requires |adds| == |Adds(updates)|
    ensures |r| == |updates|
  {
    if updates == [] then []
    else
      var last := updates[|updates| - 1];
      if IsAdd(last) then Refill(updates[..|updates| - 1], adds[..|adds| - 1]) + [adds[|adds| - 1]]
      else Refill(updates[..|updates| - 1], adds) + [last]
  }

  function Reordered(updates: seq<TimedUpdate>): seq<TimedUpdate> {
    SortedAddsCount(updates);
    Refill(updates, StableSort.Sort(Adds(updates), Timestamp()))
  }

  function Plain(updates: seq<TimedUpdate>): (plain: seq<L3Update>)
    ensures |plain| == |updates|
    ensures forall i :: 0 <= i < |plain| ==> plain[i] == updates[i].update
  {
    seq(|updates|, i requires 0 <= i < |updates| => updates[i].update)
  }

  /** What the reordering promises: Adds only move among Add positions, nothing else moves, and the
      Adds come out by timestamp with ties in wire order. */
  ghost predicate IsArrivalOrder(updates: seq<TimedUpdate>, r: seq<TimedUpdate>) {
    && AgreeOffAdds(updates, r)
    && StableSort.IsStableSort(Adds(updates), Adds(r), Timestamp())
  }

  lemma SortedAddsCount(updates: seq<TimedUpdate>)
    ensures |StableSort.Sort(Adds(updates), Timestamp())| == |Adds(updates)|
  {
    var adds := Adds(updates);
    StableSort.SortIsStable(adds, Timestamp());
    assert |multiset(StableSort.Sort(adds, Timestamp()))| == |multiset(adds)|;
  }

  lemma {:induction false} AddsAreAdds(updates: seq<TimedUpdate>)
    ensures forall x :: x in Adds(updates) ==> IsAdd(x)
  {
    if updates != [] {
      AddsAreAdds(updates[..|updates| - 1]);
    }
  }

  lemma AddsAppend(updates: seq<TimedUpdate>, entry: TimedUpdate)
    ensures Adds(updates + [entry]) == Adds(updates) + if IsAdd(entry) then [entry] else []
  {
    assert (updates + [entry])[..|updates|] == updates;
  }

  lemma {:induction false} RefillKinds(updates: seq<TimedUpdate>, adds: seq<TimedUpdate>)
    requires |adds| == |Adds(updates)| && forall x :: x in adds ==> IsAdd(x)
    ensures forall i :: 0 <= i < |updates| ==> (IsAdd(Refill(updates, adds)[i]) <==> IsAdd(updates[i]))
    ensures forall i :: 0 <= i < |updates| && !IsAdd(updates[i]) ==> Refill(updates, adds)[i] == updates[i]
  {
    if updates != [] {
      var front := updates[..|updates| - 1];
      if IsAdd(updates[|updates| - 1]) {
        assert adds[|adds| - 1] in adds;
        RefillKinds(front, adds[..|adds| - 1]);
      } else {
        RefillKinds(front, adds);
      }
    }
  }

  lemma {:induction false} RefillAdds(updates: seq<TimedUpdate>, adds: seq<TimedUpdate>)
    requires |adds| == |Adds(updates)| && forall x :: x in adds ==> IsAdd(x)
    ensures Adds(Refill(updates, adds)) == adds
  {
    if updates != [] {
      var front, last := updates[..|updates| - 1], updates[|updates| - 1];
      if IsAdd(last) {
        var some := adds[..|adds| - 1];
        assert adds == some + [adds[|adds| - 1]];
        RefillAdds(front, some);
        AddsAppend(Refill(front, some), adds[|adds| - 1]);
      } else {
        RefillAdds(front, adds);
        AddsAppend(Refill(front, adds), last);
      }
    }
  }

  /** Same length, Adds at the same places, and equal everywhere else. */
  ghost predicate AgreeOffAdds(a: seq<TimedUpdate>, b: seq<TimedUpdate>) {
    && |a| == |b|
    && (forall i :: 0 <= i < |a| ==> (IsAdd(a[i]) <==> IsAdd(b[i])))
    && (forall i :: 0 <= i < |a| && !IsAdd(a[i]) ==> a[i] == b[i])
  }

  lemma AgreeFront(a: seq<TimedUpdate>, b: seq<TimedUpdate>)
    requires AgreeOffAdds(a, b) && a != []
    ensures AgreeOffAdds(a[..|a| - 1], b[..|b| - 1])
    ensures IsAdd(a[|a| - 1]) <==> IsAdd(b[|b| - 1])
    ensures IsAdd(a[|a| - 1]) || a[|a| - 1] == b[|b| - 1]
    ensures a == a[..|a| - 1] + [a[|a| - 1]] && b == b[..|b| - 1] + [b[|b| - 1]]
  {
  }

  /** Two lists that agree off the Adds and have the same Adds are equal. */
  lemma {:induction false} SameAddsSameList(a: seq<TimedUpdate>, b: seq<TimedUpdate>)
    requires AgreeOffAdds(a, b) && Adds(a) == Adds(b)
    ensures a == b
  {
    if a != [] {
      AgreeFront(a, b);
      hide AgreeOffAdds, Adds, IsAdd;
      var fa, la := a[..|a| - 1], a[|a| - 1];
      var fb, lb := b[..|b| - 1], b[|b| - 1];
      AddsAppend(fa, la);
      AddsAppend(fb, lb);
      if IsAdd(la) {
        StableSort.SameTail(Adds(fa), la, Adds(fb), lb);
      } else {
        assert Adds(fa) + [] == Adds(fa) && Adds(fb) + [] == Adds(fb);
      }
      SameAddsSameList(fa, fb);
    }
  }

  lemma ReorderedIsArrivalOrder(updates: seq<TimedUpdate>)
    ensures IsArrivalOrder(updates, Reordered(updates))
  {
    var adds := Adds(updates);
    var sorted := StableSort.Sort(adds, Timestamp());
    SortedAddsCount(updates);
    StableSort.SortIsStable(adds, Timestamp());
    AddsAreAdds(updates);
    forall x | x in sorted ensures IsAdd(x) {
      assert x in multiset(sorted);
      assert x in adds;
    }
    RefillKinds(updates, sorted);
    RefillAdds(updates, sorted);
  }

  /** There is exactly one such rearrangement, and it is the one computed. */
  lemma ArrivalOrderUnique(updates: seq<TimedUpdate>, r: seq<TimedUpdate>)
    requires IsArrivalOrder(updates, r)
    ensures r == Reordered(updates)
  {
    var s := Reordered(updates);
    ReorderedIsArrivalOrder(updates);
    assert AgreeOffAdds(r, s);
    StableSort.StableSortUnique(Adds(r), Adds(s), Timestamp());
    SameAddsSameList(r, s);
  }

  /** Adds already in timestamp order leave the message as it is. */
  lemma OrderedAddsUntouched(updates: seq<TimedUpdate>)
    requires StableSort.NonDecreasing(Adds(updates), Timestamp())
    ensures Reordered(updates) == updates
  {
    ArrivalOrderUnique(updates, updates);
  }

  method AddsInArrivalOrder(updates: seq<TimedUpdate>) returns (ordered: seq<L3Update>)
    ensures ordered == Plain(Reordered(updates))
  {
    var adds := CollectAdds(updates);
    SortedAddsCount(updates);
    adds := StableSort.Sort(adds, Timestamp());

    ordered := [];
    var nextAdd := 0;
    for i := 0 to |updates|
      invariant nextAdd == |Adds(updates[..i])| <= |adds|
      invariant ordered == Plain(Refill(updates[..i], adds[..nextAdd]))
    {
      AddsPrefix(updates, i + 1);
      RefillStep(updates, adds, i);
      if IsAdd(updates[i]) {
        ordered := ordered + [adds[nextAdd].update];
        nextAdd := nextAdd + 1;
      } else {
        ordered := ordered + [updates[i].update];
      }
    }
    assert updates[..|updates|] == updates && adds[..|adds|] == adds;
  }

  method CollectAdds(updates: seq<TimedUpdate>) returns (adds: seq<TimedUpdate>)
    ensures adds == Adds(updates)
  {
    adds := [];
    for i := 0 to |updates|
      invariant adds == Adds(updates[..i])
    {
      assert updates[..i + 1][..i] == updates[..i];
      if IsAdd(updates[i]) {
        adds := adds + [updates[i]];
      }
    }
    assert updates[..|updates|] == updates;
  }

  /** One more position filled. */
  lemma RefillStep(updates: seq<TimedUpdate>, adds: seq<TimedUpdate>, i: nat)
    requires i < |updates| && |Adds(updates[..i + 1])| <= |adds|
    ensures |Adds(updates[..i + 1])| == |Adds(updates[..i])| + if IsAdd(updates[i]) then 1 else 0
    ensures var k := |Adds(updates[..i])|;
            Refill(updates[..i + 1], adds[..|Adds(updates[..i + 1])|]) ==
            Refill(updates[..i], adds[..k]) + [if IsAdd(updates[i]) then adds[k] else updates[i]]
  {
    var k := |Adds(updates[..i])|;
    assert updates[..i + 1] == updates[..i] + [updates[i]];
    AddsAppend(updates[..i], updates[i]);
    assert updates[..i + 1][..i] == updates[..i];
    if IsAdd(updates[i]) {
      assert adds[..k + 1][..k] == adds[..k];
    }
  }

  lemma {:induction false} AddsPrefix(updates: seq<TimedUpdate>, i: nat)
    requires i <= |updates|
    ensures |Adds(updates[..i])| <= |Adds(updates)|
    decreases |updates| - i
  {
    if i == |updates| {
      assert updates[..i] == updates;
    } else {
      AddsPrefix(updates, i + 1);
      assert updates[..i + 1][..i] == updates[..i];
    }
  }

  // ------------------------------------------------- does an Add stay ahead of what follows it?

  /** The position of the k-th Add. */
  function AddPosition(updates: seq<TimedUpdate>, k: nat): (p: nat)
    requires k < |Adds(updates)|
    ensures p < |updates|
  {
    if IsAdd(updates[|updates| - 1]) && k == |Adds(updates)| - 1 then |updates| - 1
    else AddPosition(updates[..|updates| - 1], k)
  }

  lemma {:induction false} AddPositionFacts(updates: seq<TimedUpdate>, k: nat, j: nat)
    requires k < |Adds(updates)| && j <= |updates|
    ensures AddPosition(updates, k) < j <==> k < |Adds(updates[..j])|
  {
    var front := updates[..|updates| - 1];
    if j == |updates| {
      assert updates[..j] == updates;
    } else {
      assert updates[..j] == front[..j];
      AddsPrefix(front, j);
      if k < |Adds(front)| {
        AddPositionFacts(front, k, j);
      }
    }
  }

  lemma {:induction false} RefillAt(updates: seq<TimedUpdate>, adds: seq<TimedUpdate>, k: nat)
    requires |adds| == |Adds(updates)| && k < |adds|
    ensures Refill(updates, adds)[AddPosition(updates, k)] == adds[k]
  {
    var front, last := updates[..|updates| - 1], updates[|updates| - 1];
    if !IsAdd(last) {
      RefillAt(front, adds, k);
    } else if k < |adds| - 1 {
      RefillAt(front, adds[..|adds| - 1], k);
    }
  }

  lemma {:induction false} AddOrdinal(updates: seq<TimedUpdate>, i: nat)
    requires i < |updates| && IsAdd(updates[i])
    ensures |Adds(updates[..i])| < |Adds(updates)| && Adds(updates)[|Adds(updates[..i])|] == updates[i]
  {
    var front := updates[..|updates| - 1];
    if i < |front| {
      AddOrdinal(front, i);
      assert updates[..i] == front[..i];
    }
  }

  /** How many Adds of the message sort before the Add at i. */
  function AddsSortedBefore(updates: seq<TimedUpdate>, i: nat): nat
    requires i < |updates| && IsAdd(updates[i])
  {
    AddOrdinal(updates, i);
    StableSort.SortedIndex(Adds(updates), Timestamp(), |Adds(updates[..i])|)
  }

  /** Where the Add at i is applied. */
  function Destination(updates: seq<TimedUpdate>, i: nat): nat
    requires i < |updates| && IsAdd(updates[i])
  {
    AddOrdinal(updates, i);
    AddPosition(updates, AddsSortedBefore(updates, i))
  }

  lemma DestinationHoldsIt(updates: seq<TimedUpdate>, i: nat)
    requires i < |updates| && IsAdd(updates[i])
    ensures Destination(updates, i) < |Reordered(updates)|
    ensures Reordered(updates)[Destination(updates, i)] == updates[i]
  {
    AddOrdinal(updates, i);
    SortedAddsCount(updates);
    StableSort.SortPlaces(Adds(updates), Timestamp(), |Adds(updates[..i])|);
    RefillAt(updates, StableSort.Sort(Adds(updates), Timestamp()), AddsSortedBefore(updates, i));
  }

  /** An Add is applied before the entry at j exactly when fewer Adds sort before it than stand
      before j. */
  lemma AppliedBefore(updates: seq<TimedUpdate>, i: nat, j: nat)
    requires i < |updates| && IsAdd(updates[i]) && j < |updates|
    ensures Destination(updates, i) < j <==> AddsSortedBefore(updates, i) < |Adds(updates[..j])|
  {
    AddOrdinal(updates, i);
    AddPositionFacts(updates, AddsSortedBefore(updates, i), j);
  }

  /** So the reordering can apply a Modify before the Add it follows: with an older Add later in the
      message, the order it targets is not there yet. */
  lemma ModifyCanOvertakeItsAdd()
    ensures var a, b := L3Update(Added, 1, Bid, 10, 5), L3Update(Added, 2, Bid, 9, 5);
            var updates := [TimedUpdate(a, 5), TimedUpdate(a.(event := Modified, quantity := 4), 6), TimedUpdate(b, 3)];
            && Destination(updates, 0) > 1
            && !HitsUnknownOrder([], Plain(updates))
            && HitsUnknownOrder([], Plain(Reordered(updates)))
  {
    var a, b := L3Update(Added, 1, Bid, 10, 5), L3Update(Added, 2, Bid, 9, 5);
    var m := a.(event := Modified, quantity := 4);
    var updates := [TimedUpdate(a, 5), TimedUpdate(m, 6), TimedUpdate(b, 3)];
    var r := [TimedUpdate(b, 3), TimedUpdate(m, 6), TimedUpdate(a, 5)];
    AddsOfThree(updates[0], updates[1], updates[2]);
    AddsOfThree(r[0], r[1], r[2]);
    assert [updates[0], updates[2]][..1] == [updates[0]] && [r[0], r[2]][..1] == [r[0]];
    assert StableSort.IsStableSort(Adds(updates), Adds(r), Timestamp());
    ArrivalOrderUnique(updates, r);
    DestinationHoldsIt(updates, 0);
    assert Plain(updates) == [a, m, b] && Plain(r) == [b, m, a];
    AddThenModify(a, m, b);
    ModifyUnknown(b, m, a);
  }

  lemma AddsOfThree(x: TimedUpdate, y: TimedUpdate, z: TimedUpdate)
    requires IsAdd(x) && !IsAdd(y) && IsAdd(z)
    ensures Adds([x, y, z]) == [x, z]
  {
    AddsAppend([], x);
    AddsAppend([x], y);
    AddsAppend([x, y], z);
    assert [] + [x] == [x] && [x] + [y] == [x, y] && [x, y] + [z] == [x, y, z];
  }

  lemma FirstAdd(a: L3Update)
    requires a.event == Added
    ensures ApplyAll([], [a]) == [Order(a.id, a.side, a.price, a.quantity)]
  {
    assert [a][..0] == [];
    assert ApplyAll([], [a]) == Announce([], a);
  }

  lemma AddThenModify(a: L3Update, m: L3Update, b: L3Update)
    requires a.event == Added && m.id == a.id && b.event == Added
    ensures !HitsUnknownOrder([], [a, m, b])
  {
    assert [] + [a] == [a] && [a] + [m] == [a, m] && [a, m] + [b] == [a, m, b];
    HitsAppend([], [], a);
    HitsAppend([], [a], m);
    HitsAppend([], [a, m], b);
    FirstAdd(a);
    assert ApplyAll([], [a])[0].id == m.id;
  }

  lemma ModifyUnknown(b: L3Update, m: L3Update, a: L3Update)
    requires b.event == Added && m.event == Modified && m.id != b.id
    ensures HitsUnknownOrder([], [b, m, a])
  {
    assert [b, m, a][..2] == [b, m] && [b, m][..1] == [b] && [b][..0] == [];
    FirstAdd(b);
  }
}
