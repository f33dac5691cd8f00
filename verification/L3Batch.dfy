/** What a batch of order events means, order id by order id and without running it: the latest Add
    of an id says where and behind whom it rests, the latest event of it says how much, and a
    Delete since that Add says that it is gone. */
module L3Batches {
  import opened BookTypes
  import opened L3List

  /** The last update that announces `id`, or -1. */
  function LastAdd(updates: seq<L3Update>, id: OrderId): (i: int)
    ensures -1 <= i < |updates|
    ensures i >= 0 ==> updates[i].id == id && updates[i].event == Added
    ensures forall j :: i < j < |updates| && updates[j].id == id ==> updates[j].event != Added
  {
    if updates == [] then -1
    else
      var n := |updates| - 1;
      if updates[n].id == id && updates[n].event == Added then n else LastAdd(updates[..n], id)
  }

  /** The last update that names `id`, or -1. */
  function LastNamed(updates: seq<L3Update>, id: OrderId): (i: int)
    ensures -1 <= i < |updates|
    ensures i >= 0 ==> updates[i].id == id
    ensures forall j :: i < j < |updates| ==> updates[j].id != id
  {
    if updates == [] then -1
    else
      var n := |updates| - 1;
      if updates[n].id == id then n else LastNamed(updates[..n], id)
  }

  predicate DeletedAfter(updates: seq<L3Update>, from: int, id: OrderId) {
    exists i :: 0 <= i < |updates| && from < i && updates[i].id == id && updates[i].event == Deleted
  }

  /** Order `a` stands in front of order `b`. */
  predicate InFront(orders: seq<Order>, a: OrderId, b: OrderId) {
    exists i, j :: 0 <= i < j < |orders| && orders[i].id == a && orders[j].id == b
  }

  predicate RestsAfter(orders: seq<Order>, updates: seq<L3Update>, id: OrderId) {
    && (LastAdd(updates, id) >= 0 || Holds(orders, id))
    && !DeletedAfter(updates, LastAdd(updates, id), id)
  }

  /** Side and price are those of the latest Add, or of the order that was there; the quantity is
      that of the latest event, or of the order that was there. */
  predicate RightRecord(orders: seq<Order>, updates: seq<L3Update>, o: Order) {
    var add, last := LastAdd(updates, o.id), LastNamed(updates, o.id);
    if add >= 0 then
      o.side == updates[add].side && o.price == updates[add].price && last >= 0 && o.quantity == updates[last].quantity
    else if last >= 0 then
      o.quantity == updates[last].quantity &&
      exists was :: was in orders && was.id == o.id && was.side == o.side && was.price == o.price
    else
      o in orders
  }

  /** Orders stand in the order of their latest Adds, behind those that were not added again. */
  predicate RightPlace(orders: seq<Order>, updates: seq<L3Update>, after: seq<Order>, a: OrderId, b: OrderId) {
    InFront(after, a, b) <==>
    || LastAdd(updates, a) < LastAdd(updates, b)
    || (LastAdd(updates, a) == LastAdd(updates, b) == -1 && InFront(orders, a, b))
  }

  ghost predicate BatchMeans(orders: seq<Order>, updates: seq<L3Update>, after: seq<Order>) {
    && UniqueIds(after)
    && (forall id :: Holds(after, id) <==> RestsAfter(orders, updates, id))
    && (forall o :: o in after ==> RightRecord(orders, updates, o))
    && (forall a, b :: a != b && Holds(after, a) && Holds(after, b) ==> RightPlace(orders, updates, after, a, b))
  }

  // ------------------------------------------------------------------------- one update appended

  lemma LastAddNext(updates: seq<L3Update>, update: L3Update, id: OrderId)
    ensures LastAdd(updates + [update], id) ==
            if update.id == id && update.event == Added then |updates| else LastAdd(updates, id)
  {
    assert (updates + [update])[..|updates|] == updates;
  }

  lemma LastNamedNext(updates: seq<L3Update>, update: L3Update, id: OrderId)
    ensures LastNamed(updates + [update], id) == if update.id == id then |updates| else LastNamed(updates, id)
  {
    assert (updates + [update])[..|updates|] == updates;
  }

  lemma DeletedNext(updates: seq<L3Update>, update: L3Update, from: int, id: OrderId)
    ensures DeletedAfter(updates + [update], from, id) <==>
            DeletedAfter(updates, from, id) || (from < |updates| && update.id == id && update.event == Deleted)
  {
    var more := updates + [update];
    assert more[|updates|] == update;
    if DeletedAfter(updates, from, id) {
      var i :| 0 <= i < |updates| && from < i && updates[i].id == id && updates[i].event == Deleted;
      assert more[i] == updates[i];
    }
  }

  lemma RestsNext(orders: seq<Order>, updates: seq<L3Update>, update: L3Update, id: OrderId)
    ensures RestsAfter(orders, updates + [update], id) <==>
            if update.id != id then RestsAfter(orders, updates, id)
            else update.event == Added || (update.event == Modified && RestsAfter(orders, updates, id))
  {
    var more := updates + [update];
    LastAddNext(updates, update, id);
    DeletedNext(updates, update, LastAdd(more, id), id);
  }

  // --------------------------------------------------------------------------- places in the list

  lemma {:induction false} WithoutKeepsPlaces(orders: seq<Order>, id: OrderId, a: OrderId, b: OrderId)
    requires a != id && b != id
    ensures InFront(Without(orders, id), a, b) <==> InFront(orders, a, b)
  {
    if orders != [] {
      var front, last := orders[..|orders| - 1], orders[|orders| - 1];
      assert orders == front + [last];
      WithoutKeepsPlaces(front, id, a, b);
      InFrontAppend(front, last, a, b);
      WithoutMembers(front, id);
      HoldsOther(front, id, a);
      if last.id == id {
        assert Without(orders, id) == Without(front, id);
      } else {
        InFrontAppend(Without(front, id), last, a, b);
      }
    }
  }

  lemma HoldsOther(orders: seq<Order>, id: OrderId, other: OrderId)
    requires other != id
    ensures Holds(Without(orders, id), other) <==> Holds(orders, other)
  {
    WithoutKeepsOthers(orders, id);
    var left := Without(orders, id);
    if Holds(orders, other) {
      var i :| 0 <= i < |orders| && orders[i].id == other;
      assert orders[i] in left;
    }
    if Holds(left, other) {
      var i :| 0 <= i < |left| && left[i].id == other;
      assert left[i] in orders;
    }
  }

  lemma InFrontAppend(orders: seq<Order>, o: Order, a: OrderId, b: OrderId)
    ensures InFront(orders + [o], a, b) <==> InFront(orders, a, b) || (Holds(orders, a) && o.id == b)
  {
    var more := orders + [o];
    if InFront(orders, a, b) {
      var i, j :| 0 <= i < j < |orders| && orders[i].id == a && orders[j].id == b;
      assert more[i].id == a && more[j].id == b;
    }
    if Holds(orders, a) && o.id == b {
      var i :| 0 <= i < |orders| && orders[i].id == a;
      assert more[i].id == a && more[|orders|].id == b;
    }
    if InFront(more, a, b) {
      var i, j :| 0 <= i < j < |more| && more[i].id == a && more[j].id == b;
      assert orders[i].id == a;
      assert j < |orders| ==> orders[j].id == b;
    }
  }

  lemma RequantifyKeepsPlaces(orders: seq<Order>, id: OrderId, quantity: int, a: OrderId, b: OrderId)
    ensures InFront(Requantify(orders, id, quantity), a, b) <==> InFront(orders, a, b)
    ensures Holds(Requantify(orders, id, quantity), a) <==> Holds(orders, a)
  {
    RequantifyFacts(orders, id, quantity);
    var changed := Requantify(orders, id, quantity);
    assert forall i :: 0 <= i < |orders| ==> changed[i].id == orders[i].id;
    if InFront(orders, a, b) {
      var i, j :| 0 <= i < j < |orders| && orders[i].id == a && orders[j].id == b;
      assert changed[i].id == a && changed[j].id == b;
    }
  }

  // ------------------------------------------------------------------------------- what one update does

  lemma HoldsNext(orders: seq<Order>, update: L3Update, id: OrderId)
    ensures Holds(Apply(orders, update), id) <==>
            if update.id != id then Holds(orders, id)
            else update.event == Added || (update.event == Modified && Holds(orders, id))
  {
    match update.event {
      case Modified =>
        RequantifyKeepsPlaces(orders, update.id, update.quantity, id, id);
      case Deleted =>
        WithoutMembers(orders, update.id);
        if update.id != id {
          HoldsOther(orders, update.id, id);
        }
      case Added =>
        WithoutMembers(orders, update.id);
        if update.id != id {
          HoldsOther(orders, update.id, id);
        }
        HoldsAppend(Without(orders, update.id), Order(update.id, update.side, update.price, update.quantity), id);
    }
  }

  lemma PlaceNext(orders: seq<Order>, update: L3Update, a: OrderId, b: OrderId)
    requires UniqueIds(orders) && a != b
    requires Holds(Apply(orders, update), a) && Holds(Apply(orders, update), b)
    ensures InFront(Apply(orders, update), a, b) <==>
            if update.event == Added && update.id == b then true
            else if update.event == Added && update.id == a then false
            else InFront(orders, a, b)
  {
    HoldsNext(orders, update, a);
    HoldsNext(orders, update, b);
    match update.event {
      case Modified =>
        RequantifyKeepsPlaces(orders, update.id, update.quantity, a, b);
      case Deleted =>
        WithoutKeepsPlaces(orders, update.id, a, b);
      case Added =>
        var left := Without(orders, update.id);
        WithoutMembers(orders, update.id);
        InFrontAppend(left, Order(update.id, update.side, update.price, update.quantity), a, b);
        if update.id == b {
          HoldsOther(orders, update.id, a);
        } else if update.id != a {
          WithoutKeepsPlaces(orders, update.id, a, b);
        }
    }
  }

  /** Where an order of the new list comes from. */
  predicate ComesFrom(orders: seq<Order>, update: L3Update, o: Order) {
    if o.id != update.id then o in orders
    else if update.event == Added then o == Order(update.id, update.side, update.price, update.quantity)
    else
      update.event == Modified && o.quantity == update.quantity &&
      exists was :: was in orders && was.id == o.id && was.side == o.side && was.price == o.price
  }

  lemma RecordNext(orders: seq<Order>, update: L3Update, o: Order)
    requires o in Apply(orders, update)
    ensures ComesFrom(orders, update, o)
  {
    match update.event {
      case Modified =>
        RequantifyFacts(orders, update.id, update.quantity);
        var i :| 0 <= i < |orders| && Requantify(orders, update.id, update.quantity)[i] == o;
        assert orders[i] in orders;
      case Deleted =>
        WithoutMembers(orders, update.id);
      case Added =>
        WithoutMembers(orders, update.id);
    }
  }

  lemma RightRecordKept(orders: seq<Order>, updates: seq<L3Update>, update: L3Update, o: Order)
    requires RightRecord(orders, updates, o) && o.id != update.id
    ensures RightRecord(orders, updates + [update], o)
  {
    LastAddNext(updates, update, o.id);
    LastNamedNext(updates, update, o.id);
  }

  lemma RightRecordChanged(orders: seq<Order>, updates: seq<L3Update>, update: L3Update, was: Order, o: Order)
    requires RightRecord(orders, updates, was) && update.event == Modified && update.id == o.id == was.id
    requires o.side == was.side && o.price == was.price && o.quantity == update.quantity
    ensures RightRecord(orders, updates + [update], o)
  {
    LastAddNext(updates, update, o.id);
    LastNamedNext(updates, update, o.id);
    assert (updates + [update])[|updates|] == update;
  }

  lemma RightRecordNext(orders: seq<Order>, updates: seq<L3Update>, before: seq<Order>, update: L3Update, o: Order)
    requires forall p :: p in before ==> RightRecord(orders, updates, p)
    requires ComesFrom(before, update, o)
    ensures RightRecord(orders, updates + [update], o)
  {
    hide RightRecord;
    if o.id != update.id {
      RightRecordKept(orders, updates, update, o);
    } else if update.event == Added {
      RightRecordNew(orders, updates, update);
    } else {
      var was :| was in before && was.id == o.id && was.side == o.side && was.price == o.price;
      RightRecordChanged(orders, updates, update, was, o);
    }
  }

  lemma RightRecordNew(orders: seq<Order>, updates: seq<L3Update>, update: L3Update)
    requires update.event == Added
    ensures RightRecord(orders, updates + [update], Order(update.id, update.side, update.price, update.quantity))
  {
    LastAddNext(updates, update, update.id);
    LastNamedNext(updates, update, update.id);
    assert (updates + [update])[|updates|] == update;
  }

  lemma RightPlaceNext(orders: seq<Order>, updates: seq<L3Update>, before: seq<Order>, update: L3Update,
                       a: OrderId, b: OrderId)
    requires UniqueIds(before) && a != b
    requires Holds(Apply(before, update), a) && Holds(Apply(before, update), b)
    requires Holds(before, a) && Holds(before, b) ==> RightPlace(orders, updates, before, a, b)
    ensures RightPlace(orders, updates + [update], Apply(before, update), a, b)
  {
    hide Apply, InFront, Holds;
    LastAddNext(updates, update, a);
    LastAddNext(updates, update, b);
    PlaceNext(before, update, a, b);
    HoldsNext(before, update, a);
    HoldsNext(before, update, b);
  }

  lemma ApplyUnique(orders: seq<Order>, update: L3Update)
    requires UniqueIds(orders)
    ensures UniqueIds(Apply(orders, update))
  {
    WithoutMembers(orders, update.id);
    RequantifyFacts(orders, update.id, update.quantity);
    var left := Without(orders, update.id);
    assert forall i :: 0 <= i < |left| ==> left[i] in left;
  }

  lemma BatchNext(orders: seq<Order>, updates: seq<L3Update>, before: seq<Order>, update: L3Update)
    requires BatchMeans(orders, updates, before)
    ensures BatchMeans(orders, updates + [update], Apply(before, update))
  {
    hide Apply, Holds, RestsAfter, RightRecord, RightPlace, UniqueIds, ComesFrom;
    var after, more := Apply(before, update), updates + [update];
    ApplyUnique(before, update);
    forall id ensures Holds(after, id) <==> RestsAfter(orders, more, id) {
      HoldsNext(before, update, id);
      RestsNext(orders, updates, update, id);
    }
    forall o | o in after ensures RightRecord(orders, more, o) {
      RecordNext(before, update, o);
      RightRecordNext(orders, updates, before, update, o);
    }
    forall a, b | a != b && Holds(after, a) && Holds(after, b) ensures RightPlace(orders, more, after, a, b) {
      RightPlaceNext(orders, updates, before, update, a, b);
    }
  }

  /** The whole batch. */
  lemma {:induction false} BatchDoesThis(orders: seq<Order>, updates: seq<L3Update>)
    requires UniqueIds(orders)
    ensures BatchMeans(orders, updates, ApplyAll(orders, updates))
  {
    if updates == [] {
      forall id ensures Holds(orders, id) <==> RestsAfter(orders, updates, id) {}
      forall a, b | a != b && Holds(orders, a) && Holds(orders, b) ensures RightPlace(orders, updates, orders, a, b) {}
    } else {
      var front, last := updates[..|updates| - 1], updates[|updates| - 1];
      BatchDoesThis(orders, front);
      BatchNext(orders, front, ApplyAll(orders, front), last);
      assert updates == front + [last];
    }
  }

  // -------------------------------------------------------- the last word on an id, case by case

  lemma {:induction false} ApplyAllSplit(orders: seq<Order>, first: seq<L3Update>, rest: seq<L3Update>)
    ensures ApplyAll(orders, first + rest) == ApplyAll(ApplyAll(orders, first), rest)
    decreases |rest|
  {
    if rest == [] {
      assert first + rest == first;
    } else {
      var n := |rest| - 1;
      ApplyAllSplit(orders, first, rest[..n]);
      assert (first + rest)[..|first + rest| - 1] == first + rest[..n];
    }
  }

  /** The state `i` updates into the batch, and what the rest of the batch makes of it. */
  lemma FromThereOn(orders: seq<Order>, updates: seq<L3Update>, i: nat)
    requires UniqueIds(orders) && i <= |updates|
    ensures UniqueIds(ApplyAll(orders, updates[..i]))
    ensures BatchMeans(ApplyAll(orders, updates[..i]), updates[i..], ApplyAll(orders, updates))
  {
    assert updates == updates[..i] + updates[i..];
    ApplyAllSplit(orders, updates[..i], updates[i..]);
    BatchDoesThis(orders, updates[..i]);
    BatchDoesThis(ApplyAll(orders, updates[..i]), updates[i..]);
  }

  /** An id whose last update is an Add rests as announced, behind every order not added later. */
  lemma LastWordIsAdd(orders: seq<Order>, updates: seq<L3Update>, id: OrderId)
    requires UniqueIds(orders)
    requires LastNamed(updates, id) >= 0 && updates[LastNamed(updates, id)].event == Added
    ensures var last := updates[LastNamed(updates, id)];
            Order(id, last.side, last.price, last.quantity) in ApplyAll(orders, updates)
    ensures forall other ::
              && Holds(ApplyAll(orders, updates), other) && other != id
              && (forall j :: LastNamed(updates, id) < j < |updates| && updates[j].id == other ==> updates[j].event != Added)
              ==> InFront(ApplyAll(orders, updates), other, id)
  {
    BatchDoesThis(orders, updates);
    var after, i := ApplyAll(orders, updates), LastNamed(updates, id);
    assert LastAdd(updates, id) == i;
    assert RestsAfter(orders, updates, id);
    assert Holds(after, id);
    var k :| 0 <= k < |after| && after[k].id == id;
    assert after[k] in after;
    assert RightRecord(orders, updates, after[k]);
    forall other | Holds(after, other) && other != id
                   && forall j :: i < j < |updates| && updates[j].id == other ==> updates[j].event != Added
      ensures InFront(after, other, id)
    {
      assert LastAdd(updates, other) != i;
      assert LastAdd(updates, other) < i;
      assert RightPlace(orders, updates, after, other, id);
    }
  }

  lemma NotAddedInTheRest(updates: seq<L3Update>, i: nat, id: OrderId)
    requires i <= |updates| && LastAdd(updates, id) < i
    ensures LastAdd(updates[i..], id) == -1
  {
    assert forall j :: 0 <= j < |updates[i..]| ==> updates[i..][j] == updates[i + j];
  }

  lemma TheRestOnlyModifies(updates: seq<L3Update>, id: OrderId)
    requires LastNamed(updates, id) >= 0 && updates[LastNamed(updates, id)].event == Modified
    ensures var rest := updates[LastNamed(updates, id)..];
            LastAdd(rest, id) == -1 && LastNamed(rest, id) == 0 && !DeletedAfter(rest, -1, id)
  {
    var i := LastNamed(updates, id);
    var rest := updates[i..];
    assert rest[0] == updates[i];
    assert forall j :: 0 <= j < |rest| ==> rest[j] == updates[i + j];
    NotAddedInTheRest(updates, i, id);
  }

  /** An id whose last update is a Modify keeps the side, the price and the place it had when that
      update came, and has the new quantity; if it was not held then, it is not held now. */
  lemma LastWordIsModify(orders: seq<Order>, updates: seq<L3Update>, id: OrderId, other: OrderId)
    requires UniqueIds(orders) && other != id
    requires LastNamed(updates, id) >= 0 && updates[LastNamed(updates, id)].event == Modified
    ensures var i := LastNamed(updates, id);
            var before, after := ApplyAll(orders, updates[..i]), ApplyAll(orders, updates);
            && (Holds(after, id) <==> Holds(before, id))
            && (forall o :: o in after && o.id == id ==>
                  o.quantity == updates[i].quantity &&
                  exists was :: was in before && was.id == id && was.side == o.side && was.price == o.price)
            && (Holds(after, id) && Holds(after, other) && LastAdd(updates, other) < i ==>
                  (InFront(after, other, id) <==> InFront(before, other, id)) &&
                  (InFront(after, id, other) <==> InFront(before, id, other)))
  {
    var i := LastNamed(updates, id);
    FromThereOn(orders, updates, i);
    var before, after, rest := ApplyAll(orders, updates[..i]), ApplyAll(orders, updates), updates[i..];
    hide ApplyAll;
    TheRestOnlyModifies(updates, id);
    assert Holds(after, id) <==> RestsAfter(before, rest, id);
    if LastAdd(updates, other) < i && Holds(after, id) && Holds(after, other) {
      NotAddedInTheRest(updates, i, other);
      assert RightPlace(before, rest, after, other, id);
      assert RightPlace(before, rest, after, id, other);
    }
  }

  /** An id whose last update is a Delete is not held. */
  lemma LastWordIsDelete(orders: seq<Order>, updates: seq<L3Update>, id: OrderId)
    requires UniqueIds(orders)
    requires LastNamed(updates, id) >= 0 && updates[LastNamed(updates, id)].event == Deleted
    ensures !Holds(ApplyAll(orders, updates), id)
  {
    BatchDoesThis(orders, updates);
    var i := LastNamed(updates, id);
    assert DeletedAfter(updates, LastAdd(updates, id), id) by {
      assert LastAdd(updates, id) < i;
    }
    assert Holds(ApplyAll(orders, updates), id) <==> RestsAfter(orders, updates, id);
  }

  /** An id the batch does not name keeps its record, and its place among the others not added. */
  lemma NotNamedIsUntouched(orders: seq<Order>, updates: seq<L3Update>, id: OrderId, other: OrderId)
    requires UniqueIds(orders) && LastNamed(updates, id) < 0 && other != id
    ensures forall o: Order :: o.id == id ==> (o in ApplyAll(orders, updates) <==> o in orders)
    ensures var after := ApplyAll(orders, updates);
            Holds(after, id) && Holds(after, other) && LastAdd(updates, other) < 0 ==>
            (InFront(after, other, id) <==> InFront(orders, other, id))
  {
    BatchDoesThis(orders, updates);
    var after := ApplyAll(orders, updates);
    hide ApplyAll;
    assert LastAdd(updates, id) == -1;
    assert Holds(after, id) <==> RestsAfter(orders, updates, id);
    forall o: Order | o.id == id ensures o in after <==> o in orders {
      if o in orders {
        assert Holds(after, id);
        var k :| 0 <= k < |after| && after[k].id == id;
        assert after[k] in after;
        SameIdSameOrder(orders, o, after[k]);
      }
    }
    if Holds(after, id) && Holds(after, other) {
      assert RightPlace(orders, updates, after, other, id);
    }
  }

  lemma SameIdSameOrder(orders: seq<Order>, a: Order, b: Order)
    requires UniqueIds(orders) && a in orders && b in orders && a.id == b.id
    ensures a == b
  {
    var i :| 0 <= i < |orders| && orders[i] == a;
    var j :| 0 <= j < |orders| && orders[j] == b;
  }

  // ------------------------------------------------------------- the meaning leaves nothing open

  ghost predicate SamePlaces(a: seq<Order>, b: seq<Order>) {
    forall x, y :: x != y && Holds(a, x) && Holds(a, y) ==> (InFront(a, x, y) <==> InFront(b, x, y))
  }

  lemma LastIsLast(a: seq<Order>, b: seq<Order>, last: Order, k: nat)
    requires UniqueIds(a + [last]) && UniqueIds(b) && SamePlaces(a + [last], b)
    requires forall o :: o in a + [last] <==> o in b
    requires k < |b| && b[k] == last
    ensures k == |b| - 1
  {
    var all := a + [last];
    assert all[|a|] == last;
    forall j | 0 <= j < |b| && b[j].id != last.id ensures j <= k {
      assert b[j] in all;
      var i :| 0 <= i < |all| && all[i] == b[j];
      InFrontAppend(a, last, last.id, b[j].id);
      assert !InFront(all, last.id, b[j].id);
      assert !InFront(b, last.id, b[j].id);
    }
    assert b[|b| - 1].id == b[k].id ==> k == |b| - 1;
  }

  lemma EmptyOrNot(orders: seq<Order>)
    ensures orders == [] || exists o :: o in orders
  {
    if orders != [] {
      assert orders[0] in orders;
    }
  }

  lemma SamePlacesFront(a: seq<Order>, b: seq<Order>, last: Order)
    requires SamePlaces(a + [last], b + [last]) && !Holds(a, last.id) && !Holds(b, last.id)
    ensures SamePlaces(a, b)
  {
    hide InFront;
    forall x, y | x != y && Holds(a, x) && Holds(a, y) ensures InFront(a, x, y) <==> InFront(b, x, y) {
      HoldsAppend(a, last, x);
      HoldsAppend(a, last, y);
      InFrontAppend(a, last, x, y);
      InFrontAppend(b, last, x, y);
    }
  }

  lemma SameFront(a: seq<Order>, b: seq<Order>, last: Order)
    requires forall o :: o in a + [last] <==> o in b + [last]
    requires UniqueIds(a + [last]) && UniqueIds(b + [last])
    ensures forall o :: o in a <==> o in b
    ensures UniqueIds(a) && UniqueIds(b) && !Holds(a, last.id) && !Holds(b, last.id)
  {
    NotHeldBeforeLast(a, last);
    NotHeldBeforeLast(b, last);
    forall o ensures o in a <==> o in b {
      assert o in a + [last] <==> o in a || o == last;
      assert o in b + [last] <==> o in b || o == last;
    }
  }

  lemma NotHeldBeforeLast(orders: seq<Order>, last: Order)
    requires UniqueIds(orders + [last])
    ensures UniqueIds(orders) && !Holds(orders, last.id) && last !in orders
  {
    var all := orders + [last];
    assert all[|orders|] == last;
    forall i | 0 <= i < |orders| ensures orders[i].id != last.id {
      assert all[i] == orders[i];
    }
    forall i, j | 0 <= i < j < |orders| ensures orders[i].id != orders[j].id {
      assert all[i].id != all[j].id;
    }
  }

  lemma {:induction false} SameOrdersSamePlaces(a: seq<Order>, b: seq<Order>)
    requires UniqueIds(a) && UniqueIds(b) && SamePlaces(a, b)
    requires forall o :: o in a <==> o in b
    ensures a == b
  {
    hide SamePlaces, UniqueIds, Holds;
    if a == [] {
      EmptyOrNot(b);
    } else {
      var n := |a| - 1;
      var last, front := a[n], a[..n];
      assert last in b;
      var k :| 0 <= k < |b| && b[k] == last;
      assert a == front + [last];
      LastIsLast(front, b, last, k);
      var rest := b[..k];
      assert b == rest + [last];
      SameFront(front, rest, last);
      SamePlacesFront(front, rest, last);
      SameOrdersSamePlaces(front, rest);
    }
  }

  lemma RightRecordIsOne(orders: seq<Order>, updates: seq<L3Update>, a: Order, b: Order)
    requires UniqueIds(orders) && a.id == b.id
    requires RightRecord(orders, updates, a) && RightRecord(orders, updates, b)
    ensures a == b
  {
    var add, last := LastAdd(updates, a.id), LastNamed(updates, a.id);
    if add < 0 && last >= 0 {
      var x :| x in orders && x.id == a.id && x.side == a.side && x.price == a.price;
      var y :| y in orders && y.id == b.id && y.side == b.side && y.price == b.price;
      SameIdSameOrder(orders, x, y);
    } else if add < 0 {
      SameIdSameOrder(orders, a, b);
    }
  }

  lemma RightOrderIsThere(orders: seq<Order>, updates: seq<L3Update>, a: seq<Order>, b: seq<Order>, o: Order)
    requires UniqueIds(orders) && BatchMeans(orders, updates, a) && BatchMeans(orders, updates, b) && o in a
    ensures o in b
  {
    hide RightRecord, RestsAfter, RightPlace;
    assert Holds(a, o.id);
    assert Holds(b, o.id);
    var k :| 0 <= k < |b| && b[k].id == o.id;
    assert b[k] in b;
    RightRecordIsOne(orders, updates, o, b[k]);
  }

  /** So the batch leaves exactly one list, and it is this one. */
  lemma BatchLeavesExactly(orders: seq<Order>, updates: seq<L3Update>, after: seq<Order>)
    requires UniqueIds(orders)
    ensures BatchMeans(orders, updates, after) <==> after == ApplyAll(orders, updates)
  {
    BatchDoesThis(orders, updates);
    if BatchMeans(orders, updates, after) {
      OneMeaning(orders, updates, after, ApplyAll(orders, updates));
    }
  }

  lemma OneMeaning(orders: seq<Order>, updates: seq<L3Update>, a: seq<Order>, b: seq<Order>)
    requires UniqueIds(orders) && BatchMeans(orders, updates, a) && BatchMeans(orders, updates, b)
    ensures a == b
  {
    hide RightRecord, RestsAfter;
    forall o ensures o in a <==> o in b {
      if o in a {
        RightOrderIsThere(orders, updates, a, b, o);
      }
      if o in b {
        RightOrderIsThere(orders, updates, b, a, o);
      }
    }
    forall x, y | x != y && Holds(a, x) && Holds(a, y) ensures InFront(a, x, y) <==> InFront(b, x, y) {
      assert RightPlace(orders, updates, a, x, y);
      assert RightPlace(orders, updates, b, x, y);
    }
    assert SamePlaces(a, b);
    SameOrdersSamePlaces(a, b);
  }

  /** Update `i` modifies or deletes an order that is not resting by then. */
  predicate UnknownAt(orders: seq<Order>, updates: seq<L3Update>, i: nat)
    requires i < |updates|
  {
    updates[i].event != Added && !RestsAfter(orders, updates[..i], updates[i].id)
  }

  lemma UnknownInFront(orders: seq<Order>, updates: seq<L3Update>, n: nat, i: nat)
    requires i < n <= |updates|
    ensures UnknownAt(orders, updates[..n], i) <==> UnknownAt(orders, updates, i)
  {
    assert updates[..n][..i] == updates[..i];
  }

  /** A batch is flagged exactly when one of its updates is of an order unknown by then. */
  lemma {:induction false} UnknownOrderMeans(orders: seq<Order>, updates: seq<L3Update>)
    requires UniqueIds(orders)
    ensures HitsUnknownOrder(orders, updates) <==> exists i :: 0 <= i < |updates| && UnknownAt(orders, updates, i)
  {
    if updates != [] {
      var n := |updates| - 1;
      var front, last := updates[..n], updates[n];
      UnknownOrderMeans(orders, front);
      BatchDoesThis(orders, front);
      assert Holds(ApplyAll(orders, front), last.id) <==> RestsAfter(orders, front, last.id);
      hide UnknownAt;
      forall i | 0 <= i < n ensures UnknownAt(orders, front, i) <==> UnknownAt(orders, updates, i) {
        UnknownInFront(orders, updates, n, i);
      }
      LastUnknown(orders, updates);
    }
  }

  lemma LastUnknown(orders: seq<Order>, updates: seq<L3Update>)
    requires updates != []
    ensures var n := |updates| - 1;
            UnknownAt(orders, updates, n) <==> updates[n].event != Added && !RestsAfter(orders, updates[..n], updates[n].id)
  {
  }
}
