/** SpscRing, RingSink and BookService (src/feed_handler/spsc_ring.h, src/book_adapter/ring_sink.h,
    book_service.cpp) as objects: draining the rings hands every queued entry to the adapter exactly
    once, in its feed's order. The queue inside the ring is a plain FIFO here, and while the service
    drains no producer runs: interleavings with producers are LiveBookPath's subject. */
module BookServices {
  import opened BookTypes
  import opened Bytes
  import opened JournalHeader
  import opened SinkTrace
  import opened BookAdapters
  import opened LossyStream
  import opened LiveBookPath

  class SpscRing<T> {
    const capacity: nat
    var queue: seq<T>
    var dropped: nat

    constructor (size: nat)
      ensures queue == [] && dropped == 0 && capacity == size
    {
      capacity, queue, dropped := size, [], 0;
    }

    /** Takes at least `capacity` elements; `spare` says whether the queue's rounded-up storage has room
        beyond that. A refusal is counted and leaves the queue alone. */
    method Push(value: T, spare: bool) returns (taken: bool)
      modifies this
      ensures taken <==> |old(queue)| < capacity || spare
      ensures queue == old(queue) + (if taken then [value] else [])
      ensures dropped == old(dropped) + (if taken then 0 else 1)
    {
      taken := |queue| < capacity || spare;
      if taken {
        queue := queue + [value];
      } else {
        dropped := dropped + 1;
      }
    }

    method PushControl(value: T)
      modifies this`queue
      ensures queue == old(queue) + [value]
    {
      queue := queue + [value];
    }

    method Pop() returns (value: Option<T>)
      modifies this`queue
      ensures old(queue) == [] ==> value.None? && queue == []
      ensures old(queue) != [] ==> value == Some(old(queue)[0]) && queue == old(queue)[1..]
    {
      if queue == [] {
        return None;
      }
      value := Some(queue[0]);
      queue := queue[1..];
    }
  }

  class RingSink {
    const ring: SpscRing<RingEntry>

    constructor (target: SpscRing<RingEntry>)
      ensures ring == target
    {
      ring := target;
    }

    method OnFrame(frame: CaptureFrame, spare: bool) returns (taken: bool)
      modifies ring
      ensures ring.queue == old(ring.queue) + (if taken then [RingEntry(SinkEvent.OnFrame(frame), old(ring.dropped))] else [])
      ensures ring.dropped == old(ring.dropped) + (if taken then 0 else 1)
      ensures taken <==> |old(ring.queue)| < ring.capacity || spare
    {
      taken := ring.Push(Stamped(SinkEvent.OnFrame(frame)), spare);
    }

    method OnConnect(connectId: nat, reason: bytes)
      modifies ring
      ensures ring.queue == old(ring.queue) + [RingEntry(SinkEvent.OnConnect(connectId, reason), old(ring.dropped))]
      ensures ring.dropped == old(ring.dropped)
    {
      ring.PushControl(Stamped(SinkEvent.OnConnect(connectId, reason)));
    }

    method OnDisconnect(connectId: nat)
      modifies ring
      ensures ring.queue == old(ring.queue) + [RingEntry(SinkEvent.OnDisconnect(connectId), old(ring.dropped))]
      ensures ring.dropped == old(ring.dropped)
    {
      ring.PushControl(Stamped(SinkEvent.OnDisconnect(connectId)));
    }

    function Stamped(event: SinkEvent): RingEntry
      reads ring
    {
      RingEntry(event, ring.dropped)
    }
  }

  // -------------------------------------------------------------------------- delivering, as a value

  /** One feed's consumer side: its connection and the drops reported for it. */
  datatype Side<+S> = Side(conn: Connection<S>, reported: nat)

  function Deliver<S, M>(settings: Settings<S, M>, side: Side<S>, entry: RingEntry): Side<S> {
    var (conn, reported) := Report(side.conn, side.reported, entry.droppedBefore);
    Side(OnEventValue(settings, conn, entry.event), reported)
  }

  /** Every entry once, in order. */
  function DeliverAll<S, M>(settings: Settings<S, M>, side: Side<S>, entries: seq<RingEntry>): Side<S> {
    if entries == [] then side
    else Deliver(settings, DeliverAll(settings, side, entries[..|entries| - 1]), entries[|entries| - 1])
  }

  lemma {:induction false} DeliverSplit<S, M>(settings: Settings<S, M>, side: Side<S>, a: seq<RingEntry>, b: seq<RingEntry>)
    ensures DeliverAll(settings, side, a + b) == DeliverAll(settings, DeliverAll(settings, side, a), b)
  {
    hide Deliver;
    if b == [] {
      assert a + b == a;
    } else {
      DeliverSplit(settings, side, a, b[..|b| - 1]);
      assert (a + b)[..|a + b| - 1] == a + b[..|b| - 1];
    }
  }

  /** One feed after Stop: everything queued delivered, then the drops no entry carried. */
  function Stopped<S, M>(settings: Settings<S, M>, side: Side<S>, entries: seq<RingEntry>, dropped: nat): Side<S> {
    var drained := DeliverAll(settings, side, entries);
    var (conn, reported) := Report(drained.conn, drained.reported, dropped);
    Side(conn, reported)
  }

  /** Delivering what a feed's accepted offers were stamped is the adapter behind the ring. */
  lemma {:induction false} DeliveredIsBehindRing<S, M>(settings: Settings<S, M>, offers: seq<Offer>)
    ensures var behind := BehindRing(settings, offers);
            DeliverAll(settings, Side(NewConnection(), 0), Entries(offers, 0)) == Side(behind.conn, behind.reported)
  {
    hide OnEventValue, OnFramesDroppedValue;
    if offers != [] {
      var front, last := offers[..|offers| - 1], offers[|offers| - 1];
      DeliveredIsBehindRing(settings, front);
      if last.accepted {
        var entry := RingEntry(last.event, Refusals(front));
        assert (Entries(front, 0) + [entry])[..|Entries(front, 0)|] == Entries(front, 0);
        var before := BehindRing(settings, front);
        ReportIsDropped(before.conn, before.reported, Refusals(front));
      } else {
        assert Entries(offers, 0) == Entries(front, 0);
      }
    }
  }

  /** So a stopped service accounts for every frame a feed was offered, and its books are the loss-free ones
      or read Desynced after a loss, whatever the ring refused. */
  lemma {:induction false} StoppedServiceIsTrueOrDesynced<S(!new), M(!new)>(settings: Settings<S, M>, offers: seq<Offer>, symbol: bytes)
    requires SnapshotResets(settings.policy) && Proper(offers)
    ensures var side := Stopped(settings, Side(NewConnection(), 0), Entries(offers, 0), Refusals(offers));
            var book := BookOf(side.conn, symbol);
            && side.conn.stats.frames + side.conn.stats.drops == FramesOffered(offers)
            && (book.Some? ==>
                  if Lost(settings, offers, symbol) then ReadinessOf(settings.policy, book.value) == Desynced
                  else BookOf(Inline(settings, offers), symbol) == book)
  {
    hide Lost, Inline, BehindRing, DeliverAll, Entries, Report, SnapshotResets, OnFramesDroppedValue, Refusals, FramesOffered;
    DeliveredIsBehindRing(settings, offers);
    var behind := BehindRing(settings, offers);
    ReportIsDropped(behind.conn, behind.reported, Refusals(offers));
    ReadyNeverOverATrailingHole(settings, offers, symbol);
    NothingUnaccountedFor(settings, offers);
    DropCounts(behind.conn, Refusals(offers) - behind.reported);
  }

  const BATCH: nat := 64

  class BookService<S, M> {
    const adapter: BookAdapter<S, M>
    /** One ring per registered connection; connection i of the adapter drains rings[i]. */
    const rings: seq<SpscRing<RingEntry>>
    var reported: seq<nat>
    var stopped: bool

    ghost predicate Valid()
      reads this, adapter
    {
      && adapter.Valid()
      && |rings| == |adapter.settings| == |reported|
      && forall i, j :: 0 <= i < j < |rings| ==> rings[i] != rings[j]
    }

    constructor (configured: seq<Settings<S, M>>, ringEvents: nat)
      ensures Valid() && fresh(adapter) && adapter.settings == configured && !stopped
      ensures forall i :: 0 <= i < |rings| ==>
                fresh(rings[i]) && rings[i].queue == [] && rings[i].dropped == 0 &&
                SideOf(i) == Side(NewConnection(), 0)
    {
      adapter := new BookAdapter(configured);
      var made := MakeRings(|configured|, ringEvents);
      rings := made;
      reported := seq(|configured|, _ => 0);
      stopped := false;
    }

    static method MakeRings(count: nat, ringEvents: nat) returns (made: seq<SpscRing<RingEntry>>)
      ensures |made| == count
      ensures forall i :: 0 <= i < count ==> fresh(made[i]) && made[i].queue == [] && made[i].dropped == 0
      ensures forall i, j :: 0 <= i < j < count ==> made[i] != made[j]
    {
      made := [];
      for k := 0 to count
        invariant |made| == k
        invariant forall i :: 0 <= i < k ==> fresh(made[i]) && made[i].queue == [] && made[i].dropped == 0
        invariant forall i, j :: 0 <= i < j < k ==> made[i] != made[j]
      {
        var ring := new SpscRing<RingEntry>(ringEvents);
        made := made + [ring];
      }
    }

    ghost function SideOf(i: nat): Side<S>
      requires Valid() && i < |rings|
      reads this, adapter
    {
      Side(adapter.connections[i], reported[i])
    }

    method ReportDropsOf(i: nat, total: nat)
      requires Valid() && i < |rings|
      modifies this`reported, adapter
      ensures Valid()
      ensures var told := Report(old(SideOf(i)).conn, old(SideOf(i)).reported, total);
              SideOf(i) == Side(told.0, told.1)
      ensures forall j :: 0 <= j < |rings| && j != i ==> SideOf(j) == old(SideOf(j))
    {
      if total <= reported[i] {
        return;
      }
      var late := total - reported[i];
      reported := reported[i := total];
      adapter.OnFramesDropped(i, late);
    }

    method Dispatch(i: nat, entry: RingEntry)
      requires Valid() && i < |rings|
      modifies this`reported, adapter
      ensures Valid()
      ensures SideOf(i) == Deliver(adapter.settings[i], old(SideOf(i)), entry)
      ensures forall j :: 0 <= j < |rings| && j != i ==> SideOf(j) == old(SideOf(j))
    {
      hide OnEventValue, Report;
      ReportDropsOf(i, entry.droppedBefore);
      adapter.OnEvent(i, entry.event);
    }

    /** At most one batch from one ring. */
    method Drain(i: nat) returns (handled: nat)
      requires Valid() && i < |rings|
      modifies this`reported, adapter, rings[i]
      ensures Valid()
      ensures Drained(old(rings[i].queue), old(SideOf(i)), rings[i].queue, SideOf(i), adapter.settings[i])
      ensures handled <= BATCH && handled + |rings[i].queue| == |old(rings[i].queue)|
      ensures handled == 0 ==> old(rings[i].queue) == []
      ensures rings[i].dropped == old(rings[i].dropped)
      ensures forall j :: 0 <= j < |rings| && j != i ==> SideOf(j) == old(SideOf(j))
    {
      hide Deliver;
      ghost var queued, start := rings[i].queue, SideOf(i);
      handled := 0;
      while handled < BATCH
        invariant Valid() && handled <= BATCH && handled <= |queued|
        invariant rings[i].queue == queued[handled..] && rings[i].dropped == old(rings[i].dropped)
        invariant SideOf(i) == DeliverAll(adapter.settings[i], start, queued[..handled])
        invariant forall j :: 0 <= j < |rings| && j != i ==> SideOf(j) == old(SideOf(j))
      {
        var entry := rings[i].Pop();
        if entry.None? {
          return;
        }
        assert queued[..handled + 1][..handled] == queued[..handled];
        Dispatch(i, entry.value);
        handled := handled + 1;
      }
    }

    /** One pass over every ring: at most one batch from each, so no feed waits for more than a batch of
        every other. */
    method DrainPass(ghost before: seq<seq<RingEntry>>) returns (handled: nat, ghost after: seq<seq<RingEntry>>)
      requires Valid() && Queued(before)
      modifies this`reported, adapter, rings
      ensures Valid() && Queued(after)
      ensures forall i :: 0 <= i < |rings| ==> Drained(before[i], old(SideOf(i)), after[i], SideOf(i), adapter.settings[i])
      ensures forall i :: 0 <= i < |rings| ==> rings[i].dropped == old(rings[i].dropped)
      ensures handled + Backlog(after) == Backlog(before)
      ensures handled == 0 ==> forall i :: 0 <= i < |rings| ==> after[i] == []
    {
      hide Drained, Backlog;
      after := before;
      handled := 0;
      for i := 0 to |rings|
        invariant Valid() && Queued(after)
        invariant forall j :: i <= j < |rings| ==> after[j] == before[j] && SideOf(j) == old(SideOf(j))
        invariant forall j :: 0 <= j < i ==> Drained(before[j], old(SideOf(j)), after[j], SideOf(j), adapter.settings[j])
        invariant forall j :: 0 <= j < |rings| ==> rings[j].dropped == old(rings[j].dropped)
        invariant handled + Backlog(after) == Backlog(before)
        invariant handled == 0 ==> forall j :: 0 <= j < i ==> after[j] == []
      {
        var count := Drain(i);
        BacklogUpdate(after, i, rings[i].queue);
        after := after[i := rings[i].queue];
        handled := handled + count;
      }
    }

    /** Passes until a pass finds nothing. */
    method Poll(ghost before: seq<seq<RingEntry>>) returns (total: nat)
      requires Valid() && Queued(before)
      modifies this`reported, adapter, rings
      ensures Valid() && total == Backlog(before)
      ensures forall i :: 0 <= i < |rings| ==>
                rings[i].queue == [] && SideOf(i) == DeliverAll(adapter.settings[i], old(SideOf(i)), before[i])
      ensures forall i :: 0 <= i < |rings| ==> rings[i].dropped == old(rings[i].dropped)
    {
      hide Drained, Delivered, Backlog, DeliverAll;
      total := 0;
      ghost var now := before;
      StartDelivery(before);
      while true
        invariant Valid() && Queued(now)
        invariant forall i :: 0 <= i < |rings| ==> Delivered(adapter.settings[i], before[i], old(SideOf(i)), now[i], SideOf(i))
        invariant forall i :: 0 <= i < |rings| ==> rings[i].dropped == old(rings[i].dropped)
        invariant total + Backlog(now) == Backlog(before)
        decreases Backlog(now)
      {
        ghost var mid := Sides();
        var handled, after := DrainPass(now);
        ContinueDelivery(before, old(Sides()), now, mid, after);
        now := after;
        total := total + handled;
        if handled == 0 {
          break;
        }
      }
      NoBacklog(now);
      FinishDelivery(before, old(Sides()), now);
    }

    /** The book thread once its producers have ended: the stop flag is read before each pass and shows
        after `unseen` passes; it returns after a pass that found nothing with the flag up. */
    method Run(unseen: nat, ghost before: seq<seq<RingEntry>>)
      requires Valid() && Queued(before)
      modifies this`reported, adapter, rings
      ensures Valid()
      ensures forall i :: 0 <= i < |rings| ==>
                rings[i].queue == [] && SideOf(i) == DeliverAll(adapter.settings[i], old(SideOf(i)), before[i])
      ensures forall i :: 0 <= i < |rings| ==> rings[i].dropped == old(rings[i].dropped)
    {
      hide Drained, Delivered, Backlog, DeliverAll;
      ghost var now := before;
      var passes := 0;
      StartDelivery(before);
      while true
        invariant Valid() && Queued(now)
        invariant forall i :: 0 <= i < |rings| ==> Delivered(adapter.settings[i], before[i], old(SideOf(i)), now[i], SideOf(i))
        invariant forall i :: 0 <= i < |rings| ==> rings[i].dropped == old(rings[i].dropped)
        decreases Backlog(now), if passes < unseen then unseen - passes else 0
      {
        var stopping := passes >= unseen;
        ghost var mid := Sides();
        var handled, after := DrainPass(now);
        ContinueDelivery(before, old(Sides()), now, mid, after);
        now := after;
        passes := passes + 1;
        if handled > 0 {
          continue;
        }
        if stopping {
          break;
        }
      }
      FinishDelivery(before, old(Sides()), now);
    }

    /** Drains everything, then tells every connection of the drops no entry carried. A second call does
        nothing. */
    method Stop(threaded: bool, unseen: nat, ghost before: seq<seq<RingEntry>>)
      requires Valid() && Queued(before)
      modifies this, adapter, rings
      ensures Valid() && stopped
      ensures old(stopped) ==> Queued(before) && forall i :: 0 <= i < |rings| ==> SideOf(i) == old(SideOf(i))
      ensures !old(stopped) ==> forall i :: 0 <= i < |rings| ==> rings[i].queue == []
      ensures !old(stopped) ==>
                forall i :: 0 <= i < |rings| ==>
                  SideOf(i) == Stopped(adapter.settings[i], old(SideOf(i)), before[i], rings[i].dropped)
    {
      hide DeliverAll, Report;
      if stopped {
        return;
      }
      stopped := true;
      if threaded {
        Run(unseen, before);
      } else {
        var total := Poll(before);
      }
      ghost var drained := Sides();
      for i := 0 to |rings|
        invariant Valid() && stopped
        invariant forall j :: 0 <= j < |rings| ==> rings[j].queue == []
        invariant forall j :: i <= j < |rings| ==> SideOf(j) == drained[j]
        invariant forall j :: 0 <= j < i ==>
                    SideOf(j) == var told := Report(drained[j].conn, drained[j].reported, rings[j].dropped); Side(told.0, told.1)
      {
        ReportDropsOf(i, rings[i].dropped);
      }
    }

    ghost function Sides(): (sides: seq<Side<S>>)
      requires Valid()
      reads this, adapter
      ensures |sides| == |rings| && forall i :: 0 <= i < |rings| ==> sides[i] == SideOf(i)
    {
      seq(|rings|, i requires Valid() && 0 <= i < |rings| reads this, adapter => SideOf(i))
    }

    lemma StartDelivery(before: seq<seq<RingEntry>>)
      requires Valid() && |before| == |rings|
      ensures forall i :: 0 <= i < |rings| ==> Delivered(adapter.settings[i], before[i], SideOf(i), before[i], SideOf(i))
    {
      forall i | 0 <= i < |rings| ensures Delivered(adapter.settings[i], before[i], SideOf(i), before[i], SideOf(i)) {
        assert before[i][..0] == [];
      }
    }

    lemma ContinueDelivery(before: seq<seq<RingEntry>>, start: seq<Side<S>>, now: seq<seq<RingEntry>>, mid: seq<Side<S>>, after: seq<seq<RingEntry>>)
      requires Valid() && |before| == |start| == |now| == |mid| == |after| == |rings|
      requires forall i :: 0 <= i < |rings| ==> Delivered(adapter.settings[i], before[i], start[i], now[i], mid[i])
      requires forall i :: 0 <= i < |rings| ==> Drained(now[i], mid[i], after[i], SideOf(i), adapter.settings[i])
      ensures forall i :: 0 <= i < |rings| ==> Delivered(adapter.settings[i], before[i], start[i], after[i], SideOf(i))
    {
      hide Delivered, Drained;
      forall i | 0 <= i < |rings| ensures Delivered(adapter.settings[i], before[i], start[i], after[i], SideOf(i)) {
        DeliveredThenDrained(adapter.settings[i], before[i], start[i], now[i], mid[i], after[i], SideOf(i));
      }
    }

    lemma FinishDelivery(before: seq<seq<RingEntry>>, start: seq<Side<S>>, now: seq<seq<RingEntry>>)
      requires Valid() && |before| == |start| == |now| == |rings|
      requires forall i :: 0 <= i < |rings| ==> now[i] == []
      requires forall i :: 0 <= i < |rings| ==> Delivered(adapter.settings[i], before[i], start[i], now[i], SideOf(i))
      ensures forall i :: 0 <= i < |rings| ==> SideOf(i) == DeliverAll(adapter.settings[i], start[i], before[i])
    {
      forall i | 0 <= i < |rings| ensures SideOf(i) == DeliverAll(adapter.settings[i], start[i], before[i]) {
        assert before[i][..|before[i]|] == before[i];
      }
    }

    /** The contents of all rings. */
    ghost predicate Queued(queues: seq<seq<RingEntry>>)
      reads rings
    {
      |queues| == |rings| && forall i :: 0 <= i < |rings| ==> rings[i].queue == queues[i]
    }
  }

  /** One feed after a Drain: the first entries delivered, at most a batch and at least one if there was
      any, the rest still queued. */
  ghost predicate Drained<S, M>(before: seq<RingEntry>, side: Side<S>, after: seq<RingEntry>, now: Side<S>, settings: Settings<S, M>) {
    var n := if |before| < BATCH then |before| else BATCH;
    after == before[n..] && now == DeliverAll(settings, side, before[..n])
  }

  /** One feed on the way: a prefix of what was queued has been delivered, the rest still is. */
  ghost predicate Delivered<S, M>(settings: Settings<S, M>, before: seq<RingEntry>, start: Side<S>, now: seq<RingEntry>, side: Side<S>) {
    var n := |before| - |now|;
    n >= 0 && now == before[n..] && side == DeliverAll(settings, start, before[..n])
  }

  lemma DeliveredThenDrained<S, M>(settings: Settings<S, M>, before: seq<RingEntry>, start: Side<S>, now: seq<RingEntry>, mid: Side<S>, after: seq<RingEntry>, side: Side<S>)
    requires Delivered(settings, before, start, now, mid) && Drained(now, mid, after, side, settings)
    ensures Delivered(settings, before, start, after, side)
  {
    hide DeliverAll;
    var n, k := |before| - |now|, |now| - |after|;
    DeliverSplit(settings, start, before[..n], now[..k]);
    assert before[..n] + now[..k] == before[..n + k];
  }

  ghost function Backlog(queues: seq<seq<RingEntry>>): nat {
    if queues == [] then 0 else Backlog(queues[..|queues| - 1]) + |queues[|queues| - 1]|
  }

  lemma {:induction false} NoBacklog(queues: seq<seq<RingEntry>>)
    requires forall i :: 0 <= i < |queues| ==> queues[i] == []
    ensures Backlog(queues) == 0
  {
    if queues != [] {
      NoBacklog(queues[..|queues| - 1]);
    }
  }

  lemma {:induction false} BacklogUpdate(queues: seq<seq<RingEntry>>, i: nat, queue: seq<RingEntry>)
    requires i < |queues|
    ensures Backlog(queues[i := queue]) + |queues[i]| == Backlog(queues) + |queue|
  {
    var n := |queues| - 1;
    if i < n {
      BacklogUpdate(queues[..n], i, queue);
      assert queues[i := queue][..n] == queues[..n][i := queue];
    } else {
      assert queues[i := queue][..n] == queues[..n];
    }
  }
}
