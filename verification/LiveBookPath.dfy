/** The live book path as a machine of atomic steps: the connection thread stamping and pushing into a
    ring (src/book_adapter/ring_sink.h, src/feed_handler/spsc_ring.h), the book thread popping, reporting
    drops and applying (src/book_adapter/book_service.cpp). Every interleaving is a sequence of actions;
    whether a push finds room is up to the action. */
module LiveBookPath {
  import opened BookTypes
  import opened Bytes
  import opened SinkTrace
  import opened BookAdapters
  import opened LossyStream

  datatype RingEntry = RingEntry(event: SinkEvent, droppedBefore: nat)

  /** Between reading the drop counter and pushing, and between a refused push and counting it. */
  datatype Producer = Producing | Stamped(entry: RingEntry) | Counting

  /** Between popping an entry, reporting the drops it carries, and handling its event. */
  datatype Consumer = Polling | Holding(entry: RingEntry) | Told(entry: RingEntry)

  datatype System<+S> = System(
    ring: seq<RingEntry>,
    dropped: nat,
    producer: Producer,
    ended: bool,
    consumer: Consumer,
    conn: Connection<S>,
    reported: nat,
    stopped: bool,
    /** Everything the producer has tried to push, and how far into that the consumer has come. */
    offers: seq<Offer>,
    position: nat)

  datatype Action =
    | Stamp(event: SinkEvent)
    | Push(room: bool)
    | CountDrop
    | End
    | Pop
    | ReportDrops
    | Handle
    | ReportTrailingDrops

  function Initial<S>(): System<S> {
    System([], 0, Producing, false, Polling, NewConnection(), 0, false, [], 0)
  }

  /** BookService::ReportDrops on a connection that has been told of `reported` drops so far. */
  function Report<S>(conn: Connection<S>, reported: nat, total: nat): (Connection<S>, nat) {
    if total <= reported then (conn, reported) else (OnFramesDroppedValue(conn, total - reported), total)
  }

  /** One atomic step, where it is possible. */
  function Next<S, M>(settings: Settings<S, M>, s: System<S>, action: Action): Option<System<S>> {
    match action
    case Stamp(event) =>
      if s.producer.Producing? && !s.ended then Some(s.(producer := Stamped(RingEntry(event, s.dropped)))) else None
    case Push(room) =>
      if !s.producer.Stamped? then None
      else
        var entry := s.producer.entry;
        if room || !entry.event.OnFrame? then
          // Push with room, or PushControl, which grows the ring when it has to.
          Some(s.(ring := s.ring + [entry], producer := Producing, offers := s.offers + [Offer(entry.event, true)]))
        else
          Some(s.(producer := Counting, offers := s.offers + [Offer(entry.event, false)]))
    case CountDrop =>
      if s.producer.Counting? then Some(s.(dropped := s.dropped + 1, producer := Producing)) else None
    case End =>
      if s.producer.Producing? then Some(s.(ended := true)) else None
    case Pop =>
      if s.consumer.Polling? && s.ring != [] then Some(s.(consumer := Holding(s.ring[0]), ring := s.ring[1..])) else None
    case ReportDrops =>
      if !s.consumer.Holding? then None
      else
        var entry := s.consumer.entry;
        var (conn, reported) := Report(s.conn, s.reported, entry.droppedBefore);
        Some(s.(conn := conn, reported := reported, consumer := Told(entry)))
    case Handle =>
      if !s.consumer.Told? then None
      else
        Some(s.(conn := OnEventValue(settings, s.conn, s.consumer.entry.event), consumer := Polling,
                position := NextAccepted(s.offers, s.position)))
    case ReportTrailingDrops =>
      // Stop() after the drain: every producer has ended and every ring is empty.
      if !s.ended || s.ring != [] || !s.consumer.Polling? || s.stopped then None
      else
        var (conn, reported) := Report(s.conn, s.reported, s.dropped);
        Some(s.(conn := conn, reported := reported, stopped := true))
  }

  /** The position after the first accepted offer from `from` on; the end when there is none. */
  function NextAccepted(offers: seq<Offer>, from: nat): nat
    decreases |offers| - from
  {
    if from >= |offers| then |offers| else if offers[from].accepted then from + 1 else NextAccepted(offers, from + 1)
  }

  function Execute<S, M>(settings: Settings<S, M>, actions: seq<Action>): Option<System<S>> {
    if actions == [] then Some(Initial())
    else
      match Execute(settings, actions[..|actions| - 1])
      case None => None
      case Some(s) => Next(settings, s, actions[|actions| - 1])
  }

  // -------------------------------------------------------------------------------------- the invariant

  /** The entries of the accepted offers from `from` on, as they were stamped. */
  function Entries(offers: seq<Offer>, from: nat): seq<RingEntry> {
    if |offers| <= from then []
    else
      var front, last := offers[..|offers| - 1], offers[|offers| - 1];
      Entries(front, from) + if last.accepted then [RingEntry(last.event, Refusals(front))] else []
  }

  function InHand(consumer: Consumer): seq<RingEntry> {
    if consumer.Polling? then [] else [consumer.entry]
  }

  ghost predicate ProducerOk<S>(s: System<S>) {
    && Proper(s.offers)
    && s.dropped + (if s.producer.Counting? then 1 else 0) == Refusals(s.offers)
    && (s.producer.Stamped? ==> s.producer.entry.droppedBefore == Refusals(s.offers))
    && (s.ended ==> s.producer.Producing?)
  }

  /** What is on its way to the adapter is what the accepted offers from `position` on were stamped. */
  ghost predicate RingOk<S>(s: System<S>) {
    && s.position <= |s.offers|
    && (s.position == 0 || s.offers[s.position - 1].accepted)
    && InHand(s.consumer) + s.ring == Entries(s.offers, s.position)
  }

  /** What the adapter holds is a function of the offers before `position`. */
  ghost predicate AdapterOk<S, M>(settings: Settings<S, M>, s: System<S>)
    requires s.position <= |s.offers|
  {
    var behind := BehindRing(settings, s.offers[..s.position]);
    if s.stopped then
      && s.ended && s.ring == [] && s.consumer.Polling?
      && s.conn == Report(behind.conn, behind.reported, Refusals(s.offers)).0
    else if s.consumer.Told? then
      (s.conn, s.reported) == Report(behind.conn, behind.reported, s.consumer.entry.droppedBefore)
    else
      s.conn == behind.conn && s.reported == behind.reported
  }

  ghost predicate Inv<S, M>(settings: Settings<S, M>, s: System<S>) {
    ProducerOk(s) && RingOk(s) && AdapterOk(settings, s)
  }

  lemma EntriesAppend(offers: seq<Offer>, o: Offer, from: nat)
    requires from <= |offers|
    ensures Entries(offers + [o], from) ==
            Entries(offers, from) + if o.accepted then [RingEntry(o.event, Refusals(offers))] else []
  {
    assert (offers + [o])[..|offers|] == offers;
  }

  /** The next entry is that of the first accepted offer; the refused ones before it leave no entry and
      do not move the adapter. */
  lemma {:induction false} FirstEntry<S, M>(settings: Settings<S, M>, offers: seq<Offer>, from: nat)
    requires from <= |offers| && Entries(offers, from) != []
    ensures var q := NextAccepted(offers, from) - 1;
            && from <= q < |offers| && offers[q].accepted
            && Entries(offers, from)[0] == RingEntry(offers[q].event, Refusals(offers[..q]))
            && Entries(offers, from)[1..] == Entries(offers, q + 1)
            && BehindRing(settings, offers[..q]) == BehindRing(settings, offers[..from])
    decreases |offers| - from
  {
    SplitEntries(offers, from);
    if !offers[from].accepted {
      FirstEntry(settings, offers, from + 1);
      assert offers[..from + 1] == offers[..from] + [offers[from]];
      BehindAppend(settings, offers[..from], offers[from]);
    }
  }

  lemma {:induction false} SplitEntries(offers: seq<Offer>, from: nat)
    requires from < |offers|
    ensures Entries(offers, from) ==
            (if offers[from].accepted then [RingEntry(offers[from].event, Refusals(offers[..from]))] else []) + Entries(offers, from + 1)
  {
    var front, last := offers[..|offers| - 1], offers[|offers| - 1];
    assert offers == front + [last];
    EntriesAppend(front, last, from);
    if from < |front| {
      SplitEntries(front, from);
      EntriesAppend(front, last, from + 1);
      assert front[..from] == offers[..from];
    } else {
      assert Entries(front, from) == [] && offers[..from] == front;
    }
  }

  lemma {:induction false} NoMoreEntries<S, M>(settings: Settings<S, M>, offers: seq<Offer>, from: nat)
    requires from <= |offers| && Entries(offers, from) == []
    ensures BehindRing(settings, offers) == BehindRing(settings, offers[..from])
    decreases |offers| - from
  {
    if from < |offers| {
      SplitEntries(offers, from);
      NoMoreEntries(settings, offers, from + 1);
      assert offers[..from + 1] == offers[..from] + [offers[from]];
      BehindAppend(settings, offers[..from], offers[from]);
    } else {
      assert offers[..from] == offers;
    }
  }

  lemma ProducerStep<S, M>(settings: Settings<S, M>, s: System<S>, action: Action)
    requires Inv(settings, s) && (action.Stamp? || action.CountDrop? || action.End?)
    ensures Next(settings, s, action).Some? ==> Inv(settings, Next(settings, s, action).value)
  {
    hide BehindRing, OnEventValue, OnFramesDroppedValue, Report, Entries, Refusals;
  }

  lemma PushStep<S, M>(settings: Settings<S, M>, s: System<S>, room: bool)
    requires Inv(settings, s) && s.producer.Stamped?
    ensures Inv(settings, Next(settings, s, Push(room)).value)
  {
    hide BehindRing, OnEventValue, OnFramesDroppedValue, Report, Entries, Refusals;
    var entry := s.producer.entry;
    var o := Offer(entry.event, room || !entry.event.OnFrame?);
    EntriesAppend(s.offers, o, s.position);
    RefusalsAppend(s.offers, o);
    assert (s.offers + [o])[..s.position] == s.offers[..s.position];
    assert s.position > 0 ==> (s.offers + [o])[s.position - 1] == s.offers[s.position - 1];
    assert InHand(s.consumer) + (s.ring + [entry]) == (InHand(s.consumer) + s.ring) + [entry];
  }

  lemma RefusalsAppend(offers: seq<Offer>, o: Offer)
    ensures Refusals(offers + [o]) == Refusals(offers) + if o.accepted then 0 else 1
  {
    assert (offers + [o])[..|offers|] == offers;
  }

  lemma ConsumerStep<S, M>(settings: Settings<S, M>, s: System<S>, action: Action)
    requires Inv(settings, s) && (action.Pop? || action.ReportDrops?)
    ensures Next(settings, s, action).Some? ==> Inv(settings, Next(settings, s, action).value)
  {
    hide BehindRing, OnEventValue, OnFramesDroppedValue, Report;
    if action.Pop? && s.consumer.Polling? && s.ring != [] {
      assert [s.ring[0]] + s.ring[1..] == s.ring == [] + s.ring;
    }
  }

  lemma HandleStep<S, M>(settings: Settings<S, M>, s: System<S>)
    requires Inv(settings, s) && s.consumer.Told?
    ensures Inv(settings, Next(settings, s, Handle).value)
  {
    hide OnEventValue, OnFramesDroppedValue, BehindRing, Report, Refusals;
    var entries := Entries(s.offers, s.position);
    assert entries[0] == s.consumer.entry && entries[1..] == s.ring;
    FirstEntry(settings, s.offers, s.position);
    var q := NextAccepted(s.offers, s.position) - 1;
    assert s.offers[..q + 1] == s.offers[..q] + [s.offers[q]];
    BehindAppend(settings, s.offers[..q], s.offers[q]);
    ReportIsDropped(BehindRing(settings, s.offers[..q]).conn, BehindRing(settings, s.offers[..q]).reported, Refusals(s.offers[..q]));
    assert [] + s.ring == s.ring;
  }

  lemma ReportIsDropped<S>(conn: Connection<S>, reported: nat, total: nat)
    requires reported <= total
    ensures Report(conn, reported, total) == (OnFramesDroppedValue(conn, total - reported), total)
  {
  }

  lemma TrailingStep<S, M>(settings: Settings<S, M>, s: System<S>)
    requires Inv(settings, s)
    ensures var after := Next(settings, s, ReportTrailingDrops); after.Some? ==> Inv(settings, after.value)
  {
    hide BehindRing, OnFramesDroppedValue, Report;
  }

  lemma Inductive<S, M>(settings: Settings<S, M>, s: System<S>, action: Action)
    requires Inv(settings, s)
    ensures Next(settings, s, action).Some? ==> Inv(settings, Next(settings, s, action).value)
  {
    hide Inv;
    match action {
      case Pop | ReportDrops => ConsumerStep(settings, s, action);
      case Handle => if s.consumer.Told? { HandleStep(settings, s); }
      case ReportTrailingDrops => TrailingStep(settings, s);
      case Stamp(_) => ProducerStep(settings, s, action);
      case Push(room) => if s.producer.Stamped? { PushStep(settings, s, room); }
      case CountDrop => ProducerStep(settings, s, action);
      case End => ProducerStep(settings, s, action);
    }
  }

  lemma {:induction false} AlwaysInv<S, M>(settings: Settings<S, M>, actions: seq<Action>)
    requires Execute(settings, actions).Some?
    ensures Inv(settings, Execute(settings, actions).value)
  {
    if actions == [] {
      assert Initial<S>().offers[..0] == [];
    } else {
      hide Inv, Next;
      var front := actions[..|actions| - 1];
      AlwaysInv(settings, front);
      Inductive(settings, Execute(settings, front).value, actions[|actions| - 1]);
    }
  }

  // --------------------------------------------------------------------------------------- the theorems

  /** The part of the stream the consumer has handled. */
  function Seen<S>(s: System<S>): seq<Offer> {
    if s.position <= |s.offers| then s.offers[..s.position] else s.offers
  }

  /** In every interleaving, whenever the book thread is between entries, an existing book equals the
      loss-free inline adapter's at the same stream position, or a frame before that position was refused
      after its last snapshot and it reads Desynced. */
  lemma {:induction false} LiveBooksAreTrueOrDesynced<S(!new), M(!new)>(settings: Settings<S, M>, actions: seq<Action>, symbol: bytes)
    requires SnapshotResets(settings.policy)
    requires Execute(settings, actions).Some?
    requires var s := Execute(settings, actions).value; s.consumer.Polling? && !s.stopped
    ensures var s := Execute(settings, actions).value;
            var seen := Seen(s);
            var book := BookOf(s.conn, symbol);
            book.Some? ==>
              if Lost(settings, seen, symbol) then ReadinessOf(settings.policy, book.value) == Desynced
              else BookOf(Inline(settings, seen), symbol) == book
  {
    hide Execute, BehindRing, Lost, Inline, Entries;
    AlwaysInv(settings, actions);
    var s := Execute(settings, actions).value;
    var seen := Seen(s);
    assert Proper(seen);
    assert seen == [] || seen[|seen| - 1].accepted;
    ReadyNeverOverAHole(settings, seen, symbol);
  }

  /** After Stop the same holds for the whole stream, drops at its very end included, and every frame
      offered was applied or reported as dropped. */
  lemma {:induction false} StoppedBooksAreTrueOrDesynced<S(!new), M(!new)>(settings: Settings<S, M>, actions: seq<Action>, symbol: bytes)
    requires SnapshotResets(settings.policy)
    requires Execute(settings, actions).Some? && Execute(settings, actions).value.stopped
    ensures var s := Execute(settings, actions).value;
            var book := BookOf(s.conn, symbol);
            book.Some? ==>
              if Lost(settings, s.offers, symbol) then ReadinessOf(settings.policy, book.value) == Desynced
              else BookOf(Inline(settings, s.offers), symbol) == book
    ensures var s := Execute(settings, actions).value;
            s.conn.stats.frames + s.conn.stats.drops == FramesOffered(s.offers)
  {
    hide Execute, BehindRing, Lost, Inline, Report, Refusals, FramesOffered;
    AlwaysInv(settings, actions);
    var s := Execute(settings, actions).value;
    StoppedAtEnd(settings, s);
    ReadyNeverOverATrailingHole(settings, s.offers, symbol);
    NothingUnaccountedFor(settings, s.offers);
    var behind := BehindRing(settings, s.offers);
    DropCounts(behind.conn, Refusals(s.offers) - behind.reported);
  }

  lemma StoppedAtEnd<S, M>(settings: Settings<S, M>, s: System<S>)
    requires Inv(settings, s) && s.stopped
    ensures var behind := BehindRing(settings, s.offers);
            && Proper(s.offers)
            && s.conn == OnFramesDroppedValue(behind.conn, Refusals(s.offers) - behind.reported)
  {
    hide BehindRing, OnFramesDroppedValue;
    assert InHand(s.consumer) + s.ring == [];
    NoMoreEntries(settings, s.offers, s.position);
    var behind := BehindRing(settings, s.offers);
    ReportIsDropped(behind.conn, behind.reported, Refusals(s.offers));
  }
}
