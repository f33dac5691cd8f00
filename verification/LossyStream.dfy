/** What a book behind a lossy ring is worth. A connection offers a stream of events; the ring takes the
    control events and some of the frames. The adapter behind it is told, with every entry it gets, how
    many frames were refused before that entry (src/book_adapter/ring_sink.h, book_service.cpp). */
module LossyStream {
  import opened BookTypes
  import opened Bytes
  import opened SinkTrace
  import opened BookAdapters

  /** One event offered to the ring, and whether the ring took it. */
  datatype Offer = Offer(event: SinkEvent, accepted: bool)

  /** Connect and Disconnect are pushed without loss. */
  predicate Proper(offers: seq<Offer>) {
    forall i :: 0 <= i < |offers| ==> offers[i].accepted || offers[i].event.OnFrame?
  }

  function Refusals(offers: seq<Offer>): nat {
    if offers == [] then 0
    else Refusals(offers[..|offers| - 1]) + if offers[|offers| - 1].accepted then 0 else 1
  }

  function Events(offers: seq<Offer>): seq<SinkEvent> {
    if offers == [] then [] else Events(offers[..|offers| - 1]) + [offers[|offers| - 1].event]
  }

  /** The adapter that was offered everything without a ring. */
  function Inline<S, M>(settings: Settings<S, M>, offers: seq<Offer>): Connection<S> {
    RunInline(settings, Events(offers))
  }

  datatype Behind<+S> = Behind(conn: Connection<S>, reported: nat)

  /** The adapter behind the ring once it has handled every entry the ring took. */
  function BehindRing<S, M>(settings: Settings<S, M>, offers: seq<Offer>): (b: Behind<S>)
    ensures b.reported <= Refusals(offers)
  {
    if offers == [] then Behind(NewConnection(), 0)
    else
      var front, last := offers[..|offers| - 1], offers[|offers| - 1];
      var before := BehindRing(settings, front);
      if !last.accepted then before
      else
        var total := Refusals(front);
        Behind(OnEventValue(settings, OnFramesDroppedValue(before.conn, total - before.reported), last.event), total)
  }

  /** Whether frames are ignored: the last control event was a Disconnect. */
  function StaleAfter(offers: seq<Offer>): bool {
    if offers == [] then false
    else
      match offers[|offers| - 1].event
      case OnConnect(_, _) => false
      case OnDisconnect(_) => true
      case OnFrame(_) => StaleAfter(offers[..|offers| - 1])
  }

  /** The i-th offer reached the adapter and gave `symbol` a fresh snapshot. */
  predicate SnapshotAt<S, M>(settings: Settings<S, M>, offers: seq<Offer>, i: nat, symbol: bytes)
    requires i < |offers|
  {
    && offers[i].accepted && offers[i].event.OnFrame?
    && AppliesSnapshot(settings, StaleAfter(offers[..i]), offers[i].event.frame.payload, symbol)
  }

  /** Some frame was refused after the last snapshot of `symbol`. */
  predicate Lost<S, M>(settings: Settings<S, M>, offers: seq<Offer>, symbol: bytes) {
    exists j :: 0 <= j < |offers| && !offers[j].accepted && NoSnapshotAfter(settings, offers, j, symbol)
  }

  predicate NoSnapshotAfter<S, M>(settings: Settings<S, M>, offers: seq<Offer>, j: nat, symbol: bytes) {
    forall i :: j < i < |offers| ==> !SnapshotAt(settings, offers, i, symbol)
  }

  // --------------------------------------------------------------------------------- how Lost changes

  lemma SnapshotAtFront<S, M>(settings: Settings<S, M>, offers: seq<Offer>, o: Offer, i: nat, symbol: bytes)
    requires i < |offers|
    ensures SnapshotAt(settings, offers + [o], i, symbol) <==> SnapshotAt(settings, offers, i, symbol)
  {
    assert (offers + [o])[i] == offers[i] && (offers + [o])[..i] == offers[..i];
  }

  lemma LostByRefusal<S, M>(settings: Settings<S, M>, offers: seq<Offer>, o: Offer, symbol: bytes)
    requires !o.accepted
    ensures Lost(settings, offers + [o], symbol)
  {
    var all := offers + [o];
    assert all[|offers|] == o && NoSnapshotAfter(settings, all, |offers|, symbol);
  }

  lemma FoundBySnapshot<S, M>(settings: Settings<S, M>, offers: seq<Offer>, o: Offer, symbol: bytes)
    requires SnapshotAt(settings, offers + [o], |offers|, symbol)
    ensures !Lost(settings, offers + [o], symbol)
  {
    var all := offers + [o];
    forall j | 0 <= j < |all| && !all[j].accepted ensures !NoSnapshotAfter(settings, all, j, symbol) {
      assert j < |offers|;
      assert SnapshotAt(settings, all, |offers|, symbol);
    }
  }

  lemma LostUnchanged<S, M>(settings: Settings<S, M>, offers: seq<Offer>, o: Offer, symbol: bytes)
    requires o.accepted && !SnapshotAt(settings, offers + [o], |offers|, symbol)
    ensures Lost(settings, offers + [o], symbol) <==> Lost(settings, offers, symbol)
  {
    var all := offers + [o];
    forall j | 0 <= j < |offers|
      ensures NoSnapshotAfter(settings, all, j, symbol) <==> NoSnapshotAfter(settings, offers, j, symbol)
    {
      NoSnapshotAfterAppend(settings, offers, o, j, symbol);
    }
    if Lost(settings, offers, symbol) {
      var j :| 0 <= j < |offers| && !offers[j].accepted && NoSnapshotAfter(settings, offers, j, symbol);
      assert all[j] == offers[j];
    }
    if Lost(settings, all, symbol) {
      var j :| 0 <= j < |all| && !all[j].accepted && NoSnapshotAfter(settings, all, j, symbol);
      assert all[j] == offers[j];
    }
  }

  lemma NoSnapshotAfterAppend<S, M>(settings: Settings<S, M>, offers: seq<Offer>, o: Offer, j: nat, symbol: bytes)
    requires j < |offers| && !SnapshotAt(settings, offers + [o], |offers|, symbol)
    ensures NoSnapshotAfter(settings, offers + [o], j, symbol) <==> NoSnapshotAfter(settings, offers, j, symbol)
  {
    hide SnapshotAt;
    var all := offers + [o];
    forall i | j < i < |offers|
      ensures SnapshotAt(settings, all, i, symbol) <==> SnapshotAt(settings, offers, i, symbol)
    {
      SnapshotAtFront(settings, offers, o, i, symbol);
    }
  }

  // --------------------------------------------------------------------------------- the main argument

  /** The two adapters compared at one symbol, at any point of the stream. */
  ghost predicate Comparable<S, M>(settings: Settings<S, M>, offers: seq<Offer>, symbol: bytes) {
    var behind, whole := BehindRing(settings, offers), Inline(settings, offers);
    var book := BookOf(behind.conn, symbol);
    && behind.conn.stale == StaleAfter(offers) == whole.stale
    && behind.conn.connectId == whole.connectId
    && (book.Some? ==>
          if Lost(settings, offers, symbol) then book.value.desynced || behind.reported < Refusals(offers)
          else BookOf(whole, symbol) == book)
  }

  lemma EventsAppend(offers: seq<Offer>, o: Offer)
    ensures Events(offers + [o]) == Events(offers) + [o.event]
  {
    assert (offers + [o])[..|offers|] == offers;
  }

  lemma InlineAppend<S, M>(settings: Settings<S, M>, offers: seq<Offer>, o: Offer)
    ensures Inline(settings, offers + [o]) == OnEventValue(settings, Inline(settings, offers), o.event)
  {
    hide OnEventValue;
    EventsAppend(offers, o);
    assert (Events(offers) + [o.event])[..|Events(offers)|] == Events(offers);
  }

  lemma BehindAppend<S, M>(settings: Settings<S, M>, offers: seq<Offer>, o: Offer)
    ensures Refusals(offers + [o]) == Refusals(offers) + if o.accepted then 0 else 1
    ensures var before := BehindRing(settings, offers);
            BehindRing(settings, offers + [o]) ==
            if !o.accepted then before
            else Behind(OnEventValue(settings, OnFramesDroppedValue(before.conn, Refusals(offers) - before.reported), o.event),
                        Refusals(offers))
  {
    hide OnEventValue, OnFramesDroppedValue;
    assert (offers + [o])[..|offers|] == offers;
  }

  lemma StaleAppend(offers: seq<Offer>, o: Offer)
    ensures StaleAfter(offers + [o]) ==
            if o.event.OnConnect? then false else if o.event.OnDisconnect? then true else StaleAfter(offers)
  {
    assert (offers + [o])[..|offers|] == offers;
  }

  /** Everything that follows from one more offer. */
  lemma Unfold<S, M>(settings: Settings<S, M>, offers: seq<Offer>, o: Offer)
    ensures Inline(settings, offers + [o]) == OnEventValue(settings, Inline(settings, offers), o.event)
    ensures Refusals(offers + [o]) == Refusals(offers) + if o.accepted then 0 else 1
    ensures var before := BehindRing(settings, offers);
            BehindRing(settings, offers + [o]) ==
            if !o.accepted then before
            else Behind(OnEventValue(settings, OnFramesDroppedValue(before.conn, Refusals(offers) - before.reported), o.event),
                        Refusals(offers))
    ensures StaleAfter(offers + [o]) ==
            if o.event.OnConnect? then false else if o.event.OnDisconnect? then true else StaleAfter(offers)
  {
    hide OnEventValue, OnFramesDroppedValue, Inline, BehindRing, StaleAfter, Refusals;
    InlineAppend(settings, offers, o);
    BehindAppend(settings, offers, o);
    StaleAppend(offers, o);
  }

  /** Drops the adapter has not heard of were refused after everything it got. */
  lemma UnreportedMeansLost<S, M>(settings: Settings<S, M>, offers: seq<Offer>, symbol: bytes)
    requires BehindRing(settings, offers).reported < Refusals(offers)
    ensures Lost(settings, offers, symbol)
  {
    hide Lost;
    var front, last := offers[..|offers| - 1], offers[|offers| - 1];
    assert offers == front + [last];
    BehindAppend(settings, front, last);
    LostByRefusal(settings, front, Offer(last.event, false), symbol);
    assert last == Offer(last.event, false);
  }

  /** A frame the ring refused: only the whole adapter moves. */
  lemma RefusedFrame<S, M>(settings: Settings<S, M>, offers: seq<Offer>, o: Offer, symbol: bytes)
    requires Comparable(settings, offers, symbol) && !o.accepted && o.event.OnFrame?
    ensures Comparable(settings, offers + [o], symbol)
  {
    hide OnFrameValue, Inline, Lost;
    Unfold(settings, offers, o);
    LostByRefusal(settings, offers, o, symbol);
    FramePerSymbol(settings, Inline(settings, offers), o.event.frame.payload, symbol);
  }

  /** A book the adapter is told about drops for is in doubt; otherwise nothing happens to it. */
  lemma DropsPerSymbol<S>(c: Connection<S>, count: nat, symbol: bytes)
    ensures BookOf(OnFramesDroppedValue(c, count), symbol) == if count == 0 then BookOf(c, symbol) else Doubt(BookOf(c, symbol))
    ensures OnFramesDroppedValue(c, count).stale == c.stale && OnFramesDroppedValue(c, count).connectId == c.connectId
  {
  }

  /** A frame both adapters get. */
  lemma SharedFrame<S(!new), M(!new)>(settings: Settings<S, M>, offers: seq<Offer>, o: Offer, symbol: bytes)
    requires SnapshotResets(settings.policy) && Comparable(settings, offers, symbol)
    requires o.accepted && o.event.OnFrame?
    ensures Comparable(settings, offers + [o], symbol)
  {
    hide OnFrameValue, OnFramesDroppedValue, Inline, Lost, BehindRing, SnapshotResets;
    var behind, whole := BehindRing(settings, offers), Inline(settings, offers);
    var payload, stale := o.event.frame.payload, StaleAfter(offers);
    var told := OnFramesDroppedValue(behind.conn, Refusals(offers) - behind.reported);
    Unfold(settings, offers, o);
    DropsPerSymbol(behind.conn, Refusals(offers) - behind.reported, symbol);
    FramePerSymbol(settings, told, payload, symbol);
    FramePerSymbol(settings, whole, payload, symbol);
    assert (offers + [o])[|offers|] == o && (offers + [o])[..|offers|] == offers;
    FrameOutcome(settings, stale, BookOf(told, symbol), BookOf(whole, symbol), symbol, payload);
    if behind.reported < Refusals(offers) {
      UnreportedMeansLost(settings, offers, symbol);
    }
    if SnapshotAt(settings, offers + [o], |offers|, symbol) {
      FoundBySnapshot(settings, offers, o, symbol);
    } else {
      LostUnchanged(settings, offers, o, symbol);
    }
  }

  /** One frame on the two versions of a book: a snapshot makes them equal, equal stay equal, and
      without a snapshot doubt stays and no book appears. */
  lemma FrameOutcome<S(!new), M(!new)>(settings: Settings<S, M>, stale: bool, a: Option<AdapterBook<S>>, b: Option<AdapterBook<S>>, symbol: bytes, payload: bytes)
    requires SnapshotResets(settings.policy)
    ensures var after := BookAfterFrame(settings, stale, a, symbol, payload);
            if AppliesSnapshot(settings, stale, payload, symbol) then
              after == BookAfterFrame(settings, stale, b, symbol, payload)
            else
              && (after.Some? <==> a.Some?)
              && (a.Some? && a.value.desynced ==> after.value.desynced)
  {
    if !stale && settings.supported {
      var parsed := settings.parse(payload);
      if parsed.Usable? {
        if HasSnapshot(settings.policy, parsed.entries, symbol) {
          SnapshotForgets(settings.policy, a, b, symbol, parsed.entries);
        } else {
          NoSnapshotKeepsDoubt(settings.policy, a, symbol, parsed.entries);
        }
      }
    }
  }

  lemma SharedControl<S, M>(settings: Settings<S, M>, offers: seq<Offer>, o: Offer, symbol: bytes)
    requires Comparable(settings, offers, symbol)
    requires o.accepted && !o.event.OnFrame?
    ensures Comparable(settings, offers + [o], symbol)
  {
    hide OnFramesDroppedValue, Inline, Lost, BehindRing;
    var behind := BehindRing(settings, offers);
    Unfold(settings, offers, o);
    DropsPerSymbol(behind.conn, Refusals(offers) - behind.reported, symbol);
    if behind.reported < Refusals(offers) {
      UnreportedMeansLost(settings, offers, symbol);
    }
    LostUnchanged(settings, offers, o, symbol);
  }

  lemma {:induction false} AlwaysComparable<S(!new), M(!new)>(settings: Settings<S, M>, offers: seq<Offer>, symbol: bytes)
    requires SnapshotResets(settings.policy) && Proper(offers)
    ensures Comparable(settings, offers, symbol)
  {
    if offers != [] {
      hide Comparable;
      var front, last := offers[..|offers| - 1], offers[|offers| - 1];
      assert offers == front + [last];
      AlwaysComparable(settings, front, symbol);
      if !last.accepted {
        RefusedFrame(settings, front, last, symbol);
      } else if last.event.OnFrame? {
        SharedFrame(settings, front, last, symbol);
      } else {
        SharedControl(settings, front, last, symbol);
      }
    }
  }

  /** A book behind the ring never says Ready over a hole: after any entry the ring delivered, an
      existing book is exactly the loss-free adapter's, unless a frame was refused since its last
      snapshot, and then it reads Desynced. */
  lemma {:induction false} ReadyNeverOverAHole<S(!new), M(!new)>(settings: Settings<S, M>, offers: seq<Offer>, symbol: bytes)
    requires SnapshotResets(settings.policy) && Proper(offers)
    requires offers == [] || offers[|offers| - 1].accepted
    ensures var book := BookOf(BehindRing(settings, offers).conn, symbol);
            book.Some? ==>
              if Lost(settings, offers, symbol) then ReadinessOf(settings.policy, book.value) == Desynced
              else BookOf(Inline(settings, offers), symbol) == book
  {
    AlwaysComparable(settings, offers, symbol);
    if offers != [] {
      var front, last := offers[..|offers| - 1], offers[|offers| - 1];
      assert offers == front + [last];
      Unfold(settings, front, last);
    }
  }

  /** The same at the end of the stream, once the drops no later entry carried have been reported. */
  lemma {:induction false} ReadyNeverOverATrailingHole<S(!new), M(!new)>(settings: Settings<S, M>, offers: seq<Offer>, symbol: bytes)
    requires SnapshotResets(settings.policy) && Proper(offers)
    ensures var behind := BehindRing(settings, offers);
            var book := BookOf(OnFramesDroppedValue(behind.conn, Refusals(offers) - behind.reported), symbol);
            book.Some? ==>
              if Lost(settings, offers, symbol) then ReadinessOf(settings.policy, book.value) == Desynced
              else BookOf(Inline(settings, offers), symbol) == book
  {
    var behind := BehindRing(settings, offers);
    AlwaysComparable(settings, offers, symbol);
    DropsPerSymbol(behind.conn, Refusals(offers) - behind.reported, symbol);
    if behind.reported < Refusals(offers) {
      UnreportedMeansLost(settings, offers, symbol);
    }
  }

  // -------------------------------------------------------------------------------------- conservation

  function FramesOffered(offers: seq<Offer>): nat {
    if offers == [] then 0
    else FramesOffered(offers[..|offers| - 1]) + if offers[|offers| - 1].event.OnFrame? then 1 else 0
  }

  lemma EntryKeepsCounts<S, M>(policy: Policy<S, M>, c: Connection<S>, entry: Entry<M>)
    ensures ApplyEntry(policy, c, entry).stats.frames == c.stats.frames
    ensures ApplyEntry(policy, c, entry).stats.drops == c.stats.drops
  {
  }

  lemma {:induction false} EntriesKeepCounts<S, M>(policy: Policy<S, M>, c: Connection<S>, entries: seq<Entry<M>>)
    ensures ApplyEntries(policy, c, entries).stats.frames == c.stats.frames
    ensures ApplyEntries(policy, c, entries).stats.drops == c.stats.drops
  {
    hide ApplyEntry;
    if entries != [] {
      EntriesKeepCounts(policy, c, entries[..|entries| - 1]);
      EntryKeepsCounts(policy, ApplyEntries(policy, c, entries[..|entries| - 1]), entries[|entries| - 1]);
    }
  }

  lemma EventCounts<S, M>(settings: Settings<S, M>, c: Connection<S>, event: SinkEvent)
    ensures var after := OnEventValue(settings, c, event);
            && after.stats.frames == c.stats.frames + (if event.OnFrame? then 1 else 0)
            && after.stats.drops == c.stats.drops
  {
    if event.OnFrame? && !c.stale && settings.supported {
      var counted := c.(stats := c.stats.(frames := c.stats.frames + 1));
      var parsed := settings.parse(event.frame.payload);
      if parsed.Usable? {
        EntriesKeepCounts(settings.policy, counted, parsed.entries);
      }
    }
  }

  lemma DropCounts<S>(c: Connection<S>, count: nat)
    ensures OnFramesDroppedValue(c, count).stats.frames == c.stats.frames
    ensures OnFramesDroppedValue(c, count).stats.drops == c.stats.drops + count
  {
  }

  /** Every frame offered is either applied or reported as dropped. */
  lemma {:induction false} NothingUnaccountedFor<S, M>(settings: Settings<S, M>, offers: seq<Offer>)
    requires Proper(offers)
    ensures BehindRing(settings, offers).conn.stats.drops == BehindRing(settings, offers).reported
    ensures BehindRing(settings, offers).conn.stats.frames + Refusals(offers) == FramesOffered(offers)
  {
    if offers != [] {
      var front, last := offers[..|offers| - 1], offers[|offers| - 1];
      NothingUnaccountedFor(settings, front);
      AccountStep(settings, front, last);
      assert offers == front + [last];
    }
  }

  lemma AccountStep<S, M>(settings: Settings<S, M>, front: seq<Offer>, last: Offer)
    requires last.accepted || last.event.OnFrame?
    requires BehindRing(settings, front).conn.stats.drops == BehindRing(settings, front).reported
    ensures BehindRing(settings, front + [last]).conn.stats.drops == BehindRing(settings, front + [last]).reported
    ensures BehindRing(settings, front + [last]).conn.stats.frames + Refusals(front + [last]) ==
            BehindRing(settings, front).conn.stats.frames + Refusals(front) + (if last.event.OnFrame? then 1 else 0)
  {
    hide OnEventValue, OnFramesDroppedValue, BehindRing, Refusals;
    var before := BehindRing(settings, front);
    var told := OnFramesDroppedValue(before.conn, Refusals(front) - before.reported);
    BehindAppend(settings, front, last);
    DropCounts(before.conn, Refusals(front) - before.reported);
    EventCounts(settings, told, last.event);
  }
}
