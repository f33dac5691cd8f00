/** When the adapter doubts a book, told from the offered stream alone: a frame of it was refused, or a
    payload that could not be used arrived for it, and no snapshot of it has come since
    (src/book_adapter/book_adapter.cpp). */
module BookDoubt {
  import opened BookTypes
  import opened Bytes
  import opened SinkTrace
  import opened BookAdapters
  import opened LossyStream

  /** The i-th offer reached the adapter, while frames were not ignored, with a payload that cannot be
      used, either for `symbol` or for a symbol nobody can tell. */
  predicate UnusableAt<S, M>(settings: Settings<S, M>, offers: seq<Offer>, i: nat, symbol: bytes)
    requires i < |offers|
  {
    && offers[i].accepted && offers[i].event.OnFrame? && !StaleAfter(offers[..i]) && settings.supported
    && (var parsed := settings.parse(offers[i].event.frame.payload);
        parsed.Unusable? && (parsed.symbol.None? || parsed.symbol.value == symbol))
  }

  /** Such a payload arrived after the last snapshot of `symbol`. */
  predicate Spoiled<S, M>(settings: Settings<S, M>, offers: seq<Offer>, symbol: bytes) {
    exists j :: 0 <= j < |offers| && UnusableAt(settings, offers, j, symbol) && NoSnapshotAfter(settings, offers, j, symbol)
  }

  // ------------------------------------------------------------------------------ how Spoiled changes

  lemma UnusableAtFront<S, M>(settings: Settings<S, M>, offers: seq<Offer>, o: Offer, i: nat, symbol: bytes)
    requires i < |offers|
    ensures UnusableAt(settings, offers + [o], i, symbol) <==> UnusableAt(settings, offers, i, symbol)
  {
    assert (offers + [o])[i] == offers[i] && (offers + [o])[..i] == offers[..i];
  }

  lemma SpoiledByUnusable<S, M>(settings: Settings<S, M>, offers: seq<Offer>, o: Offer, symbol: bytes)
    requires UnusableAt(settings, offers + [o], |offers|, symbol)
    ensures Spoiled(settings, offers + [o], symbol)
  {
    hide UnusableAt;
    assert NoSnapshotAfter(settings, offers + [o], |offers|, symbol);
  }

  lemma CuredBySnapshot<S, M>(settings: Settings<S, M>, offers: seq<Offer>, o: Offer, symbol: bytes)
    requires SnapshotAt(settings, offers + [o], |offers|, symbol)
    ensures !Spoiled(settings, offers + [o], symbol)
  {
    var all := offers + [o];
    assert !UnusableAt(settings, all, |offers|, symbol);
    hide UnusableAt, SnapshotAt;
    forall j | 0 <= j < |all| && UnusableAt(settings, all, j, symbol) ensures !NoSnapshotAfter(settings, all, j, symbol) {
      assert j < |offers|;
    }
  }

  lemma SpoiledUnchanged<S, M>(settings: Settings<S, M>, offers: seq<Offer>, o: Offer, symbol: bytes)
    requires !SnapshotAt(settings, offers + [o], |offers|, symbol) && !UnusableAt(settings, offers + [o], |offers|, symbol)
    ensures Spoiled(settings, offers + [o], symbol) <==> Spoiled(settings, offers, symbol)
  {
    hide SnapshotAt, UnusableAt, NoSnapshotAfter;
    var all := offers + [o];
    forall j | 0 <= j < |offers|
      ensures NoSnapshotAfter(settings, all, j, symbol) <==> NoSnapshotAfter(settings, offers, j, symbol)
      ensures UnusableAt(settings, all, j, symbol) <==> UnusableAt(settings, offers, j, symbol)
    {
      NoSnapshotAfterAppend(settings, offers, o, j, symbol);
      UnusableAtFront(settings, offers, o, j, symbol);
    }
  }

  // ----------------------------------------------------------------------------- the doubt, exactly

  /** A book is in doubt, or about to be told of drops, exactly when a frame was lost or unusable since
      its snapshot. */
  ghost predicate RightlyDoubted<S, M>(settings: Settings<S, M>, offers: seq<Offer>, symbol: bytes) {
    var behind := BehindRing(settings, offers);
    var book := BookOf(behind.conn, symbol);
    && behind.conn.stale == StaleAfter(offers)
    && (book.Some? ==>
          (book.value.desynced || behind.reported < Refusals(offers) <==>
           Lost(settings, offers, symbol) || Spoiled(settings, offers, symbol)))
  }

  /** The last snapshot among the entries clears the doubt, and nothing after it in the frame brings it back. */
  lemma {:induction false} SnapshotClears<S, M>(policy: Policy<S, M>, book: Option<AdapterBook<S>>, symbol: bytes, entries: seq<Entry<M>>)
    requires HasSnapshot(policy, entries, symbol)
    ensures var after := BookAfterEntries(policy, book, symbol, entries); after.Some? && !after.value.desynced
  {
    var front, last := entries[..|entries| - 1], entries[|entries| - 1];
    assert entries == front + [last];
    HasSnapshotAppend(policy, front, last, symbol);
    if HasSnapshot(policy, front, symbol) {
      SnapshotClears(policy, book, symbol, front);
    }
  }

  /** Entries never put a book in doubt. */
  lemma {:induction false} EntriesAddNoDoubt<S, M>(policy: Policy<S, M>, book: Option<AdapterBook<S>>, symbol: bytes, entries: seq<Entry<M>>)
    requires book.Some? && !book.value.desynced
    ensures var after := BookAfterEntries(policy, book, symbol, entries); after.Some? && !after.value.desynced
  {
    if entries != [] {
      EntriesAddNoDoubt(policy, book, symbol, entries[..|entries| - 1]);
    }
  }

  /** What one accepted frame does to the doubt. */
  lemma FrameDoubt<S, M>(settings: Settings<S, M>, offers: seq<Offer>, o: Offer, symbol: bytes, book: Option<AdapterBook<S>>)
    requires o.accepted && o.event.OnFrame?
    ensures var all, after := offers + [o], BookAfterFrame(settings, StaleAfter(offers), book, symbol, o.event.frame.payload);
            if SnapshotAt(settings, all, |offers|, symbol) then after.Some? && !after.value.desynced
            else
              && (after.Some? <==> book.Some?)
              && (book.Some? ==> (after.value.desynced <==> book.value.desynced || UnusableAt(settings, all, |offers|, symbol)))
  {
    var all, payload := offers + [o], o.event.frame.payload;
    assert all[|offers|] == o && all[..|offers|] == offers;
    if !StaleAfter(offers) && settings.supported {
      var parsed := settings.parse(payload);
      if parsed.Usable? {
        if HasSnapshot(settings.policy, parsed.entries, symbol) {
          SnapshotClears(settings.policy, book, symbol, parsed.entries);
        } else {
          NoSnapshotKeepsDoubt(settings.policy, book, symbol, parsed.entries);
          if book.Some? && !book.value.desynced {
            EntriesAddNoDoubt(settings.policy, book, symbol, parsed.entries);
          }
        }
      }
    }
  }

  lemma DoubtAfterRefusal<S, M>(settings: Settings<S, M>, offers: seq<Offer>, o: Offer, symbol: bytes)
    requires RightlyDoubted(settings, offers, symbol) && !o.accepted && o.event.OnFrame?
    ensures RightlyDoubted(settings, offers + [o], symbol)
  {
    hide Lost, Spoiled, BehindRing, Refusals, StaleAfter;
    Unfold(settings, offers, o);
    LostByRefusal(settings, offers, o, symbol);
    NothingUnreported(settings, offers);
  }

  lemma NothingUnreported<S, M>(settings: Settings<S, M>, offers: seq<Offer>)
    ensures BehindRing(settings, offers).reported <= Refusals(offers)
  {
  }

  lemma DoubtAfterControl<S, M>(settings: Settings<S, M>, offers: seq<Offer>, o: Offer, symbol: bytes)
    requires RightlyDoubted(settings, offers, symbol) && o.accepted && !o.event.OnFrame?
    ensures RightlyDoubted(settings, offers + [o], symbol)
  {
    assert (offers + [o])[|offers|] == o;
    LostUnchanged(settings, offers, o, symbol);
    SpoiledUnchanged(settings, offers, o, symbol);
    hide Lost, Spoiled, BehindRing, Refusals, StaleAfter, OnFramesDroppedValue, SnapshotAt, UnusableAt;
    Unfold(settings, offers, o);
    var behind := BehindRing(settings, offers);
    NothingUnreported(settings, offers);
    DropsPerSymbol(behind.conn, Refusals(offers) - behind.reported, symbol);
  }

  /** Lost or unusable since the snapshot, after one more accepted frame. */
  lemma TroubleAfterFrame<S, M>(settings: Settings<S, M>, offers: seq<Offer>, o: Offer, symbol: bytes)
    requires o.accepted
    ensures Lost(settings, offers + [o], symbol) || Spoiled(settings, offers + [o], symbol) <==>
            && !SnapshotAt(settings, offers + [o], |offers|, symbol)
            && (|| Lost(settings, offers, symbol) || Spoiled(settings, offers, symbol)
                || UnusableAt(settings, offers + [o], |offers|, symbol))
  {
    hide Lost, Spoiled, SnapshotAt, UnusableAt;
    if SnapshotAt(settings, offers + [o], |offers|, symbol) {
      FoundBySnapshot(settings, offers, o, symbol);
      CuredBySnapshot(settings, offers, o, symbol);
    } else {
      LostUnchanged(settings, offers, o, symbol);
      if UnusableAt(settings, offers + [o], |offers|, symbol) {
        SpoiledByUnusable(settings, offers, o, symbol);
      } else {
        SpoiledUnchanged(settings, offers, o, symbol);
      }
    }
  }

  lemma FrameIsAnEvent<S, M>(settings: Settings<S, M>, c: Connection<S>, event: SinkEvent)
    requires event.OnFrame?
    ensures OnEventValue(settings, c, event) == OnFrameValue(settings, c, event.frame.payload)
  {
    hide OnFrameValue;
  }

  /** The symbol's book behind the ring after one more accepted frame: the drops are told, then the
      frame is handled. */
  lemma BehindAfterFrame<S, M>(settings: Settings<S, M>, offers: seq<Offer>, o: Offer, symbol: bytes)
    requires o.accepted && o.event.OnFrame? && BehindRing(settings, offers).conn.stale == StaleAfter(offers)
    ensures var before, after := BehindRing(settings, offers), BehindRing(settings, offers + [o]);
            var book := BookOf(before.conn, symbol);
            && after.reported == Refusals(offers + [o])
            && after.conn.stale == StaleAfter(offers + [o])
            && BookOf(after.conn, symbol) ==
               BookAfterFrame(settings, StaleAfter(offers), if before.reported == Refusals(offers) then book else Doubt(book), symbol,
                              o.event.frame.payload)
  {
    hide BehindRing, Refusals, StaleAfter, OnFramesDroppedValue, OnFrameValue, OnEventValue, BookAfterFrame, BookOf, Doubt, Inline;
    var behind := BehindRing(settings, offers);
    NothingUnreported(settings, offers);
    var told := OnFramesDroppedValue(behind.conn, Refusals(offers) - behind.reported);
    FrameIsAnEvent(settings, told, o.event);
    StaleAppend(offers, o);
    BehindAppend(settings, offers, o);
    DropsPerSymbol(behind.conn, Refusals(offers) - behind.reported, symbol);
    FramePerSymbol(settings, told, o.event.frame.payload, symbol);
  }

  lemma DoubtAfterFrame<S, M>(settings: Settings<S, M>, offers: seq<Offer>, o: Offer, symbol: bytes)
    requires RightlyDoubted(settings, offers, symbol) && o.accepted && o.event.OnFrame?
    ensures RightlyDoubted(settings, offers + [o], symbol)
  {
    hide Lost, Spoiled, BehindRing, Refusals, StaleAfter, SnapshotAt, UnusableAt, BookAfterFrame, BookOf;
    var behind := BehindRing(settings, offers);
    var book := BookOf(behind.conn, symbol);
    NothingUnreported(settings, offers);
    BehindAfterFrame(settings, offers, o, symbol);
    FrameDoubt(settings, offers, o, symbol, if behind.reported == Refusals(offers) then book else Doubt(book));
    TroubleAfterFrame(settings, offers, o, symbol);
  }

  lemma {:induction false} AlwaysRightlyDoubted<S, M>(settings: Settings<S, M>, offers: seq<Offer>, symbol: bytes)
    requires Proper(offers)
    ensures RightlyDoubted(settings, offers, symbol)
  {
    if offers != [] {
      hide RightlyDoubted;
      var front, last := offers[..|offers| - 1], offers[|offers| - 1];
      assert offers == front + [last];
      AlwaysRightlyDoubted(settings, front, symbol);
      if !last.accepted {
        DoubtAfterRefusal(settings, front, last, symbol);
      } else if last.event.OnFrame? {
        DoubtAfterFrame(settings, front, last, symbol);
      } else {
        DoubtAfterControl(settings, front, last, symbol);
      }
    }
  }

  /** After any entry the ring delivered, the adapter doubts an existing book exactly when a frame was
      refused or unusable since its last snapshot. */
  lemma {:induction false} DoubtedExactly<S, M>(settings: Settings<S, M>, offers: seq<Offer>, symbol: bytes)
    requires Proper(offers) && (offers == [] || offers[|offers| - 1].accepted)
    ensures var book := BookOf(BehindRing(settings, offers).conn, symbol);
            book.Some? ==> (book.value.desynced <==> Lost(settings, offers, symbol) || Spoiled(settings, offers, symbol))
  {
    hide Lost, Spoiled;
    AlwaysRightlyDoubted(settings, offers, symbol);
    if offers != [] {
      var front, last := offers[..|offers| - 1], offers[|offers| - 1];
      assert offers == front + [last];
      Unfold(settings, front, last);
    }
  }

  /** The same at the end of the stream, once the drops no later entry carried have been reported. */
  lemma {:induction false} DoubtedExactlyAtTheEnd<S, M>(settings: Settings<S, M>, offers: seq<Offer>, symbol: bytes)
    requires Proper(offers)
    ensures var behind := BehindRing(settings, offers);
            var book := BookOf(OnFramesDroppedValue(behind.conn, Refusals(offers) - behind.reported), symbol);
            book.Some? ==> (book.value.desynced <==> Lost(settings, offers, symbol) || Spoiled(settings, offers, symbol))
  {
    hide Lost, Spoiled;
    var behind := BehindRing(settings, offers);
    AlwaysRightlyDoubted(settings, offers, symbol);
    DropsPerSymbol(behind.conn, Refusals(offers) - behind.reported, symbol);
  }
}
