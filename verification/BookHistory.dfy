/** The messages a book was made of. A book behind the ring is the fold of the messages the adapter applied
    to it, one after another, since the connect it belongs to; and while it reads Ready nothing the feed
    delivered for its symbol since its last snapshot was left out (src/book_adapter/book_adapter.cpp). */
module BookHistory {
  import opened BookTypes
  import opened Bytes
  import opened SinkTrace
  import opened BookAdapters
  import opened LossyStream

  function Fold<S, M>(policy: Policy<S, M>, messages: seq<M>): S {
    if messages == [] then policy.initial
    else policy.step(Fold(policy, messages[..|messages| - 1]), messages[|messages| - 1])
  }

  // ---------------------------------------------------------------------- applied, and merely delivered

  /** The message, if the adapter applies the entry to the symbol's book. */
  function AppliedByEntry<S, M>(policy: Policy<S, M>, book: Option<AdapterBook<S>>, symbol: bytes, entry: Entry<M>): seq<M> {
    if entry.symbol == symbol
       && (policy.isSnapshot(entry.message) || (book.Some? && ReadinessOf(policy, book.value) == Ready))
    then [entry.message] else []
  }

  function AppliedByEntries<S, M>(policy: Policy<S, M>, book: Option<AdapterBook<S>>, symbol: bytes, entries: seq<Entry<M>>): seq<M> {
    if entries == [] then []
    else
      var front, last := entries[..|entries| - 1], entries[|entries| - 1];
      AppliedByEntries(policy, book, symbol, front)
      + AppliedByEntry(policy, BookAfterEntries(policy, book, symbol, front), symbol, last)
  }

  function AppliedByFrame<S, M>(settings: Settings<S, M>, stale: bool, book: Option<AdapterBook<S>>, symbol: bytes, payload: bytes): seq<M> {
    if stale || !settings.supported then []
    else
      match settings.parse(payload)
      case Unusable(_) => []
      case Usable(entries) => AppliedByEntries(settings.policy, book, symbol, entries)
  }

  /** What the adapter behind the ring applied to the symbol's book since the last connect, in order. */
  function Applied<S, M>(settings: Settings<S, M>, offers: seq<Offer>, symbol: bytes): seq<M> {
    if offers == [] then []
    else
      var front, last := offers[..|offers| - 1], offers[|offers| - 1];
      if !last.accepted then Applied(settings, front, symbol)
      else
        match last.event
        case OnConnect(_, _) => []
        case OnDisconnect(_) => Applied(settings, front, symbol)
        case OnFrame(frame) =>
          var before := BehindRing(settings, front);
          var told := OnFramesDroppedValue(before.conn, Refusals(front) - before.reported);
          Applied(settings, front, symbol)
          + AppliedByFrame(settings, told.stale, BookOf(told, symbol), symbol, frame.payload)
  }

  function ForSymbol<M>(symbol: bytes, entries: seq<Entry<M>>): seq<M> {
    if entries == [] then []
    else
      var last := entries[|entries| - 1];
      ForSymbol(symbol, entries[..|entries| - 1]) + if last.symbol == symbol then [last.message] else []
  }

  function InFrame<S, M>(settings: Settings<S, M>, stale: bool, symbol: bytes, payload: bytes): seq<M> {
    if stale || !settings.supported then []
    else
      match settings.parse(payload)
      case Unusable(_) => []
      case Usable(entries) => ForSymbol(symbol, entries)
  }

  /** What the feed delivered for the symbol since the last connect, whatever became of it. */
  function Delivered<S, M>(settings: Settings<S, M>, offers: seq<Offer>, symbol: bytes): seq<M> {
    if offers == [] then []
    else
      var front, last := offers[..|offers| - 1], offers[|offers| - 1];
      if !last.accepted then Delivered(settings, front, symbol)
      else
        match last.event
        case OnConnect(_, _) => []
        case OnDisconnect(_) => Delivered(settings, front, symbol)
        case OnFrame(frame) =>
          Delivered(settings, front, symbol) + InFrame(settings, StaleAfter(front), symbol, frame.payload)
  }

  /** The messages from the last snapshot on; none when there is no snapshot. */
  function SinceSnapshot<S, M>(policy: Policy<S, M>, messages: seq<M>): seq<M> {
    if messages == [] then []
    else
      var before, last := SinceSnapshot(policy, messages[..|messages| - 1]), messages[|messages| - 1];
      if policy.isSnapshot(last) then [last] else if before == [] then [] else before + [last]
  }

  // ------------------------------------------------------------------------------------ the invariant

  /** The book is the fold of what was applied, and, Ready, of nothing less than what was delivered since its
      snapshot. */
  ghost predicate MadeOf<S, M>(policy: Policy<S, M>, book: Option<AdapterBook<S>>, applied: seq<M>, delivered: seq<M>) {
    && (book.None? ==> applied == [])
    && (book.Some? ==>
          && book.value.state == Fold(policy, applied) && SinceSnapshot(policy, applied) != []
          && (ReadinessOf(policy, book.value) == Ready ==>
                SinceSnapshot(policy, applied) == SinceSnapshot(policy, delivered)))
  }

  lemma FoldAppend<S, M>(policy: Policy<S, M>, messages: seq<M>, message: M)
    ensures Fold(policy, messages + [message]) == policy.step(Fold(policy, messages), message)
    ensures SinceSnapshot(policy, messages + [message]) ==
            if policy.isSnapshot(message) then [message]
            else if SinceSnapshot(policy, messages) == [] then [] else SinceSnapshot(policy, messages) + [message]
  {
    assert (messages + [message])[..|messages|] == messages;
  }

  lemma EntryMakes<S, M>(policy: Policy<S, M>, book: Option<AdapterBook<S>>, applied: seq<M>, delivered: seq<M>, symbol: bytes, entry: Entry<M>)
    requires MadeOf(policy, book, applied, delivered)
    ensures MadeOf(policy, BookAfterEntry(policy, book, symbol, entry),
                   applied + AppliedByEntry(policy, book, symbol, entry),
                   delivered + if entry.symbol == symbol then [entry.message] else [])
  {
    hide Fold, SinceSnapshot;
    FoldAppend(policy, applied, entry.message);
    FoldAppend(policy, delivered, entry.message);
    FoldNothing(policy);
    assert applied + [] == applied && delivered + [] == delivered;
  }

  lemma FoldNothing<S, M>(policy: Policy<S, M>)
    ensures Fold(policy, []) == policy.initial
  {
  }

  lemma {:induction false} EntriesMake<S, M>(policy: Policy<S, M>, book: Option<AdapterBook<S>>, applied: seq<M>, delivered: seq<M>, symbol: bytes,
                                             entries: seq<Entry<M>>)
    requires MadeOf(policy, book, applied, delivered)
    ensures MadeOf(policy, BookAfterEntries(policy, book, symbol, entries),
                   applied + AppliedByEntries(policy, book, symbol, entries), delivered + ForSymbol(symbol, entries))
  {
    hide MadeOf, AppliedByEntry, BookAfterEntry;
    if entries == [] {
      assert applied + [] == applied && delivered + [] == delivered;
    } else {
      var front, last := entries[..|entries| - 1], entries[|entries| - 1];
      EntriesMake(policy, book, applied, delivered, symbol, front);
      var before := BookAfterEntries(policy, book, symbol, front);
      var a, d := AppliedByEntries(policy, book, symbol, front), ForSymbol(symbol, front);
      EntryMakes(policy, before, applied + a, delivered + d, symbol, last);
      var more, one := AppliedByEntry(policy, before, symbol, last), if last.symbol == symbol then [last.message] else [];
      assert (applied + a) + more == applied + (a + more);
      assert (delivered + d) + one == delivered + (d + one);
    }
  }

  lemma DoubtMakes<S, M>(policy: Policy<S, M>, book: Option<AdapterBook<S>>, applied: seq<M>, delivered: seq<M>, other: seq<M>)
    requires MadeOf(policy, book, applied, delivered)
    ensures MadeOf(policy, Doubt(book), applied, other)
  {
    hide Fold, SinceSnapshot;
  }

  lemma FrameMakes<S, M>(settings: Settings<S, M>, stale: bool, book: Option<AdapterBook<S>>, applied: seq<M>, delivered: seq<M>, symbol: bytes,
                         payload: bytes)
    requires MadeOf(settings.policy, book, applied, delivered)
    ensures MadeOf(settings.policy, BookAfterFrame(settings, stale, book, symbol, payload),
                   applied + AppliedByFrame(settings, stale, book, symbol, payload),
                   delivered + InFrame(settings, stale, symbol, payload))
  {
    hide MadeOf;
    assert applied + [] == applied && delivered + [] == delivered;
    if !stale && settings.supported {
      match settings.parse(payload)
      case Unusable(_) => DoubtMakes(settings.policy, book, applied, delivered, delivered);
      case Usable(entries) => EntriesMake(settings.policy, book, applied, delivered, symbol, entries);
    }
  }

  /** Every book behind the ring is the fold of its own messages. */
  lemma {:induction false} BooksAreTheirMessages<S(!new), M(!new)>(settings: Settings<S, M>, offers: seq<Offer>, symbol: bytes)
    requires Proper(offers)
    ensures MadeOf(settings.policy, BookOf(BehindRing(settings, offers).conn, symbol), Applied(settings, offers, symbol),
                   Delivered(settings, offers, symbol))
    ensures BehindRing(settings, offers).conn.stale == StaleAfter(offers)
  {
    if offers != [] {
      hide OnFramesDroppedValue, MadeOf, OnFrameValue, AppliedByFrame, InFrame;
      var front, last := offers[..|offers| - 1], offers[|offers| - 1];
      BooksAreTheirMessages(settings, front, symbol);
      if last.accepted {
        var before := BehindRing(settings, front);
        var count := Refusals(front) - before.reported;
        var told := OnFramesDroppedValue(before.conn, count);
        DropsPerSymbol(before.conn, count, symbol);
        var applied, delivered := Applied(settings, front, symbol), Delivered(settings, front, symbol);
        DoubtMakes(settings.policy, BookOf(before.conn, symbol), applied, delivered, delivered);
        match last.event
        case OnConnect(_, _) => NoBookMakes(settings.policy);
        case OnDisconnect(_) =>
        case OnFrame(frame) =>
          FramePerSymbol(settings, told, frame.payload, symbol);
          FrameMakes(settings, told.stale, BookOf(told, symbol), applied, delivered, symbol, frame.payload);
      }
    }
  }

  lemma NoBookMakes<S, M>(policy: Policy<S, M>)
    ensures MadeOf(policy, None, [], [])
  {
  }
}
