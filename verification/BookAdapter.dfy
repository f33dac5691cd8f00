/** BookAdapter (src/book_adapter/book_adapter.h, book_adapter.cpp): frames, connects, disconnects and
    drop notices of a connection turned into one book per symbol. AdapterBook is a template over the
    book's policy in the source; here the policy is a value, instantiated by the Kraken and Deribit
    books at the end. The parser is a parameter. */
module BookAdapters {
  import opened BookTypes
  import opened Bytes
  import opened SinkTrace

  /** What the adapter uses of an engine over a policy: an initial state, one message applied, the issue
      that reports, and the readiness to show. */
  datatype Policy<!S, !M> = Policy(
    initial: S,
    step: (S, M) -> S,
    issue: (S, M) -> Option<IntegrityIssue>,
    readiness: S -> Readiness,
    isSnapshot: M -> bool)

  /** One symbol's book and the adapter's own doubt about it. */
  datatype AdapterBook<+S> = AdapterBook(state: S, desynced: bool)

  datatype Entry<+M> = Entry(symbol: bytes, message: M)

  /** A payload that cannot be used (for a known symbol, or for any), or its messages in wire order. */
  datatype Parsed<+M> = Unusable(symbol: Option<bytes>) | Usable(entries: seq<Entry<M>>)

  datatype Settings<!S, !M> = Settings(supported: bool, policy: Policy<S, M>, parse: bytes -> Parsed<M>)

  datatype Stats = Stats(
    frames: nat, snapshots: nat, updates: nat, updatesBeforeSnapshot: nat, updatesWhileDesynced: nat,
    framesIgnoredStale: nat, framesUnsupported: nat, parseErrors: nat, drops: nat,
    connects: nat, disconnects: nat, issues: multiset<IntegrityIssue>)

  const NO_STATS := Stats(0, 0, 0, 0, 0, 0, 0, 0, 0, 0, 0, multiset{})

  datatype Connection<+S> = Connection(connectId: nat, stale: bool, books: map<bytes, AdapterBook<S>>, stats: Stats)

  function NewConnection<S>(): Connection<S> {
    Connection(0, false, map[], NO_STATS)
  }

  // ------------------------------------------------------------------------------------- one event

  function ReadinessOf<S, M>(policy: Policy<S, M>, book: AdapterBook<S>): Readiness {
    if book.desynced then Desynced else policy.readiness(book.state)
  }

  function Doubted<S>(books: map<bytes, AdapterBook<S>>): map<bytes, AdapterBook<S>> {
    map symbol | symbol in books :: books[symbol].(desynced := true)
  }

  function OnConnectValue<S>(c: Connection<S>, connectId: nat): Connection<S> {
    Connection(connectId, false, map[], c.stats.(connects := c.stats.connects + 1))
  }

  function OnDisconnectValue<S>(c: Connection<S>): Connection<S> {
    c.(stale := true, stats := c.stats.(disconnects := c.stats.disconnects + 1))
  }

  function OnFramesDroppedValue<S>(c: Connection<S>, count: nat): Connection<S> {
    if count == 0 then c
    else c.(books := Doubted(c.books), stats := c.stats.(drops := c.stats.drops + count))
  }

  function WithIssue(stats: Stats, issue: Option<IntegrityIssue>): Stats {
    if issue.Some? then stats.(issues := stats.issues + multiset{issue.value}) else stats
  }

  function ApplyEntry<S, M>(policy: Policy<S, M>, c: Connection<S>, entry: Entry<M>): Connection<S> {
    var known := entry.symbol in c.books;
    if policy.isSnapshot(entry.message) then
      var state := if known then c.books[entry.symbol].state else policy.initial;
      c.(books := c.books[entry.symbol := AdapterBook(policy.step(state, entry.message), false)],
         stats := WithIssue(c.stats.(snapshots := c.stats.snapshots + 1), policy.issue(state, entry.message)))
    else
      var stats := c.stats.(updates := c.stats.updates + 1);
      if !known then c.(stats := stats.(updatesBeforeSnapshot := stats.updatesBeforeSnapshot + 1))
      else if ReadinessOf(policy, c.books[entry.symbol]) != Ready then
        c.(stats := stats.(updatesWhileDesynced := stats.updatesWhileDesynced + 1))
      else
        var book := c.books[entry.symbol];
        c.(books := c.books[entry.symbol := book.(state := policy.step(book.state, entry.message))],
           stats := WithIssue(stats, policy.issue(book.state, entry.message)))
  }

  function ApplyEntries<S, M>(policy: Policy<S, M>, c: Connection<S>, entries: seq<Entry<M>>): Connection<S> {
    if entries == [] then c
    else ApplyEntry(policy, ApplyEntries(policy, c, entries[..|entries| - 1]), entries[|entries| - 1])
  }

  function OnUnusable<S>(c: Connection<S>, symbol: Option<bytes>): Connection<S> {
    c.(stats := c.stats.(parseErrors := c.stats.parseErrors + 1),
       books := match symbol
                case None => Doubted(c.books)
                case Some(name) => if name in c.books then c.books[name := c.books[name].(desynced := true)] else c.books)
  }

  function OnFrameValue<S, M>(settings: Settings<S, M>, c: Connection<S>, payload: bytes): Connection<S> {
    var counted := c.(stats := c.stats.(frames := c.stats.frames + 1));
    if c.stale then
      counted.(stats := counted.stats.(framesIgnoredStale := counted.stats.framesIgnoredStale + 1))
    else if !settings.supported then
      counted.(stats := counted.stats.(framesUnsupported := counted.stats.framesUnsupported + 1))
    else
      match settings.parse(payload)
      case Unusable(symbol) => OnUnusable(counted, symbol)
      case Usable(entries) => ApplyEntries(settings.policy, counted, entries)
  }

  function OnEventValue<S, M>(settings: Settings<S, M>, c: Connection<S>, event: SinkEvent): Connection<S> {
    match event
    case OnConnect(id, _) => OnConnectValue(c, id)
    case OnDisconnect(_) => OnDisconnectValue(c)
    case OnFrame(frame) => OnFrameValue(settings, c, frame.payload)
  }

  /** The adapter run inline over a stream of events, as a replay does. */
  function RunInline<S, M>(settings: Settings<S, M>, events: seq<SinkEvent>): Connection<S> {
    if events == [] then NewConnection()
    else OnEventValue(settings, RunInline(settings, events[..|events| - 1]), events[|events| - 1])
  }

  // ------------------------------------------------------------------------------ one symbol at a time

  function BookOf<S>(c: Connection<S>, symbol: bytes): Option<AdapterBook<S>> {
    if symbol in c.books then Some(c.books[symbol]) else None
  }

  /** What one entry does to the book of `symbol`, which may not exist yet. */
  function BookAfterEntry<S, M>(policy: Policy<S, M>, book: Option<AdapterBook<S>>, symbol: bytes, entry: Entry<M>): Option<AdapterBook<S>> {
    if entry.symbol != symbol then book
    else if policy.isSnapshot(entry.message) then
      Some(AdapterBook(policy.step(if book.Some? then book.value.state else policy.initial, entry.message), false))
    else if book.None? || ReadinessOf(policy, book.value) != Ready then book
    else Some(book.value.(state := policy.step(book.value.state, entry.message)))
  }

  function BookAfterEntries<S, M>(policy: Policy<S, M>, book: Option<AdapterBook<S>>, symbol: bytes, entries: seq<Entry<M>>): Option<AdapterBook<S>> {
    if entries == [] then book
    else BookAfterEntry(policy, BookAfterEntries(policy, book, symbol, entries[..|entries| - 1]), symbol, entries[|entries| - 1])
  }

  function Doubt<S>(book: Option<AdapterBook<S>>): Option<AdapterBook<S>> {
    if book.None? then None else Some(book.value.(desynced := true))
  }

  function BookAfterFrame<S, M>(settings: Settings<S, M>, stale: bool, book: Option<AdapterBook<S>>, symbol: bytes, payload: bytes): Option<AdapterBook<S>> {
    if stale || !settings.supported then book
    else
      match settings.parse(payload)
      case Unusable(name) => if name.None? || name.value == symbol then Doubt(book) else book
      case Usable(entries) => BookAfterEntries(settings.policy, book, symbol, entries)
  }

  lemma {:induction false} EntriesPerSymbol<S, M>(policy: Policy<S, M>, c: Connection<S>, entries: seq<Entry<M>>, symbol: bytes)
    ensures BookOf(ApplyEntries(policy, c, entries), symbol) == BookAfterEntries(policy, BookOf(c, symbol), symbol, entries)
    ensures ApplyEntries(policy, c, entries).stale == c.stale
    ensures ApplyEntries(policy, c, entries).connectId == c.connectId
  {
    if entries != [] {
      EntriesPerSymbol(policy, c, entries[..|entries| - 1], symbol);
    }
  }

  /** Books of different symbols do not influence each other. */
  lemma FramePerSymbol<S, M>(settings: Settings<S, M>, c: Connection<S>, payload: bytes, symbol: bytes)
    ensures BookOf(OnFrameValue(settings, c, payload), symbol) ==
            BookAfterFrame(settings, c.stale, BookOf(c, symbol), symbol, payload)
    ensures OnFrameValue(settings, c, payload).stale == c.stale
    ensures OnFrameValue(settings, c, payload).connectId == c.connectId
  {
    var counted := c.(stats := c.stats.(frames := c.stats.frames + 1));
    if !c.stale && settings.supported {
      var parsed := settings.parse(payload);
      if parsed.Usable? {
        EntriesPerSymbol(settings.policy, counted, parsed.entries, symbol);
      }
    }
  }

  /** What a frame leaves alone, what an unusable one casts doubt on, and what its snapshots clear. */
  ghost predicate FrameHandled<S, M>(settings: Settings<S, M>, before: Connection<S>, after: Connection<S>, payload: bytes) {
    && after.stale == before.stale && after.connectId == before.connectId
    && after.stats.frames == before.stats.frames + 1
    && (before.stale || !settings.supported ==> after.books == before.books)
    && (!before.stale && settings.supported ==>
          (var parsed := settings.parse(payload);
           if parsed.Unusable? then
             && after.stats.parseErrors == before.stats.parseErrors + 1
             && after.books.Keys == before.books.Keys
             && forall symbol :: symbol in before.books ==>
                  after.books[symbol] ==
                  if parsed.symbol.None? || parsed.symbol.value == symbol then before.books[symbol].(desynced := true)
                  else before.books[symbol]
           else forall symbol :: LeftToEntries(settings.policy, BookOf(before, symbol), BookOf(after, symbol), symbol, parsed.entries)))
  }

  /** A symbol no entry names is untouched; one with a snapshot has a book the adapter does not doubt; and
      without one, no book appears and a doubted book stays as it was. */
  predicate LeftToEntries<S(==), M>(policy: Policy<S, M>, before: Option<AdapterBook<S>>, after: Option<AdapterBook<S>>, symbol: bytes,
                                    entries: seq<Entry<M>>) {
    if HasSnapshot(policy, entries, symbol) then after.Some? && !after.value.desynced
    else
      && (after.Some? <==> before.Some?)
      && ((forall i :: 0 <= i < |entries| ==> entries[i].symbol != symbol) ==> after == before)
      && (before.Some? && before.value.desynced ==> after == before)
  }

  lemma {:induction false} EntriesLeave<S, M>(policy: Policy<S, M>, book: Option<AdapterBook<S>>, symbol: bytes, entries: seq<Entry<M>>)
    ensures LeftToEntries(policy, book, BookAfterEntries(policy, book, symbol, entries), symbol, entries)
  {
    if entries != [] {
      var front, last := entries[..|entries| - 1], entries[|entries| - 1];
      assert entries == front + [last];
      HasSnapshotAppend(policy, front, last, symbol);
      EntriesLeave(policy, book, symbol, front);
    }
  }

  lemma {:induction false} EntriesCountNoFrame<S, M>(policy: Policy<S, M>, c: Connection<S>, entries: seq<Entry<M>>)
    ensures ApplyEntries(policy, c, entries).stats.frames == c.stats.frames
  {
    if entries != [] {
      EntriesCountNoFrame(policy, c, entries[..|entries| - 1]);
    }
  }

  lemma FrameIsHandled<S, M>(settings: Settings<S, M>, c: Connection<S>, payload: bytes)
    ensures FrameHandled(settings, c, OnFrameValue(settings, c, payload), payload)
  {
    var counted := c.(stats := c.stats.(frames := c.stats.frames + 1));
    if !c.stale && settings.supported && settings.parse(payload).Usable? {
      var entries := settings.parse(payload).entries;
      EntriesCountNoFrame(settings.policy, counted, entries);
      EntriesPerSymbol(settings.policy, counted, entries, []);
      var after := OnFrameValue(settings, c, payload);
      forall symbol: bytes ensures LeftToEntries(settings.policy, BookOf(c, symbol), BookOf(after, symbol), symbol, entries) {
        EntriesPerSymbol(settings.policy, counted, entries, symbol);
        EntriesLeave(settings.policy, BookOf(c, symbol), symbol, entries);
      }
    }
  }

  /** The frame carries, and the adapter applies, a snapshot for `symbol`. */
  predicate AppliesSnapshot<S, M>(settings: Settings<S, M>, stale: bool, payload: bytes, symbol: bytes) {
    !stale && settings.supported &&
    (var parsed := settings.parse(payload);
     parsed.Usable? && HasSnapshot(settings.policy, parsed.entries, symbol))
  }

  predicate HasSnapshot<S, M>(policy: Policy<S, M>, entries: seq<Entry<M>>, symbol: bytes) {
    exists i :: 0 <= i < |entries| && entries[i].symbol == symbol && policy.isSnapshot(entries[i].message)
  }

  /** A snapshot leaves the same state whatever it replaces. */
  ghost predicate SnapshotResets<S(!new), M(!new)>(policy: Policy<S, M>) {
    forall s, t, m :: policy.isSnapshot(m) ==> policy.step(s, m) == policy.step(t, m)
  }

  lemma HasSnapshotAppend<S, M>(policy: Policy<S, M>, entries: seq<Entry<M>>, entry: Entry<M>, symbol: bytes)
    ensures HasSnapshot(policy, entries + [entry], symbol) <==>
            HasSnapshot(policy, entries, symbol) || (entry.symbol == symbol && policy.isSnapshot(entry.message))
  {
    var all := entries + [entry];
    assert all[|entries|] == entry;
    if HasSnapshot(policy, entries, symbol) {
      var i :| 0 <= i < |entries| && entries[i].symbol == symbol && policy.isSnapshot(entries[i].message);
      assert all[i] == entries[i];
    }
    if HasSnapshot(policy, all, symbol) {
      var i :| 0 <= i < |all| && all[i].symbol == symbol && policy.isSnapshot(all[i].message);
      assert i < |entries| ==> entries[i] == all[i];
    }
  }

  /** Entries with a snapshot of the symbol make it forget where it came from. */
  lemma {:induction false} SnapshotForgets<S(!new), M(!new)>(policy: Policy<S, M>, a: Option<AdapterBook<S>>, b: Option<AdapterBook<S>>, symbol: bytes, entries: seq<Entry<M>>)
    requires SnapshotResets(policy) && HasSnapshot(policy, entries, symbol)
    ensures BookAfterEntries(policy, a, symbol, entries) == BookAfterEntries(policy, b, symbol, entries)
    ensures BookAfterEntries(policy, a, symbol, entries).Some?
  {
    var front, last := entries[..|entries| - 1], entries[|entries| - 1];
    assert entries == front + [last];
    HasSnapshotAppend(policy, front, last, symbol);
    if HasSnapshot(policy, front, symbol) {
      SnapshotForgets(policy, a, b, symbol, front);
    }
  }

  /** Entries without one neither create the symbol's book nor clear a doubt about it. */
  lemma {:induction false} NoSnapshotKeepsDoubt<S, M>(policy: Policy<S, M>, book: Option<AdapterBook<S>>, symbol: bytes, entries: seq<Entry<M>>)
    requires !HasSnapshot(policy, entries, symbol)
    ensures BookAfterEntries(policy, book, symbol, entries).Some? <==> book.Some?
    ensures book.Some? && book.value.desynced ==> BookAfterEntries(policy, book, symbol, entries) == book
  {
    if entries != [] {
      var front, last := entries[..|entries| - 1], entries[|entries| - 1];
      assert entries == front + [last];
      HasSnapshotAppend(policy, front, last, symbol);
      NoSnapshotKeepsDoubt(policy, book, symbol, front);
    }
  }

  // ------------------------------------------------------------------------------- the source's form

  class BookAdapter<S, M> {
    const settings: seq<Settings<S, M>>
    var connections: seq<Connection<S>>

    ghost predicate Valid()
      reads this
    {
      |connections| == |settings|
    }

    constructor (configured: seq<Settings<S, M>>)
      ensures Valid() && settings == configured
      ensures connections == seq(|configured|, _ => NewConnection())
    {
      settings := configured;
      connections := seq(|configured|, _ => NewConnection());
    }

    method OnConnect(handle: nat, connectId: nat)
      requires Valid() && handle < |settings|
      modifies this
      ensures Valid() && connections == old(connections)[handle := OnConnectValue(old(connections)[handle], connectId)]
    {
      var c := connections[handle];
      var stats := c.stats.(connects := c.stats.connects + 1);
      connections := connections[handle := c.(books := map[], connectId := connectId, stale := false, stats := stats)];
    }

    method OnDisconnect(handle: nat)
      requires Valid() && handle < |settings|
      modifies this
      ensures Valid() && connections == old(connections)[handle := OnDisconnectValue(old(connections)[handle])]
    {
      var c := connections[handle];
      connections := connections[handle := c.(stale := true, stats := c.stats.(disconnects := c.stats.disconnects + 1))];
    }

    method OnFramesDropped(handle: nat, count: nat)
      requires Valid() && handle < |settings|
      modifies this
      ensures Valid() && connections == old(connections)[handle := OnFramesDroppedValue(old(connections)[handle], count)]
    {
      if count == 0 {
        return;
      }
      var c := connections[handle];
      c := c.(stats := c.stats.(drops := c.stats.drops + count));
      connections := connections[handle := MarkAllDesynced(c)];
    }

    static function MarkAllDesynced(c: Connection<S>): Connection<S> {
      c.(books := Doubted(c.books))
    }

    method OnFrame(handle: nat, payload: bytes)
      requires Valid() && handle < |settings|
      modifies this
      ensures Valid()
      ensures connections == old(connections)[handle := OnFrameValue(settings[handle], old(connections)[handle], payload)]
      ensures FrameHandled(settings[handle], old(connections)[handle], connections[handle], payload)
    {
      var c := connections[handle];
      FrameIsHandled(settings[handle], c, payload);
      c := c.(stats := c.stats.(frames := c.stats.frames + 1));
      if c.stale {
        c := c.(stats := c.stats.(framesIgnoredStale := c.stats.framesIgnoredStale + 1));
      } else if !settings[handle].supported {
        c := c.(stats := c.stats.(framesUnsupported := c.stats.framesUnsupported + 1));
      } else {
        var parsed := settings[handle].parse(payload);
        if parsed.Unusable? {
          c := OnUnusable(c, parsed.symbol);
        } else {
          c := ApplyMessages(settings[handle].policy, c, parsed.entries);
        }
      }
      connections := connections[handle := c];
    }

    /** The message loop of one frame. */
    static method ApplyMessages(policy: Policy<S, M>, conn: Connection<S>, entries: seq<Entry<M>>) returns (c: Connection<S>)
      ensures c == ApplyEntries(policy, conn, entries)
    {
      c := conn;
      for i := 0 to |entries|
        invariant c == ApplyEntries(policy, conn, entries[..i])
      {
        assert entries[..i + 1][..i] == entries[..i];
        c := ApplyMessage(policy, c, entries[i]);
      }
      assert entries[..|entries|] == entries;
    }

    static method ApplyMessage(policy: Policy<S, M>, conn: Connection<S>, entry: Entry<M>) returns (c: Connection<S>)
      ensures c == ApplyEntry(policy, conn, entry)
    {
      c := conn;
      var symbol, message := entry.symbol, entry.message;
      if policy.isSnapshot(message) {
        c := c.(stats := c.stats.(snapshots := c.stats.snapshots + 1));
        var book := if symbol in c.books then c.books[symbol] else AdapterBook(policy.initial, false);
        c := c.(stats := WithIssue(c.stats, policy.issue(book.state, message)));
        book := AdapterBook(policy.step(book.state, message), false);
        c := c.(books := c.books[symbol := book]);
        return;
      }
      c := c.(stats := c.stats.(updates := c.stats.updates + 1));
      if symbol !in c.books {
        c := c.(stats := c.stats.(updatesBeforeSnapshot := c.stats.updatesBeforeSnapshot + 1));
      } else if ReadinessOf(policy, c.books[symbol]) != Ready {
        c := c.(stats := c.stats.(updatesWhileDesynced := c.stats.updatesWhileDesynced + 1));
      } else {
        var book := c.books[symbol];
        c := c.(stats := WithIssue(c.stats, policy.issue(book.state, message)));
        c := c.(books := c.books[symbol := book.(state := policy.step(book.state, message))]);
      }
    }

    method OnEvent(handle: nat, event: SinkEvent)
      requires Valid() && handle < |settings|
      modifies this
      ensures Valid()
      ensures connections == old(connections)[handle := OnEventValue(settings[handle], old(connections)[handle], event)]
    {
      match event {
        case OnFrame(frame) => OnFrame(handle, frame.payload);
        case OnConnect(id, _) => OnConnect(handle, id);
        case OnDisconnect(_) => OnDisconnect(handle);
      }
    }
  }
}
