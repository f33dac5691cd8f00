/** The two books the adapter is built with, and what the live path therefore promises of them. */
module LiveBooks {
  import opened BookTypes
  import opened Bytes
  import opened BookAdapters
  import opened LossyStream
  import opened LiveBookPath
  import opened BookHistory
  import opened BookDoubt
  import K = KrakenBooks
  import L3List
  import L3Prices
  import KrakenChecksum
  import L2 = L2Books
  import L2Values

  function KrakenPolicy(depth: nat): Policy<K.KrakenState, K.KrakenMessage> {
    Policy(K.FRESH,
           (s: K.KrakenState, m: K.KrakenMessage) => K.Step(depth, s, m),
           (s: K.KrakenState, m: K.KrakenMessage) => K.StepIssue(depth, s, m),
           (s: K.KrakenState) => s.readiness,
           (m: K.KrakenMessage) => m.isSnapshot)
  }

  function DeribitPolicy(): Policy<L2.L2State, L2.L2Message> {
    Policy(L2.FRESH,
           (s: L2.L2State, m: L2.L2Message) => L2.Step(s, m),
           (s: L2.L2State, m: L2.L2Message) => L2.StepIssue(s, m),
           (s: L2.L2State) => s.readiness,
           (m: L2.L2Message) => m.isSnapshot)
  }

  /** Both books forget their past at a snapshot, which is all the live path asks of a book. */
  lemma SnapshotsReset(depth: nat)
    ensures SnapshotResets(KrakenPolicy(depth)) && SnapshotResets(DeribitPolicy())
  {
  }

  /** The part of the stream the books stand for: what the book thread has handled, and after Stop all of it. */
  function Handled<S>(s: System<S>): seq<Offer> {
    if s.stopped then s.offers else Seen(s)
  }

  /** In every interleaving, whenever the book thread is between entries, after Stop included, every book is
      the fold of the messages applied to it, and Ready only if that is everything delivered since its
      snapshot. */
  lemma {:induction false} LiveBooksAreTheirMessages<S(!new), M(!new)>(settings: Settings<S, M>, actions: seq<Action>, symbol: bytes)
    requires Execute(settings, actions).Some? && Execute(settings, actions).value.consumer.Polling?
    ensures var s := Execute(settings, actions).value;
            MadeOf(settings.policy, BookOf(s.conn, symbol), Applied(settings, Handled(s), symbol),
                   Delivered(settings, Handled(s), symbol))
  {
    hide Execute, BehindRing, MadeOf, Applied, Delivered, OnFramesDroppedValue, Entries, Refusals;
    AlwaysInv(settings, actions);
    var s := Execute(settings, actions).value;
    var handled := Handled(s);
    assert Proper(handled);
    BooksAreTheirMessages(settings, handled, symbol);
    if s.stopped {
      StoppedAtEnd(settings, s);
      var behind := BehindRing(settings, s.offers);
      DropsPerSymbol(behind.conn, Refusals(s.offers) - behind.reported, symbol);
      DoubtMakes(settings.policy, BookOf(behind.conn, symbol), Applied(settings, handled, symbol),
                 Delivered(settings, handled, symbol), Delivered(settings, handled, symbol));
    }
  }

  /** The loss-free book at the same place of the stream, or Desynced after a loss. */
  ghost predicate TrueOrDesynced<S(!new), M(!new)>(settings: Settings<S, M>, s: System<S>, symbol: bytes) {
    var book := BookOf(s.conn, symbol);
    book.Some? ==>
      if Lost(settings, Handled(s), symbol) then ReadinessOf(settings.policy, book.value) == Desynced
      else BookOf(Inline(settings, Handled(s)), symbol) == book
  }

  lemma {:induction false} LiveOrStopped<S(!new), M(!new)>(settings: Settings<S, M>, actions: seq<Action>, symbol: bytes)
    requires SnapshotResets(settings.policy)
    requires Execute(settings, actions).Some? && Execute(settings, actions).value.consumer.Polling?
    ensures TrueOrDesynced(settings, Execute(settings, actions).value, symbol)
  {
    hide Execute, Lost, Inline, Seen, FramesOffered, SnapshotResets;
    if Execute(settings, actions).value.stopped {
      StoppedBooksAreTrueOrDesynced(settings, actions, symbol);
    } else {
      LiveBooksAreTrueOrDesynced(settings, actions, symbol);
    }
  }

  /** In every interleaving, whenever the book thread is between entries, after Stop included, the adapter
      doubts an existing book exactly when a frame was refused or unusable since its last snapshot. */
  lemma {:induction false} LiveDoubtedExactly<S(!new), M(!new)>(settings: Settings<S, M>, actions: seq<Action>, symbol: bytes)
    requires Execute(settings, actions).Some? && Execute(settings, actions).value.consumer.Polling?
    ensures var s := Execute(settings, actions).value;
            var book := BookOf(s.conn, symbol);
            book.Some? ==>
              (book.value.desynced <==> Lost(settings, Handled(s), symbol) || Spoiled(settings, Handled(s), symbol))
  {
    hide Execute, BehindRing, Lost, Spoiled, OnFramesDroppedValue, Entries, Refusals;
    AlwaysInv(settings, actions);
    var s := Execute(settings, actions).value;
    var handled := Handled(s);
    assert Proper(handled);
    if s.stopped {
      StoppedAtEnd(settings, s);
      DoubtedExactlyAtTheEnd(settings, handled, symbol);
    } else {
      assert handled == [] || handled[|handled| - 1].accepted;
      DoubtedExactly(settings, handled, symbol);
    }
  }

  lemma {:induction false} KrakenFold(depth: nat, messages: seq<K.KrakenMessage>)
    ensures Fold(KrakenPolicy(depth), messages) == K.Run(depth, messages)
  {
    if messages != [] {
      KrakenFold(depth, messages[..|messages| - 1]);
    }
  }

  lemma {:induction false} DeribitFold(messages: seq<L2.L2Message>)
    ensures Fold(DeribitPolicy(), messages) == L2.Run(messages)
  {
    if messages != [] {
      DeribitFold(messages[..|messages| - 1]);
    }
  }

  lemma LastSinceSnapshot<S, M>(policy: Policy<S, M>, messages: seq<M>)
    requires SinceSnapshot(policy, messages) != []
    ensures messages != []
    ensures var since := SinceSnapshot(policy, messages); since[|since| - 1] == messages[|messages| - 1]
  {
  }

  /** The Kraken books of the live path, in every interleaving and after Stop: each equals the loss-free book
      or reads Desynced after a loss; and one that reads Ready is the run of the messages applied to it, has
      had no frame refused and no unusable payload since its snapshot, has every bid below every ask, and has the checksum of the last message the feed delivered for its symbol. */
  lemma {:induction false} LiveKrakenReady(depth: nat, settings: Settings<K.KrakenState, K.KrakenMessage>, actions: seq<Action>, symbol: bytes)
    requires settings.policy == KrakenPolicy(depth)
    requires Execute(settings, actions).Some? && Execute(settings, actions).value.consumer.Polling?
    ensures TrueOrDesynced(settings, Execute(settings, actions).value, symbol)
    ensures var s := Execute(settings, actions).value;
            var book := BookOf(s.conn, symbol);
            var applied, delivered := Applied(settings, Handled(s), symbol), Delivered(settings, Handled(s), symbol);
            book.Some? && ReadinessOf(settings.policy, book.value) == Ready ==>
              && book.value.state == K.Run(depth, applied)
              && SinceSnapshot(settings.policy, applied) == SinceSnapshot(settings.policy, delivered) != []
              && !Lost(settings, Handled(s), symbol) && !Spoiled(settings, Handled(s), symbol)
              && L3Prices.Separated(book.value.state.orders)
              && delivered != []
              && KrakenChecksum.BookChecksum(book.value.state.orders) == delivered[|delivered| - 1].checksum
  {
    hide Execute, L3List.Crossed, L3Prices.Separated, KrakenChecksum.BookChecksum, K.Run, TrueOrDesynced, Applied, Delivered, SinceSnapshot,
         SnapshotResets, Fold, Lost, Spoiled;
    SnapshotsReset(depth);
    LiveDoubtedExactly(settings, actions, symbol);
    LiveOrStopped(settings, actions, symbol);
    LiveBooksAreTheirMessages(settings, actions, symbol);
    var s := Execute(settings, actions).value;
    var book := BookOf(s.conn, symbol);
    if book.Some? && ReadinessOf(settings.policy, book.value) == Ready {
      var applied, delivered := Applied(settings, Handled(s), symbol), Delivered(settings, Handled(s), symbol);
      KrakenFold(depth, applied);
      K.ReadyBookChecksOut(depth, applied);
      LastSinceSnapshot(settings.policy, applied);
      LastSinceSnapshot(settings.policy, delivered);
    }
  }

  /** The Deribit books of the live path likewise: true or Desynced, and Ready ones are the run of the messages
      applied to them, with nothing delivered since their snapshot left out, refused or unusable, and every bid below every ask. */
  lemma {:induction false} LiveDeribitReady(settings: Settings<L2.L2State, L2.L2Message>, actions: seq<Action>, symbol: bytes)
    requires settings.policy == DeribitPolicy()
    requires Execute(settings, actions).Some? && Execute(settings, actions).value.consumer.Polling?
    ensures TrueOrDesynced(settings, Execute(settings, actions).value, symbol)
    ensures var s := Execute(settings, actions).value;
            var book := BookOf(s.conn, symbol);
            var applied, delivered := Applied(settings, Handled(s), symbol), Delivered(settings, Handled(s), symbol);
            book.Some? && ReadinessOf(settings.policy, book.value) == Ready ==>
              && book.value.state == L2.Run(applied)
              && SinceSnapshot(settings.policy, applied) == SinceSnapshot(settings.policy, delivered) != []
              && !Lost(settings, Handled(s), symbol) && !Spoiled(settings, Handled(s), symbol)
              && L2Values.Separated(book.value.state.levels)
  {
    hide Execute, L2Values.Crossed, L2Values.Separated, L2.Run, TrueOrDesynced, Applied, Delivered, SinceSnapshot, SnapshotResets, Fold,
         Lost, Spoiled;
    SnapshotsReset(1);
    LiveDoubtedExactly(settings, actions, symbol);
    LiveOrStopped(settings, actions, symbol);
    LiveBooksAreTheirMessages(settings, actions, symbol);
    var s := Execute(settings, actions).value;
    var book := BookOf(s.conn, symbol);
    if book.Some? && ReadinessOf(settings.policy, book.value) == Ready {
      var applied := Applied(settings, Handled(s), symbol);
      DeribitFold(applied);
      L2.ReadyIsUncrossed(applied);
    }
  }
}
