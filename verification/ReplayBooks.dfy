/** What replay is for: the books and the counters of a replayed journal are those of the live run
    (src/book_adapter/journal_replay.cpp behind src/feed_handler/capture_session.cpp). */
module ReplayBooks {
  import opened BookTypes
  import opened Bytes
  import opened JournalHeader
  import opened SinkTrace
  import opened CaptureSessions
  import opened JournalReplays
  import opened BookAdapters
  import LossyStream
  import Live = LiveBookPath
  import Threaded = ThreadedCapture

  ghost predicate FramesFrom(logs: seq<ConnectLog>, source: FrameSource) {
    forall k, i :: 0 <= k < |logs| && 0 <= i < |logs[k].frames| ==> logs[k].frames[i].source == source
  }

  /** Inline mode: the files of an intact, closed session replay to what its sinks were told. */
  lemma InlineReplayReproducesLive(session: CaptureSession, source: FrameSource)
    requires session.Valid() && session.intact && session.writer == null && session.closed != []
    requires SourceForExchange(session.exchange) == Some(source) && FramesFrom(session.closed, source)
    ensures ReplayAll(session.files) == Running(session.exchange, None, session.trace)
  {
    hide ReplayAll, FilesOf, TraceOf, GoodLog, SourceForExchange, Track;
    forall log | log in session.closed ensures Replayable(log, session.exchange) {
      var k :| 0 <= k < |session.closed| && session.closed[k] == log;
      assert forall f :: f in log.frames ==> f.source == source;
    }
    ReplayReproducesLive(session.closed, session.exchange);
  }

  /** Inline mode: an adapter fed by the replay ends with the books and the counters of one fed live. */
  lemma InlineBooksAreReproduced<S(!new), M(!new)>(settings: Settings<S, M>, session: CaptureSession, source: FrameSource)
    requires session.Valid() && session.intact && session.writer == null && session.closed != []
    requires SourceForExchange(session.exchange) == Some(source) && FramesFrom(session.closed, source)
    ensures ReplayAll(session.files).Running?
    ensures RunInline(settings, ReplayAll(session.files).calls) == RunInline(settings, session.trace)
  {
    InlineReplayReproducesLive(session, source);
  }

  /** Threaded mode, for every interleaving: the same, once the session is closed and the journal unfailed. */
  lemma ThreadedBooksAreReproduced<S(!new), M(!new)>(settings: Settings<S, M>, exchange: bytes, actions: seq<Threaded.Action>,
                                                     source: FrameSource)
    requires Threaded.Execute(exchange, actions).Some? && SourceForExchange(exchange) == Some(source)
    requires var s := Threaded.Execute(exchange, actions).value;
             && s.producer.Idle? && !s.journalOpen && !s.latch.Failed? && s.files != []
             && Threaded.FromSource(s.files, source)
    ensures var s := Threaded.Execute(exchange, actions).value;
            && ReplayAll(Threaded.Disk(s.files)).Running?
            && RunInline(settings, ReplayAll(Threaded.Disk(s.files)).calls) == RunInline(settings, s.trace)
  {
    hide Threaded.Execute, ReplayAll;
    Threaded.ThreadedReplayReproducesLive(exchange, actions, source);
  }

  /** The two paths meet: a live service and a threaded journal fed the same events, each in any interleaving.
      Once the service has stopped and the session is closed unfailed, every live book is exactly the book a
      replay of the files builds, or a frame was lost to the ring since its last snapshot and it reads
      Desynced. */
  lemma {:induction false} LiveBooksAreTheReplayedOnes<S(!new), M(!new)>(
    settings: Settings<S, M>, live: seq<Live.Action>, exchange: bytes, capture: seq<Threaded.Action>, source: FrameSource,
    symbol: bytes)
    requires SnapshotResets(settings.policy)
    requires Live.Execute(settings, live).Some? && Live.Execute(settings, live).value.stopped
    requires Threaded.Execute(exchange, capture).Some? && SourceForExchange(exchange) == Some(source)
    requires var s := Threaded.Execute(exchange, capture).value;
             && s.producer.Idle? && !s.journalOpen && !s.latch.Failed? && s.files != []
             && Threaded.FromSource(s.files, source)
             && LossyStream.Events(Live.Execute(settings, live).value.offers) == s.trace
    ensures var t, s := Live.Execute(settings, live).value, Threaded.Execute(exchange, capture).value;
            var replay, book := ReplayAll(Threaded.Disk(s.files)), BookOf(t.conn, symbol);
            && replay.Running?
            && (book.Some? ==>
                  if LossyStream.Lost(settings, t.offers, symbol) then ReadinessOf(settings.policy, book.value) == Desynced
                  else BookOf(RunInline(settings, replay.calls), symbol) == book)
  {
    hide Threaded.Execute, Live.Execute, ReplayAll, LossyStream.Lost, LossyStream.Events, SnapshotResets;
    Threaded.ThreadedReplayReproducesLive(exchange, capture, source);
    Live.StoppedBooksAreTrueOrDesynced(settings, live, symbol);
  }
}
