/** JournalReplay::Run (src/book_adapter/journal_replay.cpp): the calls a replay makes on its adapter,
    and that they are the ones the live sinks got. */
module JournalReplays {
  import opened BookTypes
  import opened Bytes
  import opened JournalFormat
  import opened JournalRecords
  import opened JournalHeader
  import opened JournalReaders
  import opened SinkTrace
  import opened CaptureSessions

  const KRAKEN: bytes := [107, 114, 97, 107, 101, 110]
  const DERIBIT: bytes := [100, 101, 114, 105, 98, 105, 116]

  function SourceForExchange(tag: bytes): Option<FrameSource> {
    if tag == KRAKEN then Some(KrakenJson) else if tag == DERIBIT then Some(DeribitFix) else None
  }

  datatype ReplayError = NoFiles | CannotOpen(error: OpenError) | UnknownExchange | MixedExchanges

  /** A replay on its way: the exchange of the first file, the connect the adapter has not yet been
      told the end of, and the calls made on the adapter. */
  datatype Replay = Failed(error: ReplayError) | Running(exchange: bytes, open: Option<nat>, calls: seq<SinkEvent>)

  const START := Running([], None, [])

  function EndOpen(open: Option<nat>): seq<SinkEvent> {
    if open.Some? then [OnDisconnect(open.value)] else []
  }

  function ReplayRecord(state: Replay, connectId: nat, source: FrameSource, record: Record): (after: Replay)
    requires state.Running?
    ensures after.Running? && after.exchange == state.exchange
  {
    match record.kind
    case Connect =>
      state.(calls := state.calls + EndOpen(state.open) + [OnConnect(connectId, record.payload)], open := Some(connectId))
    case WireMessage =>
      state.(calls := state.calls + [OnFrame(CaptureFrame(record.payload, record.sequence, record.monotonicNs, source))])
  }

  function ReplayRecords(state: Replay, connectId: nat, source: FrameSource, records: seq<Record>): (after: Replay)
    requires state.Running?
    ensures after.Running? && after.exchange == state.exchange
  {
    if records == [] then state
    else ReplayRecord(ReplayRecords(state, connectId, source, records[..|records| - 1]), connectId, source,
                      records[|records| - 1])
  }

  /** One file: refused as a whole when its header does not fit, else replayed up to its first bad
      record. */
  function ReplayFile(state: Replay, file: bytes): Replay {
    if state.Failed? then state
    else
      var attempt := OpenHeader(file);
      if attempt.OpenFailed? then Failed(CannotOpen(attempt.error))
      else
        var tag := attempt.header.exchange;
        var source := SourceForExchange(tag);
        if source.None? then Failed(UnknownExchange)
        else if state.exchange != [] && tag != state.exchange then Failed(MixedExchanges)
        else ReplayRecords(state.(exchange := tag), attempt.header.connectId, source.value,
                           ReadAll(file[FILE_HEADER_SIZE..]).records)
  }

  function ReplayFiles(files: seq<bytes>): Replay {
    if files == [] then START else ReplayFile(ReplayFiles(files[..|files| - 1]), files[|files| - 1])
  }

  /** The whole run: the connect left open ends with the last file. */
  function ReplayAll(files: seq<bytes>): Replay {
    if files == [] then Failed(NoFiles)
    else
      var state := ReplayFiles(files);
      if state.Failed? then state
      else state.(calls := state.calls + EndOpen(state.open), open := None)
  }

  // ---------------------------------------------------------------------------- replay and live agree

  lemma RecordsAppend(state: Replay, connectId: nat, source: FrameSource, records: seq<Record>, record: Record)
    requires state.Running?
    ensures ReplayRecords(state, connectId, source, records + [record]) ==
            ReplayRecord(ReplayRecords(state, connectId, source, records), connectId, source, record)
  {
    assert (records + [record])[..|records|] == records;
  }

  /** The state after a connect's marker and frames. */
  function AfterConnect(state: Replay, connectId: nat, marker: CaptureFrame, frames: seq<CaptureFrame>): Replay
    requires state.Running?
  {
    state.(open := Some(connectId),
           calls := state.calls + EndOpen(state.open) + ([OnConnect(connectId, marker.payload)] + FrameEvents(frames)))
  }

  lemma MarkerReplays(state: Replay, connectId: nat, source: FrameSource, marker: CaptureFrame)
    requires state.Running?
    ensures ReplayRecords(state, connectId, source, [RecordOf(Connect, marker)]) == AfterConnect(state, connectId, marker, [])
  {
    var first := RecordOf(Connect, marker);
    RecordsAppend(state, connectId, source, [], first);
    assert [] + [first] == [first];
    assert [OnConnect(connectId, marker.payload)] + FrameEvents([]) == [OnConnect(connectId, marker.payload)];
  }

  lemma FrameReplays(state: Replay, connectId: nat, source: FrameSource, marker: CaptureFrame, frames: seq<CaptureFrame>, last: CaptureFrame)
    requires state.Running? && last.source == source
    ensures ReplayRecord(AfterConnect(state, connectId, marker, frames), connectId, source, RecordOf(WireMessage, last)) ==
            AfterConnect(state, connectId, marker, frames + [last])
  {
    assert (frames + [last])[..|frames|] == frames;
    assert FrameEvents(frames + [last]) == FrameEvents(frames) + [OnFrame(last)];
  }

  lemma {:induction false} FramesReplay(state: Replay, connectId: nat, source: FrameSource, marker: CaptureFrame, frames: seq<CaptureFrame>)
    requires state.Running? && forall f :: f in frames ==> f.source == source
    ensures ReplayRecords(state, connectId, source, [RecordOf(Connect, marker)] + WireRecords(frames)) ==
            AfterConnect(state, connectId, marker, frames)
  {
    hide AfterConnect, ReplayRecords, ReplayRecord;
    var first := RecordOf(Connect, marker);
    if frames == [] {
      assert [first] + WireRecords(frames) == [first];
      MarkerReplays(state, connectId, source, marker);
    } else {
      var front, last := frames[..|frames| - 1], frames[|frames| - 1];
      FramesReplay(state, connectId, source, marker, front);
      assert [first] + WireRecords(frames) == ([first] + WireRecords(front)) + [RecordOf(WireMessage, last)];
      RecordsAppend(state, connectId, source, [first] + WireRecords(front), RecordOf(WireMessage, last));
      FrameReplays(state, connectId, source, marker, front, last);
      assert front + [last] == frames;
    }
  }

  /** A connect journaled in full, its frames stamped with the source its exchange tag stands for. */
  predicate Replayable(log: ConnectLog, tag: bytes)
    requires SourceForExchange(tag).Some?
  {
    GoodLog(log, tag) && forall f :: f in log.frames ==> f.source == SourceForExchange(tag).value
  }

  /** A file of one good connect replays as that connect, ending the one before it. */
  lemma FileReplays(state: Replay, log: ConnectLog, tag: bytes)
    requires SourceForExchange(tag).Some? && Replayable(log, tag)
    requires state.Running? && (state.exchange == [] || state.exchange == tag)
    ensures ReplayFile(state, FileOf(log)) ==
            Running(tag, Some(log.header.connectId), state.calls + EndOpen(state.open) + OpenTrace(log))
  {
    hide EncodeHeader, EncodeRecords, OpenHeader, ReadAll, ReplayRecords;
    var file := FileOf(log);
    HeaderReadsBack(log.header, EncodeRecords(RecordsOf(log)));
    TagKept(tag);
    assert file[FILE_HEADER_SIZE..] == EncodeRecords(RecordsOf(log));
    WholeFileReadsBack(RecordsOf(log));
    FramesReplay(state.(exchange := tag), log.header.connectId, SourceForExchange(tag).value, log.marker, log.frames);
  }

  lemma {:induction false} FilesReplay(logs: seq<ConnectLog>, tag: bytes)
    requires logs != [] && SourceForExchange(tag).Some?
    requires forall log :: log in logs ==> Replayable(log, tag)
    ensures ReplayFiles(FilesOf(logs)) ==
            Running(tag, Some(logs[|logs| - 1].header.connectId),
                    TraceOf(logs[..|logs| - 1]) + OpenTrace(logs[|logs| - 1]))
  {
    hide ReplayFile, FileOf, OpenTrace, Replayable, SourceForExchange;
    var front, last := logs[..|logs| - 1], logs[|logs| - 1];
    assert last in logs;
    FilesStep(FilesOf(front), FileOf(last));
    if front == [] {
      assert TraceOf(front) + OpenTrace(last) == [] + [] + OpenTrace(last);
      FileReplays(START, last, tag);
    } else {
      FilesReplay(front, tag);
      FileReplays(ReplayFiles(FilesOf(front)), last, tag);
      var id := front[|front| - 1].header.connectId;
      assert TraceOf(front) == TraceOf(front[..|front| - 1]) + OpenTrace(front[|front| - 1]) + [OnDisconnect(id)];
    }
  }

  lemma FilesStep(files: seq<bytes>, file: bytes)
    ensures ReplayFiles(files + [file]) == ReplayFile(ReplayFiles(files), file)
  {
    assert (files + [file])[..|files|] == files;
  }

  /** Replay reproduces live: over the files of a session whose every connect was journaled in full and
      closed, the adapter is called exactly as the live sinks were. */
  lemma ReplayReproducesLive(logs: seq<ConnectLog>, tag: bytes)
    requires logs != [] && SourceForExchange(tag).Some?
    requires forall log :: log in logs ==> Replayable(log, tag)
    ensures ReplayAll(FilesOf(logs)) == Running(tag, None, TraceOf(logs))
  {
    hide ReplayFiles, OpenTrace;
    FilesReplay(logs, tag);
    assert |FilesOf(logs)| > 0;
  }

  // -------------------------------------------------------------------------------- the source's form

  method ReplayOneFile(state: Replay, file: bytes) returns (after: Replay)
    requires state.Running?
    ensures after == ReplayFile(state, file)
  {
    var attempt := Open(file);
    if attempt.OpenFailed? {
      return Failed(CannotOpen(attempt.error));
    }
    var tag := attempt.header.exchange;
    var source := SourceForExchange(tag);
    if source.None? {
      return Failed(UnknownExchange);
    }
    if state.exchange != [] && tag != state.exchange {
      return Failed(MixedExchanges);
    }
    after := ReplayReader(state.(exchange := tag), file, attempt.header.connectId, source.value);
  }

  method ReplayReader(state: Replay, file: bytes, connectId: nat, source: FrameSource) returns (after: Replay)
    requires state.Running? && OpenHeader(file).Opened?
    ensures after == ReplayRecords(state, connectId, source, ReadAll(file[FILE_HEADER_SIZE..]).records)
  {
    hide ReadAll, OpenHeader, ReplayRecord;
    var reader := new JournalReader(file);
    ghost var all := ReadAll(file[FILE_HEADER_SIZE..]).records;
    ghost var done := [];
    after := state;
    var record := reader.Next();
    while record.Some?
      invariant reader.Valid() && fresh(reader) && after.Running?
      invariant after == ReplayRecords(state, connectId, source, done)
      invariant done + (if record.Some? then [record.value] else []) + reader.Remaining().records == all
      invariant record.None? ==> reader.finished
      decreases record.Some?, |reader.file| - reader.position
    {
      after := ReplayRecord(after, connectId, source, record.value);
      RecordsAppend(state, connectId, source, done, record.value);
      done := done + [record.value];
      record := reader.Next();
    }
    assert reader.Remaining().records == [];
    assert done + [] + [] == done;
  }

  method Run(files: seq<bytes>) returns (result: Replay)
    ensures result == ReplayAll(files)
  {
    hide ReplayFile;
    if files == [] {
      return Failed(NoFiles);
    }
    result := START;
    for i := 0 to |files|
      invariant result == ReplayFiles(files[..i]) && result.Running?
    {
      assert files[..i + 1][..i] == files[..i];
      result := ReplayOneFile(result, files[i]);
      if result.Failed? {
        FailureSticks(files, i + 1);
        return;
      }
    }
    assert files[..|files|] == files;
    if result.open.Some? {
      result := result.(calls := result.calls + [OnDisconnect(result.open.value)], open := None);
    } else {
      assert result.calls + [] == result.calls;
    }
  }

  lemma {:induction false} FailureSticks(files: seq<bytes>, i: nat)
    requires i <= |files| && ReplayFiles(files[..i]).Failed?
    ensures ReplayFiles(files) == ReplayFiles(files[..i])
    decreases |files| - i
  {
    if i < |files| {
      assert files[..i + 1][..i] == files[..i];
      FailureSticks(files, i + 1);
    } else {
      assert files[..i] == files;
    }
  }
}
