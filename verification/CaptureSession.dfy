/** CaptureSession in inline mode (src/feed_handler/capture_session.cpp): the connection thread writes
    the journal itself. What the file system and the clocks do are parameters. */
module CaptureSessions {
  import opened BookTypes
  import opened Bytes
  import opened JournalFormat
  import opened JournalHeader
  import opened JournalWriters
  import opened SinkTrace

  // --------------------------------------------------------------------- what a session leaves behind

  /** One connect that went well: its file header, its marker and its frames. */
  datatype ConnectLog = ConnectLog(header: FileHeader, marker: CaptureFrame, frames: seq<CaptureFrame>)

  function WireRecords(frames: seq<CaptureFrame>): seq<Record> {
    if frames == [] then [] else WireRecords(frames[..|frames| - 1]) + [RecordOf(WireMessage, frames[|frames| - 1])]
  }

  function RecordsOf(log: ConnectLog): seq<Record> {
    [RecordOf(Connect, log.marker)] + WireRecords(log.frames)
  }

  /** Every record of the connect fits the format and the file carries the session's tag. */
  predicate GoodLog(log: ConnectLog, tag: bytes) {
    log.header.exchange == tag && forall r :: r in RecordsOf(log) ==> Writable(r)
  }

  function FileOf(log: ConnectLog): bytes {
    EncodeHeader(log.header) + EncodeRecords(RecordsOf(log))
  }

  function FilesOf(logs: seq<ConnectLog>): seq<bytes> {
    if logs == [] then [] else FilesOf(logs[..|logs| - 1]) + [FileOf(logs[|logs| - 1])]
  }

  function FrameEvents(frames: seq<CaptureFrame>): seq<SinkEvent> {
    if frames == [] then [] else FrameEvents(frames[..|frames| - 1]) + [OnFrame(frames[|frames| - 1])]
  }

  /** What the sinks were told about a connect that is still open. */
  function OpenTrace(log: ConnectLog): seq<SinkEvent> {
    [OnConnect(log.header.connectId, log.marker.payload)] + FrameEvents(log.frames)
  }

  function TraceOf(logs: seq<ConnectLog>): seq<SinkEvent> {
    if logs == [] then []
    else TraceOf(logs[..|logs| - 1]) + OpenTrace(logs[|logs| - 1]) + [OnDisconnect(logs[|logs| - 1].header.connectId)]
  }

  // -------------------------------------------------------------------------------- the source's form

  class CaptureSession {
    const exchange: bytes
    var connectId: uint64
    var writer: JournalWriter?
    /** The stamper's last sequence number. */
    var sequence: uint64
    var announced: bool
    var closedRecords: nat
    /** The files closed so far, in the order they were opened. */
    var files: seq<bytes>
    /** What every registered sink has been told. */
    ghost var trace: seq<SinkEvent>
    /** True until a file could not be opened or written completely. */
    ghost var intact: bool
    ghost var closed: seq<ConnectLog>
    ghost var current: ConnectLog

    /** The journal of an unbroken session says what the sinks were told. */
    ghost predicate Agrees()
      reads this, writer
    {
      && files == FilesOf(closed)
      && (forall log :: log in closed ==> GoodLog(log, exchange))
      && (writer == null ==> trace == TraceOf(closed))
      && (writer != null ==>
            && announced && writer.error.None? && writer.header == current.header
            && current.header.connectId == connectId && current.header.exchange == exchange
            && writer.records == RecordsOf(current)
            && trace == TraceOf(closed) + OpenTrace(current))
    }

    ghost predicate Valid()
      reads this, writer
    {
      && (writer != null ==> writer.Valid() && writer.lastSequence <= sequence)
      && (announced ==> writer != null)
      && (Track(trace) == Misordered
          || (if announced then Track(trace) == Inside(connectId, sequence)
              else Track(trace).Between? && Track(trace).lastId <= connectId))
      && (intact ==> Agrees())
    }

    constructor (tag: bytes)
      ensures Valid() && exchange == tag && intact && trace == [] && writer == null && connectId == 0
    {
      exchange, connectId, writer, sequence := tag, 0, null, 0;
      announced, closedRecords, files := false, 0, [];
      trace, intact, closed := [], true, [];
    }

    method Stamp(payload: bytes, source: FrameSource, nowNs: uint64) returns (frame: CaptureFrame)
      requires sequence + 1 < 0x1_0000_0000_0000_0000
      modifies this`sequence
      ensures sequence == old(sequence) + 1
      ensures frame == CaptureFrame(payload, sequence, nowNs, source)
    {
      sequence := sequence + 1;
      frame := CaptureFrame(payload, sequence, nowNs, source);
    }

    /** Ends the connect: the file is closed first, then the sinks are told, once. */
    method Close(flush: StreamOutcome)
      requires Valid()
      modifies this, writer
      ensures Valid() && writer == null && !announced
      ensures connectId == old(connectId) && sequence == old(sequence)
      ensures trace == old(trace) + (if old(announced) then [OnDisconnect(connectId)] else [])
      ensures intact == (old(intact) && (flush.Taken? || old(writer) == null))
      ensures intact && old(writer) != null ==> closed == old(closed) + [old(current)]
      ensures old(writer) == null ==> closed == old(closed)
    {
      hide JournalWriter.Valid, Track, TraceOf, OpenTrace, RecordsOf, FilesOf, EncodeHeader, EncodeRecords;
      TrackAppend(trace, OnDisconnect(connectId));
      assert trace + [] == trace;
      if writer != null {
        if intact {
          ClosedLog(closed, current);
          writer.RecordsAreWritable();
          writer.UnfailedIsNotBad();
        }
        closedRecords := closedRecords + writer.recordsWritten;
        writer.Flush(flush);
        files := files + [writer.disk];
        closed := closed + [current];
        intact := intact && flush.Taken?;
        writer := null;
      }
      if announced {
        announced := false;
        trace := trace + [OnDisconnect(connectId)];
      }
    }

    /** Opens the next connect. The sinks hear of it only when its marker is in the file. */
    method BeginConnect(reason: bytes, source: FrameSource, realtimeNs: uint64, monotonicNs: uint64,
                        stampNs: uint64, flush: StreamOutcome, opens: bool, outcome: StreamOutcome)
      returns (ok: bool)
      requires Valid() && connectId + 1 < 0x1_0000_0000_0000_0000
      modifies this, writer
      ensures Valid() && connectId == old(connectId) + 1
      ensures ok == announced
      ensures ok <==> opens && |reason| <= MAX_PAYLOAD_BYTES && outcome.Taken?
      ensures trace == old(trace) + (if old(announced) then [OnDisconnect(old(connectId))] else [])
                       + (if ok then [OnConnect(connectId, reason)] else [])
      ensures (writer == null <==> !opens) && (writer != null ==> fresh(writer))
      ensures sequence == if opens then 1 else 0
      ensures intact == (old(intact) && (flush.Taken? || old(writer) == null) && (opens ==> ok))
    {
      hide JournalWriter.Valid, Track, TraceOf, OpenTrace, RecordsOf, FilesOf, EncodeHeader, EncodeRecords;
      Close(flush);
      connectId := connectId + 1;
      sequence := 0;
      assert trace + [] == trace;
      if !opens {
        return false;
      }
      ok := StartFile(reason, source, FileHeader(realtimeNs, monotonicNs, exchange, connectId), stampNs, outcome);
    }

    /** The part of BeginConnect that runs once the file is open: the marker, then the announcement. */
    method StartFile(reason: bytes, source: FrameSource, header: FileHeader, stampNs: uint64, outcome: StreamOutcome)
      returns (ok: bool)
      requires Valid() && writer == null && sequence == 0
      requires header.connectId == connectId && header.exchange == exchange
      requires Track(trace).Between? ==> Track(trace).lastId < connectId
      modifies this
      ensures Valid() && connectId == old(connectId) && writer != null && fresh(writer)
      ensures ok == announced && (ok <==> |reason| <= MAX_PAYLOAD_BYTES && outcome.Taken?)
      ensures trace == old(trace) + (if ok then [OnConnect(connectId, reason)] else [])
      ensures sequence == 1
      ensures intact == (old(intact) && ok)
    {
      hide JournalWriter.Valid, Track, TraceOf, OpenTrace, RecordsOf, FilesOf, EncodeHeader, EncodeRecords;
      writer := new JournalWriter(header);
      var marker := Stamp(reason, source, stampNs);
      writer.WriteRecord(Connect, marker, outcome);
      if writer.error.Some? {
        intact := false;
        assert trace + [] == trace;
        return false;
      }
      TrackAppend(trace, OnConnect(connectId, reason));
      current := ConnectLog(header, marker, []);
      FirstLog(current);
      announced := true;
      trace := trace + [OnConnect(connectId, reason)];
      ok := true;
    }

    /** Journals one wire message and hands it to the sinks, whether or not the journal took it. */
    method OnWireMessage(payload: bytes, source: FrameSource, nowNs: uint64, outcome: StreamOutcome)
      returns (journaled: bool)
      requires Valid() && sequence + 1 < 0x1_0000_0000_0000_0000
      modifies this, writer
      ensures Valid() && connectId == old(connectId) && announced == old(announced) && writer == old(writer)
      ensures old(writer) == null ==> !journaled && trace == old(trace) && intact == old(intact)
      ensures old(writer) != null ==>
                && trace == old(trace) + [OnFrame(CaptureFrame(payload, sequence, nowNs, source))]
                && sequence == old(sequence) + 1
                && (journaled <==> old(writer.error).None? && |payload| <= MAX_PAYLOAD_BYTES && outcome.Taken?)
                && intact == (old(intact) && journaled)
      // The order a sink relies on survives the call exactly when the session is not holding a file
      // whose connect was never announced.
      ensures old(Track(trace)) != Misordered ==>
                (Track(trace) != Misordered <==> old(announced) || old(writer) == null)
    {
      hide JournalWriter.Valid, Track, TraceOf, OpenTrace, RecordsOf, FilesOf, EncodeHeader, EncodeRecords;
      if writer == null {
        return false;
      }
      var frame := Stamp(payload, source, nowNs);
      writer.WriteRecord(WireMessage, frame, outcome);
      journaled := writer.error.None?;
      TrackAppend(trace, OnFrame(frame));
      if intact {
        GrownLog(current, frame);
      }
      current := current.(frames := current.frames + [frame]);
      trace := trace + [OnFrame(frame)];
      intact := intact && journaled;
    }
  }

  /** Inline, the sinks' order can break: a marker that cannot be written leaves a file whose connect was
      not announced, and the next wire message reaches the sinks all the same. */
  method MarkerFailureMisorders(tag: bytes, reason: bytes, payload: bytes, source: FrameSource, keeps: nat, outcome: StreamOutcome)
    returns (session: CaptureSession)
    ensures session.Valid() && !session.announced && Track(session.trace) == Misordered
  {
    hide CaptureSession.Valid;
    session := new CaptureSession(tag);
    var ok := session.BeginConnect(reason, source, 0, 0, 0, Taken(0), true, FailsAfter(keeps));
    assert session.trace == [];
    var _ := session.OnWireMessage(payload, source, 0, outcome);
  }

  lemma FirstLog(log: ConnectLog)
    requires log.frames == []
    ensures RecordsOf(log) == [] + [RecordOf(Connect, log.marker)]
    ensures OpenTrace(log) == [OnConnect(log.header.connectId, log.marker.payload)]
  {
  }

  lemma GrownLog(log: ConnectLog, frame: CaptureFrame)
    ensures var grown := log.(frames := log.frames + [frame]);
            && RecordsOf(grown) == RecordsOf(log) + [RecordOf(WireMessage, frame)]
            && OpenTrace(grown) == OpenTrace(log) + [OnFrame(frame)]
  {
    var grown := log.(frames := log.frames + [frame]);
    assert grown.frames[..|log.frames|] == log.frames;
  }

  lemma ClosedLog(closed: seq<ConnectLog>, current: ConnectLog)
    ensures FilesOf(closed + [current]) == FilesOf(closed) + [FileOf(current)]
    ensures TraceOf(closed + [current]) ==
            TraceOf(closed) + OpenTrace(current) + [OnDisconnect(current.header.connectId)]
  {
    assert (closed + [current])[..|closed|] == closed;
  }
}
