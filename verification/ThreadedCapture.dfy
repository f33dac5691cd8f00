/** A capture session with its journal on a second thread (src/feed_handler/capture_session.cpp,
    journal_thread.cpp), as a machine of atomic steps. The connection thread runs BeginConnect,
    OnWireMessage and Close; the journal thread runs Run. Every interleaving is a sequence of actions, and
    the actions choose when a ring is full, when a file cannot be opened and when a write or a flush fails. */
module ThreadedCapture {
  import opened BookTypes
  import opened Bytes
  import opened JournalFormat
  import opened JournalHeader
  import opened SinkTrace
  import opened CaptureSessions
  import opened JournalReplays
  import opened JournalRecords
  import opened JournalWriters

  // ------------------------------------------------------------------------------------------ the state

  /** One journal file. The connect's stamped frames (the marker first), those the ring took, those its
      writer took, and the one whose write failed, if one did. */
  datatype File = File(
    header: FileHeader,
    stamped: seq<CaptureFrame>,
    accepted: seq<CaptureFrame>,
    records: seq<CaptureFrame>,
    attempted: seq<CaptureFrame>,
    good: bool,
    closed: bool,
    /** Some stamped frame was not queued: the ring was full or the journal had failed. */
    holed: bool)

  datatype JournalEvent = FrameEvent(frame: CaptureFrame) | ConnectEvent(marker: CaptureFrame) | DisconnectEvent

  datatype Latch = Healthy | Claimed | Failed

  /** Where the connection thread is. */
  datatype Producer =
    | Idle
    | Closing(next: Option<bytes>)      // Close() entered, from BeginConnect(reason) or by itself
    | Waiting(next: Option<bytes>)      // Disconnect queued, blocked on the close signal
    | Telling(next: Option<bytes>)      // the file is closed, sinks not told yet
    | Starting(reason: bytes)           // BeginConnect after its Close
    | Opening(reason: bytes)            // the journal had not failed
    | Announcing(reason: bytes)         // Connect queued, sinks not told yet
    | Pushing(frame: CaptureFrame)      // stamped, Failed() not read yet
    | Enqueueing(frame: CaptureFrame)   // Failed() was false
    | Failing(frame: CaptureFrame)      // the ring refused the frame
    | Publishing(frame: CaptureFrame)   // won the latch
    | Calling(frame: CaptureFrame)      // failure published, callback not called yet
    | Sinking(frame: CaptureFrame)      // sinks not given the frame yet

  /** Where the journal thread is; `closing` when it is at work on a Disconnect. */
  datatype Consumer =
    | Popping
    | Writing(record: CaptureFrame)
    | Flushing
    | Checking(closing: bool)
    | Reporting(closing: bool)          // the writer is bad
    | Latching(closing: bool)           // won the latch
    | Notifying(closing: bool)          // failure published, callback not called yet
    | ClosingFile
    | Completing

  datatype System = System(
    exchange: bytes,
    connectId: uint64,
    sequence: uint64,
    announced: bool,
    journalOpen: bool,
    trace: seq<SinkEvent>,
    producer: Producer,
    ring: seq<JournalEvent>,
    latch: Latch,
    fatalCalls: nat,
    signalled: bool,
    consumer: Consumer,
    hasWriter: bool,
    files: seq<File>,
    /** How the ring decomposes: the last file's Connect, its frames, its Disconnect. */
    connectQueued: bool,
    waiting: seq<CaptureFrame>,
    disconnectQueued: bool,
    /** How the trace decomposes: the connects whose end was told, and the frames told of the open one. */
    logs: seq<ConnectLog>,
    delivered: seq<CaptureFrame>)

  function Initial(exchange: bytes): System {
    System(exchange, 0, 0, false, false, [], Idle, [], Healthy, 0, false, Popping, false, [], false, [], false, [], [])
  }

  datatype Action =
    // connection thread
    | BeginConnect(reason: bytes)
    | Close
    | QueueDisconnect
    | AwaitSignal
    | TellDisconnect
    | NextConnect
    | OpenFile(opens: bool, realtimeNs: uint64, openNs: uint64, stampNs: uint64, source: FrameSource)
    | Announce
    | WireMessage(payload: bytes, nowNs: uint64, frameSource: FrameSource)
    | ReadFailed
    | Enqueue(room: bool)
    | ClaimOverflow
    | PublishOverflow
    | CallOverflow
    | TellFrame
    // journal thread
    | Pop
    | Write(writes: bool)
    | Flush(flushes: bool)
    | CheckWriter
    | ClaimWriteFailure
    | PublishWriteFailure
    | CallWriteFailure
    | CloseFile
    | Complete

  function Last(s: System): File
    requires s.files != []
  {
    s.files[|s.files| - 1]
  }

  function WithLast(s: System, file: File): System
    requires s.files != []
  {
    s.(files := s.files[|s.files| - 1 := file])
  }

  /** The connect the file is for, with every frame stamped for it. */
  function LogOf(file: File): ConnectLog {
    ConnectLog(file.header,
               if file.stamped == [] then CaptureFrame([], 0, 0, UnknownSource) else file.stamped[0],
               if file.stamped == [] then [] else file.stamped[1..])
  }

  /** The writer refuses a payload over the format's limit. */
  predicate Fits(frame: CaptureFrame) {
    |frame.payload| <= MAX_PAYLOAD_BYTES
  }

  function Resume(closing: bool): Consumer {
    if closing then ClosingFile else Popping
  }

  // ------------------------------------------------------------------------------------------ the steps

  /** Whether the thread the action belongs to stands where the action starts. */
  predicate Enabled(s: System, action: Action) {
    match action
    case BeginConnect(_) => s.producer.Idle?
    case Close => s.producer.Idle?
    case QueueDisconnect => s.producer.Closing?
    case AwaitSignal => s.producer.Waiting? && s.signalled
    case TellDisconnect => s.producer.Telling?
    case NextConnect => s.producer.Starting? && s.connectId + 1 < 0x1_0000_0000_0000_0000
    case OpenFile(_, _, _, _, _) => s.producer.Opening?
    case Announce => s.producer.Announcing?
    case WireMessage(_, _, _) =>
      s.producer.Idle? && s.journalOpen && s.files != [] && s.sequence + 1 < 0x1_0000_0000_0000_0000
    case ReadFailed => s.producer.Pushing? && s.files != []
    case Enqueue(_) => s.producer.Enqueueing? && s.files != []
    case ClaimOverflow => s.producer.Failing?
    case PublishOverflow => s.producer.Publishing?
    case CallOverflow => s.producer.Calling?
    case TellFrame => s.producer.Sinking?
    case Pop => s.consumer.Popping? && s.ring != []
    case Write(_) => s.consumer.Writing? && s.files != []
    case Flush(_) => s.consumer.Flushing? && s.files != []
    case CheckWriter => s.consumer.Checking? && s.files != []
    case ClaimWriteFailure => s.consumer.Reporting?
    case PublishWriteFailure => s.consumer.Latching?
    case CallWriteFailure => s.consumer.Notifying?
    case CloseFile => s.consumer.ClosingFile? && s.files != []
    case Complete => s.consumer.Completing?
  }

  /** What only opening a file may change, and that failures and holes are for good. */
  predicate Keeps(s: System, t: System) {
    && t.exchange == s.exchange && (s.latch.Failed? ==> t.latch.Failed?) && |t.files| == |s.files|
    && (s.files != [] ==> (Last(s).holed ==> Last(t).holed) && (Last(t).good ==> Last(s).good))
  }

  /** The journal thread moves only itself. */
  predicate JournalKeeps(s: System, t: System) {
    Keeps(s, t) && t.producer == s.producer
  }

  function AfterQueueDisconnect(s: System): (t: System)
    requires s.producer.Closing?
    ensures Keeps(s, t)
  {
    if !s.journalOpen then s.(producer := Telling(s.producer.next))
    else
      s.(ring := s.ring + [DisconnectEvent], disconnectQueued := true, signalled := false,
         producer := Waiting(s.producer.next))
  }

  function AfterTellDisconnect(s: System): (t: System)
    requires s.producer.Telling?
    ensures Keeps(s, t)
  {
    var told := if s.announced && s.files != [] then
                  s.(announced := false, trace := s.trace + [OnDisconnect(s.connectId)], logs := s.logs + [LogOf(Last(s))])
                else s;
    told.(producer := if s.producer.next.None? then Idle else Starting(s.producer.next.value))
  }

  function AfterNextConnect(s: System): (t: System)
    requires s.producer.Starting? && s.connectId + 1 < 0x1_0000_0000_0000_0000
    ensures Keeps(s, t)
  {
    s.(connectId := s.connectId + 1, sequence := 0,
       producer := if s.latch.Failed? then Idle else Opening(s.producer.reason))
  }

  function AfterOpenFile(s: System, realtimeNs: uint64, openNs: uint64, marker: CaptureFrame): System
    requires s.producer.Opening?
  {
    var header := FileHeader(realtimeNs, openNs, s.exchange, s.connectId);
    s.(sequence := 1, journalOpen := true, connectQueued := true,
       files := s.files + [File(header, [marker], [marker], [], [], true, false, false)],
       ring := s.ring + [ConnectEvent(marker)], producer := Announcing(s.producer.reason))
  }

  function AfterAnnounce(s: System): (t: System)
    requires s.producer.Announcing?
    ensures Keeps(s, t)
  {
    s.(announced := true, trace := s.trace + [OnConnect(s.connectId, s.producer.reason)], delivered := [],
       producer := Idle)
  }

  function AfterWireMessage(s: System, frame: CaptureFrame): (t: System)
    requires s.files != []
    ensures Keeps(s, t)
  {
    WithLast(s, Last(s).(stamped := Last(s).stamped + [frame])).(sequence := frame.sequence, producer := Pushing(frame))
  }

  function AfterReadFailed(s: System): (t: System)
    requires s.producer.Pushing? && s.files != []
    ensures Keeps(s, t)
  {
    if s.latch.Failed? then WithLast(s, Last(s).(holed := true)).(producer := Sinking(s.producer.frame))
    else s.(producer := Enqueueing(s.producer.frame))
  }

  function AfterEnqueue(s: System, room: bool): (t: System)
    requires s.producer.Enqueueing? && s.files != []
    ensures Keeps(s, t)
  {
    var frame := s.producer.frame;
    if room then
      WithLast(s, Last(s).(accepted := Last(s).accepted + [frame])).(
        ring := s.ring + [FrameEvent(frame)], waiting := s.waiting + [frame], producer := Sinking(frame))
    else WithLast(s, Last(s).(holed := true)).(producer := Failing(frame))
  }

  function AfterClaimOverflow(s: System): (t: System)
    requires s.producer.Failing?
    ensures Keeps(s, t)
  {
    if s.latch.Healthy? then s.(latch := Claimed, producer := Publishing(s.producer.frame))
    else s.(producer := Sinking(s.producer.frame))
  }

  function AfterTellFrame(s: System): (t: System)
    requires s.producer.Sinking?
    ensures Keeps(s, t)
  {
    s.(trace := s.trace + [OnFrame(s.producer.frame)], delivered := s.delivered + [s.producer.frame], producer := Idle)
  }

  function AfterPop(s: System): (t: System)
    requires s.ring != []
    ensures JournalKeeps(s, t)
  {
    var rest := s.(ring := s.ring[1..]);
    match s.ring[0]
    case FrameEvent(frame) =>
      var left := rest.(waiting := if s.waiting == [] then [] else s.waiting[1..]);
      if s.hasWriter then left.(consumer := Writing(frame)) else left
    case ConnectEvent(marker) => rest.(connectQueued := false, hasWriter := true, consumer := Writing(marker))
    case DisconnectEvent => rest.(disconnectQueued := false, consumer := if s.hasWriter then Flushing else Completing)
  }

  /** A bad writer takes nothing more; a failed write makes it bad. */
  function FileAfterWrite(file: File, record: CaptureFrame, writes: bool): File {
    if !file.good then file
    else if writes && Fits(record) then file.(records := file.records + [record])
    else file.(good := false, attempted := if Fits(record) then [record] else [])
  }

  function AfterWrite(s: System, writes: bool): (t: System)
    requires s.consumer.Writing? && s.files != []
    ensures JournalKeeps(s, t)
  {
    WithLast(s, FileAfterWrite(Last(s), s.consumer.record, writes)).(consumer := Checking(false))
  }

  function AfterFlush(s: System, flushes: bool): (t: System)
    requires s.files != []
    ensures JournalKeeps(s, t)
  {
    WithLast(s, Last(s).(good := Last(s).good && flushes)).(consumer := Checking(true))
  }

  function AfterCheckWriter(s: System): (t: System)
    requires s.consumer.Checking? && s.files != []
    ensures JournalKeeps(s, t)
  {
    s.(consumer := if Last(s).good then Resume(s.consumer.closing) else Reporting(s.consumer.closing))
  }

  function AfterClaimWriteFailure(s: System): (t: System)
    requires s.consumer.Reporting?
    ensures JournalKeeps(s, t)
  {
    if s.latch.Healthy? then s.(latch := Claimed, consumer := Latching(s.consumer.closing))
    else s.(consumer := Resume(s.consumer.closing))
  }

  function AfterCloseFile(s: System): (t: System)
    requires s.files != []
    ensures JournalKeeps(s, t)
  {
    WithLast(s, Last(s).(closed := true)).(hasWriter := false, consumer := Completing)
  }

  function Next(s: System, action: Action): System
    requires Enabled(s, action)
  {
    match action
    case BeginConnect(reason) => s.(producer := Closing(Some(reason)))
    case Close => s.(producer := Closing(None))
    case QueueDisconnect => AfterQueueDisconnect(s)
    case AwaitSignal => s.(journalOpen := false, producer := Telling(s.producer.next))
    case TellDisconnect => AfterTellDisconnect(s)
    case NextConnect => AfterNextConnect(s)
    case OpenFile(opens, realtimeNs, openNs, stampNs, source) =>
      if opens then AfterOpenFile(s, realtimeNs, openNs, CaptureFrame(s.producer.reason, 1, stampNs, source))
      else s.(producer := Idle)
    case Announce => AfterAnnounce(s)
    case WireMessage(payload, nowNs, source) => AfterWireMessage(s, CaptureFrame(payload, s.sequence + 1, nowNs, source))
    case ReadFailed => AfterReadFailed(s)
    case Enqueue(room) => AfterEnqueue(s, room)
    case ClaimOverflow => AfterClaimOverflow(s)
    case PublishOverflow => s.(latch := Latch.Failed, producer := Calling(s.producer.frame))
    case CallOverflow => s.(fatalCalls := s.fatalCalls + 1, producer := Sinking(s.producer.frame))
    case TellFrame => AfterTellFrame(s)
    case Pop => AfterPop(s)
    case Write(writes) => AfterWrite(s, writes)
    case Flush(flushes) => AfterFlush(s, flushes)
    case CheckWriter => AfterCheckWriter(s)
    case ClaimWriteFailure => AfterClaimWriteFailure(s)
    case PublishWriteFailure => s.(latch := Latch.Failed, consumer := Notifying(s.consumer.closing))
    case CallWriteFailure => s.(fatalCalls := s.fatalCalls + 1, consumer := Resume(s.consumer.closing))
    case CloseFile => AfterCloseFile(s)
    case Complete => s.(signalled := true, consumer := Popping)
  }

  predicate OfJournalThread(action: Action) {
    action.Pop? || action.Write? || action.Flush? || action.CheckWriter? || action.ClaimWriteFailure?
    || action.PublishWriteFailure? || action.CallWriteFailure? || action.CloseFile? || action.Complete?
  }

  /** The state after the actions, or None when one of them could not be taken. */
  function Execute(exchange: bytes, actions: seq<Action>): Option<System> {
    if actions == [] then Some(Initial(exchange))
    else
      var before := Execute(exchange, actions[..|actions| - 1]);
      if before.Some? && Enabled(before.value, actions[|actions| - 1]) then
        Some(Next(before.value, actions[|actions| - 1]))
      else None
  }

  // --------------------------------------------------------------------------------------- the invariant

  function QueuedFrames(frames: seq<CaptureFrame>): (events: seq<JournalEvent>)
    ensures |events| == |frames|
    ensures forall i :: 0 <= i < |frames| ==> events[i] == FrameEvent(frames[i])
  {
    seq(|frames|, i requires 0 <= i < |frames| => FrameEvent(frames[i]))
  }

  /** The frame the connection thread has stamped and not yet handed to the sinks. */
  function InHand(producer: Producer): seq<CaptureFrame> {
    match producer
    case Pushing(f) => [f]
    case Enqueueing(f) => [f]
    case Failing(f) => [f]
    case Publishing(f) => [f]
    case Calling(f) => [f]
    case Sinking(f) => [f]
    case _ => []
  }

  /** The frame that is stamped but not yet offered to the ring. */
  function Unpushed(producer: Producer): seq<CaptureFrame> {
    match producer
    case Pushing(f) => [f]
    case Enqueueing(f) => [f]
    case _ => []
  }

  predicate AtClosing(consumer: Consumer) {
    match consumer
    case Flushing => true
    case Checking(closing) => closing
    case Reporting(closing) => closing
    case Latching(closing) => closing
    case Notifying(closing) => closing
    case ClosingFile => true
    case Completing => true
    case _ => false
  }

  predicate IsPrefix(a: seq<CaptureFrame>, b: seq<CaptureFrame>) {
    |a| <= |b| && a == b[..|a|]
  }

  /** At most one failure is ever recorded, and its callback is called once. */
  ghost predicate LatchOk(s: System) {
    && (s.latch.Claimed? <==> s.producer.Publishing? || s.consumer.Latching?)
    && !(s.producer.Publishing? && s.consumer.Latching?)
    && s.fatalCalls + (if s.producer.Calling? then 1 else 0) + (if s.consumer.Notifying? then 1 else 0)
       == if s.latch.Failed? then 1 else 0
  }

  /** What is queued belongs to the one open file, and the journal thread is idle when none is open. */
  ghost predicate RingOk(s: System) {
    && (s.connectQueued ==> s.files != [] && Last(s).stamped != [])
    && s.ring == (if s.connectQueued then [ConnectEvent(Last(s).stamped[0])] else [])
                 + QueuedFrames(s.waiting) + (if s.disconnectQueued then [DisconnectEvent] else [])
    && (!s.journalOpen || (s.producer.Waiting? && s.signalled) ==>
          s.consumer.Popping? && !s.hasWriter && !s.connectQueued && s.waiting == [] && !s.disconnectQueued)
    && (s.journalOpen ==> s.files != [])
    && (s.connectQueued ==> s.consumer.Popping? && !s.hasWriter)
    && (s.disconnectQueued ==> s.producer.Waiting? && !AtClosing(s.consumer))
    && (AtClosing(s.consumer) ==> s.producer.Waiting? && !s.signalled && !s.connectQueued && s.waiting == [])
    && (s.producer.Waiting? && !s.signalled ==> s.disconnectQueued || AtClosing(s.consumer))
    && (s.journalOpen && !s.connectQueued && !s.hasWriter ==>
          s.consumer.Completing? || (s.producer.Waiting? && s.signalled))
    && (s.hasWriter ==> s.journalOpen && !s.consumer.Completing?)
    && (!s.consumer.Popping? && !s.consumer.Completing? ==> s.hasWriter)
  }

  /** Which control points need a file, and when it is the announced one. */
  ghost predicate SessionOk(s: System) {
    && (s.journalOpen ==> s.files != [] && Last(s).header.connectId == s.connectId)
    && (s.journalOpen && !s.producer.Announcing? ==> s.announced)
    && (s.announced ==> s.files != [] && Last(s).header.connectId == s.connectId && (s.journalOpen || s.producer.Telling?))
    && (s.producer.Announcing? ==> s.journalOpen && !s.announced && s.sequence == 1)
    && (s.producer.Telling? ==> !s.journalOpen)
    && (s.producer.Waiting? ==> s.journalOpen)
    && (s.producer.Starting? || s.producer.Opening? ==> !s.announced && !s.journalOpen)
    && (InHand(s.producer) != [] ==> s.journalOpen && s.announced && InHand(s.producer)[0].sequence == s.sequence)
  }

  /** The frames on their way into the last file. */
  function Inflight(s: System): seq<CaptureFrame>
    requires s.files != []
  {
    (if s.connectQueued && Last(s).stamped != [] then [Last(s).stamped[0]] else [])
    + (if s.consumer.Writing? then [s.consumer.record] else []) + s.waiting
  }

  /** The last file against its connect's frames. */
  ghost predicate LastOk(s: System)
    requires s.files != []
  {
    var file := Last(s);
    && |file.stamped| >= 1
    && IsPrefix(file.records + file.attempted, file.stamped)
    && (file.good ==> file.attempted == [] && file.accepted == file.records + Inflight(s))
    && (file.good && !file.holed ==> file.accepted + Unpushed(s.producer) == file.stamped)
    && (file.good && file.holed ==>
          && IsPrefix(file.accepted, file.stamped)
          && !s.producer.Enqueueing?
          && (s.latch.Failed? || s.producer.Failing? || s.producer.Publishing?))
    && (s.producer.Failing? || s.producer.Publishing? ==> file.holed)
    && (s.latch != Healthy ==> !file.good || file.holed)
    && (s.consumer.Reporting? || s.consumer.Latching? || s.consumer.Notifying? ==> !file.good)
    && (!file.good && (s.consumer.ClosingFile? || s.consumer.Completing? || file.closed) ==> s.latch.Failed?)
    && (s.hasWriter || s.connectQueued ==> !file.closed)
    && (s.files != [] && !(s.hasWriter || s.connectQueued) ==> file.closed)
  }

  predicate Whole(file: File) {
    file.closed && file.stamped != [] && file.records == file.stamped && file.attempted == []
  }

  predicate AllFit(records: seq<CaptureFrame>) {
    forall f :: f in records ==> Fits(f)
  }

  ghost predicate FilesOk(s: System) {
    && (s.files == [] ==> s.latch == Healthy && !s.journalOpen)
    && (s.files != [] ==> LastOk(s))
    && (forall k :: 0 <= k < |s.files| - 1 ==> Whole(s.files[k]))
    && (forall k :: 0 <= k < |s.files| ==> AllFit(s.files[k].records + s.files[k].attempted))
    && (s.producer.Opening? ==> s.latch == Healthy)
  }

  /** What the sinks have been told, against where the session stands. */
  ghost predicate TraceOk(s: System) {
    if s.announced then
      s.sequence >= |InHand(s.producer)| && Track(s.trace) == Inside(s.connectId, s.sequence - |InHand(s.producer)|)
    else
      && Track(s.trace).Between? && Track(s.trace).lastId <= s.connectId
      && (s.producer.Opening? || s.producer.Announcing? ==> Track(s.trace).lastId < s.connectId)
  }

  /** The sinks were told what the connects' frames are: every file but an open or unannounced one is one
      of the told connects, and the frames told of the open one are those stamped, less the one in hand. */
  ghost predicate StoryOk(s: System) {
    && |s.logs| == |s.files| - (if s.announced || s.producer.Announcing? then 1 else 0)
    && (forall k :: 0 <= k < |s.logs| ==> s.logs[k] == LogOf(s.files[k]))
    && (forall k :: 0 <= k < |s.files| ==> s.files[k].stamped != [] && s.files[k].header.exchange == s.exchange)
    && s.trace == TraceOf(s.logs)
                  + (if s.announced then OpenTrace(LogOf(Last(s)).(frames := s.delivered)) else [])
    && (s.announced ==> LogOf(Last(s)).frames == s.delivered + InHand(s.producer))
    && (s.producer.Announcing? ==>
          && Last(s).stamped[0].payload == s.producer.reason && |Last(s).stamped| == 1
          && Last(s).header.connectId == s.connectId)
  }

  ghost predicate Inv(s: System) {
    LatchOk(s) && RingOk(s) && SessionOk(s) && FilesOk(s) && TraceOk(s) && StoryOk(s)
  }

  // ------------------------------------------------------------------------ every step keeps the invariant

  lemma TellingAConnect(log: ConnectLog)
    ensures OpenTrace(log.(frames := [])) == [OnConnect(log.header.connectId, log.marker.payload)]
  {
  }

  lemma TellingAFrame(log: ConnectLog, frames: seq<CaptureFrame>, frame: CaptureFrame)
    ensures OpenTrace(log.(frames := frames + [frame])) == OpenTrace(log.(frames := frames)) + [OnFrame(frame)]
  {
    assert (frames + [frame])[..|frames|] == frames;
  }

  lemma TellingAnEnd(logs: seq<ConnectLog>, log: ConnectLog)
    ensures TraceOf(logs + [log]) == TraceOf(logs) + OpenTrace(log) + [OnDisconnect(log.header.connectId)]
  {
    assert (logs + [log])[..|logs|] == logs;
  }

  lemma EntersCloseKeeps(s: System, next: Option<bytes>)
    requires Inv(s) && s.producer.Idle?
    ensures Inv(s.(producer := Closing(next)))
  {
    hide TraceOf, OpenTrace, Track, Whole, AllFit, Keeps, IsPrefix, LogOf;
  }

  lemma QueueDisconnectKeepsRing(s: System)
    requires RingOk(s) && s.producer.Closing?
    ensures RingOk(AfterQueueDisconnect(s))
  {
    hide Keeps;
  }

  lemma QueueDisconnectKeepsFiles(s: System)
    requires FilesOk(s) && s.producer.Closing?
    ensures FilesOk(AfterQueueDisconnect(s))
  {
    hide Keeps, Whole, AllFit, IsPrefix;
    assert s.files != [] ==> Inflight(AfterQueueDisconnect(s)) == Inflight(s);
  }

  lemma QueueDisconnectKeeps(s: System)
    requires Inv(s) && s.producer.Closing?
    ensures Inv(AfterQueueDisconnect(s))
  {
    hide TraceOf, OpenTrace, Track, RingOk, FilesOk, LogOf, Keeps;
    QueueDisconnectKeepsRing(s);
    QueueDisconnectKeepsFiles(s);
  }

  lemma AwaitSignalKeeps(s: System)
    requires Inv(s) && s.producer.Waiting? && s.signalled
    ensures Inv(s.(journalOpen := false, producer := Telling(s.producer.next)))
  {
    hide TraceOf, OpenTrace, Track, Whole, AllFit, Keeps, IsPrefix, LogOf;
  }

  lemma TellDisconnectKeepsStory(s: System)
    requires SessionOk(s) && TraceOk(s) && StoryOk(s) && s.producer.Telling?
    ensures TraceOk(AfterTellDisconnect(s)) && StoryOk(AfterTellDisconnect(s))
  {
    hide TraceOf, OpenTrace, Track, Keeps;
    TrackAppend(s.trace, OnDisconnect(s.connectId));
    if s.announced {
      TellingAnEnd(s.logs, LogOf(Last(s)));
      assert s.delivered == LogOf(Last(s)).frames;
    }
  }

  lemma TellDisconnectKeeps(s: System)
    requires Inv(s) && s.producer.Telling?
    ensures Inv(AfterTellDisconnect(s))
  {
    hide TraceOk, StoryOk, Whole, AllFit, Keeps, LogOf, IsPrefix;
    TellDisconnectKeepsStory(s);
  }

  lemma NextConnectKeeps(s: System)
    requires Inv(s) && s.producer.Starting? && s.connectId + 1 < 0x1_0000_0000_0000_0000
    ensures Inv(AfterNextConnect(s))
  {
    hide TraceOf, OpenTrace, Track, Whole, AllFit, Keeps, IsPrefix, LogOf;
  }

  lemma OpenFailsKeeps(s: System)
    requires Inv(s) && s.producer.Opening?
    ensures Inv(s.(producer := Idle))
  {
    hide TraceOf, OpenTrace, Track, Whole, AllFit, Keeps, IsPrefix, LogOf;
  }

  /** With no file open and no failure published, everything stamped has been written. */
  lemma ClosedIsWhole(s: System)
    requires Inv(s) && !s.journalOpen && !s.latch.Failed?
    ensures forall k :: 0 <= k < |s.files| ==> Whole(s.files[k])
  {
    hide TraceOk, StoryOk, AllFit;
    if s.files != [] {
      var file := Last(s);
      assert file.closed && file.good && !file.holed;
      assert file.records + [] == file.records && file.accepted + [] == file.accepted;
    }
  }

  lemma OpenFileKeepsFiles(s: System, realtimeNs: uint64, openNs: uint64, marker: CaptureFrame)
    requires Inv(s) && s.producer.Opening? && marker.sequence == 1 && marker.payload == s.producer.reason
    ensures FilesOk(AfterOpenFile(s, realtimeNs, openNs, marker))
  {
    hide TraceOk, StoryOk, Whole, Keeps;
    ClosedIsWhole(s);
  }

  lemma OpenFileKeeps(s: System, realtimeNs: uint64, openNs: uint64, marker: CaptureFrame)
    requires Inv(s) && s.producer.Opening? && marker.sequence == 1 && marker.payload == s.producer.reason
    ensures Inv(AfterOpenFile(s, realtimeNs, openNs, marker))
  {
    hide TraceOf, OpenTrace, Track, FilesOk, LogOf;
    OpenFileKeepsFiles(s, realtimeNs, openNs, marker);
  }

  lemma AnnounceKeeps(s: System)
    requires Inv(s) && s.producer.Announcing?
    ensures Inv(AfterAnnounce(s))
  {
    hide TraceOf, OpenTrace, Track, Whole, AllFit, Keeps;
    TrackAppend(s.trace, OnConnect(s.connectId, s.producer.reason));
    TellingAConnect(LogOf(Last(s)));
  }

  lemma WireMessageKeeps(s: System, frame: CaptureFrame)
    requires Inv(s) && s.producer.Idle? && s.journalOpen && frame.sequence == s.sequence + 1
    ensures Inv(AfterWireMessage(s, frame))
  {
    hide TraceOf, OpenTrace, Track, Whole, AllFit, Keeps;
  }

  lemma NotOfferedKeeps(s: System, next: Producer)
    requires Inv(s) && s.files != [] && next.Sinking? && s.producer == Pushing(next.frame) && s.latch.Failed?
    ensures Inv(WithLast(s, Last(s).(holed := true)).(producer := next))
  {
    hide TraceOf, OpenTrace, Track, Whole, AllFit;
  }

  lemma ReadFailedKeeps(s: System)
    requires Inv(s) && s.producer.Pushing? && s.files != []
    ensures Inv(AfterReadFailed(s))
  {
    hide TraceOf, OpenTrace, Track, Whole, AllFit, IsPrefix;
    if s.latch.Failed? {
      NotOfferedKeeps(s, Sinking(s.producer.frame));
    }
  }

  function Queued(s: System): System
    requires s.producer.Enqueueing? && s.files != []
  {
    AfterEnqueue(s, true)
  }

  lemma QueuedKeepsFiles(s: System)
    requires FilesOk(s) && s.producer.Enqueueing? && s.files != []
    requires s.hasWriter || s.connectQueued
    ensures FilesOk(Queued(s))
  {
    hide Whole, AllFit;
    assert Inflight(Queued(s)) == Inflight(s) + [s.producer.frame];
    if Last(s).good {
      assert Last(s).records + Inflight(Queued(s)) == (Last(s).records + Inflight(s)) + [s.producer.frame];
    }
  }

  lemma QueuedKeepsRing(s: System)
    requires RingOk(s) && SessionOk(s) && s.producer.Enqueueing? && s.files != []
    ensures RingOk(Queued(s)) && (s.hasWriter || s.connectQueued)
  {
  }

  lemma QueuedKeeps(s: System)
    requires Inv(s) && s.producer.Enqueueing? && s.files != []
    ensures Inv(Queued(s))
  {
    hide TraceOf, OpenTrace, Track, RingOk, FilesOk, LastOk;
    QueuedKeepsRing(s);
    QueuedKeepsFiles(s);
  }

  lemma RefusedKeeps(s: System)
    requires Inv(s) && s.producer.Enqueueing? && s.files != []
    ensures Inv(AfterEnqueue(s, false))
  {
    hide TraceOf, OpenTrace, Track, Whole, AllFit;
  }

  lemma EnqueueKeeps(s: System, room: bool)
    requires Inv(s) && s.producer.Enqueueing? && s.files != []
    ensures Inv(AfterEnqueue(s, room))
  {
    hide Inv, AfterEnqueue;
    if room {
      QueuedKeeps(s);
    } else {
      RefusedKeeps(s);
    }
  }

  lemma ClaimOverflowKeeps(s: System)
    requires Inv(s) && s.producer.Failing?
    ensures Inv(AfterClaimOverflow(s))
  {
    hide TraceOf, OpenTrace, Track, Whole, AllFit, Keeps, IsPrefix, LogOf;
  }

  lemma PublishOverflowKeeps(s: System)
    requires Inv(s) && s.producer.Publishing?
    ensures Inv(s.(latch := Latch.Failed, producer := Calling(s.producer.frame)))
  {
    hide TraceOf, OpenTrace, Track, Whole, AllFit, Keeps, IsPrefix, LogOf;
  }

  lemma CallOverflowKeeps(s: System)
    requires Inv(s) && s.producer.Calling?
    ensures Inv(s.(fatalCalls := s.fatalCalls + 1, producer := Sinking(s.producer.frame)))
  {
    hide TraceOf, OpenTrace, Track, Whole, AllFit, Keeps, IsPrefix, LogOf;
  }

  lemma TellFrameKeepsStory(s: System)
    requires SessionOk(s) && TraceOk(s) && StoryOk(s) && s.producer.Sinking?
    ensures TraceOk(AfterTellFrame(s)) && StoryOk(AfterTellFrame(s))
  {
    hide TraceOf, OpenTrace, Track, Keeps;
    TrackAppend(s.trace, OnFrame(s.producer.frame));
    TellingAFrame(LogOf(Last(s)), s.delivered, s.producer.frame);
  }

  lemma TellFrameKeeps(s: System)
    requires Inv(s) && s.producer.Sinking?
    ensures Inv(AfterTellFrame(s))
  {
    hide TraceOk, StoryOk, Whole, AllFit, Keeps, LogOf, IsPrefix;
    TellFrameKeepsStory(s);
  }

  /** What the journal thread finds at the front of the ring. */
  lemma RingFront(s: System)
    requires RingOk(s) && s.ring != []
    ensures s.connectQueued ==>
              s.ring[0] == ConnectEvent(Last(s).stamped[0])
              && s.ring[1..] == QueuedFrames(s.waiting) + (if s.disconnectQueued then [DisconnectEvent] else [])
    ensures !s.connectQueued && s.waiting != [] ==>
              s.ring[0] == FrameEvent(s.waiting[0])
              && s.ring[1..] == QueuedFrames(s.waiting[1..]) + (if s.disconnectQueued then [DisconnectEvent] else [])
    ensures !s.connectQueued && s.waiting == [] ==> s.disconnectQueued && s.ring == [DisconnectEvent]
  {
  }

  function PoppedConnect(s: System): System
    requires s.ring != [] && s.files != [] && Last(s).stamped != []
  {
    s.(ring := s.ring[1..], connectQueued := false, hasWriter := true, consumer := Writing(Last(s).stamped[0]))
  }

  function PoppedFrame(s: System): System
    requires s.ring != [] && s.waiting != []
  {
    s.(ring := s.ring[1..], waiting := s.waiting[1..], consumer := Writing(s.waiting[0]))
  }

  function PoppedDisconnect(s: System): System {
    s.(ring := [], disconnectQueued := false, consumer := Flushing)
  }

  /** A Connect is popped while no file is held; a frame or a Disconnect only while one is. */
  lemma PopCases(s: System)
    requires RingOk(s) && s.consumer.Popping? && s.ring != []
    ensures s.files != [] && s.journalOpen && (s.connectQueued ==> Last(s).stamped != [])
    ensures !s.connectQueued ==> s.hasWriter
    ensures AfterPop(s) ==
            if s.connectQueued then PoppedConnect(s) else if s.waiting != [] then PoppedFrame(s) else PoppedDisconnect(s)
  {
    RingFront(s);
    assert s.ring[0].DisconnectEvent? ==> s.ring[1..] == [];
  }

  lemma PoppedConnectKeeps(s: System)
    requires Inv(s) && s.consumer.Popping? && s.ring != [] && s.connectQueued
    ensures Inv(PoppedConnect(s))
  {
    hide TraceOf, OpenTrace, Track, LogOf, Whole, AllFit, IsPrefix;
    RingFront(s);
    assert Inflight(PoppedConnect(s)) == Inflight(s);
  }

  lemma PoppedFrameKeepsRing(s: System)
    requires RingOk(s) && s.consumer.Popping? && s.ring != [] && !s.connectQueued && s.waiting != [] && s.hasWriter
    ensures RingOk(PoppedFrame(s))
  {
    RingFront(s);
  }

  lemma PoppedFrameKeepsFiles(s: System)
    requires FilesOk(s) && s.consumer.Popping? && s.ring != [] && !s.connectQueued && s.waiting != [] && s.hasWriter
    ensures FilesOk(PoppedFrame(s))
  {
    hide Whole, AllFit, IsPrefix;
    assert s.waiting == [s.waiting[0]] + s.waiting[1..];
    assert s.files != [] ==> Inflight(PoppedFrame(s)) == Inflight(s);
  }

  lemma PoppedFrameKeeps(s: System)
    requires Inv(s) && s.consumer.Popping? && s.ring != [] && !s.connectQueued && s.waiting != [] && s.hasWriter
    ensures Inv(PoppedFrame(s))
  {
    hide TraceOf, OpenTrace, Track, LogOf, RingOk, FilesOk;
    PoppedFrameKeepsRing(s);
    PoppedFrameKeepsFiles(s);
  }

  lemma PoppedDisconnectKeeps(s: System)
    requires Inv(s) && s.consumer.Popping? && s.ring != [] && !s.connectQueued && s.waiting == [] && s.hasWriter
    ensures Inv(PoppedDisconnect(s))
  {
    hide TraceOf, OpenTrace, Track, LogOf, Whole, AllFit, IsPrefix;
    RingFront(s);
    assert Inflight(PoppedDisconnect(s)) == Inflight(s);
  }

  lemma PopKeeps(s: System)
    requires Inv(s) && s.consumer.Popping? && s.ring != []
    ensures Inv(AfterPop(s))
  {
    hide LatchOk, RingOk, SessionOk, FilesOk, TraceOk, StoryOk, AfterPop;
    PopCases(s);
    if s.connectQueued {
      PoppedConnectKeeps(s);
    } else if s.waiting != [] {
      PoppedFrameKeeps(s);
    } else {
      PoppedDisconnectKeeps(s);
    }
  }

  function Written(s: System): System
    requires s.consumer.Writing? && s.files != []
  {
    WithLast(s, Last(s).(records := Last(s).records + [s.consumer.record])).(consumer := Checking(false))
  }

  lemma WrittenKeepsFiles(s: System)
    requires FilesOk(s) && s.consumer.Writing? && s.files != [] && Last(s).good && Fits(s.consumer.record)
    requires !s.connectQueued && s.hasWriter
    ensures FilesOk(Written(s))
  {
    hide AllFit, Whole, Fits;
    var file := Last(s);
    var longer := file.records + [s.consumer.record];
    assert file.records + [] == file.records && longer + [] == longer;
    WrittenFits(file.records, s.consumer.record);
    assert file.accepted == longer + s.waiting;
  }

  lemma WrittenKeeps(s: System)
    requires Inv(s) && s.consumer.Writing? && s.files != [] && Last(s).good && Fits(s.consumer.record)
    ensures Inv(Written(s))
  {
    hide TraceOf, OpenTrace, Track, FilesOk, LastOk;
    WrittenKeepsFiles(s);
  }

  lemma NotWrittenKeepsFiles(s: System)
    requires FilesOk(s) && s.consumer.Writing? && s.files != [] && !s.connectQueued && s.hasWriter
    ensures FilesOk(AfterWrite(s, false))
  {
    hide LastOk, AllFit, Whole, Keeps;
    var file, record := Last(s), s.consumer.record;
    if file.good {
      NotWrittenKeepsLast(s);
      GoodAttemptsNothing(s);
      assert file.records + [] == file.records;
      if Fits(record) {
        WrittenFits(file.records, record);
      }
    } else {
      BadKeepsLast(s);
    }
  }

  lemma GoodAttemptsNothing(s: System)
    requires s.files != [] && LastOk(s) && Last(s).good
    ensures Last(s).attempted == []
  {
  }

  lemma NotWrittenKeepsLast(s: System)
    requires s.files != [] && LastOk(s) && s.consumer.Writing? && !s.connectQueued && s.hasWriter && Last(s).good
    ensures LastOk(AfterWrite(s, false))
  {
    hide Keeps, Fits;
    var file, record := Last(s), s.consumer.record;
    assert file.accepted == (file.records + [record]) + s.waiting;
    assert file.records + [] == file.records;
  }

  lemma BadKeepsLast(s: System)
    requires s.files != [] && LastOk(s) && s.consumer.Writing? && !s.connectQueued && s.hasWriter && !Last(s).good
    ensures LastOk(AfterWrite(s, false))
  {
    hide Keeps, Fits, IsPrefix;
  }

  lemma NotWrittenKeeps(s: System)
    requires Inv(s) && s.consumer.Writing? && s.files != []
    ensures Inv(AfterWrite(s, false))
  {
    hide TraceOf, OpenTrace, Track, FilesOk, LastOk, Keeps;
    NotWrittenKeepsFiles(s);
  }

  lemma WriteKeeps(s: System, writes: bool)
    requires Inv(s) && s.consumer.Writing? && s.files != []
    ensures Inv(AfterWrite(s, writes))
  {
    hide LatchOk, RingOk, SessionOk, FilesOk, TraceOk, StoryOk, Keeps;
    if Last(s).good && writes && Fits(s.consumer.record) {
      WrittenKeeps(s);
    } else {
      NotWrittenKeeps(s);
    }
  }

  lemma WrittenFits(records: seq<CaptureFrame>, record: CaptureFrame)
    requires AllFit(records) && Fits(record)
    ensures AllFit(records + [record])
  {
  }

  lemma FlushKeeps(s: System, flushes: bool)
    requires Inv(s) && s.consumer.Flushing? && s.files != []
    ensures Inv(AfterFlush(s, flushes))
  {
    hide TraceOf, OpenTrace, Track, Whole, AllFit, Keeps;
  }

  lemma CheckWriterKeeps(s: System)
    requires Inv(s) && s.consumer.Checking? && s.files != []
    ensures Inv(AfterCheckWriter(s))
  {
    hide TraceOf, OpenTrace, Track, Whole, AllFit, Keeps, IsPrefix, LogOf;
  }

  lemma ClaimWriteFailureKeeps(s: System)
    requires Inv(s) && s.consumer.Reporting?
    ensures Inv(AfterClaimWriteFailure(s))
  {
    hide TraceOf, OpenTrace, Track, Whole, AllFit, Keeps, IsPrefix, LogOf;
  }

  lemma PublishWriteFailureKeeps(s: System)
    requires Inv(s) && s.consumer.Latching?
    ensures Inv(s.(latch := Latch.Failed, consumer := Notifying(s.consumer.closing)))
  {
    hide TraceOf, OpenTrace, Track, Whole, AllFit, Keeps, IsPrefix, LogOf;
  }

  lemma CallWriteFailureKeeps(s: System)
    requires Inv(s) && s.consumer.Notifying?
    ensures Inv(s.(fatalCalls := s.fatalCalls + 1, consumer := Resume(s.consumer.closing)))
  {
    hide TraceOf, OpenTrace, Track, Whole, AllFit, Keeps, IsPrefix, LogOf;
  }

  lemma CloseFileKeeps(s: System)
    requires Inv(s) && s.consumer.ClosingFile? && s.files != []
    ensures Inv(AfterCloseFile(s))
  {
    hide TraceOf, OpenTrace, Track, Whole, AllFit, Keeps;
  }

  lemma CompleteKeeps(s: System)
    requires Inv(s) && s.consumer.Completing?
    ensures Inv(s.(signalled := true, consumer := Popping))
  {
    hide TraceOf, OpenTrace, Track, Whole, AllFit, Keeps, IsPrefix, LogOf;
  }

  lemma ProducerStepKeeps(s: System, action: Action)
    requires Inv(s) && Enabled(s, action) && !OfJournalThread(action)
    ensures Inv(Next(s, action))
  {
    hide LatchOk, RingOk, SessionOk, FilesOk, TraceOk, StoryOk;
    match action
    case BeginConnect(reason) => EntersCloseKeeps(s, Some(reason));
    case Close => EntersCloseKeeps(s, None);
    case QueueDisconnect => QueueDisconnectKeeps(s);
    case AwaitSignal => AwaitSignalKeeps(s);
    case TellDisconnect => TellDisconnectKeeps(s);
    case NextConnect => NextConnectKeeps(s);
    case OpenFile(opens, realtimeNs, openNs, stampNs, source) =>
      OpenFailsKeeps(s);
      OpenFileKeeps(s, realtimeNs, openNs, CaptureFrame(s.producer.reason, 1, stampNs, source));
    case Announce => AnnounceKeeps(s);
    case WireMessage(payload, nowNs, source) => WireMessageKeeps(s, CaptureFrame(payload, s.sequence + 1, nowNs, source));
    case ReadFailed => ReadFailedKeeps(s);
    case Enqueue(room) => EnqueueKeeps(s, room);
    case ClaimOverflow => ClaimOverflowKeeps(s);
    case PublishOverflow => PublishOverflowKeeps(s);
    case CallOverflow => CallOverflowKeeps(s);
    case TellFrame => TellFrameKeeps(s);
  }

  lemma ConsumerStepKeeps(s: System, action: Action)
    requires Inv(s) && Enabled(s, action) && OfJournalThread(action)
    ensures Inv(Next(s, action))
  {
    hide LatchOk, RingOk, SessionOk, FilesOk, TraceOk, StoryOk;
    match action
    case Pop => PopKeeps(s);
    case Write(writes) => WriteKeeps(s, writes);
    case Flush(flushes) => FlushKeeps(s, flushes);
    case CheckWriter => CheckWriterKeeps(s);
    case ClaimWriteFailure => ClaimWriteFailureKeeps(s);
    case PublishWriteFailure => PublishWriteFailureKeeps(s);
    case CallWriteFailure => CallWriteFailureKeeps(s);
    case CloseFile => CloseFileKeeps(s);
    case Complete => CompleteKeeps(s);
  }

  // ------------------------------------------------------------------------------- what every run keeps

  lemma InitialInv(exchange: bytes)
    ensures Inv(Initial(exchange))
  {
  }

  lemma {:induction false} AlwaysInv(exchange: bytes, actions: seq<Action>)
    requires Execute(exchange, actions).Some?
    ensures Inv(Execute(exchange, actions).value)
  {
    hide Inv, Next, Enabled, Initial;
    if actions == [] {
      InitialInv(exchange);
    } else {
      AlwaysInv(exchange, actions[..|actions| - 1]);
      var s, action := Execute(exchange, actions[..|actions| - 1]).value, actions[|actions| - 1];
      if OfJournalThread(action) {
        ConsumerStepKeeps(s, action);
      } else {
        ProducerStepKeeps(s, action);
      }
    }
  }

  /** No file has a hole or a record out of place, whatever the ring, the disk and the scheduler do: a
      file's records are the first ones stamped for its connect, the marker first, and every file before
      the last holds them all. */
  lemma {:induction false} FilesArePrefixes(exchange: bytes, actions: seq<Action>, k: nat)
    requires Execute(exchange, actions).Some? && k < |Execute(exchange, actions).value.files|
    ensures var s := Execute(exchange, actions).value;
            && IsPrefix(s.files[k].records, s.files[k].stamped)
            && IsPrefix(s.files[k].records + s.files[k].attempted, s.files[k].stamped)
            && (k < |s.files| - 1 ==> Whole(s.files[k]))
  {
    hide Execute, RingOk, SessionOk, TraceOk, StoryOk, LatchOk;
    AlwaysInv(exchange, actions);
  }

  /** Once Disconnect has returned, an unfailed journal holds every frame stamped, in every file. */
  lemma {:induction false} UnfailedCloseIsComplete(exchange: bytes, actions: seq<Action>)
    requires Execute(exchange, actions).Some?
    ensures var s := Execute(exchange, actions).value;
            !s.journalOpen && !s.latch.Failed? ==> forall k :: 0 <= k < |s.files| ==> Whole(s.files[k])
  {
    hide Execute, Inv, Whole;
    AlwaysInv(exchange, actions);
    var s := Execute(exchange, actions).value;
    if !s.journalOpen && !s.latch.Failed? {
      ClosedIsWhole(s);
    }
  }

  /** The failure is recorded once: the callback runs at most once, and only for a published failure. */
  lemma {:induction false} FatalAtMostOnce(exchange: bytes, actions: seq<Action>)
    requires Execute(exchange, actions).Some?
    ensures var s := Execute(exchange, actions).value; s.fatalCalls <= 1 && (s.fatalCalls == 1 ==> s.latch.Failed?)
  {
    hide Execute, RingOk, SessionOk, FilesOk, TraceOk, StoryOk;
    AlwaysInv(exchange, actions);
  }

  /** A failure is for good, and it is the last file's: no file is opened after one. */
  lemma {:induction false} NoFileAfterAFailure(exchange: bytes, actions: seq<Action>, more: seq<Action>)
    requires Execute(exchange, actions + more).Some?
    requires Execute(exchange, actions).Some? && Execute(exchange, actions).value.latch.Failed?
    ensures Execute(exchange, actions + more).value.latch.Failed?
    ensures |Execute(exchange, actions + more).value.files| == |Execute(exchange, actions).value.files|
    decreases |more|
  {
    hide Next, Enabled, Inv;
    if more == [] {
      assert actions + more == actions;
    } else {
      var all, front := actions + more, more[..|more| - 1];
      assert all[..|all| - 1] == actions + front;
      NoFileAfterAFailure(exchange, actions, front);
      AlwaysInv(exchange, actions + front);
      FailureSticks(Execute(exchange, actions + front).value, more[|more| - 1]);
    }
  }

  lemma FailureSticks(s: System, action: Action)
    requires Inv(s) && s.latch.Failed? && Enabled(s, action)
    ensures Next(s, action).latch.Failed? && |Next(s, action).files| == |s.files|
  {
    hide Next, LatchOk, TraceOk, StoryOk, SessionOk, RingOk, LastOk;
    assert !s.producer.Opening?;
    WhatAStepKeeps(s, action);
  }

  lemma ConsumerKeeps(s: System, action: Action)
    requires Enabled(s, action) && OfJournalThread(action)
    ensures JournalKeeps(s, Next(s, action))
  {
    hide AfterPop, AfterWrite, AfterFlush, AfterCheckWriter, AfterClaimWriteFailure, AfterCloseFile;
  }

  lemma ProducerKeeps(s: System, action: Action)
    requires Enabled(s, action) && !OfJournalThread(action) && !action.OpenFile?
    ensures Keeps(s, Next(s, action))
  {
    hide AfterQueueDisconnect, AfterTellDisconnect, AfterNextConnect, AfterAnnounce, AfterWireMessage, AfterReadFailed,
         AfterEnqueue, AfterClaimOverflow, AfterTellFrame;
  }

  lemma WhatAStepKeeps(s: System, action: Action)
    requires Enabled(s, action)
    ensures Next(s, action).exchange == s.exchange
    ensures !action.OpenFile? ==> Keeps(s, Next(s, action))
  {
    if OfJournalThread(action) {
      hide Next;
      ConsumerKeeps(s, action);
    } else if !action.OpenFile? {
      hide Next;
      ProducerKeeps(s, action);
    }
  }

  /** The sinks see (Connect k, frames 2, 3, 4, ..., Disconnect k)* and hear of a Disconnect only when its
      file is closed. */
  lemma {:induction false} SinksStayInOrder(exchange: bytes, actions: seq<Action>)
    requires Execute(exchange, actions).Some?
    ensures var s := Execute(exchange, actions).value;
            && Track(s.trace) != Misordered
            && (s.producer.Telling? && s.announced ==>
                  s.files != [] && Last(s).header.connectId == s.connectId && Last(s).closed)
  {
    hide Execute, Track, StoryOk, LatchOk;
    AlwaysInv(exchange, actions);
  }

  /** How many frames the ring refused. */
  function Refused(actions: seq<Action>): nat {
    if actions == [] then 0
    else Refused(actions[..|actions| - 1]) + if actions[|actions| - 1] == Enqueue(false) then 1 else 0
  }

  lemma RefusalStep(s: System, action: Action, refused: nat)
    requires Inv(s) && Enabled(s, action)
    requires refused > 0 ==> s.files != [] && Last(s).holed
    requires refused > 1 ==> !Last(s).good
    ensures var t, after := Next(s, action), refused + if action == Enqueue(false) then 1 else 0;
            (after > 0 ==> t.files != [] && Last(t).holed) && (after > 1 ==> !Last(t).good)
  {
    hide Next, LatchOk, TraceOk, StoryOk, Whole, AllFit, IsPrefix, Inflight;
    WhatAStepKeeps(s, action);
    if action == Enqueue(false) {
      RefusalMarks(s);
    } else if action.OpenFile? {
      assert refused == 0;
    }
  }

  lemma RefusalMarks(s: System)
    requires s.producer.Enqueueing? && s.files != []
    ensures Next(s, Enqueue(false)).files != [] && Last(Next(s, Enqueue(false))).holed
    ensures Last(Next(s, Enqueue(false))).good == Last(s).good
  {
  }

  /** The ring refuses at most one frame in a run whose last file's writer is good. ThreadedRefusals says
      exactly when a second refusal can follow. */
  lemma {:induction false} SecondRefusalNeedsABadWriter(exchange: bytes, actions: seq<Action>)
    requires Execute(exchange, actions).Some?
    ensures var s := Execute(exchange, actions).value;
            && (Refused(actions) > 0 ==> s.files != [] && Last(s).holed)
            && (Refused(actions) > 1 ==> !Last(s).good)
  {
    hide Inv, Next, Enabled, Initial;
    if actions != [] {
      var front := actions[..|actions| - 1];
      SecondRefusalNeedsABadWriter(exchange, front);
      AlwaysInv(exchange, front);
      RefusalStep(Execute(exchange, front).value, actions[|actions| - 1], Refused(front));
    }
  }

  // ------------------------------------------------------------------------------- replaying the files

  function AsRecords(frames: seq<CaptureFrame>): seq<Record> {
    if frames == [] then [] else [RecordOf(Connect, frames[0])] + WireRecords(frames[1..])
  }

  /** The bytes of a file that was written and closed. */
  function FileBytes(file: File): bytes {
    EncodeHeader(file.header) + EncodeRecords(AsRecords(file.records))
  }

  function Disk(files: seq<File>): seq<bytes> {
    if files == [] then [] else Disk(files[..|files| - 1]) + [FileBytes(files[|files| - 1])]
  }

  ghost predicate FromSource(files: seq<File>, source: FrameSource) {
    forall k, i :: 0 <= k < |files| && 1 <= i < |files[k].stamped| ==> files[k].stamped[i].source == source
  }

  lemma {:induction false} DiskHoldsTheLogs(files: seq<File>, logs: seq<ConnectLog>)
    requires |logs| == |files| && forall k :: 0 <= k < |files| ==> Whole(files[k]) && logs[k] == LogOf(files[k])
    ensures Disk(files) == FilesOf(logs)
  {
    hide EncodeHeader, EncodeRecords, WireRecords;
    if files != [] {
      DiskHoldsTheLogs(files[..|files| - 1], logs[..|logs| - 1]);
      var file := files[|files| - 1];
      assert Whole(file) && logs[|logs| - 1] == LogOf(file);
      assert AsRecords(file.records) == RecordsOf(LogOf(file));
    }
  }

  lemma {:induction false} WireRecordsFit(frames: seq<CaptureFrame>)
    requires AllFit(frames)
    ensures forall r :: r in WireRecords(frames) ==> Writable(r)
  {
    if frames != [] {
      WireRecordsFit(frames[..|frames| - 1]);
      assert frames[|frames| - 1] in frames;
    }
  }

  lemma {:induction false} WireRecordsPrefix(frames: seq<CaptureFrame>, n: nat)
    requires n <= |frames|
    ensures |WireRecords(frames)| == |frames| && WireRecords(frames[..n]) == WireRecords(frames)[..n]
    decreases |frames|
  {
    if n < |frames| {
      WireRecordsPrefix(frames[..|frames| - 1], n);
      assert frames[..|frames| - 1][..n] == frames[..n];
    } else {
      assert frames[..n] == frames;
      if frames != [] {
        WireRecordsPrefix(frames[..|frames| - 1], n - 1);
      }
      assert WireRecords(frames)[..n] == WireRecords(frames);
    }
  }

  lemma AsRecordsPrefix(a: seq<CaptureFrame>, b: seq<CaptureFrame>)
    requires IsPrefix(a, b)
    ensures AsRecords(a) <= AsRecords(b)
  {
    hide WireRecords;
    if a != [] {
      WireRecordsPrefix(b[1..], |a| - 1);
      assert a[1..] == b[1..][..|a| - 1];
    }
  }

  lemma AsRecordsFit(frames: seq<CaptureFrame>)
    requires AllFit(frames)
    ensures forall r :: r in AsRecords(frames) ==> Writable(r)
  {
    hide WireRecords;
    if frames != [] {
      assert frames[0] in frames;
      WireRecordsFit(frames[1..]);
    }
  }

  /** Whatever failed and wherever: any first part of the bytes a file's stream was given, which is all a
      failure leaves of them, reads as the first of the records stamped for the connect. */
  lemma {:induction false} DiskReadsAsAPrefix(exchange: bytes, actions: seq<Action>, k: nat, n: nat, disk: bytes)
    requires Execute(exchange, actions).Some? && k < |Execute(exchange, actions).value.files|
    requires var file := Execute(exchange, actions).value.files[k];
             var given := EncodeHeader(file.header) + EncodeRecords(AsRecords(file.records + file.attempted));
             FILE_HEADER_SIZE <= n <= |given| && disk == given[..n]
    ensures var file := Execute(exchange, actions).value.files[k];
            ReadAll(disk[FILE_HEADER_SIZE..]).records <= AsRecords(file.stamped)
  {
    hide Execute, EncodeHeader, EncodeRecords, ReadAll, AsRecords, LatchOk, RingOk, SessionOk, TraceOk, StoryOk, LastOk,
         OpenHeader, WholeRecords, OnBoundary;
    AlwaysInv(exchange, actions);
    FilesArePrefixes(exchange, actions, k);
    var file := Execute(exchange, actions).value.files[k];
    var given := file.records + file.attempted;
    AsRecordsFit(given);
    PrefixReads(file.header, AsRecords(given), n, disk);
    AsRecordsPrefix(given, file.stamped);
  }

  lemma WholeIsReplayable(file: File, tag: bytes, source: FrameSource)
    requires Whole(file) && AllFit(file.records + file.attempted) && file.header.exchange == tag
    requires SourceForExchange(tag) == Some(source)
    requires forall i :: 1 <= i < |file.stamped| ==> file.stamped[i].source == source
    ensures Replayable(LogOf(file), tag)
  {
    hide SourceForExchange, WireRecords;
    var log := LogOf(file);
    assert Fits(file.stamped[0]);
    WireRecordsFit(log.frames);
    assert GoodLog(log, tag);
  }

  /** Replay reproduces live, with the journal on its own thread: when the session is closed and the
      journal has not failed, replaying its files calls the adapter exactly as the live sinks were. */
  lemma {:induction false} ThreadedReplayReproducesLive(exchange: bytes, actions: seq<Action>, source: FrameSource)
    requires Execute(exchange, actions).Some? && SourceForExchange(exchange) == Some(source)
    requires var s := Execute(exchange, actions).value;
             s.producer.Idle? && !s.journalOpen && !s.latch.Failed? && s.files != [] && FromSource(s.files, source)
    ensures var s := Execute(exchange, actions).value;
            ReplayAll(Disk(s.files)) == Running(exchange, None, s.trace)
  {
    hide Execute, ReplayAll, FilesOf, Disk, TraceOf, Whole, LatchOk, RingOk, Replayable, SourceForExchange;
    AlwaysInv(exchange, actions);
    UnfailedCloseIsComplete(exchange, actions);
    SameExchange(exchange, actions);
    var s := Execute(exchange, actions).value;
    DiskHoldsTheLogs(s.files, s.logs);
    forall log | log in s.logs ensures Replayable(log, exchange) {
      var k :| 0 <= k < |s.logs| && s.logs[k] == log;
      WholeIsReplayable(s.files[k], exchange, source);
    }
    ReplayReproducesLive(s.logs, exchange);
    assert s.trace == TraceOf(s.logs);
  }

  lemma {:induction false} SameExchange(exchange: bytes, actions: seq<Action>)
    requires Execute(exchange, actions).Some?
    ensures Execute(exchange, actions).value.exchange == exchange
  {
    hide Next, Enabled;
    if actions != [] {
      SameExchange(exchange, actions[..|actions| - 1]);
      WhatAStepKeeps(Execute(exchange, actions[..|actions| - 1]).value, actions[|actions| - 1]);
    }
  }
}
