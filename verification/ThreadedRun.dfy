/** Runs of the threaded capture machine: one connect, one frame and an orderly close, which shows that the
    situations the theorems of ThreadedCapture speak of are reached; and one that stops where the journal thread
    has claimed a write failure and not yet published it. */
module ThreadedRun {
  import opened BookTypes
  import opened Bytes
  import opened JournalFormat
  import opened JournalHeader
  import opened SinkTrace
  import opened CaptureSessions
  import opened ThreadedCapture

  /** The run goes on by one action. */
  lemma Do(exchange: bytes, actions: seq<Action>, s: System, action: Action) returns (longer: seq<Action>, after: System)
    requires Execute(exchange, actions) == Some(s) && Enabled(s, action)
    ensures Execute(exchange, longer) == Some(after) && after == Next(s, action)
    ensures Refused(longer) == Refused(actions) + if action == Enqueue(false) then 1 else 0
    ensures longer == actions + [action]
  {
    hide Next, Enabled;
    longer, after := actions + [action], Next(s, action);
    assert longer[..|actions|] == actions;
  }

  function Open(exchange: bytes, marker: CaptureFrame): System {
    var file := File(FileHeader(0, 0, exchange, 1), [marker], [marker], [], [], true, false, false);
    System(exchange, 1, 1, true, true, [OnConnect(1, marker.payload)], Idle, [ConnectEvent(marker)], Healthy, 0, false,
           Popping, false, [file], true, [], false, [], [])
  }

  function Sent(exchange: bytes, marker: CaptureFrame, frame: CaptureFrame): System {
    var file := File(FileHeader(0, 0, exchange, 1), [marker, frame], [marker, frame], [], [], true, false, false);
    System(exchange, 1, 2, true, true, [OnConnect(1, marker.payload), OnFrame(frame)], Idle,
           [ConnectEvent(marker), FrameEvent(frame)], Healthy, 0, false, Popping, false, [file], true, [frame], false, [],
           [frame])
  }

  function Written(exchange: bytes, marker: CaptureFrame, frame: CaptureFrame): System {
    var file := File(FileHeader(0, 0, exchange, 1), [marker, frame], [marker, frame], [marker, frame], [], true, false, false);
    Sent(exchange, marker, frame).(ring := [], connectQueued := false, waiting := [], hasWriter := true, files := [file])
  }

  function Closed(exchange: bytes, marker: CaptureFrame, frame: CaptureFrame): System {
    var file := File(FileHeader(0, 0, exchange, 1), [marker, frame], [marker, frame], [marker, frame], [], true, true, false);
    Written(exchange, marker, frame).(
      announced := false, journalOpen := false, hasWriter := false, signalled := true, files := [file],
      trace := [OnConnect(1, marker.payload), OnFrame(frame), OnDisconnect(1)],
      logs := [ConnectLog(FileHeader(0, 0, exchange, 1), marker, [frame])])
  }

  lemma Starts(exchange: bytes)
    ensures Execute(exchange, []) == Some(Initial(exchange))
  {
  }

  lemma Connects(exchange: bytes, reason: bytes) returns (longer: seq<Action>)
    ensures Execute(exchange, longer) == Some(Open(exchange, CaptureFrame(reason, 1, 0, KrakenJson)))
  {
    hide Execute, Refused;
    Starts(exchange);
    var s := Initial(exchange);
    longer := [];
    longer, s := Do(exchange, longer, s, BeginConnect(reason));
    longer, s := Do(exchange, longer, s, QueueDisconnect);
    longer, s := Do(exchange, longer, s, TellDisconnect);
    longer, s := Do(exchange, longer, s, NextConnect);
    longer, s := Do(exchange, longer, s, OpenFile(true, 0, 0, 0, KrakenJson));
    longer, s := Do(exchange, longer, s, Announce);
    assert s == Open(exchange, CaptureFrame(reason, 1, 0, KrakenJson));
  }

  lemma Sends(exchange: bytes, actions: seq<Action>, marker: CaptureFrame, frame: CaptureFrame) returns (longer: seq<Action>)
    requires frame.sequence == 2 && Execute(exchange, actions) == Some(Open(exchange, marker))
    ensures Execute(exchange, longer) == Some(Sent(exchange, marker, frame))
  {
    hide Execute, Refused;
    var s := Open(exchange, marker);
    longer := actions;
    longer, s := Do(exchange, longer, s, Action.WireMessage(frame.payload, frame.monotonicNs, frame.source));
    longer, s := Do(exchange, longer, s, ReadFailed);
    longer, s := Do(exchange, longer, s, Enqueue(true));
    longer, s := Do(exchange, longer, s, TellFrame);
    var file := Sent(exchange, marker, frame).files[0];
    assert s.files[0].stamped == [marker, frame] && s.files[0].accepted == [marker, frame];
    assert s.files[0] == file && s.files == [file];
    assert s == Sent(exchange, marker, frame);
  }

  lemma Writes(exchange: bytes, actions: seq<Action>, marker: CaptureFrame, frame: CaptureFrame) returns (longer: seq<Action>)
    requires Fits(marker) && Fits(frame) && Execute(exchange, actions) == Some(Sent(exchange, marker, frame))
    ensures Execute(exchange, longer) == Some(Written(exchange, marker, frame))
  {
    hide Execute, Refused;
    var s := Sent(exchange, marker, frame);
    longer := actions;
    longer, s := Do(exchange, longer, s, Pop);
    longer, s := Do(exchange, longer, s, Write(true));
    longer, s := Do(exchange, longer, s, CheckWriter);
    longer, s := Do(exchange, longer, s, Pop);
    longer, s := Do(exchange, longer, s, Write(true));
    longer, s := Do(exchange, longer, s, CheckWriter);
    var file := Written(exchange, marker, frame).files[0];
    assert s.files[0].records == [marker, frame];
    assert s.files[0] == file && s.files == [file];
    assert s == Written(exchange, marker, frame);
  }

  lemma Closes(exchange: bytes, actions: seq<Action>, marker: CaptureFrame, frame: CaptureFrame) returns (longer: seq<Action>)
    requires Execute(exchange, actions) == Some(Written(exchange, marker, frame))
    ensures Execute(exchange, longer) == Some(Closed(exchange, marker, frame))
  {
    hide Execute, Refused;
    var s := Written(exchange, marker, frame);
    longer := actions;
    longer, s := Do(exchange, longer, s, Close);
    longer, s := Do(exchange, longer, s, QueueDisconnect);
    longer, s := Do(exchange, longer, s, Pop);
    longer, s := Do(exchange, longer, s, Flush(true));
    longer, s := Do(exchange, longer, s, CheckWriter);
    longer, s := Do(exchange, longer, s, CloseFile);
    longer, s := Do(exchange, longer, s, Complete);
    longer, s := Do(exchange, longer, s, AwaitSignal);
    longer, s := Do(exchange, longer, s, TellDisconnect);
    assert s == Closed(exchange, marker, frame);
  }

  /** For every reason and payload that fit there is a run that ends closed and unfailed with both in the
      one file, so the theorems about such runs are about something. */
  lemma SomeRunIsClosedAndUnfailed(exchange: bytes, reason: bytes, payload: bytes) returns (actions: seq<Action>)
    requires |reason| <= MAX_PAYLOAD_BYTES && |payload| <= MAX_PAYLOAD_BYTES
    ensures Execute(exchange, actions).Some?
    ensures var s := Execute(exchange, actions).value;
            && s.producer.Idle? && !s.journalOpen && !s.latch.Failed? && FromSource(s.files, KrakenJson)
            && |s.files| == 1 && |s.files[0].records| == 2
            && s.files[0].records[0].payload == reason && s.files[0].records[1].payload == payload
  {
    hide Execute, Refused;
    var marker, frame := CaptureFrame(reason, 1, 0, KrakenJson), CaptureFrame(payload, 2, 0, KrakenJson);
    actions := Connects(exchange, reason);
    actions := Sends(exchange, actions, marker, frame);
    actions := Writes(exchange, actions, marker, frame);
    actions := Closes(exchange, actions, marker, frame);
  }

  function FailureClaimed(exchange: bytes): System {
    var marker := CaptureFrame([], 1, 0, KrakenJson);
    var file := File(FileHeader(0, 0, exchange, 1), [marker], [marker], [], [marker], false, false, false);
    Open(exchange, marker).(ring := [], connectQueued := false, hasWriter := true, latch := Claimed,
                            consumer := Latching(false), files := [file])
  }

  lemma ClaimsAFailure(exchange: bytes) returns (longer: seq<Action>)
    ensures Execute(exchange, longer) == Some(FailureClaimed(exchange))
  {
    hide Execute, Refused;
    longer := Connects(exchange, []);
    var s := Open(exchange, CaptureFrame([], 1, 0, KrakenJson));
    longer, s := Do(exchange, longer, s, Pop);
    longer, s := Do(exchange, longer, s, Write(false));
    longer, s := Do(exchange, longer, s, CheckWriter);
    longer, s := Do(exchange, longer, s, ClaimWriteFailure);
    assert s.files[0] == FailureClaimed(exchange).files[0] && s.files == [s.files[0]];
    assert s == FailureClaimed(exchange);
  }
}
