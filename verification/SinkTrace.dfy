/** What a sink of a capture session is told (src/feed_handler/message_sink.h), and the order it may
    rely on. */
module SinkTrace {
  import opened Bytes
  import opened JournalHeader

  datatype SinkEvent =
    | OnConnect(id: nat, reason: bytes)
    | OnFrame(frame: CaptureFrame)
    | OnDisconnect(id: nat)

  /** Where a sink stands: between connects, the last announced id known; inside a connect, with the
      last capture sequence it has passed (the marker has 1); or told something out of order. */
  datatype SinkState = Between(lastId: nat) | Inside(id: nat, sequence: nat) | Misordered

  function Advance(state: SinkState, event: SinkEvent): SinkState {
    match event
    case OnConnect(id, _) => if state.Between? && id > state.lastId then Inside(id, 1) else Misordered
    case OnFrame(frame) =>
      if state.Inside? && frame.sequence == state.sequence + 1 then Inside(state.id, frame.sequence) else Misordered
    case OnDisconnect(id) => if state.Inside? && state.id == id then Between(id) else Misordered
  }

  /** The trace is (Connect k, frames numbered 2, 3, 4, ..., Disconnect k)* with increasing k, the last
      connect possibly still open, exactly when this is not Misordered. */
  function Track(trace: seq<SinkEvent>): SinkState {
    if trace == [] then Between(0) else Advance(Track(trace[..|trace| - 1]), trace[|trace| - 1])
  }

  lemma TrackAppend(trace: seq<SinkEvent>, event: SinkEvent)
    ensures Track(trace + [event]) == Advance(Track(trace), event)
  {
    assert (trace + [event])[..|trace|] == trace;
  }

  /** One misplaced event cannot be made good by later ones. */
  lemma {:induction false} PrefixInOrder(trace: seq<SinkEvent>, n: nat)
    requires n <= |trace| && Track(trace) != Misordered
    ensures Track(trace[..n]) != Misordered
    decreases |trace|
  {
    if n < |trace| {
      PrefixInOrder(trace[..|trace| - 1], n);
      assert trace[..|trace| - 1][..n] == trace[..n];
    } else {
      assert trace[..n] == trace;
    }
  }
}
