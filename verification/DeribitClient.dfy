/** One connection of the Deribit FIX client (RunOneConnection, DrainFramedMessages and ClassifyInbound in
    src/feed_handler/deribit/deribit_fix_client.cpp). The socket is a sequence of receive results of any
    sizes; whether a send or a journal write succeeds, and when a timer is due, are parameters. */
module DeribitClients {
  import opened BookTypes
  import opened Bytes
  import opened FixFields
  import opened FixMessages
  import FixEnvelope
  import opened FixFramers
  import opened DeribitSessions

  const MAX_BODY_LENGTH: nat := 0x10_0000
  const TEST_REQ_ID := 112

  // ----------------------------------------------------------------------------------------- classifying

  datatype InboundKind =
    | LogonAck | Heartbeat | TestRequest | Logout | SessionReject | Snapshot | Incremental | RequestReject | UnknownKind

  function KindOf(msgType: bytes): InboundKind {
    if msgType == LOGON then LogonAck
    else if msgType == HEARTBEAT then Heartbeat
    else if msgType == TEST_REQUEST then TestRequest
    else if msgType == LOGOUT then Logout
    else if msgType == REJECT then SessionReject
    else if msgType == MARKET_DATA_SNAPSHOT then Snapshot
    else if msgType == MARKET_DATA_INCREMENTAL then Incremental
    else if msgType == MARKET_DATA_REQUEST_REJECT then RequestReject
    else UnknownKind
  }

  datatype InboundAction = NoAction | SendMarketDataRequest | AnswerTestRequest(testReqId: bytes) | Reconnect

  /** The sequence verdict outranks the message type. */
  function ClassifyInbound(message: ParsedMessage, check: InboundCheck): (action: InboundAction)
    ensures action.Reconnect? <==> check.SessionBroken() || message.msgType == LOGOUT
    ensures action.SendMarketDataRequest? <==> !check.SessionBroken() && message.msgType == LOGON
    ensures action.AnswerTestRequest? <==> !check.SessionBroken() && message.msgType == TEST_REQUEST
    ensures action.AnswerTestRequest? && FirstValue(message.fields, TEST_REQ_ID).Some? ==>
              action.testReqId == FirstValue(message.fields, TEST_REQ_ID).value
  {
    if check.SessionBroken() then Reconnect
    else
      match KindOf(message.msgType)
      case LogonAck => SendMarketDataRequest
      case TestRequest =>
        var id := FirstValue(message.fields, TEST_REQ_ID);
        AnswerTestRequest(if id.Some? then id.value else [])
      case Logout => Reconnect
      case _ => NoAction
  }

  // ----------------------------------------------------------------------------- what a connection keeps

  /** How many MarketDataRequests were sent. */
  function Requests(sent: seq<Outbound>): nat {
    if sent == [] then 0
    else Requests(sent[..|sent| - 1]) + if sent[|sent| - 1].msgType == MARKET_DATA_REQUEST then 1 else 0
  }

  lemma RequestsAppend(sent: seq<Outbound>, one: Outbound)
    ensures Requests(sent + [one]) == Requests(sent) + if one.msgType == MARKET_DATA_REQUEST then 1 else 0
  {
    assert (sent + [one])[..|sent|] == sent;
  }

  /** All messages but the last are sound and, resends aside, numbered 1, 2, 3, ... */
  predicate OrderlyToTheLast(messages: seq<bytes>) {
    messages == [] || var front := messages[..|messages| - 1]; Orderly(front, |Numbers(front)| + 1)
  }

  lemma OrderlyFront(messages: seq<bytes>, next: nat)
    requires Orderly(messages, next)
    ensures OrderlyToTheLast(messages)
  {
    hide Parse, SeqNum, PossDup, Numbers;
    if messages != [] {
      var front, last := messages[..|messages| - 1], Parse(messages[|messages| - 1]);
      OrderlyNumbers(front, if PossDup(last.message) then next else next - 1);
    }
  }

  lemma OrderlyNext(messages: seq<bytes>, next: nat)
    ensures Orderly(messages, next) ==> next == |Numbers(messages)| + 1
  {
    hide Orderly, Numbers;
    if Orderly(messages, next) {
      OrderlyNumbers(messages, next);
    }
  }

  lemma OneMoreUnsound(messages: seq<bytes>, next: nat, message: bytes)
    requires Orderly(messages, next)
    ensures OrderlyToTheLast(messages + [message])
  {
    hide Orderly, Numbers;
    OrderlyNumbers(messages, next);
    assert (messages + [message])[..|messages|] == messages;
  }

  /** The last message ends the session by itself: it is unsound, out of sequence, or a Logout. */
  predicate EndsSession(messages: seq<bytes>) {
    messages != [] &&
    var last := Parse(messages[|messages| - 1]);
    last.ParseFailed? || KindOf(last.message.msgType).Logout? || !Orderly(messages, |Numbers(messages)| + 1)
  }

  lemma NumbersAppend(messages: seq<bytes>, message: bytes)
    requires Parse(message).Parsed?
    ensures var m := Parse(message).message;
            Numbers(messages + [message]) ==
            Numbers(messages) + if PossDup(m) || SeqNum(m).None? then [] else [SeqNum(m).value]
  {
    hide Parse, SeqNum, PossDup;
    assert (messages + [message])[..|messages|] == messages;
  }

  /** A message breaks the order exactly when its number is unusable or, no resend, not the expected one. */
  lemma BreaksOrder(messages: seq<bytes>, next: nat, message: bytes)
    requires Orderly(messages, next) && Parse(message).Parsed?
    ensures var m := Parse(message).message;
            !Orderly(messages + [message], |Numbers(messages + [message])| + 1) <==>
            SeqNum(m).None? || (!PossDup(m) && SeqNum(m).value != next)
  {
    hide Parse, SeqNum, PossDup, Numbers;
    OrderlyNumbers(messages, next);
    NumbersAppend(messages, message);
    assert (messages + [message])[..|messages|] == messages;
  }

  lemma {:induction false} DrainExtends(messages: seq<bytes>, view: bytes, max: nat)
    ensures messages <= Drain(messages, view, max).messages
    decreases |view|
  {
    hide Frame;
    if Frame(view, max).Framed? {
      var total := Frame(view, max).total;
      DrainExtends(messages + [view[..total]], view[total..], max);
    }
  }

  lemma DrainStep(messages: seq<bytes>, view: bytes, max: nat)
    ensures var frame := Frame(view, max);
            Drain(messages, view, max) ==
            if frame.NeedMore? then Stream(messages, view, None)
            else if frame.Bad? then Stream(messages, view, Some(frame.error))
            else Drain(messages + [view[..frame.total]], view[frame.total..], max)
  {
    hide Frame;
  }

  lemma FeedOneMore(chunks: seq<bytes>, chunk: bytes, max: nat)
    ensures FeedAll(chunks + [chunk], max) == Feed(FeedAll(chunks, max), chunk, max)
  {
    hide Feed;
    assert (chunks + [chunk])[..|chunks|] == chunks;
  }

  lemma {:induction false} ConcatMonotone(a: seq<bytes>, b: seq<bytes>)
    requires a <= b
    ensures Concat(a) <= Concat(b)
  {
    if |a| < |b| {
      ConcatMonotone(a, b[..|b| - 1]);
    } else {
      assert a == b;
    }
  }

  /** What was journaled is a prefix of what was received, byte for byte, however it was cut. */
  lemma JournaledIsReceived(journaled: seq<bytes>, chunks: seq<bytes>)
    requires journaled <= FeedAll(chunks, MAX_BODY_LENGTH).messages
    ensures Concat(journaled) <= Concat(chunks)
  {
    hide FeedAll, Concat;
    NothingLost(chunks, MAX_BODY_LENGTH);
    ConcatMonotone(journaled, FeedAll(chunks, MAX_BODY_LENGTH).messages);
  }

  // -------------------------------------------------------------------------------- the source's own form

  datatype Received = Chunk(data: bytes) | Interrupted | TimerTick(stale: bool) | Ended

  datatype StopState = GoOn | StopRequested | FatalLatched

  /** One turn of the receive loop: what the stop signal says, whether a Heartbeat is due, what recv gives. */
  datatype Turn = Turn(stop: StopState, heartbeatDue: bool, received: Received)

  /** Which sends and which journal writes succeed, by how many there were before. */
  datatype Outcomes = Outcomes(sends: nat -> bool, journals: nat -> bool)

  function ChunksOf(turns: seq<Turn>): seq<bytes> {
    if turns == [] then []
    else ChunksOf(turns[..|turns| - 1]) + match turns[|turns| - 1].received case Chunk(data) => [data] case _ => []
  }

  class FixClient {
    var framer: Framer
    const session: FixSession
    const requestBody: seq<Field>
    const outcomes: Outcomes
    var loggedOn: bool
    var subscribed: bool
    /** The payloads handed to the capture session on this connection. */
    ghost var journaled: seq<bytes>
    /** The bytes received on this connection, piece by piece. */
    ghost var chunks: seq<bytes>
    /** A message handed over made this side drop the connection. */
    ghost var cut: bool

    /** Every send and every journal write succeeds. */
    ghost predicate Smooth() {
      forall n: nat :: outcomes.sends(n) && outcomes.journals(n)
    }

    /** What holds on every way out of a connection. */
    ghost predicate Kept()
      reads this, framer, session
    {
      && framer.Valid() && session.Valid() && framer.maxBodyLength == MAX_BODY_LENGTH
      && Requests(session.sent) <= 1
      && journaled <= FeedAll(chunks, MAX_BODY_LENGTH).messages && OrderlyToTheLast(journaled)
      && (!cut ==> Orderly(journaled, session.expectedInbound))
      && (cut ==> journaled != [])
      && (Smooth() ==> (cut <==> EndsSession(journaled)))
    }

    /** Every whole message received was handed over, unless one of them cut the connection. */
    ghost predicate NothingHeldBack()
      reads this
    {
      !cut ==> journaled == FeedAll(chunks, MAX_BODY_LENGTH).messages
    }

    /** What holds while the connection goes on. */
    ghost predicate Live()
      reads this, framer, session
    {
      && framer.Valid() && session.Valid() && framer.maxBodyLength == MAX_BODY_LENGTH
      && framer.error.None? && journaled == framer.given
      && Drain(framer.given, framer.View(), MAX_BODY_LENGTH) == FeedAll(chunks, MAX_BODY_LENGTH)
      && Orderly(journaled, session.expectedInbound)
      && Requests(session.sent) == (if subscribed then 1 else 0)
      && !cut && (Smooth() ==> !EndsSession(journaled))
    }

    lemma LiveIsKept()
      requires Live()
      ensures Kept()
    {
      hide Drain, FeedAll, Orderly;
      DrainExtends(framer.given, framer.View(), MAX_BODY_LENGTH);
      OrderlyFront(journaled, session.expectedInbound);
    }

    constructor (fixSession: FixSession, body: seq<Field>, answers: Outcomes)
      ensures session == fixSession && requestBody == body && outcomes == answers
    {
      session, requestBody, outcomes := fixSession, body, answers;
      framer := new Framer(MAX_BODY_LENGTH);
      loggedOn, subscribed, journaled, chunks, cut := false, false, [], [], false;
    }

    /** The message of that number, type and body, as it goes out. */
    function Message(msgType: bytes, body: seq<Field>, time: bytes, number: nat): Outbound {
      Outbound(msgType, number, EncodeMessage(HeaderFields(msgType, session.sender, session.target, number, time) + body))
    }

    /** Builds a message under the next number and tries to send it. */
    method SendAll(msgType: bytes, body: seq<Field>, time: bytes) returns (ok: bool)
      requires session.Valid()
      modifies session
      ensures session.Valid() && session.expectedInbound == old(session.expectedInbound)
      ensures session.sent == old(session.sent) + [Message(msgType, body, time, old(|session.sent|) + 1)]
      ensures Requests(session.sent) == old(Requests(session.sent)) + if msgType == MARKET_DATA_REQUEST then 1 else 0
      ensures Smooth() ==> ok
    {
      hide EncodeMessage;
      var wire := session.Send(msgType, body, time);
      RequestsAppend(old(session.sent), Outbound(msgType, |session.sent|, wire));
      ok := outcomes.sends(session.nextOutbound);
    }

    /** The reaction to one sound message: at most one MarketDataRequest, on the first Logon. */
    method Act(action: InboundAction, time: bytes) returns (ok: bool)
      requires session.Valid() && Requests(session.sent) == if subscribed then 1 else 0
      modifies session, this`subscribed
      ensures session.Valid() && session.expectedInbound == old(session.expectedInbound)
      ensures Requests(session.sent) <= 1
      ensures ok ==> Requests(session.sent) == if subscribed then 1 else 0
      ensures action.Reconnect? ==> !ok
      ensures Smooth() && !action.Reconnect? ==> ok
      ensures action.AnswerTestRequest? ==>
                session.sent == old(session.sent)
                                + [Message(HEARTBEAT, [Field(TEST_REQ_ID, action.testReqId)], time, old(|session.sent|) + 1)]
      ensures action.SendMarketDataRequest? ==>
                && (ok ==> subscribed)
                && session.sent == old(session.sent)
                                   + (if old(subscribed) then []
                                      else [Message(MARKET_DATA_REQUEST, requestBody, time, old(|session.sent|) + 1)])
      ensures !action.AnswerTestRequest? && !action.SendMarketDataRequest? ==>
                session.sent == old(session.sent) && subscribed == old(subscribed)
    {
      hide Requests, EncodeMessage;
      assert session.sent + [] == session.sent;
      match action
      case SendMarketDataRequest =>
        if !subscribed {
          ok := SendAll(MARKET_DATA_REQUEST, requestBody, time);
          if !ok {
            return false;
          }
          subscribed := true;
        }
        return true;
      case AnswerTestRequest(id) => ok := SendAll(HEARTBEAT, [Field(TEST_REQ_ID, id)], time);
      case Reconnect => return false;
      case NoAction => return true;
    }

    /** One framed message: journal first, then parse, check its number and react. */
    method OnMessage(message: bytes, time: bytes, count: nat, ghost before: seq<bytes>) returns (ok: bool)
      requires framer.Valid() && session.Valid() && framer.maxBodyLength == MAX_BODY_LENGTH && framer.error.None?
      requires journaled == before && framer.given == before + [message] && Orderly(before, session.expectedInbound)
      requires Drain(framer.given, framer.View(), MAX_BODY_LENGTH) == FeedAll(chunks, MAX_BODY_LENGTH)
      requires Requests(session.sent) == if subscribed then 1 else 0
      requires !cut
      modifies session, this`subscribed, this`loggedOn, this`journaled, this`cut
      ensures Kept() && (ok ==> Live()) && cut == !ok
    {
      hide Orderly, Drain, FeedAll, Requests, Parse, Framer.Valid, OrderlyToTheLast, Numbers, SeqNum, PossDup, Smooth, MsgType,
           FixEnvelope.Sealed, FixEnvelope.AllFields, FixEnvelope.FieldsOf;
      journaled := journaled + [message];
      OneMoreUnsound(before, session.expectedInbound, message);
      DrainExtends(framer.given, framer.View(), MAX_BODY_LENGTH);
      cut := true;
      if !outcomes.journals(count) {
        assert !Smooth() by { NotSmooth(count); }
        return false;
      }
      var parsed := FixEnvelope.ParseMessage(message);
      if parsed.ParseFailed? {
        return false;
      }
      BreaksOrder(before, session.expectedInbound, message);
      var check := session.OnInbound(parsed.message, message, before);
      OrderlyNext(journaled, session.expectedInbound);
      if KindOf(parsed.message.msgType).LogonAck? {
        loggedOn := true;
      }
      ok := Act(ClassifyInbound(parsed.message, check), time);
      cut := !ok;
    }

    lemma NotSmooth(count: nat)
      requires !outcomes.journals(count)
      ensures !Smooth()
    {
    }

    /** Takes every whole message out of the framer, stopping for good at the first unsound one. */
    method DrainFramedMessages(time: bytes) returns (ok: bool)
      requires Live()
      modifies this`subscribed, this`loggedOn, this`journaled, this`cut, session, framer
      ensures Kept() && NothingHeldBack() && (ok ==> Live())
    {
      hide Orderly, Drain, FeedAll, Requests, Frame, OrderlyToTheLast;
      ok := true;
      while true
        invariant Live()
        decreases |framer.View()|
      {
        LiveIsKept();
        DrainStep(framer.given, framer.View(), MAX_BODY_LENGTH);
        ghost var before := framer.given;
        var message := framer.NextMessage();
        assert before + [] == before;
        if message.None? {
          return framer.error.None?;
        }
        ok := OnMessage(message.value, time, framer.messagesFramed, before);
        if !ok {
          return;
        }
      }
    }

    /** Takes one piece off the socket. */
    method OnChunk(data: bytes, time: bytes) returns (ok: bool)
      requires Live()
      modifies this`subscribed, this`loggedOn, this`journaled, this`chunks, this`cut, session, framer
      ensures Kept() && NothingHeldBack() && (ok ==> Live()) && chunks == old(chunks) + [data]
    {
      hide Orderly, Drain, FeedAll, Requests, OrderlyToTheLast;
      ghost var given, view := framer.given, framer.View();
      DrainInTwo(given, view, data, MAX_BODY_LENGTH);
      FeedOneMore(chunks, data, MAX_BODY_LENGTH);
      framer.Append(data);
      chunks := chunks + [data];
      ok := DrainFramedMessages(time);
    }

    method SendHeartbeatIfDue(due: bool, time: bytes) returns (ok: bool)
      requires Live() && NothingHeldBack()
      modifies session
      ensures Kept() && NothingHeldBack() && (ok ==> Live())
      ensures session.sent == old(session.sent)
                              + if loggedOn && due then [Message(HEARTBEAT, [], time, old(|session.sent|) + 1)] else []
    {
      hide Orderly, Drain, FeedAll, Requests, OrderlyToTheLast, EncodeMessage;
      assert session.sent + [] == session.sent;
      LiveIsKept();
      if !loggedOn || !due {
        return true;
      }
      ok := SendAll(HEARTBEAT, [], time);
    }

    /** Everything that defines a connection starts anew. */
    method Reset()
      modifies this, session
      ensures Live() && NothingHeldBack() && fresh(framer) && journaled == [] && chunks == [] && session.sent == []
    {
      framer := new Framer(MAX_BODY_LENGTH);
      session.ResetSequenceNumbers();
      loggedOn, subscribed, journaled, chunks, cut := false, false, [], [], false;
      EmptyNeedsMore(MAX_BODY_LENGTH);
    }

    /** One connection, for every sequence of receive results and every outcome of sends and journal writes:
        the payloads handed to the capture session are, joined, a prefix of the bytes received; all but the
        last of them are sound and, resends aside, numbered 1, 2, 3, ...; nothing received whole is held back
        unless a payload handed over ended the connection, which, sends and journal writes succeeding, it does
        exactly when it is unsound, out of sequence or a Logout; at most one MarketDataRequest is sent; and the
        numbers sent are 1, 2, 3, ... without holes. */
    method RunOneConnection(opens: bool, hasNonce: bool, credentials: seq<Field>, turns: seq<Turn>, time: bytes)
      returns (ghost seen: nat)
      modifies this, session, framer
      ensures seen <= |turns| && chunks == ChunksOf(turns[..seen])
      ensures Concat(journaled) <= Concat(chunks) && journaled <= FeedAll(chunks, MAX_BODY_LENGTH).messages
      ensures OrderlyToTheLast(journaled)
      ensures !cut ==> journaled == FeedAll(chunks, MAX_BODY_LENGTH).messages && Orderly(journaled, session.expectedInbound)
      ensures Smooth() ==> (cut <==> EndsSession(journaled))
      ensures Requests(session.sent) <= 1
      ensures forall i :: 0 <= i < |session.sent| ==> session.sent[i].number == i + 1
    {
      hide Orderly, Drain, FeedAll, Requests, OrderlyToTheLast, Concat, Framer.Valid;
      Reset();
      LiveIsKept();
      seen := 0;
      JournaledIsReceived(journaled, chunks);
      if !opens || !hasNonce {
        return;
      }
      var ok := SendAll(LOGON, credentials, time);
      if !ok {
        return;
      }
      seen := ReceiveLoop(turns, time);
      JournaledIsReceived(journaled, chunks);
    }

    method ReceiveLoop(turns: seq<Turn>, time: bytes) returns (ghost seen: nat)
      requires Live() && NothingHeldBack() && chunks == []
      modifies this`subscribed, this`loggedOn, this`journaled, this`chunks, this`cut, session, framer
      ensures Kept() && NothingHeldBack() && seen <= |turns| && chunks == ChunksOf(turns[..seen])
    {
      hide Orderly, Drain, FeedAll, Requests, OrderlyToTheLast, Framer.Valid;
      LiveIsKept();
      seen := 0;
      var i := 0;
      while i < |turns| && turns[i].stop.GoOn?
        invariant 0 <= i <= |turns| && seen == i
        invariant Live() && NothingHeldBack() && chunks == ChunksOf(turns[..i])
        decreases |turns| - i
      {
        var ok := SendHeartbeatIfDue(turns[i].heartbeatDue, time);
        if !ok {
          return;
        }
        assert turns[..i + 1][..i] == turns[..i];
        seen := i + 1;
        match turns[i].received {
          case Interrupted =>
          case TimerTick(stale) =>
            if stale {
              LiveIsKept();
              return;
            }
          case Ended =>
            LiveIsKept();
            return;
          case Chunk(data) =>
            ok := OnChunk(data, time);
            if !ok {
              return;
            }
        }
        i := i + 1;
      }
      LiveIsKept();
      if loggedOn && i < |turns| && turns[i].stop.StopRequested? {
        var _ := SendAll(LOGOUT, [], time);
      }
    }
  }
}
