/** The FIX session with Deribit: outbound numbering, inbound sequence checks
    (src/feed_handler/deribit/deribit_fix_session.cpp; FIX 4.4 Volume 2, "FIX Session Protocol"). The clock
    and the logon credentials are parameters. */
module DeribitSessions {
  import opened BookTypes
  import opened Bytes
  import opened Decimal
  import opened FixFields
  import opened FixMessages

  const MSG_SEQ_NUM := 34
  const SENDER_COMP_ID := 49
  const SENDING_TIME := 52
  const TARGET_COMP_ID := 56
  const POSS_DUP_FLAG := 43

  const HEARTBEAT: bytes := [48]
  const TEST_REQUEST: bytes := [49]
  const REJECT: bytes := [51]
  const LOGOUT: bytes := [53]
  const LOGON: bytes := [65]
  const MARKET_DATA_REQUEST: bytes := [86]
  const MARKET_DATA_SNAPSHOT: bytes := [87]
  const MARKET_DATA_INCREMENTAL: bytes := [88]
  const MARKET_DATA_REQUEST_REJECT: bytes := [89]

  /** "Y" */
  const YES: bytes := [89]

  // -------------------------------------------------------------------------------------------- outbound

  /** A message the session built: its type, its number and its bytes. */
  datatype Outbound = Outbound(msgType: bytes, number: nat, wire: bytes)

  function HeaderFields(msgType: bytes, sender: bytes, target: bytes, number: nat, time: bytes): seq<Field> {
    [Field(MSG_TYPE_TAG, msgType), Field(SENDER_COMP_ID, sender), Field(TARGET_COMP_ID, target),
     Field(MSG_SEQ_NUM, Render(number)), Field(SENDING_TIME, time)]
  }

  /** The number a message was built with is the one its receiver reads. */
  lemma NumberReads(msgType: bytes, sender: bytes, target: bytes, number: nat, time: bytes, body: seq<Field>)
    requires number < 0x8000_0000_0000_0000
    requires ValidBody(HeaderFields(msgType, sender, target, number, time) + body)
    ensures var parsed := Parse(EncodeMessage(HeaderFields(msgType, sender, target, number, time) + body));
            parsed.Parsed? && FirstInt(parsed.message.fields, MSG_SEQ_NUM) == Some(number)
  {
    hide Parse, EncodeMessage, ValidBody, Render, Digits, BodyBytes, CheckSum, FirstValue, ToInt;
    var fields := HeaderFields(msgType, sender, target, number, time) + body;
    RoundTrip(fields);
    var all := AsParsed(fields).fields;
    assert all[2] == fields[0] && all[3] == fields[1] && all[4] == fields[2] && all[5] == fields[3];
    FirstValueAt(all, MSG_SEQ_NUM, 5);
    ToIntOfRender(number);
  }

  // --------------------------------------------------------------------------------------------- inbound

  datatype SequenceStatus = InSequence | Gap | Duplicate | PossibleDuplicate | Malformed

  /** The verdict on one inbound number: what was expected, what came, how many are missing. */
  datatype InboundCheck = InboundCheck(status: SequenceStatus, expected: nat, received: nat, missing: nat) {
    predicate SessionBroken() {
      status.Gap? || status.Duplicate? || status.Malformed?
    }
  }

  /** A message's number, when it has a usable one. */
  function SeqNum(message: ParsedMessage): Option<nat> {
    match FirstInt(message.fields, MSG_SEQ_NUM)
    case None => None
    case Some(n) => if n < 0 then None else Some(n)
  }

  predicate PossDup(message: ParsedMessage) {
    FirstValue(message.fields, POSS_DUP_FLAG) == Some(YES)
  }

  /** The messages are sound and their numbers, resends aside, are 1, 2, 3, ... up to before `next`. */
  predicate Orderly(messages: seq<bytes>, next: nat) {
    if messages == [] then next == 1
    else
      var front, last := messages[..|messages| - 1], Parse(messages[|messages| - 1]);
      && last.Parsed? && SeqNum(last.message).Some?
      && if PossDup(last.message) then Orderly(front, next)
         else SeqNum(last.message).value + 1 == next && Orderly(front, next - 1)
  }

  /** The numbers of the messages that are not marked as resends. */
  function Numbers(messages: seq<bytes>): seq<int> {
    if messages == [] then []
    else
      var front, last := messages[..|messages| - 1], Parse(messages[|messages| - 1]);
      Numbers(front) + (if last.ParseFailed? || PossDup(last.message) || SeqNum(last.message).None? then []
                        else [SeqNum(last.message).value])
  }

  /** What Orderly means: no number is missing, repeated or out of place. */
  lemma {:induction false} OrderlyNumbers(messages: seq<bytes>, next: nat)
    requires Orderly(messages, next)
    ensures next >= 1 && |Numbers(messages)| == next - 1
    ensures forall k :: 0 <= k < |Numbers(messages)| ==> Numbers(messages)[k] == k + 1
  {
    hide Parse, SeqNum, PossDup;
    if messages != [] {
      var front, last := messages[..|messages| - 1], Parse(messages[|messages| - 1]);
      OrderlyNumbers(front, if PossDup(last.message) then next else next - 1);
    }
  }

  lemma OrderlyAppend(messages: seq<bytes>, next: nat, message: bytes)
    requires Orderly(messages, next) && Parse(message).Parsed? && SeqNum(Parse(message).message).Some?
    requires PossDup(Parse(message).message) || SeqNum(Parse(message).message).value == next
    ensures Orderly(messages + [message], if PossDup(Parse(message).message) then next else next + 1)
  {
    hide Parse, SeqNum, PossDup;
    assert (messages + [message])[..|messages|] == messages;
  }

  // -------------------------------------------------------------------------------- the source's own form

  class FixSession {
    const sender: bytes
    const target: bytes
    var nextOutbound: nat
    var expectedInbound: nat
    var gapsDetected: nat
    /** What was built since the numbers were last reset. */
    ghost var sent: seq<Outbound>

    /** Outbound numbers are 1, 2, 3, ... without holes. */
    ghost predicate Valid()
      reads this
    {
      && nextOutbound == |sent| + 1
      && (forall i :: 0 <= i < |sent| ==> sent[i].number == i + 1)
    }

    constructor (senderId: bytes, targetId: bytes)
      ensures Valid() && sent == [] && expectedInbound == 1
      ensures sender == senderId && target == targetId
    {
      sender, target, nextOutbound, expectedInbound, gapsDetected, sent := senderId, targetId, 1, 1, 0, [];
    }

    method ResetSequenceNumbers()
      modifies this`nextOutbound, this`expectedInbound, this`sent
      ensures Valid() && sent == [] && expectedInbound == 1
    {
      nextOutbound, expectedInbound, sent := 1, 1, [];
    }

    method Send(msgType: bytes, body: seq<Field>, time: bytes) returns (wire: bytes)
      requires Valid()
      modifies this`nextOutbound, this`sent
      ensures Valid() && wire == EncodeMessage(HeaderFields(msgType, sender, target, |sent|, time) + body)
      ensures sent == old(sent) + [Outbound(msgType, |sent|, wire)]
    {
      hide EncodeMessage;
      wire := BuildMessage(HeaderFields(msgType, sender, target, nextOutbound, time) + body);
      sent := sent + [Outbound(msgType, nextOutbound, wire)];
      nextOutbound := nextOutbound + 1;
    }

    /** Only a message with the expected number moves the session on unbroken; a gap moves it past itself. */
    method OnInboundSeqNum(number: nat, possibleDuplicate: bool) returns (check: InboundCheck)
      modifies this`expectedInbound, this`gapsDetected
      ensures check.status == if possibleDuplicate then PossibleDuplicate
                              else if number == old(expectedInbound) then InSequence
                              else if number < old(expectedInbound) then Duplicate else SequenceStatus.Gap
      ensures check.expected == old(expectedInbound) && check.received == number
      ensures check.missing == if check.status.Gap? then number - old(expectedInbound) else 0
      ensures expectedInbound == if check.status.InSequence? || check.status.Gap? then number + 1 else old(expectedInbound)
      ensures gapsDetected == old(gapsDetected) + if check.status.Gap? then 1 else 0
    {
      check := InboundCheck(InSequence, expectedInbound, number, 0);
      if possibleDuplicate {
        return check.(status := PossibleDuplicate);
      }
      if number == expectedInbound {
        expectedInbound := expectedInbound + 1;
        return;
      }
      if number < expectedInbound {
        return check.(status := Duplicate);
      }
      check := check.(status := SequenceStatus.Gap, missing := number - expectedInbound);
      gapsDetected := gapsDetected + 1;
      expectedInbound := number + 1;
    }

    /** The session goes on exactly when the message keeps the stream orderly. */
    method OnInbound(parsed: ParsedMessage, ghost message: bytes, ghost before: seq<bytes>) returns (check: InboundCheck)
      requires Parse(message) == Parsed(parsed) && Orderly(before, expectedInbound)
      modifies this`expectedInbound, this`gapsDetected
      ensures !check.SessionBroken() ==> Orderly(before + [message], expectedInbound)
      ensures check.SessionBroken() ==>
                SeqNum(parsed).None? || (!PossDup(parsed) && SeqNum(parsed).value != old(expectedInbound))
      ensures check.status.Malformed? <==> SeqNum(parsed).None?
      ensures check.expected == old(expectedInbound)
    {
      hide Parse, Orderly;
      var number := SeqNum(parsed);
      if number.None? {
        return InboundCheck(Malformed, expectedInbound, 0, 0);
      }
      if PossDup(parsed) || number.value == expectedInbound {
        OrderlyAppend(before, expectedInbound, message);
      }
      check := OnInboundSeqNum(number.value, PossDup(parsed));
    }
  }
}
