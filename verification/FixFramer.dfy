/** Cutting a byte stream into FIX messages (Framer in src/feed_handler/fix/fix_message.cpp). */
module FixFramers {
  import opened BookTypes
  import opened Bytes
  import opened Decimal
  import opened FixFields
  import opened FixMessages

  const MAX_LENGTH_DIGITS := 10
  const DIGITS_START := 12

  datatype FrameError = NotFix | NoLength | LengthNotANumber | LengthTooBig | LengthEmpty | NoCheckSumThere

  // ----------------------------------------------------------------------------- one message off the front

  /** The BodyLength digits: their value and where the SOH behind them is. */
  datatype LengthResult = LengthIs(length: nat, end: nat) | LengthMore | LengthBad(error: FrameError)

  function ReadLength(view: bytes, index: nat, length: nat, max: nat): (r: LengthResult)
    requires DIGITS_START <= index <= |view|
    ensures r.LengthIs? ==> index <= r.end < |view|
    decreases |view| - index
  {
    if index == |view| then LengthMore
    else if view[index] == SOH then LengthIs(length, index)
    else if !IsDigit(view[index]) || index - DIGITS_START >= MAX_LENGTH_DIGITS then LengthBad(LengthNotANumber)
    else
      var longer := length * 10 + DigitOf(view[index]);
      if longer > max then LengthBad(LengthTooBig) else ReadLength(view, index + 1, longer, max)
  }

  datatype FrameResult = NeedMore | Framed(total: nat) | Bad(error: FrameError)

  predicate StartsAlike(view: bytes, prefix: bytes) {
    var comparable := if |view| < |prefix| then |view| else |prefix|;
    view[..comparable] == prefix[..comparable]
  }

  function FrameBody(view: bytes, end: nat, length: nat): (r: FrameResult)
    requires end < |view|
    ensures r.Framed? ==> 0 < r.total <= |view|
  {
    var bodyEnd := end + 1 + length;
    var total := bodyEnd + CHECK_SUM_FIELD_SIZE;
    if |view| < total then NeedMore
    else if view[bodyEnd..bodyEnd + 3] != CHECK_LABEL || view[total - 1] != SOH then Bad(NoCheckSumThere)
    else Framed(total)
  }

  /** What the bytes at the front of the stream are: a message, not yet one, or never one. */
  function Frame(view: bytes, max: nat): (r: FrameResult)
    ensures r.Framed? ==> 0 < r.total <= |view|
  {
    if view == [] then NeedMore
    else if !StartsAlike(view, PREFIX) then Bad(NotFix)
    else if |view| < DIGITS_START then NeedMore
    else if view[|PREFIX|..DIGITS_START] != LENGTH_LABEL then Bad(NoLength)
    else
      match ReadLength(view, DIGITS_START, 0, max)
      case LengthMore => NeedMore
      case LengthBad(error) => Bad(error)
      case LengthIs(length, end) => if end == DIGITS_START then Bad(LengthEmpty) else FrameBody(view, end, length)
  }

  // --------------------------------------------------------------- more bytes never change what was decided

  lemma {:induction false} LengthStays(view: bytes, more: bytes, index: nat, length: nat, max: nat)
    requires DIGITS_START <= index <= |view| && !ReadLength(view, index, length, max).LengthMore?
    ensures ReadLength(view + more, index, length, max) == ReadLength(view, index, length, max)
    decreases |view| - index
  {
    if view[index] != SOH && IsDigit(view[index]) && index - DIGITS_START < MAX_LENGTH_DIGITS
       && length * 10 + DigitOf(view[index]) <= max {
      LengthStays(view, more, index + 1, length * 10 + DigitOf(view[index]), max);
    }
  }

  lemma BodyStays(view: bytes, more: bytes, end: nat, length: nat)
    requires end < |view| && !FrameBody(view, end, length).NeedMore?
    ensures FrameBody(view + more, end, length) == FrameBody(view, end, length)
  {
    var bodyEnd := end + 1 + length;
    assert (view + more)[bodyEnd..bodyEnd + 3] == view[bodyEnd..bodyEnd + 3];
  }

  lemma StartStays(view: bytes, more: bytes)
    ensures !StartsAlike(view, PREFIX) ==> !StartsAlike(view + more, PREFIX)
    ensures |view| >= |PREFIX| ==> (StartsAlike(view + more, PREFIX) <==> StartsAlike(view, PREFIX))
  {
    var whole := view + more;
    if |view| >= |PREFIX| {
      assert whole[..|PREFIX|] == view[..|PREFIX|];
    } else if StartsAlike(whole, PREFIX) {
      var comparable := if |whole| < |PREFIX| then |whole| else |PREFIX|;
      assert view == whole[..comparable][..|view|] == PREFIX[..comparable][..|view|];
      assert PREFIX[..comparable][..|view|] == PREFIX[..|view|];
      assert view[..|view|] == view;
    }
  }

  /** A message cut or an error found stays so whatever arrives later. */
  lemma FrameStays(view: bytes, more: bytes, max: nat)
    requires !Frame(view, max).NeedMore?
    ensures Frame(view + more, max) == Frame(view, max)
  {
    hide ReadLength, FrameBody, StartsAlike;
    StartStays(view, more);
    if StartsAlike(view, PREFIX) {
      assert |view| >= DIGITS_START;
      assert (view + more)[|PREFIX|..DIGITS_START] == view[|PREFIX|..DIGITS_START];
      if view[|PREFIX|..DIGITS_START] == LENGTH_LABEL {
        LengthStays(view, more, DIGITS_START, 0, max);
        var r := ReadLength(view, DIGITS_START, 0, max);
        if r.LengthIs? && r.end != DIGITS_START {
          BodyStays(view, more, r.end, r.length);
        }
      }
    }
  }

  // -------------------------------------------------------------------------------- draining a whole stream

  /** What a framer has given out, what it holds, and its sticky error. */
  datatype Stream = Stream(messages: seq<bytes>, rest: bytes, error: Option<FrameError>)

  /** NextMessage called until it gives nothing. */
  function Drain(messages: seq<bytes>, view: bytes, max: nat): (r: Stream)
    decreases |view|
  {
    match Frame(view, max)
    case NeedMore => Stream(messages, view, None)
    case Bad(error) => Stream(messages, view, Some(error))
    case Framed(total) => Drain(messages + [view[..total]], view[total..], max)
  }

  /** One chunk appended, then drained; after an error bytes are only kept. */
  function Feed(before: Stream, chunk: bytes, max: nat): Stream {
    if before.error.Some? then before.(rest := before.rest + chunk)
    else Drain(before.messages, before.rest + chunk, max)
  }

  function FeedAll(chunks: seq<bytes>, max: nat): Stream {
    if chunks == [] then Stream([], [], None) else Feed(FeedAll(chunks[..|chunks| - 1], max), chunks[|chunks| - 1], max)
  }

  /** Draining what came first and then the rest is draining it all at once. */
  lemma {:induction false} DrainInTwo(messages: seq<bytes>, view: bytes, more: bytes, max: nat)
    ensures Feed(Drain(messages, view, max), more, max) == Drain(messages, view + more, max)
    decreases |view|
  {
    hide Frame;
    if !Frame(view, max).NeedMore? {
      FrameStays(view, more, max);
    }
    if Frame(view, max).Framed? {
      var total := Frame(view, max).total;
      assert (view + more)[..total] == view[..total];
      assert (view + more)[total..] == view[total..] + more;
      DrainInTwo(messages + [view[..total]], view[total..], more, max);
    }
  }

  lemma ConcatAppend(pieces: seq<bytes>, piece: bytes)
    ensures Concat(pieces + [piece]) == Concat(pieces) + piece
  {
    assert (pieces + [piece])[..|pieces|] == pieces;
  }

  /** Framing does not depend on chunking: any split of the stream, drained after each piece, gives the
      messages, the error and the buffered bytes that the whole stream at once gives. */
  lemma {:induction false} ChunkingDoesNotMatter(chunks: seq<bytes>, max: nat)
    ensures FeedAll(chunks, max) == Drain([], Concat(chunks), max)
  {
    hide Frame;
    EmptyNeedsMore(max);
    if chunks != [] {
      var front, last := chunks[..|chunks| - 1], chunks[|chunks| - 1];
      ChunkingDoesNotMatter(front, max);
      DrainInTwo([], Concat(front), last, max);
    }
  }

  lemma {:induction false} SameBytesSameMessages(chunks: seq<bytes>, others: seq<bytes>, max: nat)
    requires Concat(chunks) == Concat(others)
    ensures FeedAll(chunks, max) == FeedAll(others, max)
  {
    ChunkingDoesNotMatter(chunks, max);
    ChunkingDoesNotMatter(others, max);
  }

  lemma {:induction false} DrainConserves(messages: seq<bytes>, view: bytes, max: nat)
    ensures Concat(Drain(messages, view, max).messages) + Drain(messages, view, max).rest == Concat(messages) + view
    decreases |view|
  {
    hide Frame, Concat;
    if Frame(view, max).Framed? {
      var total := Frame(view, max).total;
      var message, rest := view[..total], view[total..];
      DrainConserves(messages + [message], rest, max);
      ConcatAppend(messages, message);
      assert Concat(messages) + message + rest == Concat(messages) + (message + rest);
      assert view == message + rest;
    }
  }

  /** No byte is lost, added or moved: the messages and then the buffer are exactly the bytes appended. */
  lemma {:induction false} NothingLost(chunks: seq<bytes>, max: nat)
    ensures Concat(FeedAll(chunks, max).messages) + FeedAll(chunks, max).rest == Concat(chunks)
  {
    ChunkingDoesNotMatter(chunks, max);
    DrainConserves([], Concat(chunks), max);
  }

  // ---------------------------------------------------------------------------- framing what was built

  /** Bodies the framer lets through: at most the configured maximum, and at most ten digits of length. */
  predicate Framable(fields: seq<Field>, max: nat) {
    |BodyBytes(fields)| <= max && |BodyBytes(fields)| < 10_000_000_000
  }

  lemma {:induction false} FewDigits(n: nat, k: nat, bound: nat)
    requires n < bound && bound == Power10(k) && k > 0
    ensures |Digits(n)| <= k
    decreases k
  {
    if n >= 10 {
      FewDigits(n / 10, k - 1, Power10(k - 1));
    }
  }

  function Power10(k: nat): nat {
    if k == 0 then 1 else 10 * Power10(k - 1)
  }

  lemma {:induction false} PrefixValue(s: bytes, i: nat)
    requires AllDigits(s) && i <= |s|
    ensures Value(s[..i]) <= Value(s)
    decreases |s| - i
  {
    if i < |s| {
      PrefixValue(s, i + 1);
      assert s[..i + 1][..i] == s[..i];
    } else {
      assert s[..i] == s;
    }
  }

  /** The digit loop reads a length that is written in at most ten digits and is not over the maximum. */
  lemma {:induction false} LengthReads(digits: bytes, rest: bytes, view: bytes, i: nat, max: nat)
    requires AllDigits(digits) && |digits| <= MAX_LENGTH_DIGITS && Value(digits) <= max && i <= |digits|
    requires |view| >= DIGITS_START && view[DIGITS_START..] == digits + [SOH] + rest
    ensures ReadLength(view, DIGITS_START + i, Value(digits[..i]), max) == LengthIs(Value(digits), DIGITS_START + |digits|)
    decreases |digits| - i
  {
    assert view[DIGITS_START + i] == (digits + [SOH] + rest)[i];
    if i < |digits| {
      assert digits[..i + 1][..i] == digits[..i];
      PrefixValue(digits, i + 1);
      LengthReads(digits, rest, view, i + 1, max);
    } else {
      assert digits[..i] == digits;
    }
  }

  lemma LengthText(fields: seq<Field>, max: nat)
    requires Framable(fields, max)
    ensures var digits := Digits(|BodyBytes(fields)|);
            0 < |digits| <= MAX_LENGTH_DIGITS && AllDigits(digits) && Value(digits) == |BodyBytes(fields)|
  {
    var n := |BodyBytes(fields)|;
    ValueOfDigits(n);
    assert Power10(5) == 100_000;
    assert Power10(10) == 10_000_000_000;
    FewDigits(n, 10, 10_000_000_000);
  }

  /** A built message is framed whole, whatever follows it. */
  lemma BuiltIsFramed(fields: seq<Field>, rest: bytes, max: nat)
    requires Framable(fields, max)
    ensures Frame(EncodeMessage(fields) + rest, max) == Framed(|EncodeMessage(fields)|)
  {
    hide Digits, Value, BodyBytes, CheckSum, ReadLength;
    var message, body, check := EncodeMessage(fields), BodyBytes(fields), CheckSum(Head(fields));
    var digits, view := Digits(|body|), message + rest;
    LengthText(fields, max);
    var after := body + CHECK_LABEL + check + [SOH] + rest;
    assert view == PREFIX + LENGTH_LABEL + (digits + [SOH] + after);
    assert view[..10] == PREFIX && view[10..12] == LENGTH_LABEL;
    assert view[DIGITS_START..] == digits + [SOH] + after;
    assert digits[..0] == [] && Value(digits[..0]) == 0 by { EmptyValue(); }
    LengthReads(digits, after, view, 0, max);
    BuiltBody(fields, rest);
  }

  lemma EmptyValue()
    ensures Value([]) == 0
  {
  }

  lemma BuiltBody(fields: seq<Field>, rest: bytes)
    ensures var message := EncodeMessage(fields);
            var end := DIGITS_START + |Digits(|BodyBytes(fields)|)|;
            end < |message + rest|
            && FrameBody(message + rest, end, |BodyBytes(fields)|) == Framed(|message|)
  {
    hide Digits, BodyBytes, CheckSum;
    var message, head, check := EncodeMessage(fields), Head(fields), CheckSum(Head(fields));
    var view := message + rest;
    assert view == head + CHECK_LABEL + check + ([SOH] + rest);
    assert view[|head|..|head| + 3] == CHECK_LABEL;
    assert view[|head| + 6] == SOH;
  }

  function EncodeAll(bodies: seq<seq<Field>>): seq<bytes> {
    if bodies == [] then [] else EncodeAll(bodies[..|bodies| - 1]) + [EncodeMessage(bodies[|bodies| - 1])]
  }

  lemma EncodeAllIndex(bodies: seq<seq<Field>>)
    ensures |EncodeAll(bodies)| == |bodies|
    ensures forall i :: 0 <= i < |bodies| ==> EncodeAll(bodies)[i] == EncodeMessage(bodies[i])
  {
    hide EncodeMessage;
  }

  lemma EmptyNeedsMore(max: nat)
    ensures Frame([], max) == NeedMore
  {
  }

  /** The wire of the bodies is cut back into their messages. */
  lemma {:induction false} BuiltStreamDrains(bodies: seq<seq<Field>>, max: nat)
    requires forall i :: 0 <= i < |bodies| ==> Framable(bodies[i], max)
    ensures Drain([], Concat(EncodeAll(bodies)), max) == Stream(EncodeAll(bodies), [], None)
  {
    hide Frame, EncodeMessage, Framable;
    EmptyNeedsMore(max);
    if bodies != [] {
      var front, last := bodies[..|bodies| - 1], bodies[|bodies| - 1];
      assert forall i :: 0 <= i < |front| ==> front[i] == bodies[i];
      BuiltStreamDrains(front, max);
      var message := EncodeMessage(last);
      DrainInTwo([], Concat(EncodeAll(front)), message, max);
      ConcatAppend(EncodeAll(front), message);
      BuiltIsFramed(last, [], max);
      assert message + [] == message && message[..|message|] == message && message[|message|..] == [];
      assert [] + message == message;
      assert Drain(EncodeAll(front), message, max) == Drain(EncodeAll(front) + [message], [], max);
      assert EncodeAll(bodies) == EncodeAll(front) + [message];
    }
  }

  /** The stream round trip: messages built from any valid bodies, sent back to back and received in any
      pieces, come out of the framer and the parser as exactly those bodies, and nothing is left over. */
  lemma {:induction false} StreamRoundTrip(bodies: seq<seq<Field>>, chunks: seq<bytes>, max: nat, i: nat)
    requires forall k :: 0 <= k < |bodies| ==> ValidBody(bodies[k]) && Framable(bodies[k], max)
    requires Concat(chunks) == Concat(EncodeAll(bodies)) && i < |bodies|
    ensures var stream := FeedAll(chunks, max);
            && stream.error.None? && stream.rest == [] && |stream.messages| == |bodies|
            && Parse(stream.messages[i]).Parsed?
            && Parse(stream.messages[i]).message.BodyFields() == bodies[i]
            && Parse(stream.messages[i]).message.msgType == MsgType(bodies[i])
  {
    hide Frame, EncodeMessage, Framable, ValidBody, Parse, MsgType, Concat;
    ChunkingDoesNotMatter(chunks, max);
    BuiltStreamDrains(bodies, max);
    EncodeAllIndex(bodies);
    RoundTrip(bodies[i]);
  }

  // -------------------------------------------------------------------------------- the source's own form

  /** What NextMessage gives, and the error it leaves, for what stands at the front of the held bytes. */
  predicate Follows(frame: FrameResult, view: bytes, message: Option<bytes>, error: Option<FrameError>)
    requires frame.Framed? ==> frame.total <= |view|
  {
    && message == (if frame.Framed? then Some(view[..frame.total]) else None)
    && error == if frame.Bad? then Some(frame.error) else None
  }

  class Framer {
    var buffer: bytes
    var consumed: nat
    var error: Option<FrameError>
    var messagesFramed: nat
    const maxBodyLength: nat
    /** Everything given out so far. */
    ghost var given: seq<bytes>

    ghost predicate Valid()
      reads this
    {
      consumed <= |buffer| && messagesFramed == |given|
    }

    /** The bytes held but not yet given out. */
    function View(): bytes
      requires Valid()
      reads this
    {
      buffer[consumed..]
    }

    ghost function Contents(): Stream
      requires Valid()
      reads this
    {
      Stream(given, View(), error)
    }

    constructor (max: nat)
      ensures Valid() && maxBodyLength == max && Contents() == FeedAll([], max)
    {
      buffer, consumed, error, messagesFramed, maxBodyLength, given := [], 0, None, 0, max, [];
    }

    method Compact()
      requires Valid()
      modifies this`buffer, this`consumed
      ensures Valid() && View() == old(View()) && consumed == 0
    {
      if consumed == 0 {
        return;
      }
      buffer := buffer[consumed..];
      consumed := 0;
    }

    method Append(chunk: bytes)
      requires Valid()
      modifies this`buffer, this`consumed
      ensures Valid() && View() == old(View()) + chunk && given == old(given) && error == old(error)
    {
      Compact();
      buffer := buffer + chunk;
    }

    method Fail(reason: FrameError)
      modifies this`error
      ensures error == if old(error).Some? then old(error) else Some(reason)
    {
      if error.None? {
        error := Some(reason);
      }
    }

    /** The BodyLength loop. */
    method ScanLength(view: bytes) returns (r: LengthResult)
      requires DIGITS_START <= |view|
      ensures r == ReadLength(view, DIGITS_START, 0, maxBodyLength)
    {
      var index := DIGITS_START;
      var length: nat := 0;
      while index < |view| && view[index] != SOH
        invariant DIGITS_START <= index <= |view|
        invariant ReadLength(view, DIGITS_START, 0, maxBodyLength) == ReadLength(view, index, length, maxBodyLength)
      {
        if !IsDigit(view[index]) || index - DIGITS_START >= MAX_LENGTH_DIGITS {
          return LengthBad(LengthNotANumber);
        }
        length := length * 10 + DigitOf(view[index]);
        if length > maxBodyLength {
          return LengthBad(LengthTooBig);
        }
        index := index + 1;
      }
      r := if index == |view| then LengthMore else LengthIs(length, index);
    }

    /** Gives the message Frame finds at the front of the held bytes, or latches the error it finds. */
    method NextMessage() returns (message: Option<bytes>)
      requires Valid()
      modifies this`consumed, this`error, this`messagesFramed, this`given
      ensures message.Some? ==> 0 < |message.value| <= old(|View()|)
      ensures Valid() && View() == if message.Some? then old(View())[|message.value|..] else old(View())
      ensures old(error).Some? ==> message.None? && error == old(error)
      ensures old(error).None? ==> Follows(Frame(old(View()), maxBodyLength), old(View()), message, error)
      ensures given == old(given) + (if message.Some? then [message.value] else [])
    {
      hide ReadLength;
      message := None;
      if error.Some? {
        return;
      }
      var view := buffer[consumed..];
      if view == [] {
        return;
      }
      var comparable := if |view| < |PREFIX| then |view| else |PREFIX|;
      if view[..comparable] != PREFIX[..comparable] {
        Fail(NotFix);
        return;
      }
      if |view| < |PREFIX| + 2 {
        return;
      }
      if view[|PREFIX|..|PREFIX| + 2] != LENGTH_LABEL {
        Fail(NoLength);
        return;
      }
      var length := ScanLength(view);
      if length.LengthBad? {
        Fail(length.error);
        return;
      }
      if length.LengthMore? {
        return;
      }
      if length.end == DIGITS_START {
        Fail(LengthEmpty);
        return;
      }
      message := CutMessage(view, length.end, length.length);
    }

    /** The end of NextMessage: the CheckSum field must stand where BodyLength says. */
    method CutMessage(view: bytes, end: nat, length: nat) returns (message: Option<bytes>)
      requires Valid() && view == View() && end < |view| && error.None?
      modifies this`consumed, this`error, this`messagesFramed, this`given
      ensures message.Some? ==> 0 < |message.value| <= |view|
      ensures Valid() && View() == if message.Some? then view[|message.value|..] else view
      ensures Follows(FrameBody(view, end, length), view, message, error)
      ensures given == old(given) + (if message.Some? then [message.value] else [])
    {
      var bodyStart := end + 1;
      var total := bodyStart + length + CHECK_SUM_FIELD_SIZE;
      if |view| < total {
        return None;
      }
      if view[bodyStart + length..bodyStart + length + 3] != CHECK_LABEL || view[total - 1] != SOH {
        Fail(NoCheckSumThere);
        return None;
      }
      consumed := consumed + total;
      messagesFramed := messagesFramed + 1;
      message := Some(view[..total]);
      given := given + [view[..total]];
    }
  }
}
