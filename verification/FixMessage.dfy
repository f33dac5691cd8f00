/** FIX messages: the envelope BuildMessage writes and ParseMessage checks
    (src/feed_handler/fix/fix_message.cpp; FIX 4.4 Volume 1, "FIX Tag=Value Syntax"). */
module FixMessages {
  import opened BookTypes
  import opened Bytes
  import opened Decimal
  import opened FixFields

  const BEGIN_STRING_TAG := 8
  const BODY_LENGTH_TAG := 9
  const CHECK_SUM_TAG := 10
  const MSG_TYPE_TAG := 35

  /** "FIX.4.4" */
  const BEGIN_STRING: bytes := [70, 73, 88, 46, 52, 46, 52]
  /** "8=FIX.4.4" and SOH: how every message begins. */
  const PREFIX: bytes := [56, 61, 70, 73, 88, 46, 52, 46, 52, 1]
  /** "9=" */
  const LENGTH_LABEL: bytes := [57, 61]
  /** "10=" */
  const CHECK_LABEL: bytes := [49, 48, 61]
  const CHECK_SUM_FIELD_SIZE := 7

  // --------------------------------------------------------------------------------------- the checksum

  function Sum(s: bytes): nat {
    if s == [] then 0 else Sum(s[..|s| - 1]) + s[|s| - 1] as nat
  }

  function ThreeDigits(n: nat): (s: bytes)
    requires n < 1000
    ensures |s| == 3 && AllDigits(s)
  {
    [(48 + n / 100) as byte, (48 + n / 10 % 10) as byte, (48 + n % 10) as byte]
  }

  lemma ThreeDigitsValue(n: nat)
    requires n < 1000
    ensures Value(ThreeDigits(n)) == n
  {
    var s := ThreeDigits(n);
    assert s[..2][..1] == [s[0]] && s[..2] == [s[0], s[1]] && s[..1] == [s[0]] && s[..0] == [];
    assert Value([s[0]]) == n / 100;
    assert Value([s[0], s[1]]) == n / 100 * 10 + n / 10 % 10;
  }

  function CheckSum(s: bytes): (digits: bytes)
    ensures |digits| == 3 && AllDigits(digits)
  {
    ThreeDigits(Sum(s) % 256)
  }

  /** A sum kept in 32 bits has the same low eight bits as the true sum. */
  lemma WrapKeepsLowByte(x: nat)
    ensures x % 0x1_0000_0000 % 256 == x % 256
  {
    var q, r := x / 0x1_0000_0000, x % 0x1_0000_0000;
    assert x == 256 * (0x100_0000 * q) + r;
  }

  lemma WrapAdds(x: nat, b: nat)
    ensures (x % 0x1_0000_0000 + b) % 0x1_0000_0000 == (x + b) % 0x1_0000_0000
  {
  }

  method WrappingSum(s: bytes) returns (sum: nat)
    ensures sum == Sum(s) % 0x1_0000_0000
  {
    sum := 0;
    var i := 0;
    while i < |s|
      invariant 0 <= i <= |s|
      invariant sum == Sum(s[..i]) % 0x1_0000_0000
    {
      assert s[..i + 1][..i] == s[..i];
      WrapAdds(Sum(s[..i]), s[i] as nat);
      sum := (sum + s[i] as nat) % 0x1_0000_0000;
      i := i + 1;
    }
    assert s[..|s|] == s;
  }

  /** FormatChecksum, its sum wrapping at 32 bits: the three digits of the true byte sum modulo 256. */
  method FormatChecksum(s: bytes) returns (digits: bytes)
    ensures digits == CheckSum(s)
    ensures |digits| == 3 && AllDigits(digits) && Value(digits) == Sum(s) % 256
  {
    hide Value, Sum;
    var sum := WrappingSum(s);
    WrapKeepsLowByte(Sum(s));
    sum := sum % 256;
    digits := [(48 + sum / 100 % 10) as byte, (48 + sum / 10 % 10) as byte, (48 + sum % 10) as byte];
    ThreeDigitsValue(sum);
  }

  // -------------------------------------------------------------------------------- what a message looks like

  /** Everything before the CheckSum field. */
  function Head(fields: seq<Field>): bytes {
    PREFIX + LENGTH_LABEL + Digits(|BodyBytes(fields)|) + [SOH] + BodyBytes(fields)
  }

  function EncodeMessage(fields: seq<Field>): bytes {
    Head(fields) + CHECK_LABEL + CheckSum(Head(fields)) + [SOH]
  }

  method RenderBody(fields: seq<Field>) returns (body: bytes)
    ensures body == BodyBytes(fields)
  {
    hide Render;
    body := [];
    var i := 0;
    while i < |fields|
      invariant 0 <= i <= |fields|
      invariant body == BodyBytes(fields[..i])
    {
      BodyAppend(fields[..i], [fields[i]]);
      BodyOne(fields[i]);
      assert fields[..i + 1] == fields[..i] + [fields[i]];
      body := body + (Render(fields[i].tag) + [EQUALS] + fields[i].value + [SOH]);
      i := i + 1;
    }
    assert fields[..|fields|] == fields;
  }

  method BuildMessage(fields: seq<Field>) returns (message: bytes)
    ensures message == EncodeMessage(fields)
  {
    hide BodyBytes, Digits, CheckSum, Sum;
    var body := RenderBody(fields);
    message := PREFIX;
    message := message + LENGTH_LABEL;
    message := message + Digits(|body|);
    message := message + [SOH];
    message := message + body;
    var digits := FormatChecksum(message);
    message := message + (CHECK_LABEL + digits + [SOH]);
  }

  // ----------------------------------------------------------------------------------- parsing a message

  /** The fields before the CheckSum field, where that field starts, its value and where it ends, all
      counted from the start of the body. */
  datatype BodyScan = BodyScan(fields: seq<Field>, checkAt: nat, check: bytes, end: nat) | BodyFailed(error: FixError)

  function ScanBody(s: bytes, first: bool): (r: BodyScan)
    ensures r.BodyScan? ==> r.checkAt < r.end <= |s|
    decreases |s|
  {
    if s == [] then BodyFailed(NoCheckSum)
    else
      match Scan(s)
      case ScanFailed(error) => BodyFailed(error)
      case Scanned(field, size) =>
        if field.tag == CHECK_SUM_TAG then BodyScan([], 0, field.value, size)
        else if first && field.tag != MSG_TYPE_TAG then BodyFailed(MsgTypeNotFirst)
        else
          match ScanBody(s[size..], false)
          case BodyFailed(error) => BodyFailed(error)
          case BodyScan(fields, checkAt, check, end) => BodyScan([field] + fields, size + checkAt, check, size + end)
  }

  /** The message type: the last MsgType value, empty when there is none. */
  function MsgType(fields: seq<Field>): bytes {
    if fields == [] then []
    else if fields[|fields| - 1].tag == MSG_TYPE_TAG then fields[|fields| - 1].value
    else MsgType(fields[..|fields| - 1])
  }

  /** A message parsed: all its fields in wire order, and its type. */
  datatype ParsedMessage = ParsedMessage(fields: seq<Field>, msgType: bytes) {
    /** The fields between BodyLength and CheckSum. */
    function BodyFields(): seq<Field> {
      if |fields| <= 3 then [] else fields[2..|fields| - 1]
    }
  }

  datatype ParseResult = Parsed(message: ParsedMessage) | ParseFailed(error: FixError)

  /** A whole value as an unsigned 64-bit decimal. */
  function ToSize(value: bytes): Option<nat> {
    if value == [] || !AllDigits(value) || Value(value) >= SIZE_LIMIT then None else Some(Value(value))
  }

  /** The checks made once the CheckSum field was found. */
  function CheckEnvelope(raw: bytes, bodyStart: nat, declared: nat, lengthText: bytes, body: BodyScan): ParseResult
    requires body.BodyScan? && bodyStart + body.end <= |raw| && body.checkAt <= body.end
  {
    if bodyStart + body.end != |raw| then ParseFailed(TrailingBytes)
    else if MsgType(body.fields) == [] then ParseFailed(NoMsgType)
    else if declared != body.checkAt then ParseFailed(BodyLengthMismatch)
    else if |body.check| != 3 then ParseFailed(CheckSumSize)
    else if body.check != CheckSum(raw[..bodyStart + body.checkAt]) then ParseFailed(CheckSumMismatch)
    else
      Parsed(ParsedMessage([Field(BEGIN_STRING_TAG, BEGIN_STRING), Field(BODY_LENGTH_TAG, lengthText)] + body.fields
                           + [Field(CHECK_SUM_TAG, body.check)], MsgType(body.fields)))
  }

  function ParseAfterBegin(raw: bytes, start: nat): ParseResult
    requires start <= |raw|
  {
    match Scan(raw[start..])
    case ScanFailed(error) => ParseFailed(error)
    case Scanned(length, size) =>
      if length.tag != BODY_LENGTH_TAG then ParseFailed(NoBodyLength)
      else if ToSize(length.value).None? then ParseFailed(BodyLengthNotANumber)
      else
        match ScanBody(raw[start + size..], true)
        case BodyFailed(error) => ParseFailed(error)
        case body => CheckEnvelope(raw, start + size, ToSize(length.value).value, length.value, body)
  }

  function Parse(raw: bytes): ParseResult {
    match Scan(raw)
    case ScanFailed(error) => ParseFailed(error)
    case Scanned(begin, size) =>
      if begin.tag != BEGIN_STRING_TAG then ParseFailed(NotBeginString)
      else if begin.value != BEGIN_STRING then ParseFailed(WrongBeginString)
      else ParseAfterBegin(raw, size)
  }

  // ------------------------------------------------------------------------------- what round-trips

  /** A body BuildMessage may be given: MsgType first, CheckSum nowhere, plain fields, a message type that
      is not empty (the last one, should there be several). */
  predicate ValidBody(fields: seq<Field>) {
    && fields != [] && fields[0].tag == MSG_TYPE_TAG && MsgType(fields) != []
    && (forall i :: 0 <= i < |fields| ==> Plain(fields[i]) && fields[i].tag != CHECK_SUM_TAG)
    && |BodyBytes(fields)| < SIZE_LIMIT
  }

  function CheckField(digits: bytes): Field {
    Field(CHECK_SUM_TAG, digits)
  }

  lemma CheckFieldBytes(digits: bytes)
    ensures FieldBytes(CheckField(digits)) == CHECK_LABEL + digits + [SOH]
  {
    assert Digits(1) == [49];
    assert Render(10) == [49, 48];
  }

  lemma {:induction false} ScanBodyWritten(fields: seq<Field>, first: bool, check: bytes)
    requires forall i :: 0 <= i < |fields| ==> Plain(fields[i]) && fields[i].tag != CHECK_SUM_TAG
    requires first && fields != [] ==> fields[0].tag == MSG_TYPE_TAG
    requires SOH !in check
    ensures ScanBody(BodyBytes(fields) + FieldBytes(CheckField(check)), first) ==
            BodyScan(fields, |BodyBytes(fields)|, check, |BodyBytes(fields)| + |FieldBytes(CheckField(check))|)
  {
    hide Scan, FieldBytes;
    var last := FieldBytes(CheckField(check));
    var s := BodyBytes(fields) + last;
    if fields == [] {
      assert s == last + [];
      ScanWritten(CheckField(check), []);
    } else {
      var field := fields[0];
      var rest := BodyBytes(fields[1..]) + last;
      assert s == FieldBytes(field) + rest;
      ScanWritten(field, rest);
      assert s[|FieldBytes(field)|..] == rest;
      ScanBodyWritten(fields[1..], false, check);
    }
  }

  lemma LabelBytes(digits: bytes)
    ensures FieldBytes(Field(BEGIN_STRING_TAG, BEGIN_STRING)) == PREFIX
    ensures FieldBytes(Field(BODY_LENGTH_TAG, digits)) == LENGTH_LABEL + digits + [SOH]
  {
    assert Digits(8) == [56] && Digits(9) == [57];
  }

  /** How the two leading fields of a built message read. */
  lemma EnvelopeReads(length: nat, rest: bytes)
    ensures var begin := Field(BEGIN_STRING_TAG, BEGIN_STRING);
            var raw := PREFIX + LENGTH_LABEL + Digits(length) + [SOH] + rest;
            && Scan(raw) == Scanned(begin, |PREFIX|)
            && Scan(raw[|PREFIX|..]) == Scanned(Field(BODY_LENGTH_TAG, Digits(length)), 2 + |Digits(length)| + 1)
  {
    hide Scan, FieldBytes, Digits;
    var begin := Field(BEGIN_STRING_TAG, BEGIN_STRING);
    var digits := Digits(length);
    var size := Field(BODY_LENGTH_TAG, digits);
    var raw := PREFIX + LENGTH_LABEL + digits + [SOH] + rest;
    LabelBytes(digits);
    ScanWritten(begin, LENGTH_LABEL + digits + [SOH] + rest);
    assert raw == FieldBytes(begin) + (LENGTH_LABEL + digits + [SOH] + rest);
    ScanWritten(size, rest);
    assert raw[|PREFIX|..] == FieldBytes(size) + rest;
  }

  /** The fields a built message parses to. */
  function AsParsed(fields: seq<Field>): ParsedMessage {
    ParsedMessage([Field(BEGIN_STRING_TAG, BEGIN_STRING), Field(BODY_LENGTH_TAG, Digits(|BodyBytes(fields)|))] + fields
                  + [CheckField(CheckSum(Head(fields)))], MsgType(fields))
  }

  lemma {:induction false} RoundTrip(fields: seq<Field>)
    requires ValidBody(fields)
    ensures Parse(EncodeMessage(fields)) == Parsed(AsParsed(fields)) && AsParsed(fields).BodyFields() == fields
  {
    hide Scan, ScanBody, BodyBytes, Digits, CheckSum, MsgType, Value;
    var raw, body, check := EncodeMessage(fields), BodyBytes(fields), CheckSum(Head(fields));
    var digits := Digits(|body|);
    var start := |PREFIX| + 2 + |digits| + 1;
    var tail := FieldBytes(CheckField(check));
    CheckFieldBytes(check);
    EnvelopeReads(|body|, body + tail);
    assert raw == PREFIX + LENGTH_LABEL + digits + [SOH] + (body + tail);
    assert raw[start..] == body + tail;
    ValueOfDigits(|body|);
    ScanBodyWritten(fields, true, check);
    assert raw[..start + |body|] == Head(fields);
    assert AsParsed(fields).BodyFields() == fields;
  }

  // --------------------------------------------------------------------------- what parses is well formed

  lemma {:induction false} ShortestDigits(s: bytes)
    requires s != [] && AllDigits(s)
    ensures |Digits(Value(s))| <= |s|
  {
    if |s| > 1 {
      ShortestDigits(s[..|s| - 1]);
    } else {
      assert s[..0] == [];
    }
  }

  /** A field never reads back longer than it was: only leading zeros of the tag are lost. */
  lemma ScannedIsNoLonger(s: bytes)
    requires Scan(s).Scanned?
    ensures Plain(Scan(s).field) && |FieldBytes(Scan(s).field)| <= Scan(s).size
  {
    hide Digits, Value, Scan;
    ScanIsExact(s);
    var f := Scan(s).field;
    var tag: bytes :| tag != [] && AllDigits(tag) && Value(tag) == f.tag
                      && s[..Scan(s).size] == tag + [EQUALS] + f.value + [SOH];
    ShortestDigits(tag);
    assert |s[..Scan(s).size]| == |tag| + 1 + |f.value| + 1;
  }

  lemma {:induction false} ScannedBody(s: bytes, first: bool)
    requires ScanBody(s, first).BodyScan?
    ensures var r := ScanBody(s, first);
            && (forall i :: 0 <= i < |r.fields| ==> Plain(r.fields[i]) && r.fields[i].tag != CHECK_SUM_TAG)
            && (first && r.fields != [] ==> r.fields[0].tag == MSG_TYPE_TAG)
            && |BodyBytes(r.fields)| <= r.checkAt
    decreases |s|
  {
    hide Scan, FieldBytes, Plain;
    var field, size := Scan(s).field, Scan(s).size;
    ScannedIsNoLonger(s);
    if field.tag != CHECK_SUM_TAG {
      ScannedBody(s[size..], false);
      var inner := ScanBody(s[size..], false).fields;
      assert ScanBody(s, first).fields[1..] == inner;
    }
  }

  /** Every accepted message has a valid body, and its type is that body's. */
  lemma ParsedIsValid(raw: bytes)
    requires Parse(raw).Parsed?
    ensures var m := Parse(raw).message;
            ValidBody(m.BodyFields()) && m.msgType == MsgType(m.BodyFields()) && |m.fields| == |m.BodyFields()| + 3
  {
    hide Scan, ScanBody, BodyBytes, CheckSum, MsgType, Value, Plain;
    var m := Parse(raw).message;
    var size := Scan(raw).size;
    var start := size + Scan(raw[size..]).size;
    ScannedBody(raw[start..], true);
    var fields := ScanBody(raw[start..], true).fields;
    NoTypeWithoutFields(fields);
    assert m.BodyFields() == fields;
  }

  lemma NoTypeWithoutFields(fields: seq<Field>)
    ensures fields == [] ==> MsgType(fields) == []
  {
  }

  /** Parsing undoes building on exactly the valid bodies. */
  lemma {:induction false} RoundTripsExactlyWhenValid(fields: seq<Field>)
    ensures ValidBody(fields) <==>
            Parse(EncodeMessage(fields)).Parsed? && Parse(EncodeMessage(fields)).message.BodyFields() == fields
  {
    hide Parse, EncodeMessage, ValidBody, AsParsed;
    if ValidBody(fields) {
      RoundTrip(fields);
    }
    if Parse(EncodeMessage(fields)).Parsed? {
      ParsedIsValid(EncodeMessage(fields));
    }
  }

  /** Building from what was parsed gives a message that parses to the same fields: only leading zeros of
      tags and of BodyLength are not kept. */
  lemma {:induction false} RebuildingKeepsTheFields(raw: bytes)
    requires Parse(raw).Parsed?
    ensures var m := Parse(raw).message;
            var again := Parse(EncodeMessage(m.BodyFields()));
            again.Parsed? && again.message.BodyFields() == m.BodyFields() && again.message.msgType == m.msgType
  {
    hide Parse, EncodeMessage, ValidBody, MsgType;
    ParsedIsValid(raw);
    RoundTrip(Parse(raw).message.BodyFields());
  }

  // -------------------------------------------------------------------------------- the source's own form

  /** A body scan continued behind fields already read. */
  function Behind(fields: seq<Field>, size: nat, scan: BodyScan): BodyScan {
    match scan
    case BodyFailed(error) => BodyFailed(error)
    case BodyScan(more, checkAt, check, end) => BodyScan(fields + more, size + checkAt, check, size + end)
  }

  /** Where the reading of a body ends. */
  lemma BodyStops(s: bytes, first: bool)
    ensures s == [] ==> ScanBody(s, first) == BodyFailed(NoCheckSum)
    ensures s != [] && Scan(s).ScanFailed? ==> ScanBody(s, first) == BodyFailed(Scan(s).error)
    ensures s != [] && Scan(s).Scanned? && Scan(s).field.tag == CHECK_SUM_TAG ==>
              ScanBody(s, first) == BodyScan([], 0, Scan(s).field.value, Scan(s).size)
    ensures first && s != [] && Scan(s).Scanned? && Scan(s).field.tag !in {CHECK_SUM_TAG, MSG_TYPE_TAG} ==>
              ScanBody(s, first) == BodyFailed(MsgTypeNotFirst)
  {
  }

  lemma BehindOneMore(s: bytes, fields: seq<Field>, size: nat, first: bool)
    requires s != [] && Scan(s).Scanned? && Scan(s).field.tag != CHECK_SUM_TAG
    requires first ==> Scan(s).field.tag == MSG_TYPE_TAG
    ensures Behind(fields, size, ScanBody(s, first)) ==
            Behind(fields + [Scan(s).field], size + Scan(s).size, ScanBody(s[Scan(s).size..], false))
  {
    hide Scan;
    var rest := ScanBody(s[Scan(s).size..], false);
    if rest.BodyScan? {
      assert fields + ([Scan(s).field] + rest.fields) == (fields + [Scan(s).field]) + rest.fields;
    }
  }

  lemma MsgTypeAppend(fields: seq<Field>, field: Field)
    ensures MsgType(fields + [field]) == if field.tag == MSG_TYPE_TAG then field.value else MsgType(fields)
  {
    assert (fields + [field])[..|fields|] == fields;
  }

  /** The loop of ParseMessage: fields are read one by one up to the CheckSum field. */
  method ReadBody(raw: bytes, bodyStart: nat) returns (r: BodyScan, msgType: bytes)
    requires bodyStart <= |raw|
    ensures r == ScanBody(raw[bodyStart..], true)
    ensures r.BodyScan? ==> msgType == MsgType(r.fields)
  {
    hide Scan, MsgType, ScanBody;
    var fields: seq<Field> := [];
    var offset := bodyStart;
    msgType := [];
    NoTypeWithoutFields(fields);
    assert Behind([], 0, ScanBody(raw[bodyStart..], true)) == ScanBody(raw[bodyStart..], true);
    while offset < |raw|
      invariant bodyStart <= offset <= |raw|
      invariant msgType == MsgType(fields)
      invariant ScanBody(raw[bodyStart..], true) == Behind(fields, offset - bodyStart, ScanBody(raw[offset..], fields == []))
    {
      var one := ScanField(raw, offset);
      BodyStops(raw[offset..], fields == []);
      if one.ScanFailed? {
        return BodyFailed(one.error), msgType;
      }
      if one.field.tag == CHECK_SUM_TAG {
        assert fields + [] == fields;
        return BodyScan(fields, offset - bodyStart, one.field.value, offset + one.size - bodyStart), msgType;
      }
      if fields == [] && one.field.tag != MSG_TYPE_TAG {
        return BodyFailed(MsgTypeNotFirst), msgType;
      }
      BehindOneMore(raw[offset..], fields, offset - bodyStart, fields == []);
      assert raw[offset..][one.size..] == raw[offset + one.size..];
      MsgTypeAppend(fields, one.field);
      if one.field.tag == MSG_TYPE_TAG {
        msgType := one.field.value;
      }
      fields := fields + [one.field];
      offset := offset + one.size;
    }
    BodyStops(raw[offset..], fields == []);
    return BodyFailed(NoCheckSum), msgType;
  }

  method ParseChecked(raw: bytes, bodyStart: nat, declared: nat, lengthText: bytes) returns (r: ParseResult)
    requires bodyStart <= |raw|
    ensures var body := ScanBody(raw[bodyStart..], true);
            r == if body.BodyFailed? then ParseFailed(body.error)
                 else CheckEnvelope(raw, bodyStart, declared, lengthText, body)
  {
    hide Scan, ScanBody, MsgType, CheckSum, Value, Sum;
    var body, msgType := ReadBody(raw, bodyStart);
    if body.BodyFailed? {
      return ParseFailed(body.error);
    }
    if bodyStart + body.end != |raw| {
      return ParseFailed(TrailingBytes);
    }
    if msgType == [] {
      return ParseFailed(NoMsgType);
    }
    if declared != body.checkAt {
      return ParseFailed(BodyLengthMismatch);
    }
    if |body.check| != 3 {
      return ParseFailed(CheckSumSize);
    }
    var expected := FormatChecksum(raw[..bodyStart + body.checkAt]);
    if body.check != expected {
      return ParseFailed(CheckSumMismatch);
    }
    r := Parsed(ParsedMessage([Field(BEGIN_STRING_TAG, BEGIN_STRING), Field(BODY_LENGTH_TAG, lengthText)] + body.fields
                              + [Field(CHECK_SUM_TAG, body.check)], msgType));
  }
}
