/** Fields of a FIX message as bytes: tag, '=', value, SOH (src/feed_handler/fix/fix_message.cpp; FIX 4.4
    Volume 1, "FIX Tag=Value Syntax"). */
module FixFields {
  import opened BookTypes
  import opened Bytes
  import opened Decimal

  const SOH: byte := 1
  const EQUALS: byte := 61

  /** One past the largest C++ int. */
  const TAG_LIMIT := 0x8000_0000
  const SIZE_LIMIT := 0x1_0000_0000_0000_0000

  datatype Field = Field(tag: int, value: bytes)

  datatype FixError =
    | NoEquals | EmptyTag | TagNotANumber | TagTooBig | NotTerminated
    | NotBeginString | WrongBeginString | NoBodyLength | BodyLengthNotANumber
    | MsgTypeNotFirst | NoCheckSum | TrailingBytes | NoMsgType | BodyLengthMismatch | CheckSumSize | CheckSumMismatch
    | NoGroupCount | BadGroupCount

  /** The first place of a byte, or the length when it does not occur. */
  function Find(s: bytes, b: byte): (at: nat)
    ensures at <= |s| && (at < |s| ==> s[at] == b)
    ensures forall i :: 0 <= i < at ==> s[i] != b
  {
    if s == [] || s[0] == b then 0 else 1 + Find(s[1..], b)
  }

  lemma FindIs(s: bytes, b: byte, at: nat)
    requires at < |s| && s[at] == b && forall i :: 0 <= i < at ==> s[i] != b
    ensures Find(s, b) == at
  {
  }

  lemma FindNone(s: bytes, b: byte)
    requires b !in s
    ensures Find(s, b) == |s|
  {
  }

  // ------------------------------------------------------------------------------------- writing a field

  function FieldBytes(field: Field): bytes {
    Render(field.tag) + [EQUALS] + field.value + [SOH]
  }

  function BodyBytes(fields: seq<Field>): bytes {
    if fields == [] then [] else FieldBytes(fields[0]) + BodyBytes(fields[1..])
  }

  lemma {:induction false} BodyAppend(fields: seq<Field>, more: seq<Field>)
    ensures BodyBytes(fields + more) == BodyBytes(fields) + BodyBytes(more)
  {
    hide FieldBytes;
    if fields == [] {
      assert fields + more == more;
    } else {
      var rest := fields[1..];
      BodyAppend(rest, more);
      assert (fields + more)[1..] == rest + more;
      var first, middle, last := FieldBytes(fields[0]), BodyBytes(rest), BodyBytes(more);
      assert first + (middle + last) == (first + middle) + last;
    }
  }

  lemma BodyOne(field: Field)
    ensures BodyBytes([field]) == FieldBytes(field)
  {
    assert [field][1..] == [];
  }

  /** A field that reads back as itself: an int tag, a value without SOH. */
  predicate Plain(field: Field) {
    0 <= field.tag < TAG_LIMIT && SOH !in field.value
  }

  // ------------------------------------------------------------------------------------- reading a field

  /** A field read off the front of the bytes, and how many bytes it took. */
  datatype ScanResult = Scanned(field: Field, size: nat) | ScanFailed(error: FixError)

  function Scan(s: bytes): (r: ScanResult)
    ensures r.Scanned? ==> 0 < r.size <= |s|
  {
    var equals := Find(s, EQUALS);
    if equals == |s| then ScanFailed(NoEquals)
    else if equals == 0 then ScanFailed(EmptyTag)
    else if !AllDigits(s[..equals]) then ScanFailed(TagNotANumber)
    else if Value(s[..equals]) >= TAG_LIMIT then ScanFailed(TagTooBig)
    else
      var after := s[equals + 1..];
      var length := Find(after, SOH);
      if length == |after| then ScanFailed(NotTerminated)
      else Scanned(Field(Value(s[..equals]), after[..length]), equals + 1 + length + 1)
  }

  /** A written field reads back whatever follows it; '=' in its value is no separator. */
  lemma ScanWritten(field: Field, rest: bytes)
    requires Plain(field)
    ensures Scan(FieldBytes(field) + rest) == Scanned(field, |FieldBytes(field)|)
  {
    hide Digits, Value;
    var tag := Digits(field.tag);
    var s := FieldBytes(field) + rest;
    assert s == tag + [EQUALS] + field.value + [SOH] + rest;
    FindIs(s, EQUALS, |tag|);
    assert s[..|tag|] == tag;
    ValueOfDigits(field.tag);
    var after := s[|tag| + 1..];
    assert after == field.value + [SOH] + rest;
    FindIs(after, SOH, |field.value|);
    assert after[..|field.value|] == field.value;
  }

  /** Whatever is read is a plain field, and what was read is its text: digits that spell the tag, '=', the
      value, SOH. */
  lemma ScanIsExact(s: bytes)
    requires Scan(s).Scanned?
    ensures Plain(Scan(s).field)
    ensures exists tag: bytes ::
              && tag != [] && AllDigits(tag) && Value(tag) == Scan(s).field.tag
              && s[..Scan(s).size] == tag + [EQUALS] + Scan(s).field.value + [SOH]
  {
    hide Value;
    var equals := Find(s, EQUALS);
    var tag := s[..equals];
    var after := s[equals + 1..];
    var length := Find(after, SOH);
    assert s[..Scan(s).size] == tag + [EQUALS] + after[..length] + [SOH];
  }

  // ------------------------------------------------------------------------------------ reading a number

  /** A whole value as a signed 64-bit decimal: an optional '-', then digits and nothing else. */
  function ToInt(value: bytes): (n: Option<int>) {
    var negative := value != [] && value[0] == MINUS;
    var digits := if negative then value[1..] else value;
    if digits == [] || !AllDigits(digits) then None
    else
      var size: int := Value(digits);
      var n := if negative then -size else size;
      if -0x8000_0000_0000_0000 <= n < 0x8000_0000_0000_0000 then Some(n) else None
  }

  /** Every 64-bit number reads back from its decimal text. */
  lemma ToIntOfRender(n: int)
    requires -0x8000_0000_0000_0000 <= n < 0x8000_0000_0000_0000
    ensures ToInt(Render(n)) == Some(n)
  {
    hide Digits, Value;
    if n < 0 {
      ValueOfDigits(-n);
      assert Render(n)[1..] == Digits(-n);
    } else {
      ValueOfDigits(n);
      assert IsDigit(Digits(n)[0]);
    }
  }

  /** The first value under a tag. */
  function FirstValue(fields: seq<Field>, tag: int): Option<bytes> {
    if fields == [] then None else if fields[0].tag == tag then Some(fields[0].value) else FirstValue(fields[1..], tag)
  }

  lemma FirstValueStep(fields: seq<Field>, tag: int)
    requires fields != []
    ensures FirstValue(fields, tag) == if fields[0].tag == tag then Some(fields[0].value) else FirstValue(fields[1..], tag)
  {
  }

  lemma {:induction false} FirstValueAt(fields: seq<Field>, tag: int, at: nat)
    requires at < |fields| && fields[at].tag == tag && forall i :: 0 <= i < at ==> fields[i].tag != tag
    ensures FirstValue(fields, tag) == Some(fields[at].value)
    decreases at
  {
    if at > 0 {
      FirstValueAt(fields[1..], tag, at - 1);
    }
  }

  function FirstInt(fields: seq<Field>, tag: int): Option<int> {
    match FirstValue(fields, tag)
    case None => None
    case Some(value) => ToInt(value)
  }

  // -------------------------------------------------------------------------------- the source's own form

  method FindFrom(s: bytes, b: byte, from: nat) returns (at: nat)
    requires from <= |s|
    ensures at == from + Find(s[from..], b)
  {
    at := from;
    while at < |s| && s[at] != b
      invariant from <= at <= |s|
      invariant forall i :: from <= i < at ==> s[i] != b
    {
      at := at + 1;
    }
    if at < |s| {
      FindIs(s[from..], b, at - from);
    } else {
      FindNone(s[from..], b);
    }
  }

  /** The digit check of ScanField. */
  method DigitsOnly(raw: bytes, from: nat, to: nat) returns (ok: bool)
    requires from <= to <= |raw|
    ensures ok <==> AllDigits(raw[from..to])
  {
    var index := from;
    while index < to
      invariant from <= index <= to
      invariant forall i :: from <= i < index ==> IsDigit(raw[i])
    {
      if !IsDigit(raw[index]) {
        assert raw[from..to][index - from] == raw[index];
        return false;
      }
      index := index + 1;
    }
    ok := true;
  }

  /** ScanField reads at an offset of the message what Scan reads off the front of the rest. */
  method ScanField(raw: bytes, offset: nat) returns (r: ScanResult)
    requires offset <= |raw|
    ensures r == Scan(raw[offset..])
  {
    hide Value, AllDigits;
    var s := raw[offset..];
    var equals := FindFrom(raw, EQUALS, offset);
    if equals == |raw| {
      return ScanFailed(NoEquals);
    }
    if equals == offset {
      return ScanFailed(EmptyTag);
    }
    assert raw[offset..equals] == s[..equals - offset];
    var digits := DigitsOnly(raw, offset, equals);
    if !digits {
      return ScanFailed(TagNotANumber);
    }
    var tag := Value(raw[offset..equals]);
    if tag >= TAG_LIMIT {
      return ScanFailed(TagTooBig);
    }
    assert raw[equals + 1..] == s[equals - offset + 1..];
    var terminator := FindFrom(raw, SOH, equals + 1);
    if terminator == |raw| {
      return ScanFailed(NotTerminated);
    }
    assert raw[equals + 1..terminator] == s[equals - offset + 1..][..terminator - equals - 1];
    r := Scanned(Field(tag, raw[equals + 1..terminator]), terminator + 1 - offset);
  }
}
