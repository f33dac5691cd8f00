/** Exactly which bytes ParseMessage accepts, told without the parser: fields of digits, '=', value and SOH,
    with a BodyLength that counts the bytes between it and the CheckSum, and a CheckSum that is their byte
    sum (src/feed_handler/fix/fix_message.cpp; FIX 4.4 Volume 1, "FIX Tag=Value Syntax"). It follows that a
    message with any one byte changed is refused. */
module FixEnvelope {
  import opened BookTypes
  import opened Bytes
  import opened Decimal
  import opened FixFields
  import opened FixMessages

  /** One field as it stands on the wire: the tag may have leading zeros. */
  datatype Piece = Piece(tagText: bytes, value: bytes)

  predicate GoodPiece(p: Piece) {
    p.tagText != [] && AllDigits(p.tagText) && Value(p.tagText) < TAG_LIMIT && SOH !in p.value
  }

  predicate AllGood(pieces: seq<Piece>) {
    forall i :: 0 <= i < |pieces| ==> GoodPiece(pieces[i])
  }

  function Text(p: Piece): bytes {
    p.tagText + [EQUALS] + p.value + [SOH]
  }

  function Texts(pieces: seq<Piece>): bytes {
    if pieces == [] then [] else Text(pieces[0]) + Texts(pieces[1..])
  }

  function FieldOf(p: Piece): Field
    requires GoodPiece(p)
  {
    Field(Value(p.tagText), p.value)
  }

  function FieldsOf(pieces: seq<Piece>): (fields: seq<Field>)
    requires AllGood(pieces)
    ensures |fields| == |pieces|
    ensures forall i :: 0 <= i < |pieces| ==> fields[i] == FieldOf(pieces[i])
  {
    seq(|pieces|, i requires 0 <= i < |pieces| => FieldOf(pieces[i]))
  }

  /** The body between BodyLength and CheckSum: MsgType first, no CheckSum in it, and a type to it. */
  predicate GoodBody(body: seq<Piece>) {
    && AllGood(body) && body != []
    && Value(body[0].tagText) == MSG_TYPE_TAG
    && (forall i :: 0 <= i < |body| ==> Value(body[i].tagText) != CHECK_SUM_TAG)
    && MsgType(FieldsOf(body)) != []
  }

  predicate GoodBegin(begin: Piece) {
    GoodPiece(begin) && Value(begin.tagText) == BEGIN_STRING_TAG && begin.value == BEGIN_STRING
  }

  /** The length field says how many bytes stand between its SOH and the CheckSum field. */
  predicate GoodLength(length: Piece, body: bytes) {
    && GoodPiece(length) && Value(length.tagText) == BODY_LENGTH_TAG
    && length.value != [] && AllDigits(length.value) && Value(length.value) == |body| < SIZE_LIMIT
  }

  /** The check field spells, in three digits, the byte sum of everything before it. */
  predicate GoodCheck(check: Piece, head: bytes) {
    && GoodPiece(check) && Value(check.tagText) == CHECK_SUM_TAG
    && |check.value| == 3 && AllDigits(check.value) && Value(check.value) == Sum(head) % 256
  }

  datatype Envelope = Envelope(begin: Piece, length: Piece, body: seq<Piece>, check: Piece)

  function HeadOf(e: Envelope): bytes {
    Text(e.begin) + Text(e.length) + Texts(e.body)
  }

  predicate Sealed(raw: bytes, e: Envelope) {
    && raw == HeadOf(e) + Text(e.check)
    && GoodBegin(e.begin) && GoodBody(e.body) && GoodLength(e.length, Texts(e.body)) && GoodCheck(e.check, HeadOf(e))
  }

  // ------------------------------------------------------------------------------------ digits and values

  lemma {:induction false} SameValueSameDigits(a: bytes, b: bytes)
    requires AllDigits(a) && AllDigits(b) && |a| == |b| && Value(a) == Value(b)
    ensures a == b
  {
    if a != [] {
      var n := |a| - 1;
      DigitSplit(Value(a[..n]), DigitOf(a[n]), Value(b[..n]), DigitOf(b[n]));
      SameValueSameDigits(a[..n], b[..n]);
      assert a == a[..n] + [a[n]] && b == b[..n] + [b[n]];
    }
  }

  lemma DigitSplit(x: nat, d: nat, y: nat, e: nat)
    requires x * 10 + d == y * 10 + e && d < 10 && e < 10
    ensures x == y && d == e
  {
  }

  lemma CheckSumSpells(check: bytes, head: bytes)
    ensures check == CheckSum(head) <==> |check| == 3 && AllDigits(check) && Value(check) == Sum(head) % 256
  {
    hide Value, Sum;
    ThreeDigitsValue(Sum(head) % 256);
    if |check| == 3 && AllDigits(check) && Value(check) == Sum(head) % 256 {
      SameValueSameDigits(check, CheckSum(head));
    }
  }

  // ------------------------------------------------------------------------------- reading pieces off bytes

  lemma ScanText(p: Piece, rest: bytes)
    requires GoodPiece(p)
    ensures Scan(Text(p) + rest) == Scanned(FieldOf(p), |Text(p)|)
  {
    hide Value;
    var s := Text(p) + rest;
    assert s == p.tagText + [EQUALS] + p.value + [SOH] + rest;
    FindIs(s, EQUALS, |p.tagText|);
    assert s[..|p.tagText|] == p.tagText;
    var after := s[|p.tagText| + 1..];
    assert after == p.value + [SOH] + rest;
    FindIs(after, SOH, |p.value|);
    assert after[..|p.value|] == p.value;
  }

  lemma Cut(s: bytes) returns (p: Piece)
    requires Scan(s).Scanned?
    ensures GoodPiece(p) && FieldOf(p) == Scan(s).field && s[..Scan(s).size] == Text(p) && |Text(p)| == Scan(s).size
  {
    hide Value, Scan;
    ScanIsExact(s);
    var tag: bytes :| tag != [] && AllDigits(tag) && Value(tag) == Scan(s).field.tag
                      && s[..Scan(s).size] == tag + [EQUALS] + Scan(s).field.value + [SOH];
    p := Piece(tag, Scan(s).field.value);
  }

  lemma FieldsOfFirst(p: Piece, rest: seq<Piece>)
    requires GoodPiece(p) && AllGood(rest)
    ensures AllGood([p] + rest) && FieldsOf([p] + rest) == [FieldOf(p)] + FieldsOf(rest)
    ensures Texts([p] + rest) == Text(p) + Texts(rest)
  {
    assert ([p] + rest)[1..] == rest;
  }

  lemma TakeMore(s: bytes, m: nat, n: nat)
    requires m + n <= |s|
    ensures s[..m + n] == s[..m] + s[m..][..n]
  {
  }

  /** No CheckSum tag among the pieces. */
  predicate NoCheck(pieces: seq<Piece>)
    requires AllGood(pieces)
  {
    forall i :: 0 <= i < |pieces| ==> Value(pieces[i].tagText) != CHECK_SUM_TAG
  }

  /** A body that is read starts with its CheckSum field, or with another one and then a body. */
  lemma BodyStep(s: bytes, first: bool)
    requires ScanBody(s, first).BodyScan?
    ensures Scan(s).Scanned?
    ensures var field, size, r := Scan(s).field, Scan(s).size, ScanBody(s, first);
            if field.tag == CHECK_SUM_TAG then r == BodyScan([], 0, field.value, size)
            else
              && (first ==> field.tag == MSG_TYPE_TAG)
              && (var rest := ScanBody(s[size..], false);
                  rest.BodyScan? && r == BodyScan([field] + rest.fields, size + rest.checkAt, rest.check, size + rest.end))
  {
    hide Scan;
  }

  lemma {:induction false} CutBody(s: bytes, first: bool) returns (pieces: seq<Piece>, check: Piece)
    requires ScanBody(s, first).BodyScan?
    ensures AllGood(pieces) && GoodPiece(check)
    ensures var r := ScanBody(s, first);
            && s[..r.end] == Texts(pieces) + Text(check) && |Texts(pieces)| == r.checkAt
            && FieldsOf(pieces) == r.fields && check.value == r.check
    ensures NoCheck(pieces) && Value(check.tagText) == CHECK_SUM_TAG
    ensures first && pieces != [] ==> Value(pieces[0].tagText) == MSG_TYPE_TAG
    decreases |s|
  {
    hide Scan, Text, Value;
    var p := Cut(s);
    var size := Scan(s).size;
    BodyStep(s, first);
    hide ScanBody;
    if Value(p.tagText) == CHECK_SUM_TAG {
      pieces, check := [], p;
      assert Texts([]) + Text(p) == Text(p);
    } else {
      var more, last := CutBody(s[size..], false);
      var r := ScanBody(s[size..], false);
      pieces, check := [p] + more, last;
      FieldsOfFirst(p, more);
      TakeMore(s, size, r.end);
      assert Text(p) + (Texts(more) + Text(last)) == (Text(p) + Texts(more)) + Text(last);
    }
  }

  lemma {:induction false} ScanTexts(pieces: seq<Piece>, check: Piece, first: bool)
    requires AllGood(pieces) && GoodPiece(check) && NoCheck(pieces) && Value(check.tagText) == CHECK_SUM_TAG
    requires first && pieces != [] ==> Value(pieces[0].tagText) == MSG_TYPE_TAG
    ensures ScanBody(Texts(pieces) + Text(check), first) ==
            BodyScan(FieldsOf(pieces), |Texts(pieces)|, check.value, |Texts(pieces)| + |Text(check)|)
  {
    hide Scan, Text, Value;
    var s := Texts(pieces) + Text(check);
    TextNotEmpty(check);
    if pieces == [] {
      assert s == Text(check) + [];
      ScanText(check, []);
    } else {
      var p, rest := pieces[0], pieces[1..];
      var tail := Texts(rest) + Text(check);
      assert s == Text(p) + tail;
      ScanText(p, tail);
      assert s[|Text(p)|..] == tail;
      ScanTexts(rest, check, false);
      FieldsOfFirst(p, rest);
      assert pieces == [p] + rest;
    }
  }

  lemma TextNotEmpty(p: Piece)
    ensures Text(p) != []
  {
  }

  // ------------------------------------------------------------------------------------ exactly these

  function AllFields(e: Envelope): seq<Field>
    requires GoodPiece(e.begin) && GoodPiece(e.length) && AllGood(e.body) && GoodPiece(e.check)
  {
    [FieldOf(e.begin), FieldOf(e.length)] + FieldsOf(e.body) + [FieldOf(e.check)]
  }

  lemma SealedParses(raw: bytes, e: Envelope)
    requires Sealed(raw, e)
    ensures Parse(raw) == Parsed(ParsedMessage(AllFields(e), MsgType(FieldsOf(e.body))))
  {
    hide Scan, ScanBody, Text, Texts, Value, Sum, CheckSum, MsgType;
    var tail := Texts(e.body) + Text(e.check);
    ScanText(e.begin, Text(e.length) + tail);
    assert raw == Text(e.begin) + (Text(e.length) + tail);
    ScanText(e.length, tail);
    var size := |Text(e.begin)|;
    assert raw[size..] == Text(e.length) + tail;
    var start := size + |Text(e.length)|;
    assert raw[start..] == tail;
    ScanTexts(e.body, e.check, true);
    CheckSumSpells(e.check.value, HeadOf(e));
    assert raw[..start + |Texts(e.body)|] == HeadOf(e);
    assert ToSize(e.length.value) == Some(|Texts(e.body)|);
  }

  lemma ParsedIsSealed(raw: bytes) returns (e: Envelope)
    requires Parse(raw).Parsed?
    ensures Sealed(raw, e)
  {
    hide Scan, ScanBody, Text, Texts, Value, Sum, CheckSum, MsgType;
    var size := Scan(raw).size;
    var begin := Cut(raw);
    var length := Cut(raw[size..]);
    var start := size + Scan(raw[size..]).size;
    var body, check := CutBody(raw[start..], true);
    var r := ScanBody(raw[start..], true);
    NoTypeWithoutFields(FieldsOf(body));
    e := Envelope(begin, length, body, check);
    assert raw[start..][..r.end] == raw[start..];
    assert raw == raw[..size] + raw[size..];
    assert raw[size..] == raw[size..][..Scan(raw[size..]).size] + raw[start..];
    PutTogether(raw, Text(begin), Text(length), Texts(body), Text(check));
    CheckSumSpells(check.value, HeadOf(e));
    assert raw[..start + r.checkAt] == HeadOf(e);
  }

  lemma PutTogether(raw: bytes, a: bytes, b: bytes, c: bytes, d: bytes)
    requires raw == a + (b + (c + d))
    ensures raw == a + b + c + d
  {
  }

  /** ParseMessage accepts exactly the sealed messages, and reads exactly their fields. */
  lemma AcceptedExactly(raw: bytes)
    ensures Parse(raw).Parsed? <==> exists e :: Sealed(raw, e)
    ensures forall e :: Sealed(raw, e) ==> Parse(raw) == Parsed(ParsedMessage(AllFields(e), MsgType(FieldsOf(e.body))))
  {
    hide Parse, MsgType, Value, Text, Texts;
    if Parse(raw).Parsed? {
      var e := ParsedIsSealed(raw);
    }
    forall e | Sealed(raw, e) ensures Parse(raw) == Parsed(ParsedMessage(AllFields(e), MsgType(FieldsOf(e.body)))) {
      SealedParses(raw, e);
    }
  }

  /** The same, seen from the end of the message: whatever is accepted is its head, which runs up to the
      SOH before the CheckSum tag, that tag, '=', three digits spelling the head's byte sum, and SOH. */
  lemma AcceptedSumsUp(raw: bytes) returns (head: bytes, tag: bytes, digits: bytes)
    requires Parse(raw).Parsed?
    ensures raw == head + tag + [EQUALS] + digits + [SOH]
    ensures AllDigits(tag) && Value(tag) == CHECK_SUM_TAG
    ensures |digits| == 3 && AllDigits(digits) && Value(digits) == Sum(head) % 256
  {
    hide Parse, Value, Sum;
    var e := ParsedIsSealed(raw);
    head, tag, digits := HeadOf(e), e.check.tagText, e.check.value;
    assert raw == head + (tag + [EQUALS] + digits + [SOH]);
  }

  // ---------------------------------------------------------------------------- one byte changed is noticed

  /** The head ends at `h` and its last field starts at `f`; what follows is the CheckSum field. */
  predicate TailAt(raw: bytes, f: nat, h: nat) {
    var n := |raw|;
    && f < h < n - 5
    && LastFieldAt(raw, f, h)
    && AllDigits(raw[h..n - 5]) && Value(raw[h..n - 5]) == CHECK_SUM_TAG
    && raw[n - 5] == EQUALS && raw[n - 1] == SOH
    && AllDigits(raw[n - 4..n - 1]) && Value(raw[n - 4..n - 1]) == Sum(raw[..h]) % 256
  }

  predicate LastFieldAt(raw: bytes, f: nat, h: nat)
    requires f < h <= |raw|
  {
    && raw[h - 1] == SOH && (forall k :: f <= k < h - 1 ==> raw[k] != SOH)
    && exists k :: f <= k < h - 1 && raw[k] == EQUALS
  }

  lemma {:induction false} LastText(pieces: seq<Piece>)
    requires pieces != []
    ensures var n := |pieces| - 1; Texts(pieces) == Texts(pieces[..n]) + Text(pieces[n])
  {
    hide Text;
    var n := |pieces| - 1;
    if n == 0 {
      assert pieces[1..] == [] && pieces[..0] == [];
    } else {
      LastText(pieces[1..]);
      assert pieces[1..][..n - 1] == pieces[..n][1..];
      assert Text(pieces[0]) + (Texts(pieces[1..n]) + Text(pieces[n])) == (Text(pieces[0]) + Texts(pieces[1..n])) + Text(pieces[n]);
    }
  }

  lemma LastFieldThere(front: bytes, last: Piece, rest: bytes)
    requires GoodPiece(last)
    ensures LastFieldAt(front + Text(last) + rest, |front|, |front + Text(last)|)
  {
    hide Value;
    var raw, f, h := front + Text(last) + rest, |front|, |front + Text(last)|;
    assert raw == front + last.tagText + [EQUALS] + last.value + [SOH] + rest;
    assert raw[f + |last.tagText|] == EQUALS;
    forall k | f <= k < h - 1 ensures raw[k] != SOH {
      if k < f + |last.tagText| {
        assert raw[k] == last.tagText[k - f];
      } else if k > f + |last.tagText| {
        assert raw[k] == last.value[k - f - |last.tagText| - 1];
      }
    }
  }

  lemma TailOf(raw: bytes) returns (f: nat, h: nat)
    requires Parse(raw).Parsed?
    ensures TailAt(raw, f, h)
  {
    hide Parse, Value, Sum, Texts, MsgType, LastFieldAt;
    var e := ParsedIsSealed(raw);
    var n := |e.body| - 1;
    var last, tag, digits := e.body[n], e.check.tagText, e.check.value;
    LastText(e.body);
    var front := Text(e.begin) + Text(e.length) + Texts(e.body[..n]);
    assert HeadOf(e) == front + Text(last);
    f, h := |front|, |HeadOf(e)|;
    LastFieldThere(front, last, Text(e.check));
    TailParts(raw, HeadOf(e), tag, digits);
  }

  lemma TailParts(raw: bytes, head: bytes, tag: bytes, digits: bytes)
    requires raw == head + (tag + [EQUALS] + digits + [SOH]) && |digits| == 3
    ensures |head| + |tag| == |raw| - 5
    ensures raw[..|head|] == head && raw[|head|..|raw| - 5] == tag && raw[|raw| - 4..|raw| - 1] == digits
    ensures raw[|raw| - 5] == EQUALS && raw[|raw| - 1] == SOH
  {
  }

  lemma {:induction false} SumChanged(s: bytes, i: nat, b: byte)
    requires i < |s|
    ensures Sum(s[i := b]) == Sum(s) - s[i] as nat + b as nat
  {
    var n := |s| - 1;
    if i == n {
      assert s[i := b][..n] == s[..n];
    } else {
      SumChanged(s[..n], i, b);
      assert s[i := b][..n] == s[..n][i := b];
    }
  }

  lemma SameLowByte(x: nat, a: byte, b: byte, y: nat)
    requires y == x - a as nat + b as nat && y % 256 == x % 256
    ensures a == b
  {
    assert (y - x) % 256 == 0;
  }

  lemma TagDigits(raw: bytes, f: nat, h: nat)
    requires TailAt(raw, f, h)
    ensures forall j :: h <= j < |raw| - 5 ==> IsDigit(raw[j])
  {
    hide Value, Sum;
    forall j | h <= j < |raw| - 5 ensures IsDigit(raw[j]) {
      assert raw[h..|raw| - 5][j - h] == raw[j];
    }
  }

  /** A head that ends at `h` does not end earlier when one byte is changed: the digits of the tag would
      have to run over the '=' of the last field. */
  lemma HeadEndsNoEarlier(raw: bytes, other: bytes, i: nat, f: nat, h: nat, k: nat)
    requires |other| == |raw| && f < h < |raw| - 5 && 0 < k < |raw| - 5 && LastFieldAt(raw, f, h)
    requires forall j :: 0 <= j < |raw| && j != i ==> other[j] == raw[j]
    requires other[k - 1] == SOH && forall j :: k <= j < |raw| - 5 ==> IsDigit(other[j])
    ensures h <= k
  {
    var q :| f <= q < h - 1 && raw[q] == EQUALS;
    assert k <= h - 1 ==> i == h - 1;
    assert other[q] == EQUALS || i == q;
  }

  /** Changing one byte does not move the end of the head. */
  lemma SameHeadEnd(raw: bytes, i: nat, b: byte, f: nat, h: nat, g: nat, k: nat)
    requires i < |raw| && TailAt(raw, f, h) && TailAt(raw[i := b], g, k)
    ensures h <= k
  {
    hide Value, Sum;
    TagDigits(raw[i := b], g, k);
    HeadEndsNoEarlier(raw, raw[i := b], i, f, h, k);
  }

  /** Two accepted messages that differ at most at one byte do not differ. */
  lemma SameByte(raw: bytes, i: nat, b: byte, f: nat, h: nat, g: nat)
    requires i < |raw| && TailAt(raw, f, h) && TailAt(raw[i := b], g, h)
    ensures raw[i] == b
  {
    hide Value, Sum, LastFieldAt;
    var other, n := raw[i := b], |raw|;
    if i < h {
      assert other[..h] == raw[..h][i := b];
      assert other[n - 4..n - 1] == raw[n - 4..n - 1];
      SumChanged(raw[..h], i, b);
      SameLowByte(Sum(raw[..h]), raw[i], b, Sum(other[..h]));
    } else if i < n - 5 {
      SameValueSameDigits(raw[h..n - 5], other[h..n - 5]);
      assert raw[h..n - 5][i - h] == other[h..n - 5][i - h];
    } else if n - 4 <= i < n - 1 {
      assert other[..h] == raw[..h];
      SameValueSameDigits(raw[n - 4..n - 1], other[n - 4..n - 1]);
      assert raw[n - 4..n - 1][i - (n - 4)] == other[n - 4..n - 1][i - (n - 4)];
    }
  }

  /** An accepted message with any one byte changed, wherever and to whatever, is refused. */
  lemma AnyOneByteChangedIsRefused(raw: bytes, i: nat, b: byte)
    requires Parse(raw).Parsed? && i < |raw|
    ensures Parse(raw[i := b]).Parsed? <==> b == raw[i]
  {
    hide Parse, TailAt;
    var other := raw[i := b];
    if b == raw[i] {
      assert other == raw;
    }
    if Parse(other).Parsed? {
      var f, h := TailOf(raw);
      var g, k := TailOf(other);
      SameHeadEnd(raw, i, b, f, h, g, k);
      assert other[i := raw[i]] == raw;
      SameHeadEnd(other, i, raw[i], g, k, f, h);
      SameByte(raw, i, b, f, h, g);
    }
  }

  // -------------------------------------------------------------------------------- the source's own form

  method ParseMessage(raw: bytes) returns (r: ParseResult)
    ensures r == Parse(raw)
    ensures r.Parsed? <==> exists e :: Sealed(raw, e)
    ensures forall e :: Sealed(raw, e) ==> r == Parsed(ParsedMessage(AllFields(e), MsgType(FieldsOf(e.body))))
  {
    AcceptedExactly(raw);
    hide Scan, ScanBody, MsgType, CheckSum, Value, Sealed;
    var begin := ScanField(raw, 0);
    assert raw[0..] == raw;
    if begin.ScanFailed? {
      return ParseFailed(begin.error);
    }
    if begin.field.tag != BEGIN_STRING_TAG {
      return ParseFailed(NotBeginString);
    }
    if begin.field.value != BEGIN_STRING {
      return ParseFailed(WrongBeginString);
    }
    var length := ScanField(raw, begin.size);
    if length.ScanFailed? {
      return ParseFailed(length.error);
    }
    if length.field.tag != BODY_LENGTH_TAG {
      return ParseFailed(NoBodyLength);
    }
    var declared := ToSize(length.field.value);
    if declared.None? {
      return ParseFailed(BodyLengthNotANumber);
    }
    r := ParseChecked(raw, begin.size + length.size, declared.value, length.field.value);
  }
}
