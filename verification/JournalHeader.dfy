/** The journal's file header and the frames it stores (src/feed_handler/journal_format.h,
    journal_reader.cpp, message_sink.h). */
module JournalHeader {
  import opened Bytes
  import opened JournalFormat
  import opened JournalRecords
  import Crc32

  datatype FrameSource = UnknownSource | KrakenJson | DeribitFix

  /** One stamped wire message (src/feed_handler/message_sink.h). */
  datatype CaptureFrame = CaptureFrame(payload: bytes, sequence: uint64, monotonicNs: uint64, source: FrameSource)

  function RecordOf(kind: RecordType, frame: CaptureFrame): Record {
    Record(kind, frame.sequence, frame.monotonicNs, frame.payload)
  }

  lemma CrcFromSeed(data: bytes)
    ensures Crc32.Update(0, data) == Crc32.Of(data)
  {
  }

  datatype OpenError = TooShort | BadMagic | HeaderChecksum | BadVersion | BadHeaderSize

  datatype OpenResult = Opened(header: FileHeader) | OpenFailed(error: OpenError)

  function UntilNul(s: bytes): bytes {
    if s == [] || s[0] == 0 then [] else [s[0]] + UntilNul(s[1..])
  }

  /** What the header keeps of an exchange tag: at most 16 bytes, up to a NUL. */
  function KeptTag(exchange: bytes): bytes {
    UntilNul(ExchangeField(exchange))
  }

  function OpenHeader(file: bytes): OpenResult {
    if |file| < FILE_HEADER_SIZE then OpenFailed(TooShort)
    else if file[..8] != MAGIC then OpenFailed(BadMagic)
    else if FromLe(file[60..64]) != Number(Crc32.Of(file[..60])) then OpenFailed(HeaderChecksum)
    else if FromLe(file[8..10]) != FORMAT_VERSION then OpenFailed(BadVersion)
    else if FromLe(file[10..12]) != FILE_HEADER_SIZE then OpenFailed(BadHeaderSize)
    else Opened(FileHeader(Load64(file[16..24]), Load64(file[24..32]), UntilNul(file[32..48]), Load64(file[48..56])))
  }

  lemma HeaderSlices(header: FileHeader)
    ensures var s := HeaderBody(header);
            && s[..8] == MAGIC && s[8..10] == Le(FORMAT_VERSION, 2) && s[10..12] == Le(FILE_HEADER_SIZE, 2)
            && s[16..24] == Le(header.realtimeNs, 8) && s[24..32] == Le(header.monotonicNs, 8)
            && s[32..48] == ExchangeField(header.exchange) && s[48..56] == Le(header.connectId, 8)
  {
    hide Le, ExchangeField;
  }

  lemma Load64OfLe(n: uint64)
    ensures Load64(Le(n, 8)) == n
  {
    Widths();
    FromLeOfLe(n, 8);
  }

  /** A file opens with the header it was created with; only the tag can lose something. */
  lemma HeaderReadsBack(header: FileHeader, tail: bytes)
    ensures OpenHeader(EncodeHeader(header) + tail) == Opened(header.(exchange := KeptTag(header.exchange)))
  {
    hide Le, FromLe, Crc32.Of, Number, HeaderBody, ExchangeField, UntilNul, Load64;
    var body := HeaderBody(header);
    var crc := Le(Number(Crc32.Of(body)), 4);
    var file := EncodeHeader(header) + tail;
    HeaderSlices(header);
    assert file == body + crc + tail;
    assert file[..60] == body && file[60..64] == crc;
    assert file[..8] == body[..8] && file[8..10] == body[8..10] && file[10..12] == body[10..12];
    assert file[16..24] == body[16..24] && file[24..32] == body[24..32];
    assert file[32..48] == body[32..48] && file[48..56] == body[48..56];
    CrcReadsBack(body);
    Widths();
    FromLeOfLe(FORMAT_VERSION, 2);
    FromLeOfLe(FILE_HEADER_SIZE, 2);
    Load64OfLe(header.realtimeNs);
    Load64OfLe(header.monotonicNs);
    Load64OfLe(header.connectId);
  }

  lemma {:induction false} UntilNulPadded(s: bytes, n: nat)
    requires 0 !in s
    ensures UntilNul(s + Zeros(n)) == s
  {
    if s == [] {
      assert s + Zeros(n) == Zeros(n);
    } else {
      UntilNulPadded(s[1..], n);
      assert (s + Zeros(n))[1..] == s[1..] + Zeros(n);
      assert s == [s[0]] + s[1..];
    }
  }

  /** A tag survives exactly when it fits the field and holds no NUL. */
  lemma TagKept(exchange: bytes)
    ensures KeptTag(exchange) == exchange <==> |exchange| <= EXCHANGE_FIELD_SIZE && 0 !in exchange
  {
    UntilNulFacts(ExchangeField(exchange));
    if |exchange| <= EXCHANGE_FIELD_SIZE && 0 !in exchange {
      UntilNulPadded(exchange, EXCHANGE_FIELD_SIZE - |exchange|);
      assert |exchange| == EXCHANGE_FIELD_SIZE ==> ExchangeField(exchange) == exchange + Zeros(0);
    }
  }

  lemma {:induction false} UntilNulFacts(s: bytes)
    ensures 0 !in UntilNul(s) && |UntilNul(s)| <= |s|
  {
    if s != [] && s[0] != 0 {
      UntilNulFacts(s[1..]);
    }
  }
}
