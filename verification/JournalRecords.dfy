/** Reading a journal's records back (src/feed_handler/journal_reader.cpp), as a function of the bytes
    that are left: what a whole file, a file cut by a crash and a damaged file read as. */
module JournalRecords {
  import opened Bytes
  import opened JournalFormat
  import Crc32

  datatype StopReason =
    | TruncatedHeader | TooLong | TruncatedPayload | TruncatedChecksum | BadChecksum | UnknownType

  datatype ReadStep = EndOfFile | Stopped(reason: StopReason) | Got(record: Record, rest: bytes)

  function Load64(s: bytes): uint64
    requires |s| == 8
  {
    FromLeBound(s);
    Widths();
    FromLe(s)
  }

  /** The length field of a record header. */
  function LengthOf(head: bytes): nat
    requires |head| >= RECORD_HEADER_SIZE
  {
    FromLe(head[4..8])
  }

  /** One call of Next on the bytes that are left. */
  function ReadRecord(rest: bytes): ReadStep {
    if |rest| < RECORD_HEADER_SIZE then
      if rest == [] then EndOfFile else Stopped(TruncatedHeader)
    else
      var head := rest[..RECORD_HEADER_SIZE];
      var length := LengthOf(head);
      var crcAt := RECORD_HEADER_SIZE + length;
      var end := crcAt + RECORD_TRAILER_SIZE;
      if length > MAX_PAYLOAD_BYTES then Stopped(TooLong)
      else if |rest| < crcAt then Stopped(TruncatedPayload)
      else if |rest| < end then Stopped(TruncatedChecksum)
      else
        var payload := rest[RECORD_HEADER_SIZE..crcAt];
        if FromLe(rest[crcAt..end]) != Number(Crc32.Update(Crc32.Of(head), payload)) then Stopped(BadChecksum)
        else if !IsKnownRecordType(head[0]) then Stopped(UnknownType)
        else Got(Record(TypeOf(head[0]), Load64(head[8..16]), Load64(head[16..24]), payload), rest[end..])
  }

  datatype Reading = Reading(records: seq<Record>, stoppedEarly: bool)

  /** Next until it returns nothing. */
  function ReadAll(rest: bytes): Reading {
    match ReadRecord(rest)
    case EndOfFile => Reading([], false)
    case Stopped(_) => Reading([], true)
    case Got(record, left) =>
      var more := ReadAll(left);
      more.(records := [record] + more.records)
  }

  // ----------------------------------------------------------------------------- one whole record

  lemma MiddleSlice(front: bytes, middle: bytes, last: bytes)
    ensures (front + middle + last)[|front|..|front| + |middle|] == middle
  {
  }

  /** Where the fields of a record header are. */
  lemma HeadSlices(record: Record)
    ensures var head := RecordHead(record);
            && head[0] == TypeByte(record.kind) && head[4..8] == Le(|record.payload|, 4)
            && head[8..16] == Le(record.sequence, 8) && head[16..24] == Le(record.monotonicNs, 8)
  {
    hide Le;
    var kind, zeros, length := [TypeByte(record.kind)] + [0], Le(0, 2), Le(|record.payload|, 4);
    var sequence, time := Le(record.sequence, 8), Le(record.monotonicNs, 8);
    var head := RecordHead(record);
    assert head == (kind + zeros) + length + (sequence + time);
    MiddleSlice(kind + zeros, length, sequence + time);
    assert head == (kind + zeros + length) + sequence + time;
    MiddleSlice(kind + zeros + length, sequence, time);
    assert head == (kind + zeros + length + sequence) + time + [];
    MiddleSlice(kind + zeros + length + sequence, time, []);
  }

  lemma HeadFields(record: Record)
    requires Writable(record)
    ensures var head := RecordHead(record);
            && head[0] == TypeByte(record.kind)
            && LengthOf(head) == |record.payload|
            && Load64(head[8..16]) == record.sequence
            && Load64(head[16..24]) == record.monotonicNs
  {
    hide Le, FromLe, RecordHead;
    HeadSlices(record);
    Widths();
    FromLeOfLe(|record.payload|, 4);
    FromLeOfLe(record.sequence, 8);
    FromLeOfLe(record.monotonicNs, 8);
  }

  /** A record reads back from whatever bytes follow it, and leaves exactly those. */
  lemma ReadsBack(record: Record, tail: bytes)
    requires Writable(record)
    ensures ReadRecord(EncodeRecord(record) + tail) == Got(record, tail)
  {
    hide Le, FromLe, Crc32.Of, Crc32.Update, Number, LengthOf, RecordHead, Load64;
    var head, payload := RecordHead(record), record.payload;
    var crc := Le(Number(Crc32.Of(head + payload)), 4);
    var rest := EncodeRecord(record) + tail;
    HeadFields(record);
    assert rest == head + payload + crc + tail;
    assert rest[..24] == head;
    assert rest[24..24 + |payload|] == payload;
    assert rest[24 + |payload|..28 + |payload|] == crc;
    assert rest[28 + |payload|..] == tail;
    SplitCrc(head, payload);
    CrcReadsBack(head + payload);
  }

  lemma SplitCrc(head: bytes, payload: bytes)
    ensures Crc32.Update(Crc32.Of(head), payload) == Crc32.Of(head + payload)
  {
    Crc32.UpdateConcat(0, head, payload);
  }

  lemma CrcReadsBack(data: bytes)
    ensures FromLe(Le(Number(Crc32.Of(data)), 4)) == Number(Crc32.Of(data))
  {
    Widths();
    FromLeOfLe(Number(Crc32.Of(data)), 4);
  }

  lemma NothingToRead()
    ensures ReadAll([]) == Reading([], false)
  {
    assert ReadRecord([]) == EndOfFile;
  }

  /** A journal reads back as the records that were written, with a clean end. */
  lemma {:induction false} WholeFileReadsBack(records: seq<Record>)
    requires forall r :: r in records ==> Writable(r)
    ensures ReadAll(EncodeRecords(records)) == Reading(records, false)
  {
    hide ReadRecord, EncodeRecord;
    if records == [] {
      NothingToRead();
    } else {
      ReadsBack(records[0], EncodeRecords(records[1..]));
      WholeFileReadsBack(records[1..]);
      assert records == [records[0]] + records[1..];
    }
  }

  // ------------------------------------------------------------------------------------ crash tail

  /** How many of the records lie wholly within the first n bytes. */
  function WholeRecords(records: seq<Record>, n: nat): (k: nat)
    ensures k <= |records|
  {
    if records == [] || n < |EncodeRecord(records[0])| then 0
    else 1 + WholeRecords(records[1..], n - |EncodeRecord(records[0])|)
  }

  /** n bytes end exactly where some record ends. */
  predicate OnBoundary(records: seq<Record>, n: nat) {
    n == |EncodeRecords(records[..WholeRecords(records, n)])|
  }

  /** A record that was cut anywhere stops the reader. */
  lemma CutStops(record: Record, n: nat)
    requires Writable(record) && 0 < n < |EncodeRecord(record)|
    ensures ReadRecord(EncodeRecord(record)[..n]).Stopped?
  {
    hide Le, FromLe, Crc32.Of, Crc32.Update, Number, RecordHead, Load64;
    var head := RecordHead(record);
    var rest := EncodeRecord(record)[..n];
    HeadFields(record);
    if n >= RECORD_HEADER_SIZE {
      assert rest[..24] == head;
    }
  }

  /** Cutting a journal anywhere loses exactly the records not wholly before the cut, and the reader
      says so exactly when the cut is inside a record. */
  lemma {:induction false} CrashTail(records: seq<Record>, n: nat)
    requires forall r :: r in records ==> Writable(r)
    requires n <= |EncodeRecords(records)|
    ensures ReadAll(EncodeRecords(records)[..n]) ==
            Reading(records[..WholeRecords(records, n)], !OnBoundary(records, n))
  {
    var file := EncodeRecords(records);
    if n == 0 {
      assert file[..n] == [] && records[..WholeRecords(records, n)] == [];
      NothingToRead();
    } else if n < |EncodeRecord(records[0])| {
      assert file[..n] == EncodeRecord(records[0])[..n];
      CutStops(records[0], n);
      assert records[..0] == [];
    } else {
      CrashTailStep(records, n);
      CrashTail(records[1..], n - |EncodeRecord(records[0])|);
    }
  }

  lemma CrashTailStep(records: seq<Record>, n: nat)
    requires forall r :: r in records ==> Writable(r)
    requires records != [] && |EncodeRecord(records[0])| <= n <= |EncodeRecords(records)|
    ensures var first, rest := EncodeRecord(records[0]), records[1..];
            var more := ReadAll(EncodeRecords(rest)[..n - |first|]);
            var k := WholeRecords(rest, n - |first|);
            && ReadAll(EncodeRecords(records)[..n]) == more.(records := [records[0]] + more.records)
            && records[..WholeRecords(records, n)] == [records[0]] + rest[..k]
            && (OnBoundary(records, n) <==> OnBoundary(rest, n - |first|))
  {
    hide ReadRecord, EncodeRecord;
    var first, rest := EncodeRecord(records[0]), records[1..];
    var file := EncodeRecords(records);
    assert file[..n] == first + EncodeRecords(rest)[..n - |first|];
    ReadsBack(records[0], EncodeRecords(rest)[..n - |first|]);
    var k := WholeRecords(rest, n - |first|);
    assert records[..k + 1] == [records[0]] + rest[..k];
    assert records[..k + 1][1..] == rest[..k];
  }

  // ------------------------------------------------------------------------------------ corruption

  /** Damaging one byte of a record, other than its four length bytes, always stops the reader there. */
  lemma DamageStops(record: Record, at: nat, b: byte, tail: bytes)
    requires Writable(record) && at < |EncodeRecord(record)| && !(4 <= at < 8)
    requires b != EncodeRecord(record)[at]
    ensures ReadRecord(EncodeRecord(record)[at := b] + tail) == Stopped(BadChecksum)
  {
    var head, payload := RecordHead(record), record.payload;
    var data := head + payload;
    if at < |data| {
      DataDamage(head, payload, at, b);
      DamagedData(record, at, b, tail);
    } else {
      DamagedTrailer(record, at, b, tail);
    }
  }

  lemma DataDamage(head: bytes, payload: bytes, at: nat, b: byte)
    requires at < |head + payload| && b != (head + payload)[at]
    ensures Number(Crc32.Of((head + payload)[at := b])) != Number(Crc32.Of(head + payload))
  {
    var data := head + payload;
    Crc32.OneDifferenceDetected(data, data[at := b], at);
    if Number(Crc32.Of(data[at := b])) == Number(Crc32.Of(data)) {
      NumberInjective(Crc32.Of(data[at := b]), Crc32.Of(data));
    }
  }

  lemma DamagedData(record: Record, at: nat, b: byte, tail: bytes)
    requires Writable(record) && at < RECORD_HEADER_SIZE + |record.payload| && !(4 <= at < 8)
    requires var data := RecordHead(record) + record.payload;
             Number(Crc32.Of(data[at := b])) != Number(Crc32.Of(data))
    ensures ReadRecord(EncodeRecord(record)[at := b] + tail) == Stopped(BadChecksum)
  {
    hide Le, FromLe, Crc32.Of, Crc32.Update, Number, RecordHead, Load64;
    var head, payload := RecordHead(record), record.payload;
    var data := head + payload;
    var crc := Le(Number(Crc32.Of(data)), 4);
    var damaged := data[at := b];
    var rest := EncodeRecord(record)[at := b] + tail;
    assert rest == damaged + crc + tail;
    HeadFields(record);
    assert rest[..24][4..8] == head[4..8];
    assert rest[24 + |payload|..28 + |payload|] == crc;
    assert rest[..24] + rest[24..24 + |payload|] == damaged;
    SplitCrc(rest[..24], rest[24..24 + |payload|]);
    CrcReadsBack(data);
  }

  lemma DamagedTrailer(record: Record, at: nat, b: byte, tail: bytes)
    requires Writable(record) && RECORD_HEADER_SIZE + |record.payload| <= at < |EncodeRecord(record)|
    requires b != EncodeRecord(record)[at]
    ensures ReadRecord(EncodeRecord(record)[at := b] + tail) == Stopped(BadChecksum)
  {
    hide Le, FromLe, Crc32.Of, Crc32.Update, Number, RecordHead, Load64;
    var head, payload := RecordHead(record), record.payload;
    var data := head + payload;
    var crc := Le(Number(Crc32.Of(data)), 4);
    var damaged := crc[at - |data| := b];
    var rest := EncodeRecord(record)[at := b] + tail;
    assert rest == data + damaged + tail;
    HeadFields(record);
    assert rest[..24] == head && rest[24..24 + |payload|] == payload;
    assert rest[24 + |payload|..28 + |payload|] == damaged;
    SplitCrc(head, payload);
    CrcReadsBack(data);
    if FromLe(damaged) == FromLe(crc) {
      FromLeInjective(damaged, crc);
    }
  }

  /** So a journal with one such damaged byte reads as the records before the damaged one. */
  lemma {:induction false} DamagedFile(before: seq<Record>, record: Record, at: nat, b: byte, tail: bytes)
    requires forall r :: r in before ==> Writable(r)
    requires Writable(record) && at < |EncodeRecord(record)| && !(4 <= at < 8)
    requires b != EncodeRecord(record)[at]
    ensures ReadAll(EncodeRecords(before) + EncodeRecord(record)[at := b] + tail) == Reading(before, true)
  {
    hide ReadRecord, EncodeRecord;
    var damaged := EncodeRecord(record)[at := b];
    if before == [] {
      DamageStops(record, at, b, tail);
      assert EncodeRecords(before) + damaged + tail == damaged + tail;
    } else {
      DamagedFile(before[1..], record, at, b, tail);
      var left := EncodeRecords(before[1..]) + damaged + tail;
      ReadsBack(before[0], left);
      assert EncodeRecords(before) + damaged + tail == EncodeRecord(before[0]) + left;
      assert before == [before[0]] + before[1..];
    }
  }
}
