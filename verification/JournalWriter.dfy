/** JournalWriter (src/feed_handler/journal_writer.cpp): appends records until something goes wrong,
    then nothing any more. */
module JournalWriters {
  import opened BookTypes
  import opened Bytes
  import opened JournalFormat
  import opened JournalRecords
  import opened JournalHeader
  import Crc32

  datatype WriteError = OutOfOrder | PayloadTooLong | WriteFailed | FlushFailed

  ghost predicate Increasing(records: seq<Record>) {
    forall i, j :: 0 <= i < j < |records| ==> records[i].sequence < records[j].sequence
  }

  /** What the output stream does with the bytes it holds in its buffer and is now given. It takes them,
      having passed up to `drains` of them on to the file; or it goes bad, the file having got `keeps` of
      them, and the rest is lost. */
  datatype StreamOutcome = Taken(drains: nat) | FailsAfter(keeps: nat)

  method FillMagic(raw: array<byte>)
    requires raw.Length == FILE_HEADER_SIZE
    modifies raw
    ensures raw[..] == MAGIC + old(raw[8..])
  {
    ghost var rest := raw[8..];
    for i := 0 to 8
      invariant raw[..i] == MAGIC[..i] && raw[8..] == rest
    {
      raw[i] := MAGIC[i];
    }
    assert raw[..] == raw[..8] + raw[8..];
  }

  /** Writes behind what is already there. */
  method StoreNext(raw: array<byte>, ghost done: bytes, at: nat, value: nat, width: nat)
    requires at + width <= raw.Length && |done| == at && raw[..at] == done
    modifies raw
    ensures raw[..at + width] == done + Le(value, width) && raw[at + width..] == old(raw[at + width..])
  {
    hide Le;
    StoreLe(raw, at, value, width);
    assert raw[..at + width] == raw[..][..at + width] && raw[at + width..] == raw[..][at + width..];
  }

  method FillFixedPart(raw: array<byte>, header: FileHeader)
    requires raw.Length == FILE_HEADER_SIZE
    modifies raw
    ensures raw[..] == HeaderFixedPart(header) + old(raw[32..])
  {
    hide Le;
    ghost var rest := raw[32..];
    FillMagic(raw);
    assert raw[..8] == MAGIC && raw[32..] == rest;
    StoreNext(raw, MAGIC, 8, FORMAT_VERSION, 2);
    assert raw[32..] == rest;
    StoreNext(raw, raw[..10], 10, FILE_HEADER_SIZE, 2);
    assert raw[32..] == rest;
    StoreNext(raw, raw[..12], 12, 0, 4);
    assert raw[32..] == rest;
    StoreNext(raw, raw[..16], 16, header.realtimeNs, 8);
    assert raw[32..] == rest;
    StoreNext(raw, raw[..24], 24, header.monotonicNs, 8);
    assert raw[..] == raw[..32] + raw[32..];
  }

  method FillTag(raw: array<byte>, exchange: bytes)
    requires raw.Length == FILE_HEADER_SIZE && raw[32..48] == Zeros(16)
    modifies raw
    ensures raw[..] == old(raw[..32]) + ExchangeField(exchange) + old(raw[48..])
  {
    ghost var was := raw[..];
    assert forall k :: 32 <= k < 48 ==> was[k] == Zeros(16)[k - 32];
    var nameBytes := if |exchange| < EXCHANGE_FIELD_SIZE then |exchange| else EXCHANGE_FIELD_SIZE;
    for i := 0 to nameBytes
      invariant forall k :: 0 <= k < 64 && !(32 <= k < 32 + i) ==> raw[k] == was[k]
      invariant forall k :: 32 <= k < 32 + i ==> raw[k] == exchange[k - 32]
    {
      raw[32 + i] := exchange[i];
    }
    assert raw[32..48] == ExchangeField(exchange);
    assert raw[..] == raw[..32] + raw[32..48] + raw[48..];
  }

  method BuildFileHeader(header: FileHeader) returns (s: bytes)
    ensures s == EncodeHeader(header)
  {
    hide Le, ExchangeField, HeaderFixedPart, Crc32.Of;
    var raw := new byte[64](_ => 0);
    assert raw[32..] == Zeros(32);
    FillFixedPart(raw, header);
    assert raw[32..48] == raw[..][32..48] && Zeros(32)[..16] == Zeros(16);
    FillTag(raw, header.exchange);
    ghost var fixed := HeaderFixedPart(header) + ExchangeField(header.exchange);
    assert raw[..48] == raw[..][..48] == fixed;
    StoreNext(raw, fixed, 48, header.connectId, 8);
    StoreNext(raw, raw[..56], 56, 0, 4);
    assert raw[..60] == HeaderBody(header);
    var crc := Crc32.ComputeUpdate(0, raw[..60]);
    CrcFromSeed(raw[..60]);
    StoreNext(raw, raw[..60], 60, Number(crc), 4);
    s := raw[..];
  }

  method BuildRecordHead(record: Record) returns (s: bytes)
    requires Writable(record)
    ensures s == RecordHead(record)
  {
    hide Le;
    var raw := new byte[24](_ => 0);
    raw[0] := TypeByte(record.kind);
    raw[1] := 0;
    assert raw[..2] == [TypeByte(record.kind)] + [0];
    StoreNext(raw, raw[..2], 2, 0, 2);
    StoreNext(raw, raw[..4], 4, |record.payload|, 4);
    StoreNext(raw, raw[..8], 8, record.sequence, 8);
    StoreNext(raw, raw[..16], 16, record.monotonicNs, 8);
    s := raw[..];
  }

  class JournalWriter {
    /** What is in the file, and what the stream holds back (a buffer of 1 MiB by default). */
    var disk: bytes
    var buffer: bytes
    /** The stream went bad: it takes nothing more. */
    var bad: bool
    var error: Option<WriteError>
    var recordsWritten: nat
    var lastSequence: nat
    ghost const header: FileHeader
    /** The records the stream took. */
    ghost var records: seq<Record>
    /** The record whose write failed, if one did. */
    ghost var attempt: seq<Record>
    /** How many of the records the last successful flush put into the file, header included. */
    ghost var durable: nat
    ghost var flushed: bool

    ghost predicate Valid()
      reads this
    {
      && (!bad ==> disk + buffer == EncodeHeader(header) + EncodeRecords(records) && attempt == [])
      && (bad ==> error.Some? && buffer == [] && disk <= EncodeHeader(header) + EncodeRecords(records + attempt))
      && durable <= |records| && (durable > 0 ==> flushed)
      && (flushed ==> EncodeHeader(header) + EncodeRecords(records[..durable]) <= disk)
      && recordsWritten == |records|
      && (forall r :: r in records + attempt ==> Writable(r))
      && Increasing(records)
      && lastSequence == if records == [] then 0 else records[|records| - 1].sequence
    }

    constructor (fileHeader: FileHeader)
      ensures Valid() && header == fileHeader && records == [] && error.None? && disk == [] && !bad
    {
      var s := BuildFileHeader(fileHeader);
      disk, buffer, bad, error, recordsWritten, lastSequence := [], s, false, None, 0, 0;
      header, records, attempt, durable, flushed := fileHeader, [], [], 0, false;
    }

    method Fail(reason: WriteError)
      modifies this`error
      ensures error == if old(error).Some? then old(error) else Some(reason)
    {
      if error.None? {
        error := Some(reason);
      }
    }

    /** Appends one record, or refuses and fails for good: nothing is handed to the stream after a failure.
        What is in the file stays there. */
    method WriteRecord(kind: RecordType, frame: CaptureFrame, outcome: StreamOutcome)
      requires Valid()
      modifies this
      ensures Valid() && old(disk) <= disk && durable == old(durable) && flushed == old(flushed)
      ensures records == old(records) + (if error.None? then [RecordOf(kind, frame)] else [])
      ensures old(error).Some? ==> error == old(error) && disk == old(disk) && buffer == old(buffer)
      ensures lastSequence == if error.None? then frame.sequence else old(lastSequence)
      ensures old(error).None? ==>
                (error.None? <==> frame.sequence > old(lastSequence) && |frame.payload| <= MAX_PAYLOAD_BYTES && outcome.Taken?)
      ensures error.None? ==> old(disk + buffer) <= disk + buffer
    {
      hide EncodeHeader, EncodeRecords, Increasing;
      assert records + [] == records;
      if error.Some? {
        return;
      }
      if frame.sequence <= lastSequence {
        Fail(OutOfOrder);
        return;
      }
      if |frame.payload| > MAX_PAYLOAD_BYTES {
        Fail(PayloadTooLong);
        return;
      }
      var record := RecordOf(kind, frame);
      if outcome.Taken? {
        AppendRecord(record, outcome.drains);
      } else {
        LoseRecord(record, outcome.keeps);
      }
    }

    method AppendRecord(record: Record, drains: nat)
      requires Valid() && !bad && error.None? && Writable(record) && record.sequence > lastSequence
      modifies this`disk, this`buffer, this`lastSequence, this`recordsWritten, this`records
      ensures Valid() && old(disk) <= disk && old(disk + buffer) <= disk + buffer
      ensures records == old(records) + [record] && lastSequence == record.sequence
    {
      hide EncodeRecord, EncodeHeader, EncodeRecords, Increasing;
      var encoded := EncodeInto(record);
      EncodeAppend(records, record);
      IncreasingAppend(records, record);
      ghost var before := disk + buffer;
      var held := buffer + encoded;
      var drained := if drains < |held| then drains else |held|;
      disk := disk + held[..drained];
      buffer := held[drained..];
      assert disk + buffer == before + encoded;
      assert before + encoded == EncodeHeader(header) + EncodeRecords(records + [record]);
      lastSequence := record.sequence;
      recordsWritten := recordsWritten + 1;
      assert (records + [record])[..durable] == records[..durable];
      records := records + [record];
      assert records + [] == records;
    }

    method LoseRecord(record: Record, keeps: nat)
      requires Valid() && !bad && error.None? && Writable(record)
      modifies this`disk, this`buffer, this`bad, this`error, this`attempt
      ensures Valid() && old(disk) <= disk && error == Some(WriteFailed)
    {
      hide EncodeRecord, EncodeHeader, EncodeRecords, Increasing;
      var encoded := EncodeInto(record);
      EncodeAppend(records, record);
      ghost var before := disk + buffer;
      var held := buffer + encoded;
      var kept := if keeps < |held| then keeps else |held|;
      assert disk + held == before + encoded;
      assert disk + held[..kept] == (before + encoded)[..|disk| + kept];
      disk, buffer, bad := disk + held[..kept], [], true;
      assert before + encoded == EncodeHeader(header) + EncodeRecords(records + [record]);
      attempt := [record];
      Fail(WriteFailed);
    }

    /** Puts everything into the file, or goes bad and loses what was held back. */
    method Flush(outcome: StreamOutcome)
      requires Valid()
      modifies this`disk, this`buffer, this`bad, this`error, this`durable, this`flushed
      ensures Valid() && old(disk) <= disk
      ensures error == if outcome.Taken? || old(error).Some? then old(error) else Some(FlushFailed)
      ensures !old(bad) && outcome.Taken? ==>
                !bad && buffer == [] && flushed && durable == |records|
                && disk == EncodeHeader(header) + EncodeRecords(records)
    {
      hide EncodeHeader, EncodeRecords, Increasing;
      if bad {
        return;
      }
      assert records[..|records|] == records && records + [] == records;
      if outcome.Taken? {
        disk, buffer := disk + buffer, [];
        assert disk + [] == disk;
        durable, flushed := |records|, true;
        return;
      }
      var kept := if outcome.keeps < |buffer| then outcome.keeps else |buffer|;
      assert disk + buffer[..kept] == (disk + buffer)[..|disk| + kept];
      disk, buffer, bad := disk + buffer[..kept], [], true;
      Fail(FlushFailed);
    }

    lemma UnfailedIsNotBad()
      requires Valid() && error.None?
      ensures !bad
    {
    }

    lemma RecordsAreWritable()
      requires Valid()
      ensures forall r :: r in records ==> Writable(r)
    {
      assert forall r :: r in records ==> r in records + attempt;
    }

    /** What a reader finds in the file at any time, after any failure: a file shorter than its header does
        not open; otherwise the records read are the first ones written, no flushed one is missing, and at
        most the record whose write failed follows them. Flushed and unfailed, they are all there. */
    lemma FileReads()
      requires Valid()
      ensures |disk| < FILE_HEADER_SIZE ==> OpenHeader(disk) == OpenFailed(TooShort) && !flushed
      ensures |disk| >= FILE_HEADER_SIZE ==>
                && OpenHeader(disk) == Opened(header.(exchange := KeptTag(header.exchange)))
                && ReadAll(disk[FILE_HEADER_SIZE..]).records <= records + attempt
                && (flushed ==> records[..durable] <= ReadAll(disk[FILE_HEADER_SIZE..]).records)
      ensures !bad && buffer == [] ==>
                |disk| >= FILE_HEADER_SIZE && ReadAll(disk[FILE_HEADER_SIZE..]) == Reading(records, false)
    {
      hide EncodeHeader, EncodeRecords, EncodeRecord, OpenHeader, ReadAll, Increasing;
      var all := records + attempt;
      var full := EncodeHeader(header) + EncodeRecords(all);
      assert disk <= full by {
        assert !bad ==> all == records && disk <= disk + buffer;
      }
      assert disk == full[..|disk|];
      PrefixReads(header, all, |disk|, disk);
      if flushed {
        assert all[..durable] == records[..durable];
        FlushedReads(header, all, durable, disk);
      }
      if !bad && buffer == [] {
        assert disk + buffer == disk;
        assert disk[FILE_HEADER_SIZE..] == EncodeRecords(records);
        WholeFileReadsBack(records);
      }
    }
  }

  /** A file cut anywhere, header included. */
  lemma {:induction false} PrefixReads(header: FileHeader, all: seq<Record>, n: nat, file: bytes)
    requires n <= |EncodeHeader(header) + EncodeRecords(all)| && forall r :: r in all ==> Writable(r)
    requires file == (EncodeHeader(header) + EncodeRecords(all))[..n]
    ensures n < FILE_HEADER_SIZE ==> OpenHeader(file) == OpenFailed(TooShort)
    ensures n >= FILE_HEADER_SIZE ==>
              && OpenHeader(file) == Opened(header.(exchange := KeptTag(header.exchange)))
              && ReadAll(file[FILE_HEADER_SIZE..]) ==
                 Reading(all[..WholeRecords(all, n - FILE_HEADER_SIZE)], !OnBoundary(all, n - FILE_HEADER_SIZE))
  {
    hide EncodeHeader, EncodeRecords, EncodeRecord, ReadAll, WholeRecords, OnBoundary;
    if n >= FILE_HEADER_SIZE {
      hide OpenHeader;
      var tail := EncodeRecords(all)[..n - FILE_HEADER_SIZE];
      assert file == EncodeHeader(header) + tail;
      HeaderReadsBack(header, tail);
      assert file[FILE_HEADER_SIZE..] == tail;
      CrashTail(all, n - FILE_HEADER_SIZE);
    }
  }

  /** Records whose bytes are all in the file are read. */
  lemma {:induction false} EnoughBytes(all: seq<Record>, k: nat, n: nat)
    requires k <= |all| && |EncodeRecords(all[..k])| <= n
    ensures WholeRecords(all, n) >= k
    decreases k
  {
    hide EncodeRecord;
    if k > 0 {
      assert all[..k][1..] == all[1..][..k - 1] && all[..k][0] == all[0];
      EnoughBytes(all[1..], k - 1, n - |EncodeRecord(all[0])|);
    }
  }

  lemma FlushedReads(header: FileHeader, all: seq<Record>, k: nat, file: bytes)
    requires k <= |all| && forall r :: r in all ==> Writable(r)
    requires FILE_HEADER_SIZE + |EncodeRecords(all[..k])| <= |file| <= |EncodeHeader(header) + EncodeRecords(all)|
    requires file == (EncodeHeader(header) + EncodeRecords(all))[..|file|]
    ensures all[..k] <= ReadAll(file[FILE_HEADER_SIZE..]).records
  {
    hide EncodeHeader, EncodeRecords, EncodeRecord, ReadAll, OpenHeader, WholeRecords, OnBoundary;
    PrefixReads(header, all, |file|, file);
    EnoughBytes(all, k, |file| - FILE_HEADER_SIZE);
    var whole := WholeRecords(all, |file| - FILE_HEADER_SIZE);
    assert all[..k] == all[..whole][..k];
  }

  lemma IncreasingAppend(records: seq<Record>, record: Record)
    requires Increasing(records)
    requires records == [] || records[|records| - 1].sequence < record.sequence
    ensures Increasing(records + [record])
  {
  }

  /** The bytes of one record, header array and checksum included. */
  method EncodeInto(record: Record) returns (s: bytes)
    requires Writable(record)
    ensures s == EncodeRecord(record)
  {
    hide RecordHead, Le, Crc32.Of, Crc32.Update, Number;
    var head := BuildRecordHead(record);
    var headCrc := Crc32.ComputeUpdate(0, head);
    CrcFromSeed(head);
    var crc := Crc32.ComputeUpdate(headCrc, record.payload);
    SplitCrc(head, record.payload);
    var trailer := new byte[4](_ => 0);
    StoreLe(trailer, 0, Number(crc), 4);
    assert trailer[..] == Le(Number(crc), 4);
    s := head + record.payload + trailer[..];
  }

  lemma {:induction false} EncodeAppend(records: seq<Record>, record: Record)
    ensures EncodeRecords(records + [record]) == EncodeRecords(records) + EncodeRecord(record)
  {
    hide EncodeRecord;
    if records == [] {
      assert [record][1..] == [] && records + [record] == [record];
      assert EncodeRecords([]) == [];
    } else {
      EncodeAppend(records[1..], record);
      assert (records + [record])[1..] == records[1..] + [record];
      assert (records + [record])[0] == records[0];
    }
  }
}
