/** JournalReader (src/feed_handler/journal_reader.cpp). */
module JournalReaders {
  import opened BookTypes
  import opened Bytes
  import opened JournalFormat
  import opened JournalRecords
  import opened JournalHeader
  import Crc32

  /** JournalReader::Open: validates the header field by field. */
  method Open(file: bytes) returns (result: OpenResult)
    ensures result == OpenHeader(file)
  {
    if |file| < FILE_HEADER_SIZE {
      return OpenFailed(TooShort);
    }
    if file[..8] != MAGIC {
      return OpenFailed(BadMagic);
    }
    var storedCrc := LoadLe(file[60..64]);
    var crc := Crc32.ComputeUpdate(0, file[..60]);
    CrcFromSeed(file[..60]);
    if storedCrc != Number(crc) {
      return OpenFailed(HeaderChecksum);
    }
    var version := LoadLe(file[8..10]);
    if version != FORMAT_VERSION {
      return OpenFailed(BadVersion);
    }
    var headerSize := LoadLe(file[10..12]);
    if headerSize != FILE_HEADER_SIZE {
      return OpenFailed(BadHeaderSize);
    }
    var exchange := ReadTag(file[32..48]);
    result := Opened(FileHeader(Load64(file[16..24]), Load64(file[24..32]), exchange, Load64(file[48..56])));
  }

  method ReadTag(name: bytes) returns (tag: bytes)
    ensures tag == UntilNul(name)
  {
    tag := [];
    var i := 0;
    while i < |name| && name[i] != 0
      invariant i <= |name| && tag + UntilNul(name[i..]) == UntilNul(name)
    {
      assert name[i..][1..] == name[i + 1..];
      tag := tag + [name[i]];
      i := i + 1;
    }
    assert i < |name| ==> name[i..][0] == 0;
  }

  class JournalReader {
    const file: bytes
    var position: nat
    var finished: bool
    var stopReason: Option<StopReason>
    var recordsRead: nat

    ghost predicate Valid()
      reads this
    {
      position <= |file| && (stopReason.Some? ==> finished)
    }

    /** What the calls of Next that are still to come will yield. */
    ghost function Remaining(): Reading
      requires Valid()
      reads this
    {
      if finished then Reading([], stopReason.Some?) else ReadAll(file[position..])
    }

    constructor (contents: bytes)
      requires OpenHeader(contents).Opened?
      ensures Valid() && file == contents && Remaining() == ReadAll(contents[FILE_HEADER_SIZE..]) && recordsRead == 0
      ensures position == FILE_HEADER_SIZE && !finished
    {
      file, position, finished, stopReason, recordsRead := contents, FILE_HEADER_SIZE, false, None, 0;
    }

    method Stop(reason: StopReason)
      modifies this`finished, this`stopReason
      ensures finished && stopReason == if old(stopReason).Some? then old(stopReason) else Some(reason)
    {
      finished := true;
      if stopReason.None? {
        stopReason := Some(reason);
      }
    }

    /** The next valid record; nothing at the end of valid data, and nothing ever after that. */
    method Next() returns (record: Option<Record>)
      requires Valid()
      modifies this
      ensures Valid()
      ensures record.Some? ==>
                && old(Remaining()) == Remaining().(records := [record.value] + Remaining().records)
                && !finished && recordsRead == old(recordsRead) + 1 && position > old(position)
      ensures record.None? ==>
                finished && old(Remaining()) == Reading([], stopReason.Some?) && recordsRead == old(recordsRead)
    {
      if finished {
        return None;
      }
      hide ReadRecord;
      var step := ReadAt(file, position);
      match step {
        case EndOfFile =>
          finished := true;
          record := None;
        case Stopped(reason) =>
          Stop(reason);
          record := None;
        case Got(got, rest) =>
          assert file[|file| - |rest|..] == rest;
          position := |file| - |rest|;
          recordsRead := recordsRead + 1;
          record := Some(got);
      }
    }
  }

  /** Reads one record: header, length, payload, checksum, type, in that order. */
  method ReadAt(file: bytes, position: nat) returns (step: ReadStep)
    requires position <= |file|
    ensures step == ReadRecord(file[position..])
    ensures step.Got? ==> |step.rest| < |file| - position && file[|file| - |step.rest|..] == step.rest
  {
    hide FromLe, Crc32.Of, Crc32.Update, Number, LengthOf, Load64;
    var rest := file[position..];
    if |rest| < RECORD_HEADER_SIZE {
      return if rest == [] then EndOfFile else Stopped(TruncatedHeader);
    }
    var head := rest[..RECORD_HEADER_SIZE];
    var length := LoadLengthOf(head);
    if length > MAX_PAYLOAD_BYTES {
      return Stopped(TooLong);
    }
    var crcAt := RECORD_HEADER_SIZE + length;
    if |rest| < crcAt {
      return Stopped(TruncatedPayload);
    }
    var payload := rest[RECORD_HEADER_SIZE..crcAt];
    if |rest| < crcAt + RECORD_TRAILER_SIZE {
      return Stopped(TruncatedChecksum);
    }
    var good := ChecksumHolds(head, payload, rest[crcAt..crcAt + RECORD_TRAILER_SIZE]);
    if !good {
      return Stopped(BadChecksum);
    }
    if !IsKnownRecordType(head[0]) {
      return Stopped(UnknownType);
    }
    step := Got(Record(TypeOf(head[0]), Load64(head[8..16]), Load64(head[16..24]), payload),
                rest[crcAt + RECORD_TRAILER_SIZE..]);
  }

  method LoadLengthOf(head: bytes) returns (length: nat)
    requires |head| == RECORD_HEADER_SIZE
    ensures length == LengthOf(head)
  {
    length := LoadLe(head[4..8]);
  }

  method ChecksumHolds(head: bytes, payload: bytes, trailer: bytes) returns (good: bool)
    ensures good <==> FromLe(trailer) == Number(Crc32.Update(Crc32.Of(head), payload))
  {
    var headCrc := Crc32.ComputeUpdate(0, head);
    CrcFromSeed(head);
    var expected := Crc32.ComputeUpdate(headCrc, payload);
    var stored := LoadLe(trailer);
    good := stored == Number(expected);
  }
}
