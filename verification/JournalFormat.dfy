/** The on-disk layout of the capture journal (src/feed_handler/journal_format.h): little-endian
    integers, a 64-byte file header, and records of a 24-byte header, the payload and a CRC. */
module JournalFormat {
  import opened Bytes
  import Crc32

  type uint64 = n: nat | n < 0x1_0000_0000_0000_0000

  const MAGIC: bytes := [67, 84, 74, 79, 85, 82, 78, 76]  // "CTJOURNL"
  const FORMAT_VERSION: nat := 1
  const FILE_HEADER_SIZE: nat := 64
  const EXCHANGE_FIELD_SIZE: nat := 16
  const RECORD_HEADER_SIZE: nat := 24
  const RECORD_TRAILER_SIZE: nat := 4
  const MAX_PAYLOAD_BYTES: nat := 0x400_0000

  // ------------------------------------------------------------------------------- little endian

  function Pow256(n: nat): (p: nat)
    ensures p > 0
  {
    if n == 0 then 1 else 256 * Pow256(n - 1)
  }

  function Le(value: nat, width: nat): (s: bytes)
    ensures |s| == width
  {
    if width == 0 then [] else [(value % 256) as byte] + Le(value / 256, width - 1)
  }

  function FromLe(s: bytes): nat {
    if s == [] then 0 else s[0] as int + 256 * FromLe(s[1..])
  }

  /** Loading what was stored gives the value back when it fits the width. */
  lemma {:induction false} FromLeOfLe(value: nat, width: nat)
    requires value < Pow256(width)
    ensures FromLe(Le(value, width)) == value
  {
    if width > 0 {
      FromLeOfLe(value / 256, width - 1);
      assert Le(value, width)[1..] == Le(value / 256, width - 1);
    }
  }

  lemma {:induction false} FromLeBound(s: bytes)
    ensures FromLe(s) < Pow256(|s|)
  {
    if s != [] {
      FromLeBound(s[1..]);
    }
  }

  /** Different bytes load to different values. */
  lemma {:induction false} FromLeInjective(s: bytes, t: bytes)
    requires |s| == |t| && FromLe(s) == FromLe(t)
    ensures s == t
  {
    if s != [] {
      FromLeInjective(s[1..], t[1..]);
      assert s == [s[0]] + s[1..] && t == [t[0]] + t[1..];
    }
  }

  lemma {:induction false} FromLeAppend(s: bytes, b: byte)
    ensures FromLe(s + [b]) == FromLe(s) + b as int * Pow256(|s|)
  {
    if s == [] {
      assert s + [b] == [b] && [b][1..] == [];
    } else {
      FromLeAppend(s[1..], b);
      assert (s + [b])[1..] == s[1..] + [b];
      var v, p := b as int, Pow256(|s| - 1);
      assert 256 * (v * p) == v * (256 * p);
    }
  }

  lemma Widths()
    ensures Pow256(1) == 0x100 && Pow256(2) == 0x1_0000 && Pow256(4) == 0x1_0000_0000
    ensures Pow256(8) == 0x1_0000_0000_0000_0000
  {
    assert Pow256(0) == 1;
    assert Pow256(3) == 256 * Pow256(2);
    assert Pow256(5) == 256 * Pow256(4);
    assert Pow256(6) == 256 * Pow256(5);
    assert Pow256(7) == 256 * Pow256(6);
  }

  lemma {:induction false} LeAppend(value: nat, width: nat)
    ensures Le(value, width + 1) == Le(value, width) + [(value / Pow256(width) % 256) as byte]
  {
    if width == 0 {
      assert Le(value / 256, 0) == [];
    } else {
      LeAppend(value / 256, width - 1);
      DivDiv(value, Pow256(width - 1));
    }
  }

  lemma DivDiv(value: nat, p: nat)
    requires p > 0
    ensures value / 256 / p == value / (256 * p)
  {
    var q := value / 256 / p;
    var r := value / 256 - q * p;
    assert value / 256 == q * p + r && 0 <= r < p;
    var s := value - 256 * (value / 256);
    assert value == 256 * (q * p + r) + s && 0 <= s < 256;
    assert 256 * (q * p + r) == q * (256 * p) + 256 * r;
    assert 0 <= 256 * r + s < 256 * p;
    DivUnique(value, 256 * p, q, 256 * r + s);
  }

  lemma DivUnique(a: nat, d: nat, q: nat, r: nat)
    requires d > 0 && a == q * d + r && r < d
    ensures a / d == q
  {
    var k, m := a / d, a % d;
    assert a == k * d + m;
    MulMonotone(q, k, d);
    MulMonotone(k, q, d);
  }

  lemma {:induction false} MulMonotone(a: nat, b: nat, d: nat)
    ensures a < b ==> a * d + d <= b * d
    decreases b
  {
    if a + 1 < b {
      MulMonotone(a, b - 1, d);
      MulSuccessor(b - 1, d);
    } else if a < b {
      MulSuccessor(a, d);
    }
  }

  lemma MulSuccessor(a: nat, d: nat)
    ensures (a + 1) * d == a * d + d
  {
  }

  /** Writes the low `width` bytes of `value`, low byte first, from `at` on. */
  method StoreLe(out: array<byte>, at: nat, value: nat, width: nat)
    requires at + width <= out.Length
    modifies out
    ensures out[..] == old(out[..at]) + Le(value, width) + old(out[at + width..])
  {
    for index := 0 to width
      invariant out[..] == old(out[..at]) + Le(value, index) + old(out[at + index..])
    {
      LeAppend(value, index);
      out[at + index] := (value / Pow256(index) % 256) as byte;
    }
  }

  method LoadLe(s: bytes) returns (value: nat)
    ensures value == FromLe(s)
  {
    value := 0;
    for index := 0 to |s|
      invariant value == FromLe(s[..index])
    {
      FromLeAppend(s[..index], s[index]);
      assert s[..index] + [s[index]] == s[..index + 1];
      value := value + s[index] as int * Pow256(index);
    }
    assert s[..|s|] == s;
  }

  // -------------------------------------------------------------------------------------- CRC

  /** A CRC as the number the trailer stores. */
  function Number(crc: bv32): (n: nat)
    ensures n < 0x1_0000_0000
  {
    crc as int
  }

  lemma NumberRoundTrip(crc: bv32)
    ensures (crc as int) as bv32 == crc
  {
  }

  lemma NumberInjective(a: bv32, b: bv32)
    requires Number(a) == Number(b)
    ensures a == b
  {
    NumberRoundTrip(a);
    NumberRoundTrip(b);
  }

  // ------------------------------------------------------------------------------------ records

  datatype RecordType = WireMessage | Connect

  datatype Record = Record(kind: RecordType, sequence: uint64, monotonicNs: uint64, payload: bytes)

  function TypeByte(kind: RecordType): byte {
    match kind
    case WireMessage => 1
    case Connect => 2
  }

  predicate IsKnownRecordType(b: byte) {
    b == 1 || b == 2
  }

  function TypeOf(b: byte): RecordType
    requires IsKnownRecordType(b)
  {
    if b == 1 then WireMessage else Connect
  }

  predicate Writable(record: Record) {
    |record.payload| <= MAX_PAYLOAD_BYTES
  }

  function RecordHead(record: Record): (head: bytes)
    ensures |head| == RECORD_HEADER_SIZE
  {
    [TypeByte(record.kind)] + [0] + Le(0, 2) + Le(|record.payload|, 4) + Le(record.sequence, 8)
    + Le(record.monotonicNs, 8)
  }

  /** Header, payload, and the CRC of both, which is what one WriteRecord appends. */
  function EncodeRecord(record: Record): (s: bytes)
    ensures |s| == RECORD_HEADER_SIZE + |record.payload| + RECORD_TRAILER_SIZE
  {
    var head := RecordHead(record);
    head + record.payload + Le(Number(Crc32.Of(head + record.payload)), 4)
  }

  function EncodeRecords(records: seq<Record>): bytes {
    if records == [] then [] else EncodeRecord(records[0]) + EncodeRecords(records[1..])
  }

  // -------------------------------------------------------------------------------- file header

  datatype FileHeader = FileHeader(realtimeNs: uint64, monotonicNs: uint64, exchange: bytes, connectId: uint64)

  function Zeros(n: nat): (s: bytes)
    ensures |s| == n && forall i :: 0 <= i < n ==> s[i] == 0
  {
    seq(n, _ => 0)
  }

  /** The exchange tag, cut or NUL-padded to its field. */
  function ExchangeField(exchange: bytes): (s: bytes)
    ensures |s| == EXCHANGE_FIELD_SIZE
  {
    if |exchange| >= EXCHANGE_FIELD_SIZE then exchange[..EXCHANGE_FIELD_SIZE]
    else exchange + Zeros(EXCHANGE_FIELD_SIZE - |exchange|)
  }

  function HeaderFixedPart(header: FileHeader): (s: bytes)
    ensures |s| == 32
  {
    MAGIC + Le(FORMAT_VERSION, 2) + Le(FILE_HEADER_SIZE, 2) + Le(0, 4) + Le(header.realtimeNs, 8)
    + Le(header.monotonicNs, 8)
  }

  function HeaderBody(header: FileHeader): (s: bytes)
    ensures |s| == 60
  {
    HeaderFixedPart(header) + ExchangeField(header.exchange) + Le(header.connectId, 8) + Le(0, 4)
  }

  function EncodeHeader(header: FileHeader): (s: bytes)
    ensures |s| == FILE_HEADER_SIZE
  {
    HeaderBody(header) + Le(Number(Crc32.Of(HeaderBody(header))), 4)
  }
}
