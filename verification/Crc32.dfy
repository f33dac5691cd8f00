/** CRC-32 as section 8 of RFC 1952 defines it: reflected, polynomial 0xEDB88320, register preset to
    and finally XORed with all ones. src/order_book/kraken_checksum.cpp computes it bit by bit and
    src/feed_handler/journal_format.cpp runs zlib's over chunks. */
module Crc32 {
  import opened Bytes

  const POLYNOMIAL: bv32 := 0xEDB8_8320
  const ONES: bv32 := 0xFFFF_FFFF

  /** One bit leaves the register. */
  function ShiftOne(crc: bv32): bv32 {
    if crc & 1 == 1 then (crc >> 1) ^ POLYNOMIAL else crc >> 1
  }

  function Shift(crc: bv32, bits: nat): bv32 {
    if bits == 0 then crc else ShiftOne(Shift(crc, bits - 1))
  }

  function Word(high: bv4, low: bv4): bv32 {
    ((high as bv32) << 4) | (low as bv32)
  }

  /** The byte as a 32-bit word, by its two hexadecimal digits. */
  function Widen(b: byte): bv32 {
    Word((b as int / 16) as bv4, (b as int % 16) as bv4)
  }

  function Feed(crc: bv32, b: byte): bv32 {
    Shift(crc ^ Widen(b), 8)
  }

  /** The register after reading `data`. */
  function Register(crc: bv32, data: bytes): bv32 {
    if data == [] then crc else Feed(Register(crc, data[..|data| - 1]), data[|data| - 1])
  }

  function Flip(x: bv32): bv32 {
    x ^ ONES
  }

  /** zlib's crc32(seed, data): continues a finished CRC. */
  function Update(seed: bv32, data: bytes): bv32 {
    Flip(Register(Flip(seed), data))
  }

  /** The CRC of one buffer (kCrc32Seed is 0). */
  function Of(data: bytes): bv32 {
    Update(0, data)
  }

  // ------------------------------------------------------------------------------ running the CRC

  /** The eight shifts one byte causes. */
  method ShiftByte(start: bv32) returns (crc: bv32)
    ensures crc == Shift(start, 8)
  {
    crc := start;
    for bit := 0 to 8
      invariant crc == Shift(start, bit)
    {
      crc := ShiftOne(crc);
    }
  }

  /** The byte loop of the Kraken checksum. */
  method Compute(data: bytes) returns (crc: bv32)
    ensures crc == Of(data)
  {
    hide Shift, Flip;
    crc := ONES;
    for i := 0 to |data|
      invariant crc == Register(ONES, data[..i])
    {
      assert data[..i + 1][..i] == data[..i];
      crc := ShiftByte(crc ^ Widen(data[i]));
    }
    assert data[..|data|] == data;
    FlipZero();
    NotIsFlip(crc);
    crc := !crc;
  }

  const CHUNK: nat := 0x4000_0000

  /** The chunk loop of the journal: one zlib call per 2^30 bytes. */
  method ComputeUpdate(seed: bv32, data: bytes) returns (crc: bv32)
    ensures crc == Update(seed, data)
  {
    crc := seed;
    var rest := data;
    UpdateNothing(seed);
    while rest != []
      invariant |rest| <= |data| && data[|data| - |rest|..] == rest
      invariant crc == Update(seed, data[..|data| - |rest|])
      decreases |rest|
    {
      var take := if CHUNK < |rest| then CHUNK else |rest|;
      ghost var done := data[..|data| - |rest|];
      UpdateConcat(seed, done, rest[..take]);
      crc := Update(crc, rest[..take]);
      rest := rest[take..];
      assert done + data[|done|..][..take] == data[..|data| - |rest|];
    }
    assert data[..|data|] == data;
  }

  lemma XorTwice(x: bv32, mask: bv32)
    ensures (x ^ mask) ^ mask == x
  {
  }

  lemma XorCommutes(x: bv32, y: bv32)
    ensures x ^ y == y ^ x
  {
  }

  lemma FlipTwice(x: bv32)
    ensures Flip(Flip(x)) == x
  {
  }

  lemma NotIsFlip(x: bv32)
    ensures !x == Flip(x)
  {
  }

  lemma FlipZero()
    ensures Flip(0) == ONES
  {
  }

  lemma UpdateNothing(seed: bv32)
    ensures Update(seed, []) == seed
  {
    FlipTwice(seed);
  }

  lemma {:induction false} RegisterConcat(crc: bv32, a: bytes, b: bytes)
    ensures Register(crc, a + b) == Register(Register(crc, a), b)
  {
    if b == [] {
      assert a + b == a;
    } else {
      RegisterConcat(crc, a, b[..|b| - 1]);
      assert (a + b)[..|a + b| - 1] == a + b[..|b| - 1];
    }
  }

  /** A CRC run over two pieces is the CRC of their concatenation. */
  lemma UpdateConcat(seed: bv32, a: bytes, b: bytes)
    ensures Update(seed, a + b) == Update(Update(seed, a), b)
  {
    hide Register, Flip;
    RegisterConcat(Flip(seed), a, b);
    FlipTwice(Register(Flip(seed), a));
  }

  /** ... and so over any number of pieces. */
  function UpdatePieces(seed: bv32, pieces: seq<bytes>): bv32 {
    if pieces == [] then seed else Update(UpdatePieces(seed, pieces[..|pieces| - 1]), pieces[|pieces| - 1])
  }

  lemma {:induction false} SplitIndependent(seed: bv32, pieces: seq<bytes>)
    ensures UpdatePieces(seed, pieces) == Update(seed, Concat(pieces))
  {
    if pieces == [] {
      UpdateNothing(seed);
    } else {
      SplitIndependent(seed, pieces[..|pieces| - 1]);
      UpdateConcat(seed, Concat(pieces[..|pieces| - 1]), pieces[|pieces| - 1]);
    }
  }

  // ------------------------------------------------------------------------------------ the check value

  /** The eight shifts of a byte, written out. */
  function EightShifts(x: bv32): bv32 {
    ShiftOne(ShiftOne(ShiftOne(ShiftOne(ShiftOne(ShiftOne(ShiftOne(ShiftOne(x))))))))
  }

  lemma ShiftMore(x: bv32, bits: nat)
    ensures Shift(x, bits + 1) == ShiftOne(Shift(x, bits))
  {
  }

  lemma ShiftEight(x: bv32)
    ensures Shift(x, 8) == EightShifts(x)
  {
    hide ShiftOne;
    ShiftMore(x, 7);
    ShiftMore(x, 6);
    ShiftMore(x, 5);
    ShiftMore(x, 4);
    ShiftMore(x, 3);
    ShiftMore(x, 2);
    ShiftMore(x, 1);
    ShiftMore(x, 0);
  }

  lemma FeedDigit(crc: bv32, b: byte, word: bv32, next: bv32)
    requires 48 <= b <= 57 && word == 0x30 | ((b as int - 48) as bv4 as bv32)
    requires EightShifts(crc ^ word) == next
    ensures Feed(crc, b) == next
  {
    hide EightShifts, Shift;
    WidenDigit(b);
    ShiftEight(crc ^ word);
  }

  lemma WidenDigit(b: byte)
    requires 48 <= b <= 57
    ensures Widen(b) == 0x30 | ((b as int - 48) as bv4 as bv32)
  {
  }

  /** "123456789" */
  const CHECK_DIGITS: bytes := [49, 50, 51, 52, 53, 54, 55, 56, 57]

  lemma ReadDigit(k: nat, crc: bv32, word: bv32, next: bv32)
    requires k < 9 && Register(ONES, CHECK_DIGITS[..k]) == crc
    requires word == 0x30 | ((k + 1) as bv4 as bv32) && EightShifts(crc ^ word) == next
    ensures Register(ONES, CHECK_DIGITS[..k + 1]) == next
  {
    hide EightShifts, Feed;
    assert CHECK_DIGITS[k] == (49 + k) as byte;
    FeedDigit(crc, CHECK_DIGITS[k], word, next);
    assert CHECK_DIGITS[..k + 1][..k] == CHECK_DIGITS[..k];
  }

  /** The published check value of this CRC: the bytes "123456789" give 0xCBF43926. */
  lemma CheckValue()
    ensures Of(CHECK_DIGITS) == 0xCBF4_3926
  {
    hide Feed, Shift, Widen;
    assert CHECK_DIGITS[..0] == [];
    assert Register(ONES, CHECK_DIGITS[..0]) == ONES;
    hide Register;
    ReadDigit(0, 0xFFFF_FFFF, 0x31, 0x7C23_1048);
    ReadDigit(1, 0x7C23_1048, 0x32, 0xB0AC_BB32);
    ReadDigit(2, 0xB0AC_BB32, 0x33, 0x77B7_9C2D);
    ReadDigit(3, 0x77B7_9C2D, 0x34, 0x641C_1F5C);
    ReadDigit(4, 0x641C_1F5C, 0x35, 0x340A_C5E3);
    ReadDigit(5, 0x340A_C5E3, 0x36, 0xF68D_2C9E);
    ReadDigit(6, 0xF68D_2C9E, 0x37, 0xAFFC_9660);
    ReadDigit(7, 0xAFFC_9660, 0x38, 0x651F_2550);
    ReadDigit(8, 0x651F_2550, 0x39, 0x340B_C6D9);
    assert CHECK_DIGITS[..9] == CHECK_DIGITS;
    FlipZero();
  }

  // ------------------------------------------------------------------------------- error detection

  /** No information leaves the register with the bit: the polynomial's top bit marks it. */
  lemma ShiftOneInjective(a: bv32, b: bv32)
    requires ShiftOne(a) == ShiftOne(b)
    ensures a == b
  {
  }

  lemma {:induction false} ShiftInjective(a: bv32, b: bv32, bits: nat)
    requires Shift(a, bits) == Shift(b, bits)
    ensures a == b
  {
    if bits > 0 {
      ShiftOneInjective(Shift(a, bits - 1), Shift(b, bits - 1));
      ShiftInjective(a, b, bits - 1);
    }
  }

  lemma NibbleRoundTrip(n: nat)
    requires n < 16
    ensures (n as bv4) as int == n
  {
  }

  lemma WordInjective(a: bv4, b: bv4, c: bv4, d: bv4)
    requires Word(a, b) == Word(c, d)
    ensures a == c && b == d
  {
  }

  lemma WidenInjective(b: byte, c: byte)
    requires Widen(b) == Widen(c)
    ensures b == c
  {
    hide Word;
    var high, low := b as int / 16, b as int % 16;
    var other, lower := c as int / 16, c as int % 16;
    WordInjective(high as bv4, low as bv4, other as bv4, lower as bv4);
    NibbleRoundTrip(high);
    NibbleRoundTrip(low);
    NibbleRoundTrip(other);
    NibbleRoundTrip(lower);
    assert high == other && low == lower;
  }

  lemma FeedInjective(s: bv32, t: bv32, b: byte, c: byte)
    requires Feed(s, b) == Feed(t, c)
    ensures s == t <==> b == c
  {
    ShiftInjective(s ^ Widen(b), t ^ Widen(c), 8);
    XorCancel(s, t, Widen(b), Widen(c));
    if s == t {
      WidenInjective(b, c);
    }
  }

  lemma XorCancel(s: bv32, t: bv32, b: bv32, c: bv32)
    requires s ^ b == t ^ c
    ensures s == t <==> b == c
  {
    XorCancelOne(s, t, b, c);
    XorCommutes(s, b);
    XorCommutes(t, c);
    XorCancelOne(b, c, s, t);
  }

  lemma XorCancelOne(s: bv32, t: bv32, b: bv32, c: bv32)
    requires s ^ b == t ^ c
    ensures b == c ==> s == t
  {
    XorTwice(s, b);
    XorTwice(t, c);
  }

  /** Reading the same bytes keeps different registers apart. */
  lemma {:induction false} RegisterInjective(s: bv32, t: bv32, data: bytes)
    requires Register(s, data) == Register(t, data)
    ensures s == t
  {
    if data != [] {
      var front, last := data[..|data| - 1], data[|data| - 1];
      FeedInjective(Register(s, front), Register(t, front), last, last);
      RegisterInjective(s, t, front);
    }
  }

  /** One changed byte always changes the CRC. */
  lemma OneByteChanged(seed: bv32, a: bytes, b: byte, c: byte, z: bytes)
    requires b != c
    ensures Update(seed, a + [b] + z) != Update(seed, a + [c] + z)
  {
    var start := Flip(seed);
    var after := Register(start, a);
    RegisterConcat(start, a + [b], z);
    RegisterConcat(start, a + [c], z);
    assert (a + [b])[..|a|] == a && (a + [c])[..|a|] == a;
    if Update(seed, a + [b] + z) == Update(seed, a + [c] + z) {
      var x, y := Register(start, a + [b] + z), Register(start, a + [c] + z);
      FlipTwice(x);
      FlipTwice(y);
      RegisterInjective(Feed(after, b), Feed(after, c), z);
      FeedInjective(after, after, b, c);
    }
  }

  /** Strings of equal length that differ in exactly one place have different CRCs. */
  lemma OneDifferenceDetected(s: bytes, t: bytes, k: nat)
    requires |s| == |t| && k < |s| && s[k] != t[k]
    requires forall i :: 0 <= i < |s| && i != k ==> s[i] == t[i]
    ensures Of(s) != Of(t)
  {
    OneByteChanged(0, s[..k], s[k], t[k], s[k + 1..]);
    assert s == s[..k] + [s[k]] + s[k + 1..];
    assert t == s[..k] + [t[k]] + s[k + 1..];
  }
}
