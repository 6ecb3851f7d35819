/** The header of a database with two bytecodes: its fields, its serialized form, and the layout of the
    database around it. */
module FatHeader {

  type Byte = bv8

  const MAGIC := 0xDBDB_DBDB
  const VERSION := 0x0508_0000
  const U32_RANGE := 0x1_0000_0000
  const U64_RANGE := 0x1_0000_0000_0000_0000

  /** Sizes within the header: of the fields, of the fields with the padding, and the slack allocated. */
  const FIELDS_SIZE := 56
  const STRUCT_SIZE := 120
  const SLACK := 128
  const CACHE_LINE := 64

  datatype Error = Success | Invalid | VersionError | BadAlign

  datatype Header = Header(
    magic: nat, version: nat, x86Length: nat, armLength: nat, platform: nat, armPlatform: nat,
    x86Crc: nat, armCrc: nat, reserved0: nat, reserved1: nat, x86Bytecode: nat, armBytecode: nat)

  /** The widths of the fields. */
  predicate InRange(h: Header) {
    && h.magic < U32_RANGE && h.version < U32_RANGE && h.x86Length < U32_RANGE && h.armLength < U32_RANGE
    && h.platform < U64_RANGE && h.armPlatform < U64_RANGE && h.x86Crc < U32_RANGE && h.armCrc < U32_RANGE
    && h.reserved0 < U32_RANGE && h.reserved1 < U32_RANGE && h.x86Bytecode < U32_RANGE && h.armBytecode < U32_RANGE
  }

  // ----- words -----

  /** The `n` little-endian bytes of `x`. */
  function Bytes(x: nat, n: nat): (b: seq<Byte>)
    ensures |b| == n
  {
    if n == 0 then [] else [(x % 256) as bv8] + Bytes(x / 256, n - 1)
  }

  function Load(b: seq<Byte>, pos: nat, n: nat): nat
    requires pos + n <= |b|
    decreases n
  {
    if n == 0 then 0 else b[pos] as nat + 256 * Load(b, pos + 1, n - 1)
  }

  function Pow256(n: nat): nat {
    if n == 0 then 1 else 256 * Pow256(n - 1)
  }

  lemma WordSizes()
    ensures Pow256(4) == U32_RANGE && Pow256(8) == U64_RANGE
  {
    assert Pow256(4) == U32_RANGE;
  }

  lemma LowByte(x: nat)
    ensures ((x % 256) as bv8) as nat + 256 * (x / 256) == x
  {
  }

  lemma FirstByte(b: seq<Byte>, pos: nat, x: nat, n: nat)
    requires n > 0 && pos + n <= |b| && b[pos..pos + n] == Bytes(x, n)
    ensures b[pos] == (x % 256) as bv8 && b[pos + 1..pos + n] == Bytes(x / 256, n - 1)
  {
    assert b[pos] == b[pos..pos + n][0];
    assert b[pos + 1..pos + n] == b[pos..pos + n][1..] == Bytes(x / 256, n - 1);
  }

  lemma {:induction false} LoadBytes(b: seq<Byte>, pos: nat, x: nat, n: nat)
    requires pos + n <= |b| && b[pos..pos + n] == Bytes(x, n) && x < Pow256(n)
    ensures Load(b, pos, n) == x
    decreases n
  {
    if n > 0 {
      LowByte(x);
      FirstByte(b, pos, x, n);
      hide Bytes;
      LoadBytes(b, pos + 1, x / 256, n - 1);
    }
  }

  // ----- the layout -----

  function RoundUp(x: nat): nat {
    (x + (CACHE_LINE - 1)) / CACHE_LINE * CACHE_LINE
  }

  /** Where a database at `address` keeps its first bytecode: at the last cache line that starts within
      the padding or right behind it. */
  function X86Offset(address: nat): nat {
    STRUCT_SIZE - (address + STRUCT_SIZE) % CACHE_LINE
  }

  /** Where it keeps its second one. */
  function ArmOffset(address: nat, x86Length: nat): int {
    if x86Length > 0 then RoundUp(address + X86Offset(address) + x86Length) - address else X86Offset(address)
  }

  function Allocation(h: Header): nat {
    STRUCT_SIZE + h.x86Length + h.armLength + SLACK
  }

  lemma X86Aligned(address: nat)
    ensures (address + X86Offset(address)) % CACHE_LINE == 0
    ensures X86Offset(address) <= STRUCT_SIZE && (address % 8 == 0 ==> CACHE_LINE <= X86Offset(address))
  {
    var x := address + STRUCT_SIZE;
    assert x == CACHE_LINE * (x / CACHE_LINE) + x % CACHE_LINE;
    MultipleOfLine(x / CACHE_LINE);
    if address % 8 == 0 {
      RemainderOfEights(address / 8 + 15);
    }
  }

  lemma MultipleOfLine(q: nat)
    ensures CACHE_LINE * q % CACHE_LINE == 0
  {
  }

  lemma RemainderOfEights(k: nat)
    ensures 8 * k % CACHE_LINE <= CACHE_LINE - 8
  {
    var q := 8 * k / CACHE_LINE;
    assert 8 * k % CACHE_LINE == 8 * (k - 8 * q);
  }

  lemma RoundsBehind(k: nat, x: nat)
    ensures RoundUp(CACHE_LINE * k + x) == CACHE_LINE * k + RoundUp(x)
  {
  }

  lemma Rounds(x: nat)
    ensures x <= RoundUp(x) < x + CACHE_LINE && RoundUp(x) % CACHE_LINE == 0
  {
  }

  /** Both bytecodes are aligned, disjoint, behind the fields of the header and inside the allocation, with
      less than a cache line between them. */
  lemma LayoutFits(address: nat, h: Header)
    requires address % 8 == 0
    ensures var x, a := X86Offset(address), ArmOffset(address, h.x86Length);
            && (address + x) % CACHE_LINE == 0 && (address + a) % CACHE_LINE == 0
            && FIELDS_SIZE < CACHE_LINE <= x <= STRUCT_SIZE && x + h.x86Length <= a && a + h.armLength <= Allocation(h)
            && a < x + h.x86Length + CACHE_LINE
  {
    hide X86Offset, RoundUp;
    X86Aligned(address);
    Rounds(address + X86Offset(address) + h.x86Length);
  }

  /** How far the second bytecode is from the start: the first one is aligned, so only its length is
      rounded. */
  lemma ArmOffsetIs(address: nat, x86Length: nat)
    ensures ArmOffset(address, x86Length) == X86Offset(address) + RoundUp(x86Length)
  {
    X86Aligned(address);
    var k := (address + X86Offset(address)) / CACHE_LINE;
    hide X86Offset, RoundUp;
    RoundsBehind(k, x86Length);
  }

  // ----- the serialized form -----

  /** The fields of the header, in the order in which they are written. */
  function HeaderBytes(h: Header): (b: seq<Byte>)
    ensures |b| == FIELDS_SIZE
  {
    Bytes(h.magic, 4) + Bytes(h.version, 4) + Bytes(h.x86Length, 4) + Bytes(h.armLength, 4)
    + Bytes(h.platform, 8) + Bytes(h.armPlatform, 8) + Bytes(h.x86Crc, 4) + Bytes(h.armCrc, 4)
    + Bytes(h.reserved0, 4) + Bytes(h.reserved1, 4) + Bytes(h.x86Bytecode, 4) + Bytes(h.armBytecode, 4)
  }

  function Zeros(n: nat): (b: seq<Byte>)
    ensures |b| == n
  {
    seq(n, (i: nat) => 0 as bv8)
  }

  /** The header's fields, the two bytecodes, and as many zeros as the header has padding. */
  function SerializedForm(h: Header, x86: seq<Byte>, arm: seq<Byte>): seq<Byte> {
    HeaderBytes(h) + x86 + arm + Zeros(STRUCT_SIZE - FIELDS_SIZE)
  }

  /** The fields that `bytes` start with. */
  function LoadedHeader(bytes: seq<Byte>): Header
    requires |bytes| >= FIELDS_SIZE
  {
    Header(Load(bytes, 0, 4), Load(bytes, 4, 4), Load(bytes, 8, 4), Load(bytes, 12, 4),
           Load(bytes, 16, 8), Load(bytes, 24, 8), Load(bytes, 32, 4), Load(bytes, 36, 4),
           Load(bytes, 40, 4), Load(bytes, 44, 4), Load(bytes, 48, 4), Load(bytes, 52, 4))
  }

  /** The header that is read back; the offsets of the bytecodes are not. */
  function DecodedHeader(bytes: seq<Byte>): Header
    requires |bytes| >= FIELDS_SIZE
  {
    LoadedHeader(bytes).(x86Bytecode := 0, armBytecode := 0)
  }

  /** Whether the header is accepted. */
  function DecodeResult(bytes: seq<Byte>): Error {
    if |bytes| < FIELDS_SIZE then Invalid
    else
      var h := DecodedHeader(bytes);
      if h.magic != MAGIC then Invalid
      else if h.version != VERSION then VersionError
      else if |bytes| < FIELDS_SIZE + h.x86Length + h.armLength then Invalid
      else Success
  }

  method DecodeHeader(bytes: seq<Byte>) returns (rv: Error, header: Header)
    ensures rv == DecodeResult(bytes)
    ensures rv.Success? ==> header == DecodedHeader(bytes)
  {
    header := Header(0, 0, 0, 0, 0, 0, 0, 0, 0, 0, 0, 0);
    if |bytes| < FIELDS_SIZE {
      return Invalid, header;
    }
    header := header.(magic := Load(bytes, 0, 4));
    if header.magic != MAGIC {
      return Invalid, header;
    }
    header := header.(version := Load(bytes, 4, 4));
    if header.version != VERSION {
      return VersionError, header;
    }
    header := header.(x86Length := Load(bytes, 8, 4), armLength := Load(bytes, 12, 4));
    header := header.(platform := Load(bytes, 16, 8), armPlatform := Load(bytes, 24, 8));
    header := header.(x86Crc := Load(bytes, 32, 4), armCrc := Load(bytes, 36, 4));
    header := header.(reserved0 := Load(bytes, 40, 4), reserved1 := Load(bytes, 44, 4));
    if |bytes| < FIELDS_SIZE + header.x86Length + header.armLength {
      return Invalid, header;
    }
    return Success, header;
  }

  lemma FieldsLoad(h: Header, b: seq<Byte>)
    requires InRange(h) && |b| >= FIELDS_SIZE && b[..FIELDS_SIZE] == HeaderBytes(h)
    ensures LoadedHeader(b) == h
  {
    WordSizes();
    FieldSlices(h, b);
    hide HeaderBytes, Bytes, Load, Pow256;
    LoadBytes(b, 0, h.magic, 4);
    LoadBytes(b, 4, h.version, 4);
    LoadBytes(b, 8, h.x86Length, 4);
    LoadBytes(b, 12, h.armLength, 4);
    LoadBytes(b, 16, h.platform, 8);
    LoadBytes(b, 24, h.armPlatform, 8);
    LoadBytes(b, 32, h.x86Crc, 4);
    LoadBytes(b, 36, h.armCrc, 4);
    LoadBytes(b, 40, h.reserved0, 4);
    LoadBytes(b, 44, h.reserved1, 4);
    LoadBytes(b, 48, h.x86Bytecode, 4);
    LoadBytes(b, 52, h.armBytecode, 4);
  }

  lemma FieldSlices(h: Header, b: seq<Byte>)
    requires |b| >= FIELDS_SIZE && b[..FIELDS_SIZE] == HeaderBytes(h)
    ensures b[0..0 + 4] == Bytes(h.magic, 4) && b[4..4 + 4] == Bytes(h.version, 4)
         && b[8..8 + 4] == Bytes(h.x86Length, 4) && b[12..12 + 4] == Bytes(h.armLength, 4)
         && b[16..16 + 8] == Bytes(h.platform, 8) && b[24..24 + 8] == Bytes(h.armPlatform, 8)
         && b[32..32 + 4] == Bytes(h.x86Crc, 4) && b[36..36 + 4] == Bytes(h.armCrc, 4)
         && b[40..40 + 4] == Bytes(h.reserved0, 4) && b[44..44 + 4] == Bytes(h.reserved1, 4)
         && b[48..48 + 4] == Bytes(h.x86Bytecode, 4) && b[52..52 + 4] == Bytes(h.armBytecode, 4)
  {
    hide Bytes;
    forall lo, hi | 0 <= lo <= hi <= FIELDS_SIZE ensures Slice(b, lo, hi) == Slice(HeaderBytes(h), lo, hi) {
      SliceOfPrefix(b, FIELDS_SIZE, lo, hi);
    }
    HeaderSlices(h);
  }

  lemma SliceOfPrefix<T>(b: seq<T>, n: nat, lo: nat, hi: nat)
    requires lo <= hi <= n <= |b|
    ensures b[..n][lo..hi] == b[lo..hi]
  {
    forall i | 0 <= i < hi - lo ensures b[..n][lo..hi][i] == b[lo..hi][i] {
    }
  }

  function Slice(b: seq<Byte>, lo: nat, hi: nat): seq<Byte>
    requires lo <= hi <= |b|
  {
    b[lo..hi]
  }

  lemma HeaderSlices(h: Header)
    ensures var b := HeaderBytes(h);
            && Slice(b, 0, 0 + 4) == Bytes(h.magic, 4) && Slice(b, 4, 4 + 4) == Bytes(h.version, 4)
            && Slice(b, 8, 8 + 4) == Bytes(h.x86Length, 4) && Slice(b, 12, 12 + 4) == Bytes(h.armLength, 4)
            && Slice(b, 16, 16 + 8) == Bytes(h.platform, 8) && Slice(b, 24, 24 + 8) == Bytes(h.armPlatform, 8)
            && Slice(b, 32, 32 + 4) == Bytes(h.x86Crc, 4) && Slice(b, 36, 36 + 4) == Bytes(h.armCrc, 4)
            && Slice(b, 40, 40 + 4) == Bytes(h.reserved0, 4) && Slice(b, 44, 44 + 4) == Bytes(h.reserved1, 4)
            && Slice(b, 48, 48 + 4) == Bytes(h.x86Bytecode, 4) && Slice(b, 52, 52 + 4) == Bytes(h.armBytecode, 4)
  {
    hide Bytes;
    var b := HeaderBytes(h);
    assert b[0..0 + 4] == Bytes(h.magic, 4) && b[52..52 + 4] == Bytes(h.armBytecode, 4);
  }

  /** Loading and writing a word gives its bytes back. */
  lemma {:induction false} BytesOfLoad(b: seq<Byte>, pos: nat, n: nat)
    requires pos + n <= |b|
    ensures Bytes(Load(b, pos, n), n) == b[pos..pos + n]
    decreases n
  {
    if n > 0 {
      hide Load, Bytes;
      BytesOfLoad(b, pos + 1, n - 1);
      LoadStep(b, pos, n);
      FirstOfSlice(b, pos, n);
    }
  }

  lemma LoadStep(b: seq<Byte>, pos: nat, n: nat)
    requires 0 < n && pos + n <= |b|
    ensures Bytes(Load(b, pos, n), n) == [b[pos]] + Bytes(Load(b, pos + 1, n - 1), n - 1)
  {
    hide Bytes;
    SplitWord(b[pos], Load(b, pos + 1, n - 1), n);
  }

  lemma FirstOfSlice(b: seq<Byte>, pos: nat, n: nat)
    requires 0 < n && pos + n <= |b|
    ensures b[pos..pos + n] == [b[pos]] + b[pos + 1..pos + 1 + (n - 1)]
  {
  }

  lemma SplitWord(low: Byte, high: nat, n: nat)
    requires n > 0
    ensures Bytes(low as nat + 256 * high, n) == [low] + Bytes(high, n - 1)
  {
    LowDigit(low as nat, high);
    SameByte(low);
  }

  lemma LowDigit(low: nat, high: nat)
    requires low < 256
    ensures (low + 256 * high) % 256 == low && (low + 256 * high) / 256 == high
  {
  }

  lemma SameByte(b: Byte)
    ensures (b as nat) as bv8 == b
  {
  }

  /** A word has a value exactly if it has its bytes. */
  lemma WordIs(b: seq<Byte>, pos: nat, x: nat)
    requires pos + 4 <= |b| && x < U32_RANGE
    ensures Load(b, pos, 4) == x <==> b[pos..pos + 4] == Bytes(x, 4)
  {
    WordSizes();
    BytesOfLoad(b, pos, 4);
    hide Load, Bytes;
    if b[pos..pos + 4] == Bytes(x, 4) {
      LoadBytes(b, pos, x, 4);
    }
  }

  /** The bytes start with a header of this version, and are long enough for its bytecodes; the padding is
      not asked for. */
  predicate Complete(bytes: seq<Byte>) {
    && |bytes| >= FIELDS_SIZE && bytes[..4] == Bytes(MAGIC, 4) && bytes[4..8] == Bytes(VERSION, 4)
    && |bytes| >= FIELDS_SIZE + Load(bytes, 8, 4) + Load(bytes, 12, 4)
  }

  /** What is refused, in terms of the bytes. */
  lemma DecodeMeans(bytes: seq<Byte>)
    ensures |bytes| < FIELDS_SIZE || bytes[..4] != Bytes(MAGIC, 4) ==> DecodeResult(bytes).Invalid?
    ensures DecodeResult(bytes).VersionError? <==>
              |bytes| >= FIELDS_SIZE && bytes[..4] == Bytes(MAGIC, 4) && bytes[4..8] != Bytes(VERSION, 4)
    ensures DecodeResult(bytes).Success? <==> Complete(bytes)
    ensures DecodeResult(bytes) in {Success, Invalid, VersionError}
  {
    hide Load, Bytes;
    if |bytes| >= FIELDS_SIZE {
      assert bytes[0..0 + 4] == bytes[..4] && bytes[4..4 + 4] == bytes[4..8];
      WordIs(bytes, 0, MAGIC);
      WordIs(bytes, 4, VERSION);
    }
  }

  lemma {:induction false} LoadBound(b: seq<Byte>, pos: nat, n: nat)
    requires pos + n <= |b|
    ensures Load(b, pos, n) < Pow256(n)
    decreases n
  {
    if n > 0 {
      LoadBound(b, pos + 1, n - 1);
    }
  }

  /** What is loaded fits its fields. */
  lemma LoadedInRange(b: seq<Byte>)
    requires |b| >= FIELDS_SIZE
    ensures InRange(LoadedHeader(b))
  {
    WordSizes();
    LoadBound(b, 0, 4);
    LoadBound(b, 4, 4);
    LoadBound(b, 8, 4);
    LoadBound(b, 12, 4);
    LoadBound(b, 16, 8);
    LoadBound(b, 24, 8);
    LoadBound(b, 32, 4);
    LoadBound(b, 36, 4);
    LoadBound(b, 40, 4);
    LoadBound(b, 44, 4);
    LoadBound(b, 48, 4);
    LoadBound(b, 52, 4);
    hide Load, Pow256;
  }

  /** What was serialized is accepted and read back, except for the offsets. */
  lemma SerializedDecodes(h: Header, x86: seq<Byte>, arm: seq<Byte>)
    requires InRange(h) && h.magic == MAGIC && h.version == VERSION
    requires |x86| == h.x86Length && |arm| == h.armLength
    ensures var b := SerializedForm(h, x86, arm);
            && |b| >= FIELDS_SIZE + h.x86Length + h.armLength
            && DecodeResult(b) == Success && DecodedHeader(b) == h.(x86Bytecode := 0, armBytecode := 0)
            && b[FIELDS_SIZE..][..h.x86Length] == x86
            && b[FIELDS_SIZE..][h.x86Length..h.x86Length + h.armLength] == arm
  {
    var head, pad := HeaderBytes(h), Zeros(STRUCT_SIZE - FIELDS_SIZE);
    assert SerializedForm(h, x86, arm)[..FIELDS_SIZE] == head;
    FieldsLoad(h, SerializedForm(h, x86, arm));
    hide HeaderBytes, LoadedHeader, Zeros;
    Parts(head, x86, arm, pad);
  }

  lemma Parts(head: seq<Byte>, x86: seq<Byte>, arm: seq<Byte>, pad: seq<Byte>)
    ensures var b := head + x86 + arm + pad;
            && b == head + (x86 + arm + pad) && b[|head|..] == x86 + arm + pad
            && b[|head|..][..|x86|] == x86 && b[|head|..][|x86|..|x86| + |arm|] == arm
  {
    var b := head + x86 + arm + pad;
    assert b == head + (x86 + arm + pad);
    assert b[|head|..] == x86 + arm + pad;
  }
}
