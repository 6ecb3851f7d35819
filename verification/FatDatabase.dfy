/** Serializing a database with two bytecodes, and deserializing it at another address.

    The offsets of the bytecodes are not read back but computed anew, so that both bytecodes are
    aligned to cache lines wherever the database is put. */
module FatDatabase {
  import opened FatHeader
  import Crc32c
  import Crc32cBursts

  // ----- the memory of a database -----

  function CrcOf(bytes: seq<Byte>): nat {
    Crc32c.Crc(Crc32c.DivideByte, 0, bytes) as nat
  }

  /** In memory the two checksums are the other way round. */
  function Swapped(h: Header): Header {
    h.(x86Crc := h.armCrc, armCrc := h.x86Crc)
  }

  function StructBytes(h: Header): (b: seq<Byte>)
    ensures |b| == FIELDS_SIZE
  {
    HeaderBytes(Swapped(h))
  }

  /** The header that memory starts with. */
  function HeaderIn(mem: seq<Byte>): Header
    requires |mem| >= FIELDS_SIZE
  {
    Swapped(LoadedHeader(mem))
  }

  lemma StructRead(h: Header, mem: seq<Byte>)
    requires InRange(h) && |mem| >= FIELDS_SIZE && mem[..FIELDS_SIZE] == StructBytes(h)
    ensures HeaderIn(mem) == h
  {
    FieldsLoad(Swapped(h), mem);
  }

  predicate BoundedIn(mem: seq<Byte>) {
    && |mem| >= FIELDS_SIZE
    && HeaderIn(mem).x86Bytecode + HeaderIn(mem).x86Length <= |mem|
    && HeaderIn(mem).armBytecode + HeaderIn(mem).armLength <= |mem|
  }

  /** Both bytecodes are at multiples of eight. */
  predicate AlignedIn(address: nat, mem: seq<Byte>) {
    && BoundedIn(mem)
    && (address + HeaderIn(mem).x86Bytecode) % 8 == 0 && (address + HeaderIn(mem).armBytecode) % 8 == 0
  }

  /** The bytecodes, where the header says they are. */
  function X86In(mem: seq<Byte>): seq<Byte>
    requires BoundedIn(mem)
  {
    var h := HeaderIn(mem);
    mem[h.x86Bytecode..h.x86Bytecode + h.x86Length]
  }

  function ArmIn(mem: seq<Byte>): seq<Byte>
    requires BoundedIn(mem)
  {
    var h := HeaderIn(mem);
    mem[h.armBytecode..h.armBytecode + h.armLength]
  }

  lemma BytecodeLengths(mem: seq<Byte>)
    requires BoundedIn(mem)
    ensures |X86In(mem)| == HeaderIn(mem).x86Length && |ArmIn(mem)| == HeaderIn(mem).armLength
  {
    hide HeaderIn;
  }

  /** `s` with `bytes` written at `pos`. */
  function Overwrite(s: seq<Byte>, pos: nat, bytes: seq<Byte>): seq<Byte>
    requires pos + |bytes| <= |s|
  {
    s[..pos] + bytes + s[pos + |bytes|..]
  }

  method CopyIn(block: array<Byte>, pos: nat, bytes: seq<Byte>)
    requires pos + |bytes| <= block.Length
    modifies block
    ensures block[..] == Overwrite(old(block[..]), pos, bytes)
  {
    forall i | 0 <= i < |bytes| {
      block[pos + i] := bytes[i];
    }
  }

  lemma OverwrittenAt(s: seq<Byte>, pos: nat, bytes: seq<Byte>)
    requires pos + |bytes| <= |s|
    ensures var r := Overwrite(s, pos, bytes);
            && |r| == |s| && r[pos..pos + |bytes|] == bytes
            && forall i | 0 <= i < |s| && !(pos <= i < pos + |bytes|) :: r[i] == s[i]
  {
  }

  // ----- the memory after deserializing -----

  function Wrapped(x: int): (r: nat)
    ensures r < U32_RANGE
  {
    x % U32_RANGE
  }

  /** The offset of the second bytecode is recorded in 32 bits. */
  function Recorded(address: nat, x86Length: nat): (offset: nat)
    ensures offset < U32_RANGE
  {
    Wrapped(ArmOffset(address, x86Length))
  }

  lemma OffsetComputed(address: nat, n: nat)
    ensures ArmOffset(address, n)
         == if n > 0 then RoundUp(address + X86Offset(address) + n) - address else X86Offset(address)
    ensures Recorded(address, n) == Wrapped(ArmOffset(address, n))
  {
    hide X86Offset, RoundUp, Wrapped;
  }

  function FinalHeader(address: nat, h: Header): Header {
    h.(x86Bytecode := X86Offset(address), armBytecode := Recorded(address, h.x86Length))
  }

  ghost predicate Placeable(address: nat, h: Header, serialized: seq<Byte>, size: nat) {
    && address % 8 == 0 && InRange(h) && size >= Allocation(h) && |serialized| >= h.x86Length + h.armLength
  }

  /** Memory cleared, with the header and the padding behind it. */
  function Cleared(h: Header, before: seq<Byte>): (mem: seq<Byte>)
    requires |before| >= Allocation(h)
    ensures |mem| == |before|
  {
    Overwrite(Overwrite(before, 0, Zeros(Allocation(h))), 0, StructBytes(h) + Zeros(STRUCT_SIZE - FIELDS_SIZE))
  }

  /** Positions of the two offsets within the header. */
  const X86_FIELD := 48
  const ARM_FIELD := 52

  /** Then the offsets and the bytecodes are written. */
  ghost function Placed(address: nat, h: Header, serialized: seq<Byte>, mem: seq<Byte>): (r: seq<Byte>)
    requires Placeable(address, h, serialized, |mem|)
    ensures |r| == |mem|
  {
    LayoutFits(address, h);
    var x86, arm, n := X86Offset(address), ArmOffset(address, h.x86Length), h.x86Length;
    var a := Overwrite(Overwrite(mem, X86_FIELD, Bytes(x86, 4)), x86, serialized[..n]);
    Overwrite(Overwrite(a, ARM_FIELD, Bytes(Recorded(address, h.x86Length), 4)), arm, serialized[n..n + h.armLength])
  }

  ghost function FilledMemory(address: nat, h: Header, serialized: seq<Byte>, before: seq<Byte>): (mem: seq<Byte>)
    requires Placeable(address, h, serialized, |before|)
    ensures |mem| == |before|
  {
    Placed(address, h, serialized, Cleared(h, before))
  }

  lemma RecordedOffsets(address: nat, h: Header)
    requires address % 8 == 0
    ensures var arm, recorded := ArmOffset(address, h.x86Length), Recorded(address, h.x86Length);
            && recorded <= arm && (arm < U32_RANGE ==> recorded == arm)
            && (address + X86Offset(address)) % 8 == 0 && (address + recorded) % 8 == 0
  {
    LayoutFits(address, h);
    var x86, arm := X86Offset(address), ArmOffset(address, h.x86Length);
    hide X86Offset, ArmOffset, Allocation;
    var q, k := arm / U32_RANGE, (address + arm) / CACHE_LINE;
    assert arm == U32_RANGE * q + arm % U32_RANGE && address + arm == CACHE_LINE * k;
    MultipleOfEight(address + arm % U32_RANGE, k - 0x400_0000 * q);
    MultipleOfEight(address + x86, (address + x86) / CACHE_LINE);
  }

  lemma MultipleOfEight(x: int, k: int)
    requires x == CACHE_LINE * k
    ensures x % 8 == 0
  {
    assert x == 8 * (8 * k);
  }

  /** The fields before the two offsets. */
  function HeadBytes(h: Header): (b: seq<Byte>)
    ensures |b| == X86_FIELD
  {
    HeaderBytes(h)[..X86_FIELD]
  }

  lemma StructParts(h: Header)
    ensures StructBytes(h) == HeadBytes(Swapped(h)) + Bytes(h.x86Bytecode, 4) + Bytes(h.armBytecode, 4)
  {
    hide Bytes;
    var b := HeaderBytes(Swapped(h));
    assert b == b[..X86_FIELD] + b[X86_FIELD..];
    HeaderSlices(Swapped(h));
    assert b[X86_FIELD..] == Slice(b, 48, 52) + Slice(b, 52, 56);
  }

  lemma HeadKept(h: Header, x86: nat, arm: nat)
    ensures HeadBytes(Swapped(h.(x86Bytecode := x86, armBytecode := arm))) == HeadBytes(Swapped(h))
  {
    hide Bytes;
    var a, b := HeaderBytes(Swapped(h.(x86Bytecode := x86, armBytecode := arm))), HeaderBytes(Swapped(h));
    HeadIs(Swapped(h.(x86Bytecode := x86, armBytecode := arm)));
    HeadIs(Swapped(h));
  }

  lemma HeadIs(h: Header)
    ensures HeadBytes(h)
         == Bytes(h.magic, 4) + Bytes(h.version, 4) + Bytes(h.x86Length, 4) + Bytes(h.armLength, 4)
            + Bytes(h.platform, 8) + Bytes(h.armPlatform, 8) + Bytes(h.x86Crc, 4) + Bytes(h.armCrc, 4)
            + Bytes(h.reserved0, 4) + Bytes(h.reserved1, 4)
  {
    hide Bytes;
  }

  lemma PrefixKept(s: seq<Byte>, pos: nat, bytes: seq<Byte>, n: nat)
    requires n <= pos && pos + |bytes| <= |s|
    ensures Overwrite(s, pos, bytes)[..n] == s[..n]
  {
  }

  /** The header after both offsets are written. */
  lemma PlacedHeader(address: nat, h: Header, serialized: seq<Byte>, mem: seq<Byte>)
    requires Placeable(address, h, serialized, |mem|) && mem[..FIELDS_SIZE] == StructBytes(h)
    ensures Placed(address, h, serialized, mem)[..FIELDS_SIZE] == StructBytes(FinalHeader(address, h))
  {
    LayoutFits(address, h);
    var x86, arm, n := X86Offset(address), ArmOffset(address, h.x86Length), h.x86Length;
    StructParts(h);
    StructParts(FinalHeader(address, h));
    HeadKept(h, x86, Recorded(address, h.x86Length));
    hide X86Offset, ArmOffset, Allocation, StructBytes, HeadBytes, Bytes, Overwrite, InRange, Recorded;
    var head := HeadBytes(Swapped(h));
    var a := Overwrite(mem, X86_FIELD, Bytes(x86, 4));
    WriteMiddle(mem, head, Bytes(h.x86Bytecode, 4), Bytes(h.armBytecode, 4), Bytes(x86, 4));
    PrefixKept(a, x86, serialized[..n], FIELDS_SIZE);
    var b := Overwrite(a, x86, serialized[..n]);
    WriteLast(b, head + Bytes(x86, 4), Bytes(h.armBytecode, 4), Bytes(Recorded(address, h.x86Length), 4));
    PrefixKept(Overwrite(b, ARM_FIELD, Bytes(Recorded(address, h.x86Length), 4)), arm,
        serialized[n..n + h.armLength], FIELDS_SIZE);
  }

  lemma WriteMiddle(s: seq<Byte>, a: seq<Byte>, b: seq<Byte>, d: seq<Byte>, e: seq<Byte>)
    requires |s| >= |a| + |b| + |d| && s[..|a| + |b| + |d|] == a + b + d && |e| == |b|
    ensures Overwrite(s, |a|, e)[..|a| + |b| + |d|] == a + e + d
  {
    var r, n := Overwrite(s, |a|, e), |a| + |b| + |d|;
    forall i | 0 <= i < n ensures r[..n][i] == (a + e + d)[i] {
      assert s[i] == s[..n][i] == (a + b + d)[i];
    }
  }

  lemma WriteLast(s: seq<Byte>, a: seq<Byte>, b: seq<Byte>, e: seq<Byte>)
    requires |s| >= |a| + |b| && s[..|a| + |b|] == a + b && |e| == |b|
    ensures Overwrite(s, |a|, e)[..|a| + |b|] == a + e
  {
    WriteMiddle(s, a, b, [], e);
    assert a + b + [] == a + b && a + e + [] == a + e;
  }

  /** The bytecodes, and that nothing else is written behind the fields of the header. */
  lemma PlacedBytes(address: nat, h: Header, serialized: seq<Byte>, mem: seq<Byte>)
    requires Placeable(address, h, serialized, |mem|)
    ensures var r, x86, arm, n := Placed(address, h, serialized, mem), X86Offset(address),
        ArmOffset(address, h.x86Length), h.x86Length;
            && 0 <= x86 + n <= arm && arm + h.armLength <= |r|
            && r[x86..x86 + n] == serialized[..n] && r[arm..arm + h.armLength] == serialized[n..n + h.armLength]
            && forall i | FIELDS_SIZE <= i < |r| && !(x86 <= i < x86 + n) && !(arm <= i < arm + h.armLength) ::
                r[i] == mem[i]
  {
    LayoutFits(address, h);
    var x86, arm, n := X86Offset(address), ArmOffset(address, h.x86Length), h.x86Length;
    hide X86Offset, ArmOffset, Allocation, StructBytes, Bytes, InRange, Recorded;
    var a := Overwrite(mem, X86_FIELD, Bytes(x86, 4));
    OverwrittenAt(mem, X86_FIELD, Bytes(x86, 4));
    OverwrittenAt(a, x86, serialized[..n]);
    var b := Overwrite(a, x86, serialized[..n]);
    OverwrittenAt(b, ARM_FIELD, Bytes(Recorded(address, h.x86Length), 4));
    var d := Overwrite(b, ARM_FIELD, Bytes(Recorded(address, h.x86Length), 4));
    OverwrittenAt(d, arm, serialized[n..n + h.armLength]);
    hide Overwrite;
    SliceKept(b, d, x86, x86 + n);
    SliceKept(d, Placed(address, h, serialized, mem), x86, x86 + n);
  }

  lemma SliceKept(s: seq<Byte>, t: seq<Byte>, lo: nat, hi: nat)
    requires lo <= hi <= |s| == |t| && forall i | lo <= i < hi :: t[i] == s[i]
    ensures t[lo..hi] == s[lo..hi]
  {
  }

  lemma ClearedBytes(h: Header, before: seq<Byte>)
    requires |before| >= Allocation(h)
    ensures Cleared(h, before)[..FIELDS_SIZE] == StructBytes(h)
    ensures forall i | FIELDS_SIZE <= i < Allocation(h) :: Cleared(h, before)[i] == 0
  {
    hide StructBytes;
    var zeros, head := Zeros(Allocation(h)), StructBytes(h) + Zeros(STRUCT_SIZE - FIELDS_SIZE);
    var a := Overwrite(before, 0, zeros);
    OverwrittenAt(before, 0, zeros);
    OverwrittenAt(a, 0, head);
    assert forall i | 0 <= i < Allocation(h) :: a[..|zeros|][i] == zeros[i];
    var r := Overwrite(a, 0, head);
    assert forall i | 0 <= i < |head| :: r[0..|head|][i] == head[i];
  }

  lemma FinalInRange(address: nat, h: Header)
    requires InRange(h)
    ensures InRange(FinalHeader(address, h))
  {
    assert X86Offset(address) <= STRUCT_SIZE;
    hide X86Offset, ArmOffset;
  }

  /** Memory after deserializing: the header with its offsets, both bytecodes, and zeros between them. */
  lemma FilledFacts(address: nat, h: Header, serialized: seq<Byte>, before: seq<Byte>)
    requires Placeable(address, h, serialized, |before|)
    ensures var mem, n := FilledMemory(address, h, serialized, before), h.x86Length;
            var x86, arm := X86Offset(address), ArmOffset(address, n);
            && 0 <= x86 + n <= arm && arm + h.armLength <= Allocation(h)
            && mem[..FIELDS_SIZE] == StructBytes(FinalHeader(address, h))
            && mem[x86..x86 + n] == serialized[..n] && mem[arm..arm + h.armLength] == serialized[n..n + h.armLength]
            && forall i | FIELDS_SIZE <= i < Allocation(h) && !(x86 <= i < x86 + n)
                && !(arm <= i < arm + h.armLength) ::
                 mem[i] == 0
  {
    LayoutFits(address, h);
    ClearedBytes(h, before);
    hide X86Offset, ArmOffset, Allocation, StructBytes, Placed, Cleared, InRange;
    PlacedHeader(address, h, serialized, Cleared(h, before));
    PlacedBytes(address, h, serialized, Cleared(h, before));
  }

  /** What memory that starts with the header `f` holds. */
  lemma MemoryReads(f: Header, mem: seq<Byte>)
    requires InRange(f) && |mem| >= FIELDS_SIZE && mem[..FIELDS_SIZE] == StructBytes(f)
    requires f.x86Bytecode + f.x86Length <= |mem| && f.armBytecode + f.armLength <= |mem|
    ensures BoundedIn(mem) && HeaderIn(mem) == f
         && X86In(mem) == mem[f.x86Bytecode..f.x86Bytecode + f.x86Length]
         && ArmIn(mem) == mem[f.armBytecode..f.armBytecode + f.armLength]
  {
    hide StructBytes, InRange, HeaderIn;
    StructRead(f, mem);
  }

  /** Both bytecodes are inside the memory, where the header says they are: the first one is what was
      serialized, the second one is if its offset was recorded. */
  lemma FilledReads(address: nat, h: Header, serialized: seq<Byte>, before: seq<Byte>)
    requires Placeable(address, h, serialized, |before|)
    ensures var mem, n := FilledMemory(address, h, serialized, before), h.x86Length;
            var arm := ArmOffset(address, n);
            && BoundedIn(mem) && HeaderIn(mem) == FinalHeader(address, h) && X86In(mem) == serialized[..n]
            && Recorded(address, n) + h.armLength <= |mem|
            && ArmIn(mem) == mem[Recorded(address, n)..Recorded(address, n) + h.armLength]
            && (arm < U32_RANGE ==> ArmIn(mem) == serialized[n..n + h.armLength])
  {
    hide X86Offset, ArmOffset, Recorded, Allocation, StructBytes, FilledMemory, InRange, HeaderIn, BoundedIn, X86In,
         ArmIn, Placed, Cleared;
    FilledFacts(address, h, serialized, before);
    RecordedOffsets(address, h);
    FinalInRange(address, h);
    LayoutFits(address, h);
    var mem, f := FilledMemory(address, h, serialized, before), FinalHeader(address, h);
    MemoryReads(f, mem);
  }

  lemma HeaderAligned(address: nat, f: Header, mem: seq<Byte>)
    requires BoundedIn(mem) && HeaderIn(mem) == f
    requires (address + f.x86Bytecode) % 8 == 0 && (address + f.armBytecode) % 8 == 0
    ensures AlignedIn(address, mem)
  {
    hide BoundedIn, HeaderIn;
  }

  lemma FinalAligned(address: nat, h: Header)
    requires address % 8 == 0
    ensures (address + FinalHeader(address, h).x86Bytecode) % 8 == 0
         && (address + FinalHeader(address, h).armBytecode) % 8 == 0
  {
    RecordedOffsets(address, h);
    hide X86Offset, Recorded;
  }

  lemma FilledAligned(address: nat, h: Header, serialized: seq<Byte>, before: seq<Byte>)
    requires Placeable(address, h, serialized, |before|)
    ensures AlignedIn(address, FilledMemory(address, h, serialized, before))
  {
    hide Placed, Cleared, FinalHeader, HeaderIn, BoundedIn, AlignedIn, X86In, ArmIn, X86Offset, ArmOffset, Recorded,
         Allocation, FilledMemory, InRange;
    var f := FinalHeader(address, h);
    FinalAligned(address, h);
    FilledReads(address, h, serialized, before);
    HeaderAligned(address, f, FilledMemory(address, h, serialized, before));
  }

  // ----- databases -----

  lemma AcceptedHeader(bytes: seq<Byte>)
    requires DecodeResult(bytes).Success?
    ensures |bytes| >= FIELDS_SIZE && InRange(DecodedHeader(bytes))
         && |bytes[FIELDS_SIZE..]| >= DecodedHeader(bytes).x86Length + DecodedHeader(bytes).armLength
  {
    LoadedInRange(bytes);
    hide LoadedHeader;
  }

  /** The outcome of comparing the checksums. */
  function CrcResult(mem: seq<Byte>): Error
    requires BoundedIn(mem)
  {
    if CrcOf(X86In(mem)) == HeaderIn(mem).x86Crc && CrcOf(ArmIn(mem)) == HeaderIn(mem).armCrc then Success else Invalid
  }

  /** The checksum of an aligned bytecode needs no bytes before it. */
  lemma Rounded(x: nat)
    requires x % 8 == 0
    ensures Crc32c.RoundUp(x, 8) == x
  {
  }

  class Database {
    const address: nat
    /** The memory from the header on. */
    const block: array<Byte>

    constructor (address: nat, size: nat)
      ensures this.address == address && block.Length == size && fresh(block)
    {
      this.address := address;
      block := new Byte[size];
    }

    method Serialize() returns (rv: Error, out: seq<Byte>)
      requires BoundedIn(block[..])
      ensures var h := HeaderIn(block[..]);
              rv == if address % 8 != 0 then BadAlign
                    else if h.magic != MAGIC then Invalid
                    else if h.version != VERSION then VersionError
                    else Success
      ensures rv.Success? ==> out == SerializedForm(HeaderIn(block[..]), X86In(block[..]), ArmIn(block[..]))
    {
      BytecodeLengths(block[..]);
      hide *;
      if address % 8 != 0 {
        return BadAlign, [];
      }
      ghost var mem := block[..];
      var header := HeaderIn(block[..]);
      if header.magic != MAGIC {
        return Invalid, [];
      }
      if header.version != VERSION {
        return VersionError, [];
      }
      var xs, ys := X86In(block[..]), ArmIn(block[..]);
      out := SerializeParts(header, xs, ys);
      assert block[..] == mem;
      return Success, out;
    }

    /** Puts the bytecodes where the address allows, recording the offsets in 32 bits. */
    method CopyBytecode(serialized: seq<Byte>, header: Header)
      requires Placeable(address, header, serialized, block.Length)
      requires block[..FIELDS_SIZE] == StructBytes(header)
      modifies block
      ensures block[..] == Placed(address, header, serialized, old(block[..]))
    {
      hide Overwrite, Allocation, X86Offset, ArmOffset, RoundUp, StructBytes, InRange, Bytes, Recorded;
      LayoutFits(address, header);
      OffsetComputed(address, header.x86Length);
      var x86, n := X86Offset(address), header.x86Length;
      var arm := x86;
      if n > 0 {
        arm := RoundUp(address + x86 + n) - address;
      }
      CopyIn(block, X86_FIELD, Bytes(x86, 4));
      CopyIn(block, x86, serialized[..n]);
      CopyIn(block, ARM_FIELD, Bytes(Wrapped(arm), 4));
      CopyIn(block, arm, serialized[n..n + header.armLength]);
    }

    method CheckCrc() returns (rv: Error)
      requires AlignedIn(address, block[..])
      ensures rv == CrcResult(block[..]) && (rv == Success || rv == Invalid)
    {
      hide Crc32c.Crc, Crc32c.DivideByte, Crc32c.RoundUp, HeaderIn, X86In, ArmIn;
      var header := HeaderIn(block[..]);
      var xs, ys := X86In(block[..]), ArmIn(block[..]);
      Rounded(address + header.x86Bytecode);
      Rounded(address + header.armBytecode);
      var x86Crc := Crc32c.ComputeBuf(0, xs, address + header.x86Bytecode);
      if x86Crc as nat != header.x86Crc {
        return Invalid;
      }
      var armCrc := Crc32c.ComputeBuf(0, ys, address + header.armBytecode);
      if armCrc as nat != header.armCrc {
        return Invalid;
      }
      return Success;
    }

    /** Decodes the header, fills the memory and compares the checksums of what the header then points
        to.  The caller must provide the memory. */
    method DeserializeAt(bytes: seq<Byte>) returns (rv: Error)
      requires Complete(bytes) ==> block.Length >= Allocation(DecodedHeader(bytes))
      modifies block
      ensures rv == BadAlign <==> address % 8 != 0
      ensures address % 8 == 0 && (|bytes| < FIELDS_SIZE || bytes[..4] != Bytes(MAGIC, 4)) ==> rv == Invalid
      ensures rv == VersionError <==>
                && address % 8 == 0 && |bytes| >= FIELDS_SIZE
                && bytes[..4] == Bytes(MAGIC, 4) && bytes[4..8] != Bytes(VERSION, 4)
      ensures address % 8 == 0 && !Complete(bytes) ==> rv == Invalid || rv == VersionError
      ensures address % 8 != 0 || !Complete(bytes) ==> block[..] == old(block[..])
      ensures address % 8 == 0 && Complete(bytes) ==>
                && Placeable(address, DecodedHeader(bytes), bytes[FIELDS_SIZE..], block.Length)
                && block[..] == FilledMemory(address, DecodedHeader(bytes), bytes[FIELDS_SIZE..], old(block[..]))
                && BoundedIn(block[..]) && rv == CrcResult(block[..])
    {
      DecodeMeans(bytes);
      if Complete(bytes) {
        AcceptedHeader(bytes);
      }
      hide Complete, Bytes, DecodeResult, LoadedHeader, DecodedHeader, Allocation, InRange, FilledMemory, BoundedIn,
           CrcResult;
      if address % 8 != 0 {
        return BadAlign;
      }
      var e, h := DecodeHeader(bytes);
      if !e.Success? {
        return e;
      }
      rv := Install(h, bytes[FIELDS_SIZE..]);
    }

    method Install(h: Header, serialized: seq<Byte>) returns (rv: Error)
      requires Placeable(address, h, serialized, block.Length)
      modifies block
      ensures block[..] == FilledMemory(address, h, serialized, old(block[..]))
      ensures BoundedIn(block[..]) && rv == CrcResult(block[..]) && (rv == Success || rv == Invalid)
    {
      hide Placeable, BoundedIn, HeaderIn, X86In, ArmIn, FilledMemory, CrcResult;
      FilledAligned(address, h, serialized, block[..]);
      Fill(h, serialized);
      rv := CheckCrc();
    }

    /** Clears the memory and puts the header and the bytecodes into it. */
    method Fill(h: Header, serialized: seq<Byte>)
      requires Placeable(address, h, serialized, block.Length)
      modifies block
      ensures block[..] == FilledMemory(address, h, serialized, old(block[..]))
    {
      ghost var before := block[..];
      ClearedBytes(h, before);
      hide Overwrite, Allocation, StructBytes, InRange, Placed, Zeros;
      CopyIn(block, 0, Zeros(Allocation(h)));
      CopyIn(block, 0, StructBytes(h) + Zeros(STRUCT_SIZE - FIELDS_SIZE));
      assert block[..] == Cleared(h, before);
      assert block[..FIELDS_SIZE] == block[..][..FIELDS_SIZE];
      CopyBytecode(serialized, h);
    }
  }

  /** Writes the header, both bytecodes and the padding. */
  method SerializeParts(header: Header, xs: seq<Byte>, ys: seq<Byte>) returns (out: seq<Byte>)
    requires |xs| == header.x86Length && |ys| == header.armLength
    ensures out == SerializedForm(header, xs, ys)
  {
    var length := STRUCT_SIZE + header.x86Length + header.armLength;
    var buffer := new Byte[length](i => 0);
    assert buffer[..] == Zeros(length);
    ghost var head := HeaderBytes(header);
    hide HeaderBytes, Zeros;
    var pos := AppendHeader(buffer, header);
    pos := Append(buffer, pos, xs, head);
    pos := Append(buffer, pos, ys, head + xs);
    out := buffer[..];
  }

  /** Copies `bytes` behind what was written before. */
  method Append(buffer: array<Byte>, pos: nat, bytes: seq<Byte>, ghost before: seq<Byte>) returns (end: nat)
    requires pos == |before| && pos + |bytes| <= buffer.Length
    requires buffer[..] == before + Zeros(buffer.Length - pos)
    modifies buffer
    ensures end == |before + bytes| && buffer[..] == before + bytes + Zeros(buffer.Length - end)
  {
    forall i | 0 <= i < |bytes| {
      buffer[pos + i] := bytes[i];
    }
    end := pos + |bytes|;
  }

  /** Writes the fields of the header. */
  method AppendHeader(buffer: array<Byte>, h: Header) returns (end: nat)
    requires buffer.Length >= FIELDS_SIZE && buffer[..] == Zeros(buffer.Length)
    modifies buffer
    ensures end == FIELDS_SIZE && buffer[..] == HeaderBytes(h) + Zeros(buffer.Length - FIELDS_SIZE)
  {
    ghost var head := HeaderBytes(h);
    assert head == Upper(h) + Lower(h);
    assert buffer[..] == [] + Zeros(buffer.Length);
    hide HeaderBytes, Bytes, Zeros, Upper, Lower;
    end := AppendUpper(buffer, h);
    end := AppendLower(buffer, end, h, Upper(h));
  }

  function Upper(h: Header): (b: seq<Byte>)
    ensures |b| == 32
  {
    Bytes(h.magic, 4) + Bytes(h.version, 4) + Bytes(h.x86Length, 4) + Bytes(h.armLength, 4)
    + Bytes(h.platform, 8) + Bytes(h.armPlatform, 8)
  }

  function Lower(h: Header): (b: seq<Byte>)
    ensures |b| == 24
  {
    Bytes(h.x86Crc, 4) + Bytes(h.armCrc, 4) + Bytes(h.reserved0, 4) + Bytes(h.reserved1, 4)
    + Bytes(h.x86Bytecode, 4) + Bytes(h.armBytecode, 4)
  }

  method AppendUpper(buffer: array<Byte>, h: Header) returns (end: nat)
    requires buffer.Length >= FIELDS_SIZE && buffer[..] == [] + Zeros(buffer.Length)
    modifies buffer
    ensures end == 32 && buffer[..] == Upper(h) + Zeros(buffer.Length - end)
  {
    hide Bytes, Zeros;
    end := Append(buffer, 0, Bytes(h.magic, 4), []);
    ghost var b := [] + Bytes(h.magic, 4);
    end := Append(buffer, end, Bytes(h.version, 4), b);
    b := b + Bytes(h.version, 4);
    end := Append(buffer, end, Bytes(h.x86Length, 4), b);
    b := b + Bytes(h.x86Length, 4);
    end := Append(buffer, end, Bytes(h.armLength, 4), b);
    b := b + Bytes(h.armLength, 4);
    end := Append(buffer, end, Bytes(h.platform, 8), b);
    b := b + Bytes(h.platform, 8);
    end := Append(buffer, end, Bytes(h.armPlatform, 8), b);
    assert [] + Bytes(h.magic, 4) == Bytes(h.magic, 4);
  }

  method AppendLower(buffer: array<Byte>, pos: nat, h: Header, ghost before: seq<Byte>) returns (end: nat)
    requires pos == |before| && buffer.Length >= pos + 24 && buffer[..] == before + Zeros(buffer.Length - pos)
    modifies buffer
    ensures end == pos + 24 && buffer[..] == before + Lower(h) + Zeros(buffer.Length - end)
  {
    hide Bytes, Zeros;
    end := Append(buffer, pos, Bytes(h.x86Crc, 4), before);
    ghost var b := before + Bytes(h.x86Crc, 4);
    end := Append(buffer, end, Bytes(h.armCrc, 4), b);
    b := b + Bytes(h.armCrc, 4);
    end := Append(buffer, end, Bytes(h.reserved0, 4), b);
    b := b + Bytes(h.reserved0, 4);
    end := Append(buffer, end, Bytes(h.reserved1, 4), b);
    b := b + Bytes(h.reserved1, 4);
    end := Append(buffer, end, Bytes(h.x86Bytecode, 4), b);
    b := b + Bytes(h.x86Bytecode, 4);
    end := Append(buffer, end, Bytes(h.armBytecode, 4), b);
    assert b + Bytes(h.armBytecode, 4) == before + Lower(h);
  }

  // ----- the main results -----

  /** Whatever bytes follow an accepted header: the database is accepted exactly if both bytecodes match
      their checksums, provided the offset of the second one fits. */
  lemma AcceptedIff(address: nat, h: Header, serialized: seq<Byte>, before: seq<Byte>)
    requires Placeable(address, h, serialized, |before|)
    requires X86Offset(address) + RoundUp(h.x86Length) < U32_RANGE || h.armLength == 0
    ensures var mem, n := FilledMemory(address, h, serialized, before), h.x86Length;
            && BoundedIn(mem)
            && (CrcResult(mem).Success? <==>
                  CrcOf(serialized[..n]) == h.x86Crc && CrcOf(serialized[n..n + h.armLength]) == h.armCrc)
  {
    hide CrcOf, InRange, HeaderIn, BoundedIn, X86In, ArmIn, X86Offset, ArmOffset, Recorded, RoundUp, Allocation,
         FilledMemory;
    ArmOffsetIs(address, h.x86Length);
    FilledReads(address, h, serialized, before);
    if h.armLength == 0 {
      assert ArmIn(FilledMemory(address, h, serialized, before)) == [] == serialized[h.x86Length..h.x86Length];
    }
  }

  /** A sound header: of this version, with the checksums of the bytecodes. */
  ghost predicate Sound(h: Header, xs: seq<Byte>, ys: seq<Byte>) {
    && InRange(h) && h.magic == MAGIC && h.version == VERSION && |xs| == h.x86Length && |ys| == h.armLength
    && CrcOf(xs) == h.x86Crc && CrcOf(ys) == h.armCrc
  }

  function Unplaced(h: Header): Header {
    h.(x86Bytecode := 0, armBytecode := 0)
  }

  /** The memory holds the header `h`, except for the offsets, and the bytecodes `xs` and `ys`. */
  ghost predicate Has(mem: seq<Byte>, h: Header, xs: seq<Byte>, ys: seq<Byte>) {
    BoundedIn(mem) && X86In(mem) == xs && ArmIn(mem) == ys && Unplaced(HeaderIn(mem)) == Unplaced(h)
  }

  ghost predicate Relocatable(address: nat, h: Header, xs: seq<Byte>, ys: seq<Byte>, size: nat) {
    address % 8 == 0 && Sound(h, xs, ys) && size >= Allocation(h)
  }

  /** The serialized form behind the header's fields. */
  function Payload(h: Header, xs: seq<Byte>, ys: seq<Byte>): seq<Byte> {
    SerializedForm(h, xs, ys)[FIELDS_SIZE..]
  }

  lemma PayloadPlaceable(address: nat, h: Header, xs: seq<Byte>, ys: seq<Byte>, size: nat)
    requires Relocatable(address, h, xs, ys, size)
    ensures Placeable(address, Unplaced(h), Payload(h, xs, ys), size)
         && Payload(h, xs, ys)[..h.x86Length] == xs && Payload(h, xs, ys)[h.x86Length..h.x86Length + h.armLength] == ys
  {
    hide CrcOf, SerializedForm, DecodedHeader, DecodeResult;
    SerializedDecodes(h, xs, ys);
  }

  /** What deserializing the serialized form at `address` leaves in memory. */
  ghost function Relocated(address: nat, h: Header, xs: seq<Byte>, ys: seq<Byte>, before: seq<Byte>): (mem: seq<Byte>)
    requires Relocatable(address, h, xs, ys, |before|)
    ensures |mem| == |before|
  {
    PayloadPlaceable(address, h, xs, ys, |before|);
    FilledMemory(address, Unplaced(h), Payload(h, xs, ys), before)
  }

  /** Deserializing succeeds, with the same header and bytecodes. */
  ghost predicate Recovered(address: nat, h: Header, xs: seq<Byte>, ys: seq<Byte>, before: seq<Byte>)
    requires Relocatable(address, h, xs, ys, |before|)
  {
    var mem := Relocated(address, h, xs, ys, before);
    Has(mem, h, xs, ys) && CrcResult(mem).Success?
  }

  /** The first bytecode is always found again; the second one is read from where its recorded offset
      points to. */
  lemma RelocatedReads(address: nat, h: Header, xs: seq<Byte>, ys: seq<Byte>, before: seq<Byte>)
    requires Relocatable(address, h, xs, ys, |before|)
    ensures var mem, recorded := Relocated(address, h, xs, ys, before), Recorded(address, h.x86Length);
            && BoundedIn(mem) && HeaderIn(mem) == FinalHeader(address, Unplaced(h)) && X86In(mem) == xs
            && recorded + h.armLength <= |mem| && ArmIn(mem) == mem[recorded..recorded + h.armLength]
            && (ArmOffset(address, h.x86Length) < U32_RANGE ==> ArmIn(mem) == ys)
  {
    hide InRange, CrcOf, Payload, Placeable, FilledMemory, HeaderIn, BoundedIn, X86In, ArmIn,
         X86Offset, ArmOffset, Recorded, Allocation;
    PayloadPlaceable(address, h, xs, ys, |before|);
    FilledReads(address, Unplaced(h), Payload(h, xs, ys), before);
  }

  /** Deserializing recovers the database whenever the offset of the second bytecode fits its 32 bits, or
      the second bytecode is empty. */
  lemma RecoveredWhen(address: nat, h: Header, xs: seq<Byte>, ys: seq<Byte>, before: seq<Byte>)
    requires Relocatable(address, h, xs, ys, |before|)
    requires X86Offset(address) + RoundUp(h.x86Length) < U32_RANGE || h.armLength == 0
    ensures Recovered(address, h, xs, ys, before)
  {
    hide InRange, CrcOf, HeaderIn, BoundedIn, X86In, ArmIn, X86Offset, ArmOffset, Recorded, RoundUp, Allocation,
         Relocated;
    ArmOffsetIs(address, h.x86Length);
    RelocatedReads(address, h, xs, ys, before);
  }

  // ----- when the offset is lost -----

  /** A lost offset points to the first bytecode or one cache line before it. */
  lemma LostOffset(address: nat, n: nat)
    requires address % 8 == 0 && n < U32_RANGE && X86Offset(address) + RoundUp(n) >= U32_RANGE
    ensures CACHE_LINE <= X86Offset(address) <= STRUCT_SIZE && X86Offset(address) % 8 == 0 && n > 0
    ensures Recorded(address, n) == X86Offset(address) - (if RoundUp(n) == U32_RANGE then 0 else CACHE_LINE)
    ensures RoundUp(n) == U32_RANGE || 128 < n % 256
  {
    ArmOffsetIs(address, n);
    var k := (n + 63) / 64;
    assert RoundUp(n) == 64 * k && k >= 0x400_0000 - 1 && k <= 0x400_0000;
  }

  /** The first bytes of the header's fields in memory. */
  lemma FieldBytes(h: Header)
    ensures var b := StructBytes(h);
            && b[0] == (h.magic % 256) as bv8 && b[8] == (h.x86Length % 256) as bv8
            && b[16] == (h.platform % 256) as bv8 && b[24] == (h.armPlatform % 256) as bv8
            && b[32] == (h.armCrc % 256) as bv8 && b[40] == (h.reserved0 % 256) as bv8
            && b[48] == (h.x86Bytecode % 256) as bv8
  {
    HeaderSlices(Swapped(h));
    hide HeaderBytes;
    var b := HeaderBytes(Swapped(h));
    assert b[0] == Slice(b, 0, 4)[0] && b[8] == Slice(b, 8, 12)[0] && b[16] == Slice(b, 16, 24)[0]
        && b[24] == Slice(b, 24, 32)[0] && b[32] == Slice(b, 32, 36)[0] && b[40] == Slice(b, 40, 44)[0]
        && b[48] == Slice(b, 48, 52)[0];
  }

  lemma DivideOne()
    ensures Crc32c.DivideByte(1) == 0xF26B_8303
  {
    assert Crc32c.Shift(1) == Crc32c.POLY;
  }

  lemma {:induction false} ZerosCrc(m: nat)
    ensures Crc32c.Crc(Crc32c.DivideByte, 0, Zeros(m)) == 0
  {
    if m > 0 {
      assert Zeros(m)[..m - 1] == Zeros(m - 1);
      ZerosCrc(m - 1);
      assert Crc32c.DivideByte(0) == 0;
    }
  }

  /** The checksum of zeros that end in a one is the second entry of the table. */
  lemma OneCrc(m: nat)
    ensures CrcOf(Zeros(m) + [1]) == 0xF26B_8303
  {
    var b := Zeros(m) + [1];
    assert b[..m] == Zeros(m);
    ZerosCrc(m);
    DivideOne();
    hide Crc32c.DivideByte;
    assert Crc32c.Xor(0, 1) == 1;
  }

  lemma RelocatedFirst(address: nat, h: Header, xs: seq<Byte>, ys: seq<Byte>, before: seq<Byte>)
    requires Relocatable(address, h, xs, ys, |before|)
    ensures var mem, x86 := Relocated(address, h, xs, ys, before), X86Offset(address);
            x86 + |xs| <= |mem| && mem[x86..x86 + |xs|] == xs
  {
    hide CrcOf, InRange, X86Offset, ArmOffset, StructBytes, FilledMemory, FinalHeader, Payload, Placeable;
    PayloadPlaceable(address, h, xs, ys, |before|);
    FilledFacts(address, Unplaced(h), Payload(h, xs, ys), before);
  }

  /** Bytes of the memory: of the header, of the padding behind it, and of the first bytecode. */
  lemma RelocatedBytes(address: nat, h: Header, xs: seq<Byte>, ys: seq<Byte>, before: seq<Byte>)
    requires Relocatable(address, h, xs, ys, |before|) && h.x86Length > 0
    ensures var mem := Relocated(address, h, xs, ys, before);
            && STRUCT_SIZE < |mem| && mem[..FIELDS_SIZE] == StructBytes(FinalHeader(address, Unplaced(h)))
            && mem[FIELDS_SIZE] == 0 && X86Offset(address) <= STRUCT_SIZE && mem[X86Offset(address)] == xs[0]
  {
    hide InRange, CrcOf, Payload, Placeable, FilledMemory, StructBytes, FinalHeader, X86Offset, ArmOffset;
    LayoutFits(address, h);
    RelocatedFirst(address, h, xs, ys, before);
    PayloadPlaceable(address, h, xs, ys, |before|);
    FilledFacts(address, Unplaced(h), Payload(h, xs, ys), before);
    var mem, x86 := Relocated(address, h, xs, ys, before), X86Offset(address);
    assert mem[x86..x86 + |xs|][0] == mem[x86];
  }

  /** A database whose second bytecode differs in its first byte from what stands at `lost`. */
  function LostArm(m: nat, lost: nat): (ys: seq<Byte>)
    requires m > 0
    ensures |ys| == m
  {
    if lost == FIELDS_SIZE then [1] + Zeros(m - 1) else Zeros(m - 1) + [1]
  }

  function LostX86(n: nat): (xs: seq<Byte>)
    requires n > 0
    ensures |xs| == n && xs[0] == 3
  {
    [3] + Zeros(n - 1)
  }

  function LostHeader(n: nat, m: nat, lost: nat): Header
    requires n > 0 && m > 0
  {
    Header(MAGIC, VERSION, n, m, 3, 3, CrcOf(LostX86(n)), CrcOf(LostArm(m, lost)), 3, 0, 0, 0)
  }

  lemma LostArmStart(m: nat, lost: nat)
    requires m > 0
    ensures LostArm(m, lost)[0] == 1 || (LostArm(m, lost)[0] == 0 && lost != FIELDS_SIZE)
    ensures lost != FIELDS_SIZE ==> CrcOf(LostArm(m, lost)) % 256 == 3
  {
    hide CrcOf;
    OneCrc(m - 1);
    assert 0xF26B_8303 % 256 == 3;
  }

  lemma LostSound(n: nat, m: nat, lost: nat)
    requires 0 < n < U32_RANGE && 0 < m < U32_RANGE
    ensures Sound(LostHeader(n, m, lost), LostX86(n), LostArm(m, lost)) && LostHeader(n, m, lost).x86Length == n
  {
    hide LostX86, LostArm, Crc32c.Crc;
  }

  lemma LostPlace(address: nat, n: nat)
    requires address % 8 == 0 && n < U32_RANGE && X86Offset(address) + RoundUp(n) >= U32_RANGE
    ensures var lost := Recorded(address, n);
            && n > 0 && lost <= STRUCT_SIZE && (lost == 48 ==> X86Offset(address) == 112)
                && (lost < CACHE_LINE ==> 128 < n % 256)
            && if lost < CACHE_LINE then lost in {0, 8, 16, 24, 32, 40, 48, 56} else lost == X86Offset(address)
  {
    LostOffset(address, n);
    hide RoundUp, Recorded, X86Offset;
    var k := Recorded(address, n) / 8;
    if Recorded(address, n) < CACHE_LINE {
      assert Recorded(address, n) == 8 * k && k in {0, 1, 2, 3, 4, 5, 6, 7};
    }
  }

  /** The header that is left in memory, as far as a lost offset can point to it. */
  lemma LostFields(address: nat, n: nat, m: nat, lost: nat)
    requires n > 0 && m > 0
    ensures var f := FinalHeader(address, Unplaced(LostHeader(n, m, lost)));
            && f.magic == MAGIC && f.x86Length == n && f.platform == 3 && f.armPlatform == 3 && f.reserved0 == 3
            && (lost != FIELDS_SIZE ==> f.armCrc % 256 == 3) && f.x86Bytecode == X86Offset(address)
  {
    hide CrcOf, X86Offset, RoundUp, LostArm, LostX86, Recorded;
    LostArmStart(m, lost);
  }

  lemma LargeByte(x: nat)
    requires 1 < x < 256
    ensures x as bv8 != 0 && x as bv8 != 1
  {
    ByteBack(x);
    assert (0 as bv8) as nat == 0 && (1 as bv8) as nat == 1;
  }

  lemma ByteBack(x: nat)
    requires x < 256
    ensures (x as bv8) as nat == x
  {
    assert x % 256 == x && x / 256 == 0;
    LowByte(x);
  }

  /** None of those bytes is zero or one. */
  lemma FieldsDiffer(f: Header, lost: nat)
    requires lost in {0, 8, 16, 24, 32, 40, 48}
    requires f.magic == MAGIC && 128 < f.x86Length % 256 && f.platform == 3 && f.armPlatform == 3
          && f.armCrc % 256 == 3 && f.reserved0 == 3 && (lost == 48 ==> f.x86Bytecode == 112)
    ensures StructBytes(f)[lost] != 0 && StructBytes(f)[lost] != 1
  {
    hide StructBytes;
    FieldBytes(f);
    LargeByte(MAGIC % 256);
    LargeByte(f.x86Length % 256);
    LargeByte(f.platform % 256);
    LargeByte(f.armCrc % 256);
    if lost == 48 {
      LargeByte(f.x86Bytecode % 256);
    }
  }

  /** What stands at the lost offset is not the start of the second bytecode. */
  lemma LostByte(address: nat, n: nat, m: nat, before: seq<Byte>)
    requires address % 8 == 0 && n < U32_RANGE && 0 < m < U32_RANGE && X86Offset(address) + RoundUp(n) >= U32_RANGE
    requires n > 0 && |before| >= Allocation(LostHeader(n, m, Recorded(address, n)))
    ensures var lost := Recorded(address, n);
            var h, xs, ys := LostHeader(n, m, lost), LostX86(n), LostArm(m, lost);
            && Relocatable(address, h, xs, ys, |before|) && lost < |before|
            && Relocated(address, h, xs, ys, before)[lost] != ys[0]
  {
    hide CrcOf, Sound, Relocated, LostHeader, LostX86, LostArm, Recorded, X86Offset, RoundUp, Allocation, FinalHeader,
         StructBytes;
    var lost := Recorded(address, n);
    var h, xs, ys := LostHeader(n, m, lost), LostX86(n), LostArm(m, lost);
    LostArmStart(m, lost);
    LostSound(n, m, lost);
    LostFields(address, n, m, lost);
    LostPlace(address, n);
    RelocatedBytes(address, h, xs, ys, before);
    var mem, f := Relocated(address, h, xs, ys, before), FinalHeader(address, Unplaced(h));
    if lost < FIELDS_SIZE {
      FieldsDiffer(f, lost);
      assert mem[lost] == mem[..FIELDS_SIZE][lost] == StructBytes(f)[lost];
    }
  }

  /** A database that deserializing does not recover. */
  lemma NotRecovered(address: nat, n: nat, m: nat, before: seq<Byte>)
    requires address % 8 == 0 && n < U32_RANGE && 0 < m < U32_RANGE && X86Offset(address) + RoundUp(n) >= U32_RANGE
    requires n > 0 && |before| >= Allocation(LostHeader(n, m, Recorded(address, n)))
    ensures var lost := Recorded(address, n);
            var h, xs, ys := LostHeader(n, m, lost), LostX86(n), LostArm(m, lost);
            && Sound(h, xs, ys) && |ys| == m
            && Relocatable(address, h, xs, ys, |before|) && !Recovered(address, h, xs, ys, before)
  {
    hide CrcOf, Sound, Relocated, LostX86, LostArm, Recorded, X86Offset, RoundUp, Allocation, FinalHeader, StructBytes,
         HeaderIn, BoundedIn, X86In, ArmIn, CrcResult;
    var lost := Recorded(address, n);
    var h, xs, ys := LostHeader(n, m, lost), LostX86(n), LostArm(m, lost);
    LostSound(n, m, lost);
    LostByte(address, n, m, before);
    RelocatedReads(address, h, xs, ys, before);
    var mem := Relocated(address, h, xs, ys, before);
    assert ArmIn(mem)[0] == mem[lost];
  }

  lemma SoundFields(h: Header, xs: seq<Byte>, ys: seq<Byte>)
    requires Sound(h, xs, ys)
    ensures h.x86Length == |xs| && h.armLength == |ys| && |xs| < U32_RANGE && |ys| < U32_RANGE
         && h.x86Crc == CrcOf(xs) && h.armCrc == CrcOf(ys)
  {
    hide CrcOf;
  }

  /** Every sound database with bytecodes of these lengths is recovered at the address. */
  ghost predicate AllRecovered(address: nat, n: nat, m: nat) {
    forall h, xs, ys, before | Relocatable(address, h, xs, ys, |before|) && |xs| == n && |ys| == m ::
      Recovered(address, h, xs, ys, before)
  }

  /** Whatever the bytecodes, serializing a database and deserializing it at the address recovers it exactly
      if the offset of its second bytecode fits 32 bits or there is no second bytecode. */
  lemma RecoveredIff(address: nat, n: nat, m: nat)
    requires address % 8 == 0 && n < U32_RANGE && m < U32_RANGE
    ensures AllRecovered(address, n, m) <==> X86Offset(address) + RoundUp(n) < U32_RANGE || m == 0
  {
    hide Sound, Recovered, Recorded, X86Offset, RoundUp, Allocation, LostX86, LostArm, LostHeader;
    if X86Offset(address) + RoundUp(n) < U32_RANGE || m == 0 {
      forall h, xs, ys, before | Relocatable(address, h, xs, ys, |before|) && |xs| == n && |ys| == m
        ensures Recovered(address, h, xs, ys, before)
      {
        SoundFields(h, xs, ys);
        RecoveredWhen(address, h, xs, ys, before);
      }
    } else {
      LostPlace(address, n);
      var lost := Recorded(address, n);
      NotRecovered(address, n, m, Zeros(Allocation(LostHeader(n, m, lost))));
    }
  }

  /** With a first bytecode of nearly 4 GiB the second one is looked for where the first one starts.  So
      deserializing fails unless the start of the first one has the checksum of the second. */
  lemma OffsetLost(address: nat, h: Header, xs: seq<Byte>, ys: seq<Byte>, before: seq<Byte>)
    requires Relocatable(address, h, xs, ys, |before|) && RoundUp(h.x86Length) == U32_RANGE && |ys| <= |xs|
    ensures var mem := Relocated(address, h, xs, ys, before);
            && BoundedIn(mem) && ArmIn(mem) == xs[..|ys|]
            && (CrcResult(mem).Success? <==> CrcOf(xs[..|ys|]) == CrcOf(ys))
  {
    hide CrcOf, Sound, InRange, Relocated, Recorded, X86Offset, RoundUp, Allocation, StructBytes, HeaderIn, BoundedIn,
         X86In, ArmIn;
    SoundFields(h, xs, ys);
    OffsetRange(address);
    LostOffset(address, h.x86Length);
    RelocatedReads(address, h, xs, ys, before);
    RelocatedFirst(address, h, xs, ys, before);
    Prefix(Relocated(address, h, xs, ys, before), X86Offset(address), |xs|, |ys|);
  }

  lemma OffsetRange(address: nat)
    ensures X86Offset(address) <= STRUCT_SIZE
  {
  }

  lemma Prefix(mem: seq<Byte>, pos: nat, n: nat, m: nat)
    requires m <= n && pos + n <= |mem|
    ensures mem[pos..pos + m] == mem[pos..pos + n][..m]
  {
  }

  /** Deserializing what was serialized. */
  method Restore(target: Database, bytes: seq<Byte>, ghost h: Header, ghost xs: seq<Byte>, ghost ys: seq<Byte>)
      returns (rv: Error)
    requires Relocatable(target.address, h, xs, ys, target.block.Length) && bytes == SerializedForm(h, xs, ys)
    modifies target.block
    ensures target.block[..] == Relocated(target.address, h, xs, ys, old(target.block[..]))
    ensures BoundedIn(target.block[..]) && rv == CrcResult(target.block[..])
    ensures X86Offset(target.address) + RoundUp(h.x86Length) < U32_RANGE || h.armLength == 0 ==>
              rv.Success? && Has(target.block[..], h, xs, ys)
  {
    hide CrcOf, SerializedForm, DecodedHeader, DecodeResult, FilledMemory, BoundedIn, CrcResult, Has, X86Offset,
         RoundUp, InRange, Complete, Bytes;
    SerializedDecodes(h, xs, ys);
    DecodeMeans(bytes);
    rv := target.DeserializeAt(bytes);
    ghost var before := old(target.block[..]);
    if X86Offset(target.address) + RoundUp(h.x86Length) < U32_RANGE || h.armLength == 0 {
      RecoveredWhen(target.address, h, xs, ys, before);
    }
  }

  /** Serializing a sound database and deserializing it elsewhere. */
  method Relocate(source: Database, target: Database) returns (rv: Error)
    requires source.block != target.block && source.address % 8 == 0 && BoundedIn(source.block[..])
    requires Relocatable(target.address, HeaderIn(source.block[..]), X86In(source.block[..]), ArmIn(source.block[..]),
                         target.block.Length)
    modifies target.block
    ensures BoundedIn(target.block[..]) && rv == CrcResult(target.block[..])
    ensures var h, xs, ys := HeaderIn(source.block[..]), X86In(source.block[..]), ArmIn(source.block[..]);
            && target.block[..] == Relocated(target.address, h, xs, ys, old(target.block[..]))
            && (X86Offset(target.address) + RoundUp(h.x86Length) < U32_RANGE || h.armLength == 0 ==>
                  rv.Success? && Has(target.block[..], h, xs, ys))
  {
    hide CrcOf, SerializedForm, FilledMemory, HeaderIn, X86In, ArmIn, CrcResult, Has, X86Offset, RoundUp, InRange;
    ghost var mem := source.block[..];
    ghost var h, xs, ys := HeaderIn(mem), X86In(mem), ArmIn(mem);
    var e, bytes := source.Serialize();
    rv := Restore(target, bytes, h, xs, ys);
  }

  /** No checksum fits both of two bytecodes that differ in a burst of at most 32 bits. */
  lemma OneChecksumFitsOne(xs: seq<Byte>, ys: seq<Byte>, start: nat, crc32: nat)
    requires |xs| == |ys| && xs != ys
    requires forall j | 0 <= j < 8 * |xs| && !(start <= j < start + 32) ::
        Crc32cBursts.Bit(xs, j) == Crc32cBursts.Bit(ys, j)
    ensures CrcOf(xs) != crc32 || CrcOf(ys) != crc32
  {
    Crc32cBursts.BurstDetected(0, xs, ys, start);
    hide Crc32c.Crc, Crc32c.DivideByte;
    if CrcOf(xs) == CrcOf(ys) {
      SameNumber(Crc32c.Crc(Crc32c.DivideByte, 0, xs), Crc32c.Crc(Crc32c.DivideByte, 0, ys));
    }
  }

  lemma SameNumber(a: bv32, b: bv32)
    requires a as nat == b as nat
    ensures a == b
  {
    assert a == (a as nat) as bv32 && b == (b as nat) as bv32;
  }
}
