/** Error detection: two equally long byte strings that differ only inside 32 consecutive bits never
    share a checksum. */
module Crc32cBursts {
  import opened Crc32c

  function LowBit(x: bv32): bv32 {
    x & 1
  }

  /** Bit `j` of a byte string, counting each byte from its low end. */
  function Bit(buf: seq<bv8>, j: nat): bv32
    requires j < 8 * |buf|
  {
    LowBit(Iterate(Half, buf[j / 8] as bv32, j % 8))
  }

  /** The checksum of the first `n` bits, one bit at a time. */
  function CrcBits(crc: bv32, buf: seq<bv8>, n: nat): bv32
    requires n <= 8 * |buf|
  {
    if n == 0 then crc else Shift(Xor(CrcBits(crc, buf, n - 1), Bit(buf, n - 1)))
  }

  function DropSeven(x: bv32): bv32 {
    x >> 7
  }

  // ----- facts about single words -----

  lemma SplitLowBit(r: bv32)
    ensures r == Xor(LowBit(r), r & 0xFFFF_FFFE)
  {
  }

  lemma ClearedLowBit(r: bv32)
    ensures (r & 0xFFFF_FFFE) & 1 == 0
    ensures Half(r & 0xFFFF_FFFE) == Half(r)
  {
  }

  lemma ShiftCleared(r: bv32)
    ensures Shift(r & 0xFFFF_FFFE) == Half(r)
  {
    ClearedLowBit(r);
    ShiftHalves(r & 0xFFFF_FFFE);
  }

  lemma ZeroIsZero()
    ensures Shift(0) == 0 && Half(0) == 0 && LowBit(0) == 0
  {
  }

  lemma ShiftZero(x: bv32)
    requires Shift(x) == 0
    ensures x == 0
  {
  }

  lemma ShiftOne()
    ensures Shift(1) == POLY
  {
  }

  lemma ShiftOdd(x: bv32)
    requires Shift(x) & 0x8000_0000 == 0
    ensures x & 1 == 0
  {
  }

  lemma XorSame(x: bv32)
    ensures Xor(x, x) == 0 && Xor(x, 0) == x && Xor(0, x) == x
  {
  }

  lemma LowBitXor(x: bv32, y: bv32)
    ensures LowBit(x) == LowBit(y) || Xor(LowBit(x), LowBit(y)) == 1
  {
  }

  lemma HalfXorBit(x: bv32)
    ensures Half(Xor(x, 1)) == Half(x)
  {
  }

  lemma HalvesAndBit(x: bv32, y: bv32)
    requires Half(x) == Half(y) && LowBit(x) == LowBit(y)
    ensures x == y
  {
  }

  // ----- the bytewise checksum is the bitwise one -----

  lemma StepBit(s: bv32, r: bv32)
    ensures Shift(Xor(s, r)) == Xor(Shift(Xor(s, LowBit(r))), Half(r))
  {
    var cleared := r & 0xFFFF_FFFE;
    SplitLowBit(r);
    ShiftCleared(r);
    XorAssoc(s, LowBit(r), cleared);
    ShiftLinear();
    LinearSplit(Xor, Shift, Xor(s, r), Xor(s, LowBit(r)), cleared, Half(r));
  }

  lemma {:induction false} BitsOfByte(crc: bv32, buf: seq<bv8>, p: nat, i: nat)
    requires p < |buf| && i <= 8
    ensures Xor(CrcBits(crc, buf, 8 * p + i), Iterate(Half, buf[p] as bv32, i))
         == Iterate(Shift, Xor(CrcBits(crc, buf, 8 * p), buf[p] as bv32), i)
  {
    hide Shift, Half, LowBit, Xor;
    if i > 0 {
      BitsOfByte(crc, buf, p, i - 1);
      assert (8 * p + i - 1) / 8 == p && (8 * p + i - 1) % 8 == i - 1;
      StepBit(CrcBits(crc, buf, 8 * p + i - 1), Iterate(Half, buf[p] as bv32, i - 1));
    }
  }

  lemma Halvings(x: bv32)
    ensures Half(x) == x >> 1 && Half(x >> 1) == x >> 2 && Half(x >> 2) == x >> 3 && Half(x >> 3) == x >> 4
    ensures Half(x >> 4) == x >> 5 && Half(x >> 5) == x >> 6 && Half(x >> 6) == x >> 7 && Half(x >> 7) == x >> 8
  {
    ShiftRightTwice(x);
  }

  lemma IterateEight<T>(f: T -> T, x0: T, x1: T, x2: T, x3: T, x4: T, x5: T, x6: T, x7: T, x8: T)
    requires f(x0) == x1 && f(x1) == x2 && f(x2) == x3 && f(x3) == x4
    requires f(x4) == x5 && f(x5) == x6 && f(x6) == x7 && f(x7) == x8
    ensures Iterate(f, x0, 7) == x7 && Iterate(f, x0, 8) == x8
  {
    assert Iterate(f, x0, 2) == x2 by { assert Iterate(f, x0, 1) == f(Iterate(f, x0, 0)); }
    assert Iterate(f, x0, 4) == x4 by { assert Iterate(f, x0, 3) == x3; }
    assert Iterate(f, x0, 6) == x6 by { assert Iterate(f, x0, 5) == x5; }
    assert Iterate(f, x0, 7) == x7;
  }

  lemma HalfEight(x: bv32)
    ensures Iterate(Half, x, 7) == DropSeven(x) && Iterate(Half, x, 8) == DropByte(x)
  {
    Halvings(x);
    IterateEight(Half, x, x >> 1, x >> 2, x >> 3, x >> 4, x >> 5, x >> 6, x >> 7, x >> 8);
  }

  lemma ByteHalvesAway(b: bv32)
    requires b <= 0xFF
    ensures DropByte(b) == 0
  {
  }

  lemma ByteIsEightBits(crc: bv32, buf: seq<bv8>, p: nat)
    requires p < |buf|
    ensures CrcBits(crc, buf, 8 * p + 8) == DivideByte(Xor(CrcBits(crc, buf, 8 * p), buf[p] as bv32))
  {
    BitsOfByte(crc, buf, p, 8);
    HalfEight(buf[p] as bv32);
    ByteHalvesAway(buf[p] as bv32);
    XorSame(CrcBits(crc, buf, 8 * p + 8));
  }

  lemma {:induction false} CrcIsBitwise(crc: bv32, buf: seq<bv8>, p: nat)
    requires p <= |buf|
    ensures Crc(DivideByte, crc, buf[..p]) == CrcBits(crc, buf, 8 * p)
  {
    hide DivideByte, Iterate, Shift, Xor, Bit;
    if p > 0 {
      CrcIsBitwise(crc, buf, p - 1);
      CrcExtend(DivideByte, crc, buf, p - 1);
      ByteIsEightBits(crc, buf, p - 1);
    }
  }

  // ----- how the difference of two checksums evolves -----

  /** The difference of the two checksums after `n` bits. */
  function Gap(crc: bv32, a: seq<bv8>, b: seq<bv8>, n: nat): bv32
    requires |a| == |b| && n <= 8 * |a|
  {
    Xor(CrcBits(crc, a, n), CrcBits(crc, b, n))
  }

  lemma XorSwap(a: bv32, p: bv32, b: bv32, q: bv32)
    ensures Xor(Xor(a, p), Xor(b, q)) == Xor(Xor(a, b), Xor(p, q))
  {
    XorPairs(a, p, b, q);
    XorPairs(a, b, p, q);
    XorRegroup(a, p, b, q);
  }

  lemma XorPairs(a: bv32, p: bv32, b: bv32, q: bv32)
    ensures Xor(Xor(a, p), Xor(b, q)) == (a ^ p) ^ (b ^ q)
  {
  }

  /** The difference is itself divided bit by bit, fed with the differences of the bits. */
  lemma GapStep(crc: bv32, a: seq<bv8>, b: seq<bv8>, n: nat)
    requires |a| == |b| && n < 8 * |a|
    ensures Gap(crc, a, b, n + 1) == Shift(Xor(Gap(crc, a, b, n), Xor(Bit(a, n), Bit(b, n))))
  {
    var x, y := Xor(CrcBits(crc, a, n), Bit(a, n)), Xor(CrcBits(crc, b, n), Bit(b, n));
    ShiftLinear();
    assert LinearAt(Xor, Shift, x, y);
    XorSwap(CrcBits(crc, a, n), Bit(a, n), CrcBits(crc, b, n), Bit(b, n));
  }

  /** Equal bits neither create nor remove a difference. */
  lemma EqualBitsKeepGap(crc: bv32, a: seq<bv8>, b: seq<bv8>, n: nat)
    requires |a| == |b| && n < 8 * |a| && Bit(a, n) == Bit(b, n)
    ensures Gap(crc, a, b, n + 1) == 0 <==> Gap(crc, a, b, n) == 0
  {
    GapStep(crc, a, b, n);
    XorSame(Bit(a, n));
    XorSame(Gap(crc, a, b, n));
    ZeroIsZero();
    if Gap(crc, a, b, n + 1) == 0 {
      ShiftZero(Gap(crc, a, b, n));
    }
  }

  lemma {:induction false} EqualBitsKeepGaps(crc: bv32, a: seq<bv8>, b: seq<bv8>, lo: nat, hi: nat)
    requires |a| == |b| && lo <= hi <= 8 * |a|
    requires forall j | lo <= j < hi :: Bit(a, j) == Bit(b, j)
    ensures Gap(crc, a, b, hi) == 0 <==> Gap(crc, a, b, lo) == 0
  {
    hide Gap, Bit, CrcBits;
    if lo < hi {
      EqualBitsKeepGaps(crc, a, b, lo, hi - 1);
      EqualBitsKeepGap(crc, a, b, hi - 1);
    }
  }

  // ----- a difference that can vanish within j bits fits in j bits -----

  ghost predicate Fits(x: bv32, j: nat) {
    Iterate(Half, x, j) == 0
  }

  lemma {:induction false} HalvesOfZero(n: nat)
    ensures Iterate(Half, 0, n) == 0
  {
    if n > 0 {
      HalvesOfZero(n - 1);
      ZeroIsZero();
    }
  }

  lemma TopByte(x: bv32)
    ensures DropSeven(DropByte(DropByte(DropByte(x)))) == 0 ==> x & 0x8000_0000 == 0
  {
  }

  lemma FitsHasNoTopBit(x: bv32, j: nat)
    requires j <= 31 && Fits(x, j)
    ensures x & 0x8000_0000 == 0
  {
    hide Half, Iterate;
    IterateAdd(Half, x, j, 31 - j);
    HalvesOfZero(31 - j);
    HalfThirtyOne(x);
    TopByte(x);
  }

  lemma IterateChain<T>(f: T -> T, x: T, a: T, b: T, c: T, d: T)
    requires Iterate(f, x, 8) == a && Iterate(f, a, 8) == b && Iterate(f, b, 8) == c && Iterate(f, c, 7) == d
    ensures Iterate(f, x, 31) == d
  {
    hide Iterate;
    IterateAdd(f, x, 8, 23);
    IterateAdd(f, a, 8, 15);
    IterateAdd(f, b, 8, 7);
  }

  lemma HalfThirtyOne(x: bv32)
    ensures Iterate(Half, x, 31) == DropSeven(DropByte(DropByte(DropByte(x))))
  {
    hide Half, Iterate, DropByte, DropSeven;
    var x1 := DropByte(x);
    var x2 := DropByte(x1);
    var x3 := DropByte(x2);
    HalfEight(x);
    HalfEight(x1);
    HalfEight(x2);
    HalfEight(x3);
    IterateChain(Half, x, x1, x2, x3, DropSeven(x3));
  }

  /** One bit earlier the difference fits in one bit more. */
  lemma FitsBack(x: bv32, j: nat)
    requires j <= 31 && Fits(Shift(x), j)
    ensures Fits(x, j + 1)
  {
    FitsHasNoTopBit(Shift(x), j);
    ShiftOdd(x);
    ShiftHalves(x);
    IterateUp(Half, x, j);
  }

  lemma FitsIgnoresLowBit(x: bv32, j: nat)
    ensures Fits(Xor(x, 1), j + 1) <==> Fits(x, j + 1)
  {
    IterateUp(Half, x, j);
    IterateUp(Half, Xor(x, 1), j);
    HalfXorBit(x);
  }

  lemma {:induction false} VanishingGapFits(crc: bv32, a: seq<bv8>, b: seq<bv8>, end: nat, j: nat)
    requires |a| == |b| && j <= end <= 8 * |a| && j <= 32
    requires Gap(crc, a, b, end) == 0
    ensures Fits(Gap(crc, a, b, end - j), j)
  {
    if j > 0 {
      var n := end - j;
      VanishingGapFits(crc, a, b, end, j - 1);
      GapStep(crc, a, b, n);
      var gap, bits := Gap(crc, a, b, n), Xor(Bit(a, n), Bit(b, n));
      FitsBack(Xor(gap, bits), j - 1);
      DifferentBit(a, b, n);
      XorSame(gap);
      FitsIgnoresLowBit(gap, j - 1);
    }
  }

  lemma DifferentBit(a: seq<bv8>, b: seq<bv8>, n: nat)
    requires |a| == |b| && n < 8 * |a|
    ensures Xor(Bit(a, n), Bit(b, n)) == if Bit(a, n) == Bit(b, n) then 0 else 1
  {
    XorSame(Bit(a, n));
    LowBitXor(Iterate(Half, a[n / 8] as bv32, n % 8), Iterate(Half, b[n / 8] as bv32, n % 8));
  }

  // ----- the bits determine the bytes -----

  lemma {:induction false} HalvesAndBits(x: bv32, y: bv32, n: nat)
    requires Iterate(Half, x, n) == Iterate(Half, y, n)
    requires forall i | 0 <= i < n :: LowBit(Iterate(Half, x, i)) == LowBit(Iterate(Half, y, i))
    ensures x == y
  {
    if n > 0 {
      HalvesAndBit(Iterate(Half, x, n - 1), Iterate(Half, y, n - 1));
      HalvesAndBits(x, y, n - 1);
    }
  }

  lemma BitAt(buf: seq<bv8>, p: nat, i: nat)
    requires p < |buf| && i < 8
    ensures Bit(buf, 8 * p + i) == LowBit(Iterate(Half, buf[p] as bv32, i))
  {
    assert (8 * p + i) / 8 == p && (8 * p + i) % 8 == i;
  }

  lemma SameBitsSameByte(a: seq<bv8>, b: seq<bv8>, p: nat)
    requires |a| == |b| && p < |a|
    requires forall j | 0 <= j < 8 * |a| :: Bit(a, j) == Bit(b, j)
    ensures a[p] as bv32 == b[p] as bv32
  {
    var x, y := a[p] as bv32, b[p] as bv32;
    forall i | 0 <= i < 8 ensures LowBit(Iterate(Half, x, i)) == LowBit(Iterate(Half, y, i)) {
      BitAt(a, p, i);
      BitAt(b, p, i);
    }
    HalfEight(x);
    HalfEight(y);
    ByteHalvesAway(x);
    ByteHalvesAway(y);
    HalvesAndBits(x, y, 8);
  }

  lemma WideningKeepsBytes(x: bv8, y: bv8)
    requires x as bv32 == y as bv32
    ensures x == y
  {
  }

  lemma SameBitsSameBytes(a: seq<bv8>, b: seq<bv8>)
    requires |a| == |b|
    requires forall j | 0 <= j < 8 * |a| :: Bit(a, j) == Bit(b, j)
    ensures a == b
  {
    forall p | 0 <= p < |a| ensures a[p] == b[p] {
      SameBitsSameByte(a, b, p);
      WideningKeepsBytes(a[p], b[p]);
    }
  }

  lemma {:induction false} FirstDifferenceFrom(a: seq<bv8>, b: seq<bv8>, n: nat) returns (first: nat)
    requires |a| == |b| && n <= 8 * |a|
    requires forall j | 0 <= j < n :: Bit(a, j) == Bit(b, j)
    requires a != b
    ensures first < 8 * |a| && Bit(a, first) != Bit(b, first)
    ensures forall j | 0 <= j < first :: Bit(a, j) == Bit(b, j)
    decreases 8 * |a| - n
  {
    if n == 8 * |a| {
      SameBitsSameBytes(a, b);
    } else if Bit(a, n) == Bit(b, n) {
      first := FirstDifferenceFrom(a, b, n + 1);
    } else {
      first := n;
    }
  }

  // ----- the main results -----

  /** A CRC-32C detects every error burst of at most 32 bits, wherever it starts. */
  lemma BurstDetected(crc: bv32, a: seq<bv8>, b: seq<bv8>, start: nat)
    requires |a| == |b| && a != b
    requires forall j | 0 <= j < 8 * |a| && !(start <= j < start + 32) :: Bit(a, j) == Bit(b, j)
    ensures Crc(DivideByte, crc, a) != Crc(DivideByte, crc, b)
  {
    hide Gap, Bit, Iterate;
    var n := 8 * |a|;
    var first := FirstDifferenceFrom(a, b, 0);
    var end := if start + 32 < n then start + 32 else n;
    BeforeBurst(crc, a, b, first);
    if Gap(crc, a, b, n) == 0 {
      EqualBitsKeepGaps(crc, a, b, end, n);
      VanishingGapFits(crc, a, b, end, end - (first + 1));
      FitsHasNoTopBit(POLY, end - (first + 1));
    }
    CrcsDiffer(crc, a, b);
  }

  /** The first differing bit leaves exactly the polynomial as difference. */
  lemma BeforeBurst(crc: bv32, a: seq<bv8>, b: seq<bv8>, first: nat)
    requires |a| == |b| && first < 8 * |a|
    requires forall j | 0 <= j < first :: Bit(a, j) == Bit(b, j)
    requires Bit(a, first) != Bit(b, first)
    ensures Gap(crc, a, b, first + 1) == POLY
  {
    XorSame(crc);
    EqualBitsKeepGaps(crc, a, b, 0, first);
    GapStep(crc, a, b, first);
    DifferentBit(a, b, first);
    XorSame(1);
    ShiftOne();
  }

  lemma CrcsDiffer(crc: bv32, a: seq<bv8>, b: seq<bv8>)
    requires |a| == |b| && Gap(crc, a, b, 8 * |a|) != 0
    ensures Crc(DivideByte, crc, a) != Crc(DivideByte, crc, b)
  {
    CrcIsBitwise(crc, a, |a|);
    CrcIsBitwise(crc, b, |b|);
    assert a[..|a|] == a && b[..|b|] == b;
    XorSame(CrcBits(crc, a, 8 * |a|));
  }
}
