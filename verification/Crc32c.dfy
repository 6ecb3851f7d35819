/** CRC-32C as the databases use it: reflected polynomial, no initial or final complement.

    The reference is bit-serial polynomial division.  The table-driven byte loop, slicing-by-8 and
    the word-at-a-time loop are proved equal to it.  The loops are proved for every byte division
    `g` that is linear and drops zero low bytes, that is for every reflected 32-bit polynomial;
    `DivideByte` is the division by the Castagnoli polynomial. */
module Crc32c {

  // ----- bit-serial division -----

  /** The Castagnoli polynomial 0x1EDC6F41, bit-reflected. */
  const POLY: bv32 := 0x82F6_3B78

  /** One step of the division: shift one bit out, subtract the polynomial if it was set. */
  function Shift(x: bv32): bv32 {
    Subtract(Half(x), Odd(x))
  }

  function Half(x: bv32): bv32 {
    x >> 1
  }

  predicate Odd(x: bv32) {
    x & 1 == 1
  }

  function Subtract(x: bv32, odd: bool): bv32 {
    if odd then Xor(x, POLY) else x
  }

  function Iterate<T>(f: T -> T, x: T, n: nat): T {
    if n == 0 then x else f(Iterate(f, x, n - 1))
  }

  /** Eight steps of the division. */
  function DivideByte(x: bv32): bv32 {
    Iterate(Shift, x, 8)
  }

  function Xor(x: bv32, y: bv32): bv32 {
    x ^ y
  }

  function LowByte(x: bv32): bv32 {
    x & 0xFF
  }

  function DropByte(x: bv32): bv32 {
    x >> 8
  }

  /** The checksum of a byte string, started from `crc`, for the byte division `g`. */
  function Crc(g: bv32 -> bv32, crc: bv32, buf: seq<bv8>): bv32 {
    if buf == [] then crc
    else g(Xor(Crc(g, crc, buf[..|buf| - 1]), buf[|buf| - 1] as bv32))
  }

  // ----- linear maps on any exclusive-or -----

  ghost predicate LinearAt<T>(xor: (T, T) -> T, f: T -> T, x: T, y: T) {
    f(xor(x, y)) == xor(f(x), f(y))
  }

  ghost predicate Linear<T(!new)>(xor: (T, T) -> T, f: T -> T) {
    forall x, y :: LinearAt(xor, f, x, y)
  }

  lemma {:induction false} IterateLinear<T(!new)>(xor: (T, T) -> T, f: T -> T, x: T, y: T, n: nat)
    requires Linear(xor, f)
    ensures Iterate(f, xor(x, y), n) == xor(Iterate(f, x, n), Iterate(f, y, n))
  {
    if n > 0 {
      IterateLinear(xor, f, x, y, n - 1);
      assert LinearAt(xor, f, Iterate(f, x, n - 1), Iterate(f, y, n - 1));
    }
  }

  lemma LinearSplit<T(!new)>(xor: (T, T) -> T, f: T -> T, x: T, lo: T, hi: T, rest: T)
    requires Linear(xor, f) && x == xor(lo, hi) && f(hi) == rest
    ensures f(x) == xor(f(lo), rest)
  {
    assert LinearAt(xor, f, lo, hi);
  }

  lemma {:induction false} IterateAdd<T>(f: T -> T, x: T, m: nat, n: nat)
    ensures Iterate(f, x, m + n) == Iterate(f, Iterate(f, x, m), n)
  {
    if n > 0 {
      IterateAdd(f, x, m, n - 1);
    }
  }

  /** Feeding four bytes one at a time is feeding them at once and dividing four times, when
      `u1`, `u2`, `u3` are the bytes moved up by one, two and three places. */
  lemma AbsorbFour<T(!new)>(xor: (T, T) -> T, g: T -> T, c: T, b0: T, b1: T, b2: T, b3: T, u1: T, u2: T, u3: T)
    requires Linear(xor, g)
    requires g(u1) == b1 && g(g(u2)) == b2 && g(g(g(u3))) == b3
    ensures g(xor(g(xor(g(xor(g(xor(c, b0)), b1)), b2)), b3))
         == g(g(g(g(xor(xor(xor(xor(c, b0), u1), u2), u3)))))
  {
    var x1 := xor(xor(c, b0), u1);
    assert LinearAt(xor, g, xor(c, b0), u1);
    var x2 := xor(x1, u2);
    assert LinearAt(xor, g, x1, u2) && LinearAt(xor, g, g(x1), g(u2));
    assert LinearAt(xor, g, x2, u3) && LinearAt(xor, g, g(x2), g(u3)) && LinearAt(xor, g, g(g(x2)), g(g(u3)));
  }

  /** Dividing a word is dividing its four bytes, each fewer times the higher it sits. */
  lemma SpreadFour<T(!new)>(xor: (T, T) -> T, g: T -> T, x0: T, x1: T, x2: T, x3: T, u1: T, u2: T, u3: T, n: nat)
    requires Linear(xor, g)
    requires g(u1) == x1 && g(g(u2)) == x2 && g(g(g(u3))) == x3
    ensures Iterate(g, xor(xor(xor(x0, u1), u2), u3), n + 4)
         == xor(xor(xor(Iterate(g, x0, n + 4), Iterate(g, x1, n + 3)), Iterate(g, x2, n + 2)), Iterate(g, x3, n + 1))
  {
    IterateLinear(xor, g, xor(xor(x0, u1), u2), u3, n + 4);
    IterateLinear(xor, g, xor(x0, u1), u2, n + 4);
    IterateLinear(xor, g, x0, u1, n + 4);
    IterateUp(g, u1, n + 3);
    IterateUp(g, u2, n + 3);
    IterateUp(g, g(u2), n + 2);
    IterateUp(g, u3, n + 3);
    IterateUp(g, g(u3), n + 2);
    IterateUp(g, g(g(u3)), n + 1);
  }

  lemma IterateUp<T>(g: T -> T, x: T, n: nat)
    ensures Iterate(g, x, n + 1) == Iterate(g, g(x), n)
  {
    IterateAdd(g, x, 1, n);
    assert Iterate(g, x, 1) == g(Iterate(g, x, 0));
  }

  // ----- byte divisions -----

  ghost predicate DropsAt(g: bv32 -> bv32, x: bv32) {
    LowByte(x) == 0 ==> g(x) == DropByte(x)
  }

  /** What division by a byte is for every reflected polynomial. */
  ghost predicate ByteDivision(g: bv32 -> bv32) {
    Linear(Xor, g) && forall x :: DropsAt(g, x)
  }

  lemma HalfXor(x: bv32, y: bv32)
    ensures Half(Xor(x, y)) == Xor(Half(x), Half(y))
  {
  }

  lemma OddXor(x: bv32, y: bv32)
    ensures Odd(Xor(x, y)) == (Odd(x) != Odd(y))
  {
  }

  lemma XorRegroup(a: bv32, p: bv32, b: bv32, q: bv32)
    ensures (a ^ p) ^ (b ^ q) == (a ^ b) ^ (p ^ q)
    ensures a ^ 0 == a && 0 ^ a == a && a ^ a == 0
  {
  }

  lemma XorBoth(a: bv32, b: bv32, p: bv32)
    ensures Xor(Xor(a, p), Xor(b, p)) == Xor(a, b)
  {
  }

  lemma XorOne(a: bv32, b: bv32, p: bv32)
    ensures Xor(Xor(a, p), b) == Xor(Xor(a, b), p) && Xor(a, Xor(b, p)) == Xor(Xor(a, b), p)
  {
    XorCommutes(p, b);
    hide Xor;
    XorAssoc(a, p, b);
    XorAssoc(a, b, p);
  }

  lemma XorCommutes(a: bv32, b: bv32)
    ensures Xor(a, b) == Xor(b, a)
  {
  }

  lemma SubtractXor(a: bv32, b: bv32, odd: bool, other: bool)
    ensures Subtract(Xor(a, b), odd != other) == Xor(Subtract(a, odd), Subtract(b, other))
  {
    hide Xor;
    XorBoth(a, b, POLY);
    XorOne(a, b, POLY);
  }

  lemma ShiftXor(x: bv32, y: bv32)
    ensures Shift(Xor(x, y)) == Xor(Shift(x), Shift(y))
  {
    hide Half, Odd, Subtract, Xor;
    HalfXor(x, y);
    OddXor(x, y);
    SubtractXor(Half(x), Half(y), Odd(x), Odd(y));
  }

  lemma ShiftLinearAt(x: bv32, y: bv32)
    ensures LinearAt(Xor, Shift, x, y)
  {
    hide Shift, Xor;
    var z := Xor(x, y);
    var a, b, c := Shift(x), Shift(y), Shift(z);
    ShiftXor(x, y);
    LinearFrom(Xor, Shift, x, y, z, a, b, c);
  }

  lemma LinearFrom<T>(xor: (T, T) -> T, f: T -> T, x: T, y: T, z: T, a: T, b: T, c: T)
    requires z == xor(x, y) && a == f(x) && b == f(y) && c == f(z) && c == xor(a, b)
    ensures LinearAt(xor, f, x, y)
  {
  }

  lemma ShiftLinear()
    ensures Linear(Xor, Shift)
  {
    forall x, y ensures LinearAt(Xor, Shift, x, y) {
      ShiftLinearAt(x, y);
    }
  }

  lemma DivideByteLinearAt(x: bv32, y: bv32)
    ensures LinearAt(Xor, DivideByte, x, y)
  {
    ShiftLinear();
    IterateLinear(Xor, Shift, x, y, 8);
    LinearFrom(Xor, DivideByte, x, y, Xor(x, y), DivideByte(x), DivideByte(y), DivideByte(Xor(x, y)));
  }

  lemma ShiftHalves(x: bv32)
    requires x & 1 == 0
    ensures Shift(x) == x >> 1
  {
    assert !Odd(x);
    hide Odd;
  }

  lemma LowBits(x: bv32)
    requires x & 0xFF == 0
    ensures x & 1 == 0 && (x >> 1) & 1 == 0 && (x >> 2) & 1 == 0 && (x >> 3) & 1 == 0
    ensures (x >> 4) & 1 == 0 && (x >> 5) & 1 == 0 && (x >> 6) & 1 == 0 && (x >> 7) & 1 == 0
  {
  }

  lemma ShiftRightTwice(x: bv32)
    ensures (x >> 1) >> 1 == x >> 2 && (x >> 2) >> 1 == x >> 3 && (x >> 3) >> 1 == x >> 4
    ensures (x >> 4) >> 1 == x >> 5 && (x >> 5) >> 1 == x >> 6 && (x >> 6) >> 1 == x >> 7
    ensures (x >> 7) >> 1 == x >> 8
  {
  }

  ghost predicate HalvesEven(f: bv32 -> bv32) {
    forall x :: x & 1 == 0 ==> f(x) == x >> 1
  }

  /** A zero low byte is shifted out without ever meeting the polynomial. */
  lemma DropZeroByte(f: bv32 -> bv32, x: bv32)
    requires HalvesEven(f) && x & 0xFF == 0
    ensures Iterate(f, x, 8) == x >> 8
  {
    LowBits(x);
    ShiftRightTwice(x);
    assert Iterate(f, x, 1) == f(Iterate(f, x, 0)) == x >> 1;
    assert Iterate(f, x, 2) == x >> 2;
    assert Iterate(f, x, 3) == x >> 3;
    assert Iterate(f, x, 4) == x >> 4;
    assert Iterate(f, x, 5) == x >> 5;
    assert Iterate(f, x, 6) == x >> 6;
    assert Iterate(f, x, 7) == x >> 7;
  }

  lemma DivideByteDrops(x: bv32)
    ensures DropsAt(DivideByte, x)
  {
    forall y: bv32 | y & 1 == 0 ensures Shift(y) == y >> 1 {
      ShiftHalves(y);
    }
    if x & 0xFF == 0 {
      DropZeroByte(Shift, x);
    }
  }

  lemma DivideByteDivides()
    ensures ByteDivision(DivideByte)
  {
    forall x, y ensures LinearAt(Xor, DivideByte, x, y) {
      DivideByteLinearAt(x, y);
    }
    forall x ensures DropsAt(DivideByte, x) {
      DivideByteDrops(x);
    }
  }

  // ----- the lookup tables -----

  /** Entry `i` of lookup table `k`; table 0 is `crc_tableil8_o32`, table 7 is `crc_tableil8_o88`.
      Each table is the previous one advanced by a zero byte. */
  function Table(g: bv32 -> bv32, k: nat, i: bv32): bv32
    requires i <= 0xFF
  {
    if k == 0 then g(i) else ByteStep(g, Table(g, k - 1, i), 0)
  }

  /** The source's byte step, on lookup table 0. */
  function ByteStep(g: bv32 -> bv32, crc: bv32, b: bv8): bv32 {
    Xor(g(LowByte(Xor(crc, b as bv32))), DropByte(crc))
  }

  function HighBytes(x: bv32): bv32 {
    x & 0xFFFF_FF00
  }

  lemma SplitWord(x: bv32)
    ensures x == Xor(LowByte(x), HighBytes(x))
    ensures LowByte(HighBytes(x)) == 0
    ensures DropByte(HighBytes(x)) == DropByte(x)
  {
  }

  lemma XorByteHigh(crc: bv32, b: bv32)
    requires b <= 0xFF
    ensures DropByte(Xor(crc, b)) == DropByte(crc)
  {
  }

  /** One lookup divides a whole word by a byte: the identity every table loop rests on. */
  lemma ByteStepDivides(g: bv32 -> bv32, crc: bv32, b: bv8)
    requires ByteDivision(g)
    ensures ByteStep(g, crc, b) == g(Xor(crc, b as bv32))
  {
    var x := Xor(crc, b as bv32);
    XorByteHigh(crc, b as bv32);
    DivideWord(g, x);
  }

  lemma DivideWord(g: bv32 -> bv32, x: bv32)
    requires ByteDivision(g)
    ensures g(x) == Xor(g(LowByte(x)), DropByte(x))
  {
    SplitWord(x);
    assert DropsAt(g, HighBytes(x));
    LinearSplit(Xor, g, x, LowByte(x), HighBytes(x), DropByte(x));
  }

  lemma {:induction false} TableAdvances(g: bv32 -> bv32, k: nat, i: bv32)
    requires ByteDivision(g) && i <= 0xFF
    ensures Table(g, k, i) == Iterate(g, i, k + 1)
  {
    if k > 0 {
      TableAdvances(g, k - 1, i);
      ByteStepDivides(g, Table(g, k - 1, i), 0);
      XorRegroup(Table(g, k - 1, i), 0, 0, 0);
    } else {
      assert Iterate(g, i, 1) == g(Iterate(g, i, 0));
    }
  }

  // ----- little-endian words -----

  function Byte1(x: bv32): bv32 { (x >> 8) & 0xFF }

  function Byte2(x: bv32): bv32 { (x >> 16) & 0xFF }

  function Byte3(x: bv32): bv32 { ((x >> 16) >> 8) & 0xFF }

  function Up1(b: bv32): bv32 { b << 8 }

  function Up2(b: bv32): bv32 { b << 16 }

  function Up3(b: bv32): bv32 { b << 24 }

  /** A four-byte little-endian load. */
  function Word(b0: bv32, b1: bv32, b2: bv32, b3: bv32): bv32 {
    Xor(Xor(Xor(b0, Up1(b1)), Up2(b2)), Up3(b3))
  }

  lemma SplitBytes(x: bv32)
    ensures x == Word(LowByte(x), Byte1(x), Byte2(x), Byte3(x))
  {
  }

  lemma BytesAreBytes(x: bv32)
    ensures LowByte(x) <= 0xFF && Byte1(x) <= 0xFF && Byte2(x) <= 0xFF && Byte3(x) <= 0xFF
  {
  }

  lemma DropUp1(b: bv32)
    requires b <= 0xFF
    ensures LowByte(Up1(b)) == 0 && DropByte(Up1(b)) == b
  {
  }

  lemma DropUp2(b: bv32)
    requires b <= 0xFF
    ensures LowByte(Up2(b)) == 0 && DropByte(Up2(b)) == Up1(b)
  {
  }

  lemma DropUp3(b: bv32)
    requires b <= 0xFF
    ensures LowByte(Up3(b)) == 0 && DropByte(Up3(b)) == Up2(b)
  {
  }

  lemma DivideUp(g: bv32 -> bv32, b: bv32)
    requires ByteDivision(g) && b <= 0xFF
    ensures g(Up1(b)) == b && g(g(Up2(b))) == b && g(g(g(Up3(b)))) == b
  {
    DropUp1(b);
    DropUp2(b);
    DropUp3(b);
    assert DropsAt(g, Up1(b)) && DropsAt(g, Up2(b)) && DropsAt(g, Up3(b));
  }

  // ----- slicing by eight -----

  lemma CrcExtend(g: bv32 -> bv32, crc: bv32, buf: seq<bv8>, p: nat)
    requires p < |buf|
    ensures Crc(g, crc, buf[..p + 1]) == g(Xor(Crc(g, crc, buf[..p]), buf[p] as bv32))
  {
    assert buf[..p + 1][..p] == buf[..p];
  }

  lemma CrcFour(g: bv32 -> bv32, crc: bv32, buf: seq<bv8>, p: nat)
    requires p + 4 <= |buf|
    ensures Crc(g, crc, buf[..p + 4])
         == g(Xor(g(Xor(g(Xor(g(Xor(Crc(g, crc, buf[..p]), buf[p] as bv32)), buf[p + 1] as bv32)), buf[p + 2] as bv32)),
                  buf[p + 3] as bv32))
  {
    CrcExtend(g, crc, buf, p);
    CrcExtend(g, crc, buf, p + 1);
    CrcExtend(g, crc, buf, p + 2);
    CrcExtend(g, crc, buf, p + 3);
  }

  function LoadWord(buf: seq<bv8>, p: nat): bv32
    requires p + 4 <= |buf|
  {
    Word(buf[p] as bv32, buf[p + 1] as bv32, buf[p + 2] as bv32, buf[p + 3] as bv32)
  }

  lemma XorAssocBits(a: bv32, b: bv32, c: bv32)
    ensures a ^ (b ^ c) == (a ^ b) ^ c
  {
  }

  lemma XorRight(a: bv32, b: bv32, c: bv32)
    ensures Xor(a, Xor(b, c)) == a ^ (b ^ c)
  {
  }

  lemma XorLeft(a: bv32, b: bv32, c: bv32)
    ensures Xor(Xor(a, b), c) == (a ^ b) ^ c
  {
  }

  lemma XorAssoc(a: bv32, b: bv32, c: bv32)
    ensures Xor(a, Xor(b, c)) == Xor(Xor(a, b), c)
  {
    XorRight(a, b, c);
    XorLeft(a, b, c);
    XorAssocBits(a, b, c);
  }

  lemma XorFour(c: bv32, a0: bv32, a1: bv32, a2: bv32, a3: bv32)
    ensures Xor(c, Xor(Xor(Xor(a0, a1), a2), a3)) == Xor(Xor(Xor(Xor(c, a0), a1), a2), a3)
  {
    XorAssoc(c, Xor(Xor(a0, a1), a2), a3);
    XorAssoc(c, Xor(a0, a1), a2);
    XorAssoc(c, a0, a1);
  }

  /** Four bytes at a time is one word fed and four byte divisions. */
  lemma CrcWord(g: bv32 -> bv32, crc: bv32, buf: seq<bv8>, p: nat)
    requires ByteDivision(g) && p + 4 <= |buf|
    ensures Crc(g, crc, buf[..p + 4]) == Iterate(g, Xor(Crc(g, crc, buf[..p]), LoadWord(buf, p)), 4)
  {
    var c := Crc(g, crc, buf[..p]);
    var b0, b1, b2, b3 := buf[p] as bv32, buf[p + 1] as bv32, buf[p + 2] as bv32, buf[p + 3] as bv32;
    CrcFour(g, crc, buf, p);
    DivideUp(g, b1);
    DivideUp(g, b2);
    DivideUp(g, b3);
    AbsorbFour(Xor, g, c, b0, b1, b2, b3, Up1(b1), Up2(b2), Up3(b3));
    XorFour(c, b0, Up1(b1), Up2(b2), Up3(b3));
    IterateFour(g, Xor(c, Word(b0, b1, b2, b3)));
  }

  lemma IterateFour<T>(g: T -> T, x: T)
    ensures Iterate(g, x, 4) == g(g(g(g(x))))
  {
    assert Iterate(g, x, 2) == g(g(x)) by { assert Iterate(g, x, 1) == g(Iterate(g, x, 0)); }
    assert Iterate(g, x, 3) == g(g(g(x)));
  }

  /** The four lookups of one word, in tables `k + 3` down to `k`. */
  function Lookups(g: bv32 -> bv32, k: nat, x: bv32): bv32 {
    Xor(Xor(Xor(Table(g, k + 3, LowByte(x)), Table(g, k + 2, Byte1(x))), Table(g, k + 1, Byte2(x))),
        Table(g, k, Byte3(x)))
  }

  lemma LookupsDivide(g: bv32 -> bv32, k: nat, x: bv32)
    requires ByteDivision(g)
    ensures Lookups(g, k, x) == Iterate(g, x, k + 4)
  {
    BytesAreBytes(x);
    TableAdvances(g, k + 3, LowByte(x));
    TableAdvances(g, k + 2, Byte1(x));
    TableAdvances(g, k + 1, Byte2(x));
    TableAdvances(g, k, Byte3(x));
    DivideUp(g, Byte1(x));
    DivideUp(g, Byte2(x));
    DivideUp(g, Byte3(x));
    SpreadFour(Xor, g, LowByte(x), Byte1(x), Byte2(x), Byte3(x), Up1(Byte1(x)), Up2(Byte2(x)), Up3(Byte3(x)), k);
    SplitBytes(x);
  }

  /** The source's eight-byte update: four lookups for each of the two words of the block. */
  function SliceStep(g: bv32 -> bv32, crc: bv32, block0: bv32, block1: bv32): bv32 {
    var term := Lookups(g, 4, Xor(crc, block0));
    Xor(Xor(Xor(term, Xor(Table(g, 3, LowByte(block1)), Table(g, 2, Byte1(block1)))), Table(g, 1, Byte2(block1))),
        Table(g, 0, Byte3(block1)))
  }

  lemma SliceStepDivides(g: bv32 -> bv32, crc: bv32, block0: bv32, block1: bv32)
    requires ByteDivision(g)
    ensures SliceStep(g, crc, block0, block1) == Iterate(g, Xor(Iterate(g, Xor(crc, block0), 4), block1), 4)
  {
    var x := Xor(crc, block0);
    LookupsDivide(g, 4, x);
    LookupsDivide(g, 0, block1);
    IterateAdd(g, x, 4, 4);
    IterateLinear(Xor, g, Iterate(g, x, 4), block1, 4);
    var t3, t2, t1, t0 := Table(g, 3, LowByte(block1)), Table(g, 2, Byte1(block1)), Table(g, 1, Byte2(block1)),
        Table(g, 0, Byte3(block1));
    XorAssoc(Iterate(g, x, 8), Xor(Xor(t3, t2), t1), t0);
    XorAssoc(Iterate(g, x, 8), Xor(t3, t2), t1);
  }

  lemma SliceStepIsCrc(g: bv32 -> bv32, crc: bv32, buf: seq<bv8>, p: nat)
    requires ByteDivision(g) && p + 8 <= |buf|
    ensures SliceStep(g, Crc(g, crc, buf[..p]), LoadWord(buf, p), LoadWord(buf, p + 4)) == Crc(g, crc, buf[..p + 8])
  {
    SliceStepDivides(g, Crc(g, crc, buf[..p]), LoadWord(buf, p), LoadWord(buf, p + 4));
    CrcWord(g, crc, buf, p);
    CrcWord(g, crc, buf, p + 4);
  }

  // ----- the loops -----

  /** The trivial byte-by-byte loop. */
  method ComputeBytes(g: bv32 -> bv32, runningCrc: bv32, buf: seq<bv8>) returns (crc: bv32)
    requires ByteDivision(g)
    ensures crc == Crc(g, runningCrc, buf)
  {
    crc := runningCrc;
    for p := 0 to |buf|
      invariant crc == Crc(g, runningCrc, buf[..p])
    {
      ByteStepDivides(g, crc, buf[p]);
      CrcExtend(g, runningCrc, buf, p);
      crc := ByteStep(g, crc, buf[p]);
    }
    assert buf[..|buf|] == buf;
  }

  /** Rounds an address up to a multiple of `n`. */
  function RoundUp(address: nat, n: nat): nat
    requires n > 0
  {
    (address + (n - 1)) / n * n
  }

  /** The main loop of slicing-by-8: eight bytes at a time over the whole blocks of the buffer. */
  method ComputeBlocks(g: bv32 -> bv32, runningCrc: bv32, buf: seq<bv8>) returns (crc: bv32)
    requires ByteDivision(g) && |buf| % 8 == 0
    ensures crc == Crc(g, runningCrc, buf)
  {
    crc := runningCrc;
    var p := 0;
    while p < |buf|
      invariant 0 <= p <= |buf| && p % 8 == 0
      invariant crc == Crc(g, runningCrc, buf[..p])
    {
      SliceStepIsCrc(g, runningCrc, buf, p);
      crc := SliceStep(g, crc, LoadWord(buf, p), LoadWord(buf, p + 4));
      p := p + 8;
    }
    assert buf[..p] == buf;
  }

  /** Slicing-by-8 over the buffer stored at `address`: bytes up to a four-byte boundary, then
      eight bytes at a time, then the remaining bytes.  The buffer reaches that boundary. */
  method ComputeSliced(g: bv32 -> bv32, runningCrc: bv32, buf: seq<bv8>, address: nat) returns (crc: bv32)
    requires ByteDivision(g)
    requires |buf| >= RoundUp(address, 4) - address
    ensures crc == Crc(g, runningCrc, buf)
  {
    var initBytes := RoundUp(address, 4) - address;
    var runningLength := (|buf| - initBytes) / 8 * 8;
    var endBytes := |buf| - initBytes - runningLength;
    var head, body, tail := buf[..initBytes], buf[initBytes..|buf| - endBytes], buf[|buf| - endBytes..];
    crc := ComputeBytes(g, runningCrc, head);
    crc := ComputeBlocks(g, crc, body);
    crc := ComputeBytes(g, crc, tail);
    CrcConcat(g, runningCrc, head, body);
    CrcConcat(g, runningCrc, head + body, tail);
    assert head + body + tail == buf;
  }

  /** Checksums compose: the checksum of a concatenation continues that of its first part. */
  lemma {:induction false} CrcConcat(g: bv32 -> bv32, crc: bv32, a: seq<bv8>, b: seq<bv8>)
    ensures Crc(g, crc, a + b) == Crc(g, Crc(g, crc, a), b)
  {
    if b == [] {
      assert a + b == a;
    } else {
      CrcConcat(g, crc, a, b[..|b| - 1]);
      assert (a + b)[..|a + b| - 1] == a + b[..|b| - 1];
    }
  }

  /** The hardware instruction on eight bytes: the two words of the block divided one after the other. */
  function DivideBlock(g: bv32 -> bv32, crc: bv32, block0: bv32, block1: bv32): bv32 {
    Iterate(g, Xor(Iterate(g, Xor(crc, block0), 4), block1), 4)
  }

  /** The word-at-a-time loop: bytes up to an eight-byte boundary, then whole blocks, then bytes. */
  method ComputeHardware(g: bv32 -> bv32, runningCrc: bv32, buf: seq<bv8>, address: nat) returns (crc: bv32)
    requires ByteDivision(g)
    requires |buf| >= RoundUp(address, 8) - address
    ensures crc == Crc(g, runningCrc, buf)
  {
    hide Crc, LoadWord;
    var initBytes := RoundUp(address, 8) - address;
    crc := ComputeBytes(g, runningCrc, buf[..initBytes]);
    var p := initBytes;
    while p + 8 <= |buf|
      invariant initBytes <= p <= |buf|
      invariant crc == Crc(g, runningCrc, buf[..p])
    {
      CrcWord(g, runningCrc, buf, p);
      CrcWord(g, runningCrc, buf, p + 4);
      crc := DivideBlock(g, crc, LoadWord(buf, p), LoadWord(buf, p + 4));
      p := p + 8;
    }
    crc := ComputeBytes(g, crc, buf[p..]);
    CrcConcat(g, runningCrc, buf[..p], buf[p..]);
    assert buf[..p] + buf[p..] == buf;
  }

  /** The exported entry point, for the Castagnoli polynomial. */
  method ComputeBuf(inCrc: bv32, buf: seq<bv8>, address: nat) returns (crc: bv32)
    requires |buf| >= RoundUp(address, 8) - address
    ensures crc == Crc(DivideByte, inCrc, buf)
  {
    DivideByteDivides();
    crc := ComputeHardware(DivideByte, inCrc, buf, address);
  }
}
