/** The contract that is assumed of multibit compression can be met: bitmaps as they are stored flat, and,
    for larger multibits, a root that says whether the set is empty and one byte for each bit. */
module StreamCodec {
  import opened StreamLayout

  function BitIf(s: set<nat>, i: nat): nat {
    if i in s then 1 else 0
  }

  function Pow2(k: nat): nat {
    if k == 0 then 1 else 2 * Pow2(k - 1)
  }

  /** The bits `b` to `b + n - 1` as a number. */
  function Pack(s: set<nat>, b: nat, n: nat): (r: nat)
    ensures r < Pow2(n)
    decreases n
  {
    if n == 0 then 0 else BitIf(s, b) + 2 * Pack(s, b + 1, n - 1)
  }

  function BitmapByte(s: set<nat>, b: nat): Byte {
    assert Pow2(8) == 256 by {
      assert Pow2(4) == 16;
    }
    Pack(s, b, 8)
  }

  predicate BitSet(number: nat, k: nat) {
    if k == 0 then number % 2 == 1 else BitSet(number / 2, k - 1)
  }

  lemma PackStep(s: set<nat>, b: nat, n: nat)
    requires n > 0
    ensures Pack(s, b, n) % 2 == BitIf(s, b) && Pack(s, b, n) / 2 == Pack(s, b + 1, n - 1)
  {
    LastBit(BitIf(s, b), Pack(s, b + 1, n - 1));
  }

  lemma LastBit(bit: nat, rest: nat)
    requires bit < 2
    ensures (bit + 2 * rest) % 2 == bit && (bit + 2 * rest) / 2 == rest
  {
  }

  lemma {:induction false} PackedBit(s: set<nat>, b: nat, n: nat, k: nat)
    requires k < n
    ensures BitSet(Pack(s, b, n), k) <==> b + k in s
    decreases n
  {
    PackStep(s, b, n);
    hide Pack;
    if k > 0 {
      PackedBit(s, b + 1, n - 1, k - 1);
    }
  }

  lemma {:induction false} PackedZero(s: set<nat>, b: nat, n: nat) returns (i: nat)
    requires Pack(s, b, n) != 0
    ensures b <= i < b + n && i in s
    decreases n
  {
    if b in s {
      i := b;
    } else {
      i := PackedZero(s, b + 1, n - 1);
    }
  }

  function Bitmap(total: nat, s: set<nat>): (b: seq<Byte>)
    ensures |b| == (total + 7) / 8
  {
    seq((total + 7) / 8, (j: nat) => BitmapByte(s, 8 * j))
  }

  /** Bit `i` of the bitmap at `pos`. */
  predicate MemBit(mem: nat -> Byte, pos: nat, i: nat) {
    BitSet(mem(pos + i / 8), i % 8)
  }

  function ReadBitmap(total: nat, mem: nat -> Byte, pos: nat): set<nat> {
    set i: nat | i < total && MemBit(mem, pos, i)
  }

  function Zeros(n: nat): (b: seq<Byte>)
    ensures |b| == n
  {
    seq(n, (i: nat) => 0)
  }

  function Tree(total: nat, s: set<nat>): seq<Byte> {
    if s == {} then Zeros(BLOCK_SIZE) else [1] + Zeros(BLOCK_SIZE - 1) + seq(total, (i: nat) => BitIf(s, i))
  }

  predicate RootZero(mem: nat -> Byte, pos: nat) {
    forall i | pos <= i < pos + BLOCK_SIZE :: mem(i) == 0
  }

  predicate MemByte(mem: nat -> Byte, pos: nat, i: nat) {
    mem(pos + (BLOCK_SIZE + i)) != 0
  }

  function ReadTree(total: nat, mem: nat -> Byte, pos: nat): set<nat> {
    set i: nat | i < total && MemByte(mem, pos, i)
  }

  function Decode(total: nat, mem: nat -> Byte, pos: nat, limit: nat): Option<(set<nat>, nat)> {
    if Flat(total) then Some((ReadBitmap(total, mem, pos), (total + 7) / 8))
    else if RootZero(mem, pos) then Some(({}, BLOCK_SIZE))
    else if pos + BLOCK_SIZE + total > limit then None
    else Some((ReadTree(total, mem, pos), BLOCK_SIZE + total))
  }

  function Encoding(total: nat, s: set<nat>): seq<Byte> {
    if Flat(total) then Bitmap(total, s) else Tree(total, s)
  }

  function Sample(): Codec {
    Codec(Encoding, (total: nat, s: set<nat>) => |Encoding(total, s)|, Decode)
  }

  lemma ShapeOk(total: nat, s: set<nat>)
    requires Within(s, total)
    ensures EncodesAs(Sample(), total, s)
  {
    var b := Encoding(total, s);
    if Flat(total) {
      forall j | 0 <= j < |b| && b[j] != 0 ensures exists i :: i in s && i / 8 == j {
        var i := PackedZero(s, 8 * j, 8);
        assert i / 8 == j;
      }
    } else if s != {} {
      assert b[..BLOCK_SIZE][0] == 1;
      var i :| i in s;
      assert total > 0;
    }
  }

  /** A bitmap read back, as far as it is there. */
  lemma BitmapRead(total: nat, s: set<nat>, mem: nat -> Byte, pos: nat, i: nat)
    requires i < total && mem(pos + i / 8) == Bitmap(total, s)[i / 8]
    ensures MemBit(mem, pos, i) <==> i in s
  {
    PackedBit(s, 8 * (i / 8), 8, i % 8);
    assert 8 * (i / 8) + i % 8 == i;
  }

  lemma FlatDecodes(total: nat, s: set<nat>, mem: nat -> Byte, pos: nat, limit: nat)
    requires Within(s, total) && Flat(total)
    ensures DecodesAt(Sample(), total, s, mem, pos, limit) && DecodesCut(Sample(), total, s, mem, pos, limit)
  {
    var b := Bitmap(total, s);
    if Agrees(mem, pos, b) {
      forall i: nat | i < total ensures MemBit(mem, pos, i) <==> i in s {
        assert mem(pos + i / 8) == b[i / 8];
        BitmapRead(total, s, mem, pos, i);
      }
      assert ReadBitmap(total, mem, pos) == s;
    }
    if AgreesBelow(mem, pos, b, limit) {
      forall i | i in s && pos + i / 8 < limit ensures i in ReadBitmap(total, mem, pos) {
        assert mem(pos + i / 8) == b[i / 8];
        BitmapRead(total, s, mem, pos, i);
      }
    }
  }

  lemma TreeDecodes(total: nat, s: set<nat>, mem: nat -> Byte, pos: nat, limit: nat)
    requires Within(s, total) && !Flat(total)
    ensures DecodesAt(Sample(), total, s, mem, pos, limit) && DecodesCut(Sample(), total, s, mem, pos, limit)
  {
    var b := Tree(total, s);
    assert s != {} ==> b[0] == 1 && |b| == BLOCK_SIZE + total;
    assert s == {} ==> b == Zeros(BLOCK_SIZE);
    if Agrees(mem, pos, b) {
      if s == {} {
        forall i | pos <= i < pos + BLOCK_SIZE ensures mem(i) == 0 {
          assert mem(pos + (i - pos)) == b[i - pos];
        }
      } else {
        assert mem(pos + 0) == b[0];
        forall i: nat | i < total ensures MemByte(mem, pos, i) <==> i in s {
          assert mem(pos + (BLOCK_SIZE + i)) == b[BLOCK_SIZE + i] == BitIf(s, i);
        }
        assert ReadTree(total, mem, pos) == s;
      }
    }
    if AgreesBelow(mem, pos, b, limit) && pos + |b| > limit {
      TreeCut(total, s, mem, pos, limit);
    }
  }

  /** A tree that is cut: the root tells whether it is empty. */
  lemma TreeCut(total: nat, s: set<nat>, mem: nat -> Byte, pos: nat, limit: nat)
    requires !Flat(total) && AgreesBelow(mem, pos, Tree(total, s), limit) && pos + |Tree(total, s)| > limit
    ensures var r := Decode(total, mem, pos, limit);
            && (r.None? || pos + r.value.1 > limit)
            && (pos <= limit && NonZero(Tree(total, s)[..Min(BLOCK_SIZE, limit - pos)]) ==> r.None?)
  {
    var b := Tree(total, s);
    if s == {} {
      assert b == Zeros(BLOCK_SIZE);
    } else {
      assert b[0] == 1 && |b| == BLOCK_SIZE + total;
      if pos < limit {
        assert mem(pos + 0) == b[0];
      }
    }
  }

  lemma ZerosDecode(total: nat, mem: nat -> Byte, pos: nat, limit: nat)
    ensures DecodesZeros(Sample(), total, mem, pos, limit)
  {
    if ZeroFrom(mem, pos) {
      forall i: nat | i < total ensures !MemBit(mem, pos, i) {
        assert mem(pos + i / 8) == 0;
        ZeroBit(i % 8);
      }
      assert ReadBitmap(total, mem, pos) == {};
    }
  }

  lemma ZeroBit(k: nat)
    ensures !BitSet(0, k)
  {
  }

  lemma CodecExists()
    ensures CodecOk(Sample())
  {
    forall total, s | Within(s, total) ensures EncodesAs(Sample(), total, s) {
      ShapeOk(total, s);
    }
    forall total, s, mem, pos, limit | Within(s, total)
      ensures DecodesAt(Sample(), total, s, mem, pos, limit) && DecodesCut(Sample(), total, s, mem, pos, limit)
    {
      if Flat(total) {
        FlatDecodes(total, s, mem, pos, limit);
      } else {
        TreeDecodes(total, s, mem, pos, limit);
      }
    }
    forall total, mem, pos, limit ensures DecodesZeros(Sample(), total, mem, pos, limit) {
      ZerosDecode(total, mem, pos, limit);
    }
  }
}
