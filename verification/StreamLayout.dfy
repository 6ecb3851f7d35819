/** The state of a stream, the regions of it that are copied when it is compressed, and their bytes.

    Which regions are copied depends on others: the offset, the active engines, the valid match
    starts. */
module StreamLayout {

  type Byte = b: nat | b < 256

  const U32_RANGE := 0x1_0000_0000
  const U64_RANGE := 0x1_0000_0000_0000_0000

  /** Multibits up to this size are stored flat, larger ones as a tree of blocks. */
  const FLAT_MAX_BITS := 256
  const BLOCK_SIZE := 8

  function Min(a: nat, b: nat): nat {
    if a < b then a else b
  }

  // ----- the state of a stream -----

  /** The regions of the stream state; `Leaf`, `Left` and `SomSlot` have one region per index. */
  datatype Field =
    | Offset | Status | Roles | ActiveLeaf | ActiveLeft | LongLit | Anchor | Groups | History
    | Exhausted | Logical | Combination | LeafState(qi: nat) | LeftState(ri: nat) | LeftLag(ri: nat)
    | SomWritable | SomValid | SomSlot(slot: nat)
  {
    /** Regions that hold a multibit rather than plain bytes. */
    predicate Bits() {
      Roles? || ActiveLeaf? || ActiveLeft? || Exhausted? || Logical? || Combination? || SomWritable? || SomValid?
    }
  }

  /** What the bytecode says about the layout. */
  datatype Rose = Rose(
    historyRequired: nat,
    anchoredDistance: nat,
    sizes: Field -> nat,       // bytes of a plain region
    totals: Field -> nat,      // bits of a multibit region
    leafCount: nat,
    leftCount: nat,
    leftIter: set<nat>,        // leftfixes that keep state, empty without the iterator
    hasSom: bool,
    somCount: nat
  )

  /** A stream: its offset, its history region, and the contents of its other regions. */
  datatype Stream = Stream(offset: nat, history: seq<Byte>, plain: map<Field, seq<Byte>>, bits: map<Field, set<nat>>)

  function BitsOf(st: Stream, f: Field): set<nat> {
    if f in st.bits then st.bits[f] else {}
  }

  /** The number of history bytes copied: the source narrows the offset to 32 bits first. */
  function HistoryCopied(rose: Rose, offset: nat): nat {
    Min(offset % U32_RANGE, rose.historyRequired)
  }

  /** The number of history bytes that matter. */
  function HistoryLive(rose: Rose, offset: nat): nat {
    Min(offset, rose.historyRequired)
  }

  /** The regions of the layout. */
  predicate Region(rose: Rose, f: Field) {
    match f
    case LeafState(qi) => qi < rose.leafCount
    case LeftState(ri) => ri < rose.leftCount
    case LeftLag(ri) => ri < rose.leftCount
    case SomSlot(slot) => rose.hasSom && slot < rose.somCount
    case SomWritable => rose.hasSom
    case SomValid => rose.hasSom
    case _ => true
  }

  predicate Plain(f: Field) {
    !f.Bits() && !f.Offset? && !f.History?
  }

  /** The memory of a stream: every region is there, whatever it holds. */
  ghost predicate Room(rose: Rose, st: Stream) {
    && st.offset < U64_RANGE && |st.history| == rose.historyRequired < U32_RANGE
    && (forall f: Field | Region(rose, f) && Plain(f) :: f in st.plain && |st.plain[f]| == rose.sizes(f))
    && (forall f: Field | Region(rose, f) && f.Bits() :: f in st.bits)
    && (forall f | f in st.plain :: Plain(f)) && (forall f | f in st.bits :: f.Bits())
  }

  /** A stream: its multibits hold no bits beyond their sizes. */
  ghost predicate Shaped(rose: Rose, st: Stream) {
    && Room(rose, st)
    && (forall f: Field, i | Region(rose, f) && f.Bits() && i in st.bits[f] :: i < rose.totals(f))
    && rose.totals(ActiveLeaf) == rose.leafCount && rose.totals(ActiveLeft) == rose.leftCount
    && rose.totals(SomWritable) == rose.totals(SomValid) == rose.somCount
  }

  // ----- what is copied, in order -----

  function Front(rose: Rose, offset: nat): seq<Field> {
    [Offset, Status, Roles] + [ActiveLeaf, ActiveLeft, LongLit]
        + (if offset <= rose.anchoredDistance then [Anchor] else [])
  }

  function UpToHistory(rose: Rose, offset: nat): seq<Field> {
    Front(rose, offset) + [Groups, History]
  }

  function UpToCombination(rose: Rose, offset: nat): seq<Field> {
    UpToHistory(rose, offset) + [Exhausted, Logical, Combination]
  }

  function Leafs(active: set<nat>, k: nat): seq<Field> {
    if k == 0 then [] else Leafs(active, k - 1) + (if k - 1 in active then [LeafState(k - 1)] else [])
  }

  function Lefts(active: set<nat>, k: nat): seq<Field> {
    if k == 0 then [] else Lefts(active, k - 1) + (if k - 1 in active then [LeftState(k - 1), LeftLag(k - 1)] else [])
  }

  function Slots(valid: set<nat>, k: nat): seq<Field> {
    if k == 0 then [] else Slots(valid, k - 1) + (if k - 1 in valid then [SomSlot(k - 1)] else [])
  }

  /** The states of the active endfixes. */
  function LeafsOf(rose: Rose, st: Stream): seq<Field> {
    Leafs(BitsOf(st, ActiveLeaf), rose.leafCount)
  }

  /** The states and lag bytes of the active leftfixes. */
  function LeftsOf(rose: Rose, st: Stream): seq<Field> {
    Lefts(BitsOf(st, ActiveLeft) * rose.leftIter, rose.leftCount)
  }

  function SomOf(rose: Rose): seq<Field> {
    if rose.hasSom then [SomWritable, SomValid] else []
  }

  /** The valid match starts. */
  function SlotsOf(rose: Rose, st: Stream): seq<Field> {
    if rose.hasSom then Slots(BitsOf(st, SomValid), rose.somCount) else []
  }

  function UpToEngines(rose: Rose, st: Stream): seq<Field> {
    UpToCombination(rose, st.offset) + LeafsOf(rose, st) + LeftsOf(rose, st)
  }

  /** The regions that describe a stream: those of its active engines and valid match starts, and the
      anchored table while the stream is short. */
  function Fields(rose: Rose, st: Stream): seq<Field> {
    UpToEngines(rose, st) + SomOf(rose) + SlotsOf(rose, st)
  }

  /** The regions up to the last plain one that is copied whatever lies behind the end of the buffer: the
      states of the engines, or the history if none is active. */
  function Certain(rose: Rose, st: Stream): seq<Field> {
    if LeafsOf(rose, st) + LeftsOf(rose, st) == [] then UpToHistory(rose, st.offset) else UpToEngines(rose, st)
  }

  /** The regions are copied in their order. */
  ghost predicate InOrder(rose: Rose, st: Stream, done: seq<Field>) {
    done <= Fields(rose, st)
  }

  /** The kinds of regions in each part. */
  lemma {:induction false} LeafsBelow(active: set<nat>, k: nat, f: Field)
    requires f in Leafs(active, k)
    ensures f.LeafState? && f.qi < k && f.qi in active
  {
    if f in Leafs(active, k - 1) {
      LeafsBelow(active, k - 1, f);
    }
  }

  lemma {:induction false} LeftsBelow(active: set<nat>, k: nat, f: Field)
    requires f in Lefts(active, k)
    ensures (f.LeftState? || f.LeftLag?) && f.ri < k && f.ri in active
  {
    if f in Lefts(active, k - 1) {
      LeftsBelow(active, k - 1, f);
    }
  }

  lemma {:induction false} SlotsBelow(valid: set<nat>, k: nat, f: Field)
    requires f in Slots(valid, k)
    ensures f.SomSlot? && f.slot < k && f.slot in valid
  {
    if f in Slots(valid, k - 1) {
      SlotsBelow(valid, k - 1, f);
    }
  }

  lemma FrontKinds(rose: Rose, offset: nat, f: Field)
    requires f in UpToCombination(rose, offset)
    ensures !f.LeafState? && !f.LeftState? && !f.LeftLag? && !f.SomWritable? && !f.SomValid? && !f.SomSlot?
  {
  }

  /** Only regions of the layout are copied. */
  lemma CopiedRegion(rose: Rose, st: Stream, f: Field)
    requires f in Fields(rose, st)
    ensures Region(rose, f)
  {
    if f in LeafsOf(rose, st) {
      LeafsBelow(BitsOf(st, ActiveLeaf), rose.leafCount, f);
    } else if f in LeftsOf(rose, st) {
      LeftsBelow(BitsOf(st, ActiveLeft) * rose.leftIter, rose.leftCount, f);
    } else if f in SlotsOf(rose, st) {
      SlotsBelow(BitsOf(st, SomValid), rose.somCount, f);
    } else if f in UpToCombination(rose, st.offset) {
      FrontKinds(rose, st.offset, f);
    } else {
      hide LeafsOf, LeftsOf, SlotsOf, UpToCombination;
      assert f in SomOf(rose);
    }
  }

  // ----- bytes -----

  datatype Option<T> = None | Some(value: T)

  function Bytes(x: nat, n: nat): (r: seq<Byte>)
    ensures |r| == n
  {
    if n == 0 then [] else [x % 256] + Bytes(x / 256, n - 1)
  }

  function Value(b: seq<Byte>): nat {
    if b == [] then 0 else b[0] + 256 * Value(b[1..])
  }

  function Pow256(n: nat): nat {
    if n == 0 then 1 else 256 * Pow256(n - 1)
  }

  lemma {:induction false} BytesValue(x: nat, n: nat)
    requires x < Pow256(n)
    ensures Value(Bytes(x, n)) == x
  {
    if n > 0 {
      assert x / 256 < Pow256(n - 1);
      BytesValue(x / 256, n - 1);
      assert Bytes(x, n)[1..] == Bytes(x / 256, n - 1);
    }
  }

  lemma OffsetBytes(x: nat)
    requires x < U64_RANGE
    ensures Value(Bytes(x, 8)) == x
  {
    assert Pow256(8) == U64_RANGE by {
      assert Pow256(4) == U32_RANGE;
    }
    BytesValue(x, 8);
  }

  /** The multibit codec.  `dec(total, mem, pos, limit)` decodes a multibit of `total` bits at `pos` from
      memory of which `limit` bytes were given; it yields the set and the bytes used. */
  datatype Codec = Codec(
    enc: (nat, set<nat>) -> seq<Byte>,
    size: (nat, set<nat>) -> nat,
    dec: (nat, nat -> Byte, nat, nat) -> Option<(set<nat>, nat)>
  )

  predicate Flat(total: nat) {
    total <= FLAT_MAX_BITS
  }

  /** Decoding compares with the limit only where it descends: not for flat and not for empty multibits. */
  predicate ChecksLimit(total: nat, s: set<nat>) {
    !Flat(total) && s != {}
  }

  ghost predicate NonZero(b: seq<Byte>) {
    exists i | 0 <= i < |b| :: b[i] != 0
  }

  ghost predicate Agrees(mem: nat -> Byte, pos: nat, b: seq<Byte>) {
    forall i | 0 <= i < |b| :: mem(pos + i) == b[i]
  }

  /** Memory that holds `b` from `pos` on, as far as it was given. */
  ghost predicate AgreesBelow(mem: nat -> Byte, pos: nat, b: seq<Byte>, limit: nat) {
    forall i | 0 <= i < |b| && pos + i < limit :: mem(pos + i) == b[i]
  }

  ghost predicate ZeroFrom(mem: nat -> Byte, pos: nat) {
    forall i | pos <= i :: mem(i) == 0
  }

  /** A flat multibit is a bitmap; a tree starts with its root, which is zero only if the set is empty, and
      then nothing follows it. */
  ghost predicate EncodesAs(c: Codec, total: nat, s: set<nat>) {
    var b := c.enc(total, s);
    && c.size(total, s) == |b|
    && (Flat(total) ==>
          && |b| == (total + 7) / 8
          && forall j | 0 <= j < |b| && b[j] != 0 :: exists i :: i in s && i / 8 == j)
    && (!Flat(total) && s == {} ==> |b| == BLOCK_SIZE && !NonZero(b))
    && (!Flat(total) && s != {} ==> |b| > BLOCK_SIZE && NonZero(b[..BLOCK_SIZE]))
  }

  /** Decoding what was encoded gives it back.  Where the encoding runs over the limit, decoding what is
      there instead fails or runs over the limit too. */
  ghost predicate DecodesAt(c: Codec, total: nat, s: set<nat>, mem: nat -> Byte, pos: nat, limit: nat) {
    var used: nat := |c.enc(total, s)|;
    var r := c.dec(total, mem, pos, limit);
    && (Agrees(mem, pos, c.enc(total, s)) ==>
          r == if ChecksLimit(total, s) && pos + used > limit then None else Some((s, used)))
    && (AgreesBelow(mem, pos, c.enc(total, s), limit) && pos + used > limit ==> r.None? || pos + r.value.1 > limit)
  }

  /** Decoding a multibit that is cut off.  A bitmap is never compared with the limit, and keeps the bits
      that are still there; a tree whose root is seen not to be zero is found out. */
  ghost predicate DecodesCut(c: Codec, total: nat, s: set<nat>, mem: nat -> Byte, pos: nat, limit: nat) {
    var b := c.enc(total, s);
    var r := c.dec(total, mem, pos, limit);
    AgreesBelow(mem, pos, b, limit) && pos <= limit < pos + |b| ==>
      && (Flat(total) ==> r.Some? && r.value.1 == |b| && forall i | i in s && pos + i / 8 < limit :: i in r.value.0)
      && (!Flat(total) && NonZero(b[..Min(BLOCK_SIZE, limit - pos)]) ==> r.None?)
  }

  /** Zeros are the empty multibit. */
  ghost predicate DecodesZeros(c: Codec, total: nat, mem: nat -> Byte, pos: nat, limit: nat) {
    ZeroFrom(mem, pos) ==> c.dec(total, mem, pos, limit) == Some(({}, |c.enc(total, {})| as nat))
  }

  ghost predicate Within(s: set<nat>, total: nat) {
    forall i | i in s :: i < total
  }

  ghost predicate CodecOk(c: Codec) {
    && (forall total, s | Within(s, total) :: EncodesAs(c, total, s))
    && (forall total, s, mem, pos, limit | Within(s, total) :: DecodesAt(c, total, s, mem, pos, limit))
    && (forall total, s, mem, pos, limit | Within(s, total) :: DecodesCut(c, total, s, mem, pos, limit))
    && (forall total, mem, pos, limit :: DecodesZeros(c, total, mem, pos, limit))
  }

  /** The last `n` bytes of a region. */
  function LastBytes(region: seq<Byte>, n: nat): seq<Byte> {
    if n <= |region| then region[|region| - n..] else region
  }

  /** The bytes of one region. */
  function Piece(c: Codec, rose: Rose, st: Stream, f: Field): seq<Byte> {
    if f.Offset? then Bytes(st.offset, 8)
    else if f.History? then LastBytes(st.history, HistoryCopied(rose, st.offset))
    else if f.Bits() then c.enc(rose.totals(f), BitsOf(st, f))
    else if f in st.plain then st.plain[f] else []
  }

  function Encode(c: Codec, rose: Rose, st: Stream, fs: seq<Field>): seq<Byte> {
    if fs == [] then [] else Encode(c, rose, st, fs[..|fs| - 1]) + Piece(c, rose, st, fs[|fs| - 1])
  }

  /** The compressed form of a stream. */
  function Serialized(c: Codec, rose: Rose, st: Stream): seq<Byte> {
    Encode(c, rose, st, Fields(rose, st))
  }

  lemma EncodeAppend(c: Codec, rose: Rose, st: Stream, fs: seq<Field>, f: Field)
    ensures Encode(c, rose, st, fs + [f]) == Encode(c, rose, st, fs) + Piece(c, rose, st, f)
  {
    assert (fs + [f])[..|fs|] == fs;
  }

  lemma {:induction false} EncodePrefix(c: Codec, rose: Rose, st: Stream, fs: seq<Field>, gs: seq<Field>)
    ensures Encode(c, rose, st, fs) <= Encode(c, rose, st, fs + gs)
  {
    if gs == [] {
      assert fs + gs == fs;
    } else {
      var n := |gs| - 1;
      EncodePrefix(c, rose, st, fs, gs[..n]);
      assert fs + gs == fs + gs[..n] + [gs[n]];
      EncodeAppend(c, rose, st, fs + gs[..n], gs[n]);
    }
  }

  lemma EncodeWithin(c: Codec, rose: Rose, st: Stream, fs: seq<Field>, all: seq<Field>)
    requires fs <= all
    ensures Encode(c, rose, st, fs) <= Encode(c, rose, st, all)
  {
    assert fs + all[|fs|..] == all;
    EncodePrefix(c, rose, st, fs, all[|fs|..]);
  }

  // ----- which truncations are compared -----

  /** Copying region `f` out of a buffer compares its end with the buffer's size. */
  predicate Checked(rose: Rose, st: Stream, f: Field) {
    f.Bits() ==> ChecksLimit(rose.totals(f), BitsOf(st, f))
  }

  /** Where the region `fs[i]` ends in the buffer. */
  function End(c: Codec, rose: Rose, st: Stream, fs: seq<Field>, i: nat): nat
    requires i < |fs|
  {
    |Encode(c, rose, st, fs[..i + 1])|
  }

  /** Every region whose end is compared with the size ends within it. */
  ghost predicate Fits(c: Codec, rose: Rose, st: Stream, fs: seq<Field>, limit: nat) {
    forall i | 0 <= i < |fs| && Checked(rose, st, fs[i]) :: End(c, rose, st, fs, i) <= limit
  }

  lemma EndAppend(c: Codec, rose: Rose, st: Stream, fs: seq<Field>, f: Field)
    ensures forall i | 0 <= i < |fs| ::
        End(c, rose, st, fs + [f], i) == End(c, rose, st, fs, i) && (fs + [f])[i] == fs[i]
    ensures End(c, rose, st, fs + [f], |fs|) == |Encode(c, rose, st, fs + [f])| && (fs + [f])[|fs|] == f
  {
    forall i | 0 <= i < |fs| ensures End(c, rose, st, fs + [f], i) == End(c, rose, st, fs, i) {
      assert (fs + [f])[..i + 1] == fs[..i + 1];
    }
    assert (fs + [f])[..|fs| + 1] == fs + [f];
  }

  lemma FitsAppend(c: Codec, rose: Rose, st: Stream, fs: seq<Field>, f: Field, limit: nat)
    ensures Fits(c, rose, st, fs + [f], limit) <==>
              Fits(c, rose, st, fs, limit) && (Checked(rose, st, f) ==> |Encode(c, rose, st, fs + [f])| <= limit)
  {
    EndAppend(c, rose, st, fs, f);
    hide End, Encode, Checked;
    var all := fs + [f];
    if Fits(c, rose, st, all, limit) {
      forall i | 0 <= i < |fs| && Checked(rose, st, fs[i]) ensures End(c, rose, st, fs, i) <= limit {
        assert all[i] == fs[i];
      }
      assert all[|fs|] == f;
    }
  }

  // ----- the stream while it is being expanded -----

  /** The history region with its copied end replaced. */
  function NewHistory(rose: Rose, region: seq<Byte>, st: Stream): seq<Byte> {
    var n := HistoryCopied(rose, st.offset);
    (if n <= |region| then region[..|region| - n] else []) + LastBytes(st.history, n)
  }

  /** `base` with the regions `fs` of `st` copied over it. */
  function Overlay(rose: Rose, base: Stream, st: Stream, fs: seq<Field>): Stream {
    Stream(
      if Offset in fs then st.offset else base.offset,
      if History in fs then NewHistory(rose, base.history, st) else base.history,
      map f | f in base.plain :: if f in fs && f in st.plain then st.plain[f] else base.plain[f],
      map f | f in base.bits :: if f in fs && f in st.bits then st.bits[f] else base.bits[f])
  }

  lemma OverlayNothing(rose: Rose, base: Stream, st: Stream)
    ensures Overlay(rose, base, st, []) == base
  {
  }

  lemma OverlayBits(rose: Rose, base: Stream, st: Stream, fs: seq<Field>, f: Field)
    requires f in base.bits && f in st.bits && f.Bits() && f !in base.plain
    ensures Overlay(rose, base, st, fs + [f])
         == Overlay(rose, base, st, fs).(bits := Overlay(rose, base, st, fs).bits[f := st.bits[f]])
  {
    var w, v := Overlay(rose, base, st, fs), Overlay(rose, base, st, fs + [f]);
    assert forall g | g in base.plain :: g in fs + [f] <==> g in fs;
    assert v.plain == w.plain;
    assert v.bits == w.bits[f := st.bits[f]];
  }

  lemma OverlayPlain(rose: Rose, base: Stream, st: Stream, fs: seq<Field>, f: Field)
    requires f in base.plain && f in st.plain && Plain(f) && f !in base.bits
    ensures Overlay(rose, base, st, fs + [f])
         == Overlay(rose, base, st, fs).(plain := Overlay(rose, base, st, fs).plain[f := st.plain[f]])
  {
    var w, v := Overlay(rose, base, st, fs), Overlay(rose, base, st, fs + [f]);
    assert forall g | g in base.bits :: g in fs + [f] <==> g in fs;
    assert v.bits == w.bits;
    assert v.plain == w.plain[f := st.plain[f]];
  }

  lemma OverlayMaps(rose: Rose, base: Stream, st: Stream, fs: seq<Field>, f: Field)
    requires f !in base.plain && f !in base.bits
    ensures Overlay(rose, base, st, fs + [f]).plain == Overlay(rose, base, st, fs).plain
    ensures Overlay(rose, base, st, fs + [f]).bits == Overlay(rose, base, st, fs).bits
  {
    assert forall g | g in base.bits || g in base.plain :: g in fs + [f] <==> g in fs;
  }

  lemma OverlayOffset(rose: Rose, base: Stream, st: Stream, fs: seq<Field>)
    requires Offset !in base.plain && Offset !in base.bits
    ensures Overlay(rose, base, st, fs + [Offset]) == Overlay(rose, base, st, fs).(offset := st.offset)
  {
    OverlayMaps(rose, base, st, fs, Offset);
    assert History in fs + [Offset] <==> History in fs;
    assert Offset in fs + [Offset];
  }

  /** Copying the history twice is copying it once. */
  lemma OverlayHistory(rose: Rose, base: Stream, st: Stream, fs: seq<Field>)
    requires |base.history| == |st.history| == rose.historyRequired && History !in base.plain && History !in base.bits
    ensures |Overlay(rose, base, st, fs).history| == rose.historyRequired
    ensures Overlay(rose, base, st, fs + [History])
         == Overlay(rose, base, st, fs).(history := NewHistory(rose, Overlay(rose, base, st, fs).history, st))
  {
    OverlayMaps(rose, base, st, fs, History);
    assert Offset in fs + [History] <==> Offset in fs;
    assert History in fs + [History];
  }
}
