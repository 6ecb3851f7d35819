/** The scratch space: how its size is computed, how its regions are laid out, and how it grows when it
    is passed from database to database. */
module ScratchSpace {

  const U32_RANGE := 0x1_0000_0000
  const DELAY_SLOT_COUNT := 32
  const LILY_ITEMS_COUNT := 4096
  const WORD_SIZE := 8
  const ITEM_SIZE := 8

  /** Sizes of structures that other parts of the library define. */
  datatype Abi = Abi(structSize: nat, queueSize: nat, matchSize: nat, streamHeader: nat) {
    predicate Ok() {
      Multiple(structSize, 64) && Multiple(queueSize, 8) && Multiple(matchSize, 8)
    }
  }

  datatype Proto = Proto(
    queueCount: nat, activeQueueArraySize: nat, dkeyCount: nat, logSize: nat, bStateSize: nat, tStateSize: nat,
    fullStateSize: nat, anchoredLen: nat, anchoredFatbitSize: nat, delayFatbitSize: nat, handledFatbitSize: nat,
    somCount: nat, somFatbitSize: nat, lilyCapacity: nat, teddyCapacity: nat)

  /** Sizes of fatbits are multiples of eight. */
  predicate FatbitsOk(p: Proto) {
    && Multiple(p.activeQueueArraySize, 8) && Multiple(p.logSize, 8) && Multiple(p.anchoredFatbitSize, 8)
    && Multiple(p.delayFatbitSize, 8) && Multiple(p.handledFatbitSize, 8) && Multiple(p.somFatbitSize, 8)
  }

  /** The sizes that are computed in 32 bits do not wrap around. */
  predicate NoWrap(p: Proto) {
    2 * p.logSize < U32_RANGE && 8 * p.somCount < U32_RANGE
  }

  predicate Multiple(x: nat, n: nat)
    requires n > 0
  {
    x % n == 0
  }

  lemma Sum(x: nat, y: nat)
    requires Multiple(x, 8) && Multiple(y, 8)
    ensures Multiple(x + y, 8)
  {
  }

  lemma EightTimes(x: nat)
    ensures Multiple(8 * x, 8)
  {
  }

  /** A 32-bit unsigned number. */
  function Wrap(x: nat): nat {
    x % U32_RANGE
  }

  function Times(count: nat, size: nat): nat {
    count * size
  }

  function RoundUp(x: nat, n: nat): nat
    requires n > 0
  {
    (x + (n - 1)) / n * n
  }

  lemma RoundedUp16(x: nat)
    ensures x <= RoundUp(x, 16) < x + 16 && Multiple(RoundUp(x, 16), 16)
  {
    assert RoundUp(x, 16) == (x + 15) / 16 * 16;
  }

  lemma RoundedUp64(x: nat)
    ensures x <= RoundUp(x, 64) < x + 64 && Multiple(RoundUp(x, 64), 64)
  {
    assert RoundUp(x, 64) == (x + 63) / 64 * 64;
  }

  lemma LinesAreEights(x: nat)
    requires Multiple(x, 64)
    ensures Multiple(x, 8)
  {
    assert x == 8 * (8 * (x / 64));
  }

  // ----- the size -----

  /** Room for an array of pointers to fatbits and the fatbits themselves. */
  function FatbitArraySize(entries: nat, fatbitSize: nat): nat {
    RoundUp(RoundUp(WORD_SIZE * entries, 8) + Times(entries, fatbitSize), 8)
  }

  /** The bytes allocated; two of the sizes are computed in 32 bits. */
  function AllocSize(abi: Abi, p: Proto): nat {
    abi.structSize + 256
    + Times(p.queueCount, abi.queueSize) + 63
    + p.bStateSize + p.tStateSize + p.fullStateSize + 63
    + p.handledFatbitSize + p.activeQueueArraySize
    + Wrap(2 * p.logSize) + Wrap(2 * p.logSize) + 16 * p.dkeyCount
    + FatbitArraySize(p.anchoredLen, p.anchoredFatbitSize) + Times(p.queueCount, abi.matchSize)
    + FatbitArraySize(DELAY_SLOT_COUNT, p.delayFatbitSize)
    + Wrap(8 * p.somCount) + p.somFatbitSize + p.somFatbitSize + Wrap(8 * p.somCount) + 15
    + p.lilyCapacity * ITEM_SIZE + 15 + p.teddyCapacity * ITEM_SIZE + 15
  }

  // ----- the layout -----

  /** Where the regions start. */
  datatype Layout = Layout(
    base: nat, queues: nat, somStore: nat, somAttempted: nat, delaySlots: nat, delayStart: nat, delayBits: seq<nat>,
    anchoredLog: nat, anchoredStart: nat, anchoredBits: seq<nat>, matches: nat, bState: nat, tState: nat,
    somStarts0: nat, somStarts1: nat, active: nat, handled: nat, log0: nat, log1: nat, somLog0: nat, somLog1: nat,
    somNow: nat, somTried: nat, fullState: nat, lily: nat, teddy: nat)

  /** `count` fatbits, one behind the other, from `start` on. */
  ghost predicate Spaced(starts: seq<nat>, start: nat, size: nat, count: nat) {
    |starts| == count && forall i | 0 <= i < count :: starts[i] == start + Times(i, size)
  }

  /** The queues and the two stores of match starts follow the structure, aligned for what they hold. */
  ghost predicate StoresPlaced(abi: Abi, p: Proto, l: Layout) {
    && Multiple(l.base, 64) && l.base + abi.structSize <= l.queues && Multiple(l.queues, 8)
    && l.queues + Times(p.queueCount, abi.queueSize) <= l.somStore && Multiple(l.somStore, 8)
    && l.somStore + 8 * p.somCount <= l.somAttempted && Multiple(l.somAttempted, 8)
    && l.somAttempted + 8 * p.somCount <= l.delaySlots && Multiple(l.delaySlots, 8)
  }

  /** Then come the arrays of fatbits for delayed and for anchored literals. */
  ghost predicate FatbitsPlaced(p: Proto, l: Layout) {
    && l.delaySlots + WORD_SIZE * DELAY_SLOT_COUNT <= l.delayStart && Multiple(l.delayStart, 8)
    && Spaced(l.delayBits, l.delayStart, p.delayFatbitSize, DELAY_SLOT_COUNT)
    && l.delayStart + Times(DELAY_SLOT_COUNT, p.delayFatbitSize) <= l.anchoredLog && Multiple(l.anchoredLog, 8)
    && l.anchoredLog + WORD_SIZE * p.anchoredLen <= l.anchoredStart && Multiple(l.anchoredStart, 8)
    && Spaced(l.anchoredBits, l.anchoredStart, p.anchoredFatbitSize, p.anchoredLen)
    && l.anchoredStart + Times(p.anchoredLen, p.anchoredFatbitSize) <= l.matches && Multiple(l.matches, 8)
  }

  /** The report logs, behind the start offsets of matches. */
  ghost predicate LogsPlaced(p: Proto, l: Layout) {
    && Multiple(l.somStarts0, 8) && l.somStarts0 + 8 * p.dkeyCount <= l.somStarts1 && Multiple(l.somStarts1, 8)
    && l.somStarts1 + 8 * p.dkeyCount <= l.active && Multiple(l.active, 8)
    && l.active + p.activeQueueArraySize <= l.handled && Multiple(l.handled, 8)
    && l.handled + p.handledFatbitSize <= l.log0 && Multiple(l.log0, 8)
    && l.log0 + p.logSize <= l.log1 && Multiple(l.log1, 8)
    && l.log1 + p.logSize <= l.somLog0 && Multiple(l.somLog0, 8)
    && l.somLog0 + p.logSize <= l.somLog1 && Multiple(l.somLog1, 8)
    && l.somLog1 + p.logSize <= l.somNow && Multiple(l.somNow, 8)
    && l.somNow + p.somFatbitSize <= l.somTried && Multiple(l.somTried, 8)
  }

  /** The others follow, and the last one ends within the allocation. */
  ghost predicate OthersPlaced(abi: Abi, p: Proto, l: Layout, end: nat) {
    && l.matches + Times(p.queueCount, abi.matchSize) <= l.bState
    && l.bState + p.bStateSize <= l.tState && l.tState + p.tStateSize <= l.somStarts0
    && LogsPlaced(p, l)
    && l.somTried + p.somFatbitSize <= l.fullState && Multiple(l.fullState, 64)
    && l.fullState + p.fullStateSize <= l.lily && Multiple(l.lily, 16)
    && l.lily + ITEM_SIZE * p.lilyCapacity <= l.teddy && Multiple(l.teddy, 16)
    && l.teddy + ITEM_SIZE * p.teddyCapacity <= end
  }

  ghost predicate LaidOut(abi: Abi, p: Proto, block: nat, l: Layout) {
    block <= l.base && StoresPlaced(abi, p, l) && FatbitsPlaced(p, l)
        && OthersPlaced(abi, p, l, block + AllocSize(abi, p))
  }

  /** Places fatbits one behind the other. */
  method PlaceFatbits(start: nat, size: nat, count: nat) returns (starts: seq<nat>, end: nat)
    requires Multiple(start, 8) && Multiple(size, 8)
    ensures Spaced(starts, start, size, count) && end == start + Times(count, size) && Multiple(end, 8)
  {
    hide Multiple, Times;
    TimesZero(size);
    starts, end := [], start;
    for i := 0 to count
      invariant Spaced(starts, start, size, i) && end == start + Times(i, size) && Multiple(end, 8)
    {
      TimesNext(i, size);
      starts := starts + [end];
      end := Bump(end, size);
    }
  }

  lemma TimesZero(size: nat)
    ensures Times(0, size) == 0
  {
  }

  lemma TimesNext(i: nat, size: nat)
    ensures Times(i + 1, size) == Times(i, size) + size
  {
  }

  lemma MultipleOfEight(x: nat, k: nat)
    requires Multiple(x, 8)
    ensures Multiple(Times(k, x), 8)
  {
    var y := x / 8;
    assert x == 8 * y;
    assert Times(k, x) == k * (8 * y) == 8 * (k * y);
    EightTimes(k * y);
  }

  /** What `FatbitArraySize` amounts to when the fatbits need no padding. */
  lemma FatbitArrayIs(entries: nat, fatbitSize: nat)
    requires Multiple(fatbitSize, 8)
    ensures FatbitArraySize(entries, fatbitSize) == WORD_SIZE * entries + Times(entries, fatbitSize)
  {
    hide RoundUp, Multiple, Times;
    MultipleOfEight(fatbitSize, entries);
    EightTimes(entries);
    Aligned(WORD_SIZE * entries);
    Sum(WORD_SIZE * entries, Times(entries, fatbitSize));
    Aligned(WORD_SIZE * entries + Times(entries, fatbitSize));
  }

  lemma Wrapped(x: nat)
    requires Multiple(x, 8)
    ensures Multiple(Wrap(x), 8) && (Wrap(x) == x <==> x < U32_RANGE) && Wrap(x) <= x
  {
  }

  lemma Aligned(x: nat)
    requires Multiple(x, 8)
    ensures RoundUp(x, 8) == x
  {
  }

  /** The regions up to the pointers to the delay slots, none of which needs padding. */
  method PlaceStores(abi: Abi, p: Proto, base: nat) returns (l: Layout)
    requires abi.Ok() && Multiple(base, 64)
    ensures l.delaySlots == base + abi.structSize + Times(p.queueCount, abi.queueSize)
                            + Wrap(8 * p.somCount) + Wrap(8 * p.somCount)
    ensures StoresPlaced(abi, p, l) <==> 8 * p.somCount < U32_RANGE
    ensures l.base == base && Multiple(l.delaySlots, 8)
  {
    hide Times, Multiple, Wrap;
    MultipleOfEight(abi.queueSize, p.queueCount);
    EightTimes(p.somCount);
    Wrapped(8 * p.somCount);
    LinesAreEights(base);
    LinesAreEights(abi.structSize);
    Sum(base, abi.structSize);
    var somStoreSize := Wrap(8 * p.somCount);
    var current := Up8(base + abi.structSize);
    l := Layout(base, current, 0, 0, 0, 0, [], 0, 0, [], 0, 0, 0, 0, 0, 0, 0, 0, 0, 0, 0, 0, 0, 0, 0, 0);
    current := Bump(current, Times(p.queueCount, abi.queueSize));
    l := l.(somStore := current);
    current := Bump(current, somStoreSize);
    l := l.(somAttempted := current);
    current := Bump(current, somStoreSize);
    current := Up8(current);
    l := l.(delaySlots := current);
  }

  lemma WordsAreEights(n: nat)
    ensures Multiple(WORD_SIZE * n, 8)
  {
  }

  /** The arrays of fatbits. */
  method PlaceArrays(p: Proto, l0: Layout) returns (l: Layout)
    requires FatbitsOk(p) && Multiple(l0.delaySlots, 8)
    ensures FatbitsPlaced(p, l)
    ensures l == l0.(delayStart := l.delayStart, delayBits := l.delayBits, anchoredLog := l.anchoredLog,
                     anchoredStart := l.anchoredStart, anchoredBits := l.anchoredBits, matches := l.matches)
    ensures l.matches == l0.delaySlots + FatbitArraySize(DELAY_SLOT_COUNT, p.delayFatbitSize)
                         + FatbitArraySize(p.anchoredLen, p.anchoredFatbitSize)
  {
    hide FatbitArraySize, Times, Spaced, Multiple, RoundUp;
    FatbitArrayIs(DELAY_SLOT_COUNT, p.delayFatbitSize);
    FatbitArrayIs(p.anchoredLen, p.anchoredFatbitSize);
    WordsAreEights(DELAY_SLOT_COUNT);
    WordsAreEights(p.anchoredLen);
    l := l0;
    var current := Bump(l.delaySlots, WORD_SIZE * DELAY_SLOT_COUNT);
    current := Up8(current);
    l := l.(delayStart := current);
    var bits;
    bits, current := PlaceFatbits(current, p.delayFatbitSize, DELAY_SLOT_COUNT);
    l := l.(delayBits := bits);
    current := Up8(current);
    l := l.(anchoredLog := current);
    current := Bump(current, WORD_SIZE * p.anchoredLen);
    current := Up8(current);
    l := l.(anchoredStart := current);
    bits, current := PlaceFatbits(current, p.anchoredFatbitSize, p.anchoredLen);
    l := l.(anchoredBits := bits);
    current := Up8(current);
    l := l.(matches := current);
  }

  /** Rounding an aligned address changes nothing. */
  function Up8(x: nat): (r: nat)
    requires Multiple(x, 8)
    ensures r == x
  {
    Aligned(x);
    RoundUp(x, 8)
  }

  function Bump(x: nat, size: nat): (r: nat)
    requires Multiple(x, 8) && Multiple(size, 8)
    ensures r == x + size && Multiple(r, 8)
  {
    Sum(x, size);
    x + size
  }

  /** The sizes of the regions behind the arrays of fatbits. */
  function OtherSizes(abi: Abi, p: Proto): nat {
    Times(p.queueCount, abi.matchSize) + p.bStateSize + p.tStateSize + 16 * p.dkeyCount + p.activeQueueArraySize
    + p.handledFatbitSize + 4 * p.logSize + 2 * p.somFatbitSize + p.fullStateSize
    + ITEM_SIZE * p.lilyCapacity + ITEM_SIZE * p.teddyCapacity
  }

  /** The remaining regions; at most 156 bytes of padding are needed. */
  method PlaceOthers(abi: Abi, p: Proto, l0: Layout) returns (l: Layout, end: nat)
    requires abi.Ok() && FatbitsOk(p)
    ensures OthersPlaced(abi, p, l, end) && end == l.teddy + ITEM_SIZE * p.teddyCapacity
    ensures l0.matches + OtherSizes(abi, p) <= end <= l0.matches + OtherSizes(abi, p) + 156
    ensures FirstPart(l) == FirstPart(l0)
  {
    hide Times, Multiple, RoundUp;
    l := l0;
    var current := l.matches + Times(p.queueCount, abi.matchSize);
    l := l.(bState := current);
    current := current + p.bStateSize;
    l := l.(tState := current);
    current := current + p.tStateSize;
    RoundedUp64(current);
    current := RoundUp(current, 64);
    LinesAreEights(current);
    l := PlaceLogs(p, l, current);
    current := l.somTried + p.somFatbitSize;
    RoundedUp64(current);
    current := RoundUp(current, 64);
    l := l.(fullState := current);
    current := current + p.fullStateSize;
    RoundedUp16(current);
    current := RoundUp(current, 16);
    l := l.(lily := current);
    current := current + ITEM_SIZE * p.lilyCapacity;
    RoundedUp16(current);
    current := RoundUp(current, 16);
    l := l.(teddy := current);
    end := current + ITEM_SIZE * p.teddyCapacity;
  }

  /** The logs, without padding. */
  method PlaceLogs(p: Proto, l0: Layout, start: nat) returns (l: Layout)
    requires FatbitsOk(p) && Multiple(start, 8)
    ensures LogsPlaced(p, l) && l.somStarts0 == start
    ensures l == l0.(somStarts0 := l.somStarts0, somStarts1 := l.somStarts1, active := l.active, handled := l.handled,
                     log0 := l.log0, log1 := l.log1, somLog0 := l.somLog0, somLog1 := l.somLog1, somNow := l.somNow,
                     somTried := l.somTried)
    ensures l.somTried == start + 16 * p.dkeyCount + p.activeQueueArraySize + p.handledFatbitSize + 4 * p.logSize
        + p.somFatbitSize
  {
    hide Multiple;
    EightTimes(p.dkeyCount);
    var current := start;
    l := l0.(somStarts0 := current);
    current := Bump(current, 8 * p.dkeyCount);
    l := l.(somStarts1 := current);
    current := Bump(current, 8 * p.dkeyCount);
    l := l.(active := current);
    current := Bump(current, p.activeQueueArraySize);
    l := l.(handled := current);
    current := Bump(current, p.handledFatbitSize);
    l := l.(log0 := current);
    current := Bump(current, p.logSize);
    l := l.(log1 := current);
    current := Bump(current, p.logSize);
    l := l.(somLog0 := current);
    current := Bump(current, p.logSize);
    l := l.(somLog1 := current);
    current := Bump(current, p.logSize);
    l := l.(somNow := current);
    current := Bump(current, p.somFatbitSize);
    l := l.(somTried := current);
  }

  function FirstPart(l: Layout): Layout {
    l.(bState := 0, tState := 0, somStarts0 := 0, somStarts1 := 0, active := 0, handled := 0, log0 := 0, log1 := 0,
       somLog0 := 0, somLog1 := 0, somNow := 0, somTried := 0, fullState := 0, lily := 0, teddy := 0)
  }

  lemma SameFirstPart(abi: Abi, p: Proto, l: Layout, l0: Layout)
    requires FirstPart(l) == FirstPart(l0)
    ensures StoresPlaced(abi, p, l) == StoresPlaced(abi, p, l0) && FatbitsPlaced(p, l) == FatbitsPlaced(p, l0)
    ensures l.base == l0.base && l.matches == l0.matches
  {
    assert FirstPart(l).base == l.base && FirstPart(l0).base == l0.base;
  }

  /** The layout in an allocated block: every region has its room exactly if no 32-bit size wraps around, and
      then fewer than 428 bytes are left over. */
  method LayOut(abi: Abi, p: Proto, block: nat) returns (l: Layout)
    requires abi.Ok() && FatbitsOk(p)
    ensures LaidOut(abi, p, block, l) <==> NoWrap(p)
    ensures NoWrap(p) ==> block + AllocSize(abi, p) < l.teddy + ITEM_SIZE * p.teddyCapacity + 428
  {
    var base := RoundUp(block, 64);
    RoundedUp64(block);
    hide RoundUp, StoresPlaced, FatbitsPlaced, Times, FatbitArraySize, Multiple, FirstPart;
    var l0 := PlaceStores(abi, p, base);
    var l1 := PlaceArrays(p, l0);
    var end;
    l, end := PlaceOthers(abi, p, l1);
    SameFirstPart(abi, p, l, l1);
    StoresKept(abi, p, l0, l1);
    Enough(abi, p, block, base, l1.matches, end);
  }

  lemma StoresKept(abi: Abi, p: Proto, l0: Layout, l: Layout)
    requires l == l0.(delayStart := l.delayStart, delayBits := l.delayBits, anchoredLog := l.anchoredLog,
                      anchoredStart := l.anchoredStart, anchoredBits := l.anchoredBits, matches := l.matches)
    ensures StoresPlaced(abi, p, l) == StoresPlaced(abi, p, l0) && l.base == l0.base
  {
  }

  /** The allocation is large enough exactly if the logs do not wrap around. */
  lemma Enough(abi: Abi, p: Proto, block: nat, base: nat, matches: nat, end: nat)
    requires block <= base < block + 64
    requires matches == base + abi.structSize + Times(p.queueCount, abi.queueSize) + Wrap(8 * p.somCount)
        + Wrap(8 * p.somCount)
                        + FatbitArraySize(DELAY_SLOT_COUNT, p.delayFatbitSize)
                        + FatbitArraySize(p.anchoredLen, p.anchoredFatbitSize)
    requires matches + OtherSizes(abi, p) <= end <= matches + OtherSizes(abi, p) + 156
    ensures end <= block + AllocSize(abi, p) <==> 2 * p.logSize < U32_RANGE
    ensures 2 * p.logSize < U32_RANGE && 8 * p.somCount < U32_RANGE ==> block + AllocSize(abi, p) < end + 428
  {
    hide Times, FatbitArraySize;
    LogWrap(p.logSize);
    hide Wrap;
  }

  lemma LogWrap(logSize: nat)
    ensures if 2 * logSize < U32_RANGE then Wrap(2 * logSize) == 2 * logSize
        else Wrap(2 * logSize) + U32_RANGE <= 2 * logSize
  {
  }

  // ----- passing the scratch from database to database -----

  datatype Mode = Block | Vectored | Stream

  /** What a compiled database needs. */
  datatype Rose = Rose(
    anchoredDistance: nat, anchoredFatbitSize: nat, delayFatbitSize: nat, handledFatbitSize: nat, tStateSize: nat,
    somCount: nat, somFatbitSize: nat, queueCount: nat, activeQueueArraySize: nat, mode: Mode, stateEnd: nat,
    scratchStateSize: nat, dkeyCount: nat, dkeyLogSize: nat)

  /** The blocks of the levels above the last one, from a level of `blocks` blocks on. */
  function UpperBlocks(blocks: nat, bits: nat): nat
    requires blocks > 0
    decreases bits - blocks
  {
    if blocks * 64 < bits then blocks + UpperBlocks(blocks * 64, bits) else 0
  }

  /** The bytes of a fatbit of `bits` bits. */
  function FatbitSize(bits: nat): nat {
    var size := if bits <= 256 then (bits + 7) / 8 else 8 * (UpperBlocks(1, bits) + (bits + 63) / 64);
    if size < 32 then 32 else size
  }

  lemma {:induction false} UpperBlocksMonotone(blocks: nat, a: nat, b: nat)
    requires blocks > 0 && a <= b
    ensures UpperBlocks(blocks, a) <= UpperBlocks(blocks, b)
    decreases b - blocks
  {
    if blocks * 64 < a {
      UpperBlocksMonotone(blocks * 64, a, b);
    }
  }

  /** More bits never need a smaller fatbit, also where the flat form ends. */
  lemma FatbitSizeMonotone(a: nat, b: nat)
    requires a <= b
    ensures FatbitSize(a) <= FatbitSize(b) && FatbitSize(a) % 8 == 0
  {
    UpperBlocksMonotone(1, a, b);
  }

  /** A power of 64. */
  predicate PowerOf64(x: nat) {
    x == 1 || (x > 1 && x % 64 == 0 && PowerOf64(x / 64))
  }

  /** The upper levels have 1, 64, 4096 and so on blocks, as many levels as it takes for 64 times as many
      blocks below the last of them to hold the bits. */
  lemma {:induction false} UpperBlocksAre(blocks: nat, bits: nat) returns (top: nat)
    requires PowerOf64(blocks)
    ensures PowerOf64(top) && blocks <= top && 63 * UpperBlocks(blocks, bits) + blocks == top
    ensures bits <= 64 * top && (top == blocks || top < bits)
    decreases bits - blocks
  {
    if blocks * 64 < bits {
      assert blocks * 64 % 64 == 0 && blocks * 64 / 64 == blocks;
      top := UpperBlocksAre(blocks * 64, bits);
    } else {
      top := blocks;
    }
  }

  /** The size of a fatbit: at least 32 bytes; beyond 256 bits a word for every 64 bits, and one for every
      block of the levels above, which together are (top - 1) / 63 for the least power `top` of 64 whose
      64-fold reaches the bits. */
  lemma FatbitSizeIs(bits: nat) returns (top: nat)
    ensures bits <= 256 ==> FatbitSize(bits) == 32
    ensures PowerOf64(top) && bits <= 64 * top && (top == 1 || top < bits)
    ensures bits > 256 ==> 63 * (FatbitSize(bits) - 8 * ((bits + 63) / 64)) == 8 * (top - 1)
  {
    top := UpperBlocksAre(1, bits);
  }

  /** Databases as they are compiled: fatbits are multiples of eight, the report log has a bit per key. */
  predicate Compiled(r: Rose) {
    && r.dkeyLogSize == FatbitSize(r.dkeyCount)
    && Multiple(r.anchoredFatbitSize, 8) && Multiple(r.delayFatbitSize, 8) && Multiple(r.handledFatbitSize, 8)
    && Multiple(r.somFatbitSize, 8) && Multiple(r.activeQueueArraySize, 8)
  }

  /** The scratch has room for everything the database needs. */
  predicate Serves(abi: Abi, p: Proto, r: Rose) {
    && r.anchoredDistance <= p.anchoredLen && r.anchoredFatbitSize <= p.anchoredFatbitSize
    && r.delayFatbitSize <= p.delayFatbitSize && r.handledFatbitSize <= p.handledFatbitSize
    && r.tStateSize <= p.tStateSize && r.somCount <= p.somCount && r.somFatbitSize <= p.somFatbitSize
    && r.queueCount <= p.queueCount && r.activeQueueArraySize <= p.activeQueueArraySize
    && (r.mode.Block? ==> r.stateEnd <= p.bStateSize)
    && (r.mode.Vectored? ==> abi.streamHeader + r.stateEnd <= p.bStateSize) && r.scratchStateSize <= p.fullStateSize
    && r.dkeyCount <= p.dkeyCount && (r.dkeyCount > 0 ==> r.dkeyLogSize <= p.logSize)
    && LILY_ITEMS_COUNT <= p.lilyCapacity && LILY_ITEMS_COUNT <= p.teddyCapacity
  }

  /** No size of `q` is below that of `p`. */
  predicate AtLeast(q: Proto, p: Proto) {
    && p.queueCount <= q.queueCount && p.activeQueueArraySize <= q.activeQueueArraySize && p.dkeyCount <= q.dkeyCount
    && p.logSize <= q.logSize && p.bStateSize <= q.bStateSize && p.tStateSize <= q.tStateSize
    && p.fullStateSize <= q.fullStateSize && p.anchoredLen <= q.anchoredLen
    && p.anchoredFatbitSize <= q.anchoredFatbitSize && p.delayFatbitSize <= q.delayFatbitSize
    && p.handledFatbitSize <= q.handledFatbitSize && p.somCount <= q.somCount && p.somFatbitSize <= q.somFatbitSize
    && p.lilyCapacity <= q.lilyCapacity && p.teddyCapacity <= q.teddyCapacity
  }

  /** The size of the report logs belongs to the number of keys. */
  predicate LogMatches(p: Proto) {
    p.logSize == if p.dkeyCount == 0 then 0 else FatbitSize(p.dkeyCount)
  }

  function Max(a: nat, b: nat): nat {
    if a < b then b else a
  }

  method WidenLiterals(p0: Proto, rose: Rose) returns (p: Proto, resize: bool)
    ensures p == p0.(anchoredLen := Max(p0.anchoredLen, rose.anchoredDistance),
                     anchoredFatbitSize := Max(p0.anchoredFatbitSize, rose.anchoredFatbitSize),
                     delayFatbitSize := Max(p0.delayFatbitSize, rose.delayFatbitSize),
                     handledFatbitSize := Max(p0.handledFatbitSize, rose.handledFatbitSize),
                     tStateSize := Max(p0.tStateSize, rose.tStateSize))
    ensures resize <==> p != p0
  {
    p, resize := p0, false;
    if rose.anchoredDistance > p.anchoredLen {
      resize, p := true, p.(anchoredLen := rose.anchoredDistance);
    }
    if rose.anchoredFatbitSize > p.anchoredFatbitSize {
      resize, p := true, p.(anchoredFatbitSize := rose.anchoredFatbitSize);
    }
    if rose.delayFatbitSize > p.delayFatbitSize {
      resize, p := true, p.(delayFatbitSize := rose.delayFatbitSize);
    }
    if rose.handledFatbitSize > p.handledFatbitSize {
      resize, p := true, p.(handledFatbitSize := rose.handledFatbitSize);
    }
    if rose.tStateSize > p.tStateSize {
      resize, p := true, p.(tStateSize := rose.tStateSize);
    }
  }

  method WidenEngines(abi: Abi, p0: Proto, rose: Rose) returns (p: Proto, resize: bool)
    ensures p == p0.(somCount := Max(p0.somCount, rose.somCount),
                     somFatbitSize := Max(p0.somFatbitSize, rose.somFatbitSize),
                     queueCount := Max(p0.queueCount, rose.queueCount),
                     activeQueueArraySize := Max(p0.activeQueueArraySize, rose.activeQueueArraySize),
                     bStateSize := if rose.mode.Block? then Max(p0.bStateSize, rose.stateEnd)
                                   else if rose.mode.Vectored? then Max(p0.bStateSize, abi.streamHeader + rose.stateEnd)
                                   else p0.bStateSize,
                     fullStateSize := Max(p0.fullStateSize, rose.scratchStateSize))
    ensures resize <==> p != p0
  {
    p, resize := p0, false;
    if rose.somCount > p.somCount {
      resize, p := true, p.(somCount := rose.somCount);
    }
    if rose.somFatbitSize > p.somFatbitSize {
      resize, p := true, p.(somFatbitSize := rose.somFatbitSize);
    }
    if rose.queueCount > p.queueCount {
      resize, p := true, p.(queueCount := rose.queueCount);
    }
    if rose.activeQueueArraySize > p.activeQueueArraySize {
      resize, p := true, p.(activeQueueArraySize := rose.activeQueueArraySize);
    }
    var bStateSize := 0;
    if rose.mode.Block? {
      bStateSize := rose.stateEnd;
    } else if rose.mode.Vectored? {
      bStateSize := abi.streamHeader + rose.stateEnd;
    }
    if bStateSize > p.bStateSize {
      resize, p := true, p.(bStateSize := bStateSize);
    }
    if rose.scratchStateSize > p.fullStateSize {
      resize, p := true, p.(fullStateSize := rose.scratchStateSize);
    }
  }

  /** The size of the logs follows the number of keys; the buffers of the literal engines have fixed sizes. */
  method WidenLogs(p0: Proto, rose: Rose) returns (p: Proto, resize: bool)
    ensures p == p0.(dkeyCount := Max(p0.dkeyCount, rose.dkeyCount),
                     logSize := if rose.dkeyCount > p0.dkeyCount then rose.dkeyLogSize else p0.logSize,
                     lilyCapacity := Max(p0.lilyCapacity, LILY_ITEMS_COUNT),
                     teddyCapacity := Max(p0.teddyCapacity, LILY_ITEMS_COUNT))
    ensures resize <==> p != p0
  {
    p, resize := p0, false;
    if rose.dkeyCount > p.dkeyCount {
      resize, p := true, p.(dkeyCount := rose.dkeyCount, logSize := rose.dkeyLogSize);
    }
    if LILY_ITEMS_COUNT > p.lilyCapacity {
      resize, p := true, p.(lilyCapacity := LILY_ITEMS_COUNT);
    }
    if LILY_ITEMS_COUNT > p.teddyCapacity {
      resize, p := true, p.(teddyCapacity := LILY_ITEMS_COUNT);
    }
  }

  /** Widens the sizes where the database needs more, and no further: whatever serves the database and has
      all the room there was has this room. */
  method Widen(abi: Abi, p0: Proto, rose: Rose) returns (p: Proto, resize: bool)
    requires Compiled(rose) && LogMatches(p0) && FatbitsOk(p0)
    ensures Serves(abi, p, rose) && AtLeast(p, p0) && LogMatches(p) && FatbitsOk(p)
    ensures resize <==> !Serves(abi, p0, rose)
    ensures !resize ==> p == p0
    ensures forall q | Serves(abi, q, rose) && AtLeast(q, p0) :: AtLeast(q, p)
  {
    hide FatbitSize, Multiple;
    LogsGrow(p0.dkeyCount, rose.dkeyCount);
    var p1, literals := WidenLiterals(p0, rose);
    var p2, engines := WidenEngines(abi, p1, rose);
    var logs;
    p, logs := WidenLogs(p2, rose);
    resize := literals || engines || logs;
  }

  lemma LogsGrow(a: nat, b: nat)
    ensures a <= b ==> FatbitSize(a) <= FatbitSize(b)
    ensures b <= a ==> FatbitSize(b) <= FatbitSize(a)
    ensures Multiple(FatbitSize(a), 8) && Multiple(FatbitSize(b), 8)
  {
    if a <= b {
      FatbitSizeMonotone(a, b);
    }
    if b <= a {
      FatbitSizeMonotone(b, a);
    }
    FatbitSizeMonotone(b, b);
    FatbitSizeMonotone(a, a);
  }

  lemma StillServes(abi: Abi, p: Proto, q: Proto, r: Rose)
    requires Serves(abi, p, r) && AtLeast(q, p)
    ensures Serves(abi, q, r)
  {
  }

  const EMPTY := Proto(0, 0, 0, 0, 0, 0, 0, 0, 0, 0, 0, 0, 0, 0, 0)

  lemma EmptyServesNothing(abi: Abi, rose: Rose)
    ensures FatbitsOk(EMPTY) && LogMatches(EMPTY) && !Serves(abi, EMPTY, rose)
  {
  }

  lemma AllStillServed(abi: Abi, p: Proto, q: Proto, served: set<Rose>)
    requires (forall r | r in served :: Serves(abi, p, r)) && AtLeast(q, p)
    ensures forall r | r in served :: Serves(abi, q, r)
  {
    hide Serves, AtLeast;
    forall r | r in served ensures Serves(abi, q, r) {
      StillServes(abi, p, q, r);
    }
  }

  datatype Error = Success | NoMem

  /** A handle on a scratch, with the databases it was handed to since it was last null. */
  class ScratchHandle {
    const abi: Abi
    var present: bool
    var proto: Proto
    var layout: Layout
    var block: nat
    ghost var served: set<Rose>

    ghost predicate Valid()
      reads this
    {
      && abi.Ok() && (!present ==> served == {})
      && (present ==>
            && FatbitsOk(proto) && LogMatches(proto) && (NoWrap(proto) ==> LaidOut(abi, proto, block, layout))
            && forall r | r in served :: Serves(abi, proto, r))
    }

    /** `hs_alloc_scratch`; the allocator's answers are parameters.  On success the scratch serves this
        database and every one it served before; on failure there is none any more. */
    method AllocScratch(rose: Rose, protoOk: bool, newBlock: nat, blockOk: bool) returns (rv: Error)
      requires Valid() && Compiled(rose)
      modifies this
      ensures Valid()
      ensures rv.Success? ==> present && served == old(served) + {rose}
      ensures rv.NoMem? <==> !protoOk || (!blockOk && !(old(present) && Serves(abi, old(proto), rose)))
      ensures rv.NoMem? ==> !present
      ensures rv.Success? && old(present) && Serves(abi, old(proto), rose) ==>
                proto == old(proto) && block == old(block) && layout == old(layout)
      ensures rv.Success? && !(old(present) && Serves(abi, old(proto), rose)) ==> block == newBlock
      ensures rv.Success? ==>
                forall q | Serves(abi, q, rose) && (old(present) ==> AtLeast(q, old(proto))) :: AtLeast(q, proto)
    {
      if !protoOk {
        present, served := false, {};
        return NoMem;
      }
      hide FatbitSize, Multiple, FatbitsOk, LogMatches, Serves, AtLeast, LaidOut, NoWrap;
      EmptyServesNothing(abi, rose);
      var p0 := if present then proto else EMPTY;
      var p, resize := Widen(abi, p0, rose);
      AllStillServed(abi, p0, p, served);
      if resize {
        if !blockOk {
          present, served := false, {};
          return NoMem;
        }
        var l := LayOut(abi, p, newBlock);
        present, proto, block, layout := true, p, newBlock, l;
      }
      served := served + {rose};
      return Success;
    }
  }
}
