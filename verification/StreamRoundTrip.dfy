/** What expanding a compressed stream restores. */
module StreamRoundTrip {
  import opened StreamLayout
  import StreamCompress

  // ----- what is restored -----

  /** The regions of the stream that still matter: those of active engines and valid match starts, and the
      anchored table while the stream is short. */
  ghost predicate Live(rose: Rose, st: Stream, f: Field) {
    && Region(rose, f)
    && match f
       case Anchor => st.offset <= rose.anchoredDistance
       case LeafState(qi) => qi in BitsOf(st, ActiveLeaf)
       case LeftState(ri) => ri in BitsOf(st, ActiveLeft) && ri in rose.leftIter
       case LeftLag(ri) => ri in BitsOf(st, ActiveLeft) && ri in rose.leftIter
       case SomSlot(slot) => slot in BitsOf(st, SomValid)
       case _ => true
  }

  /** The streams agree on their offset, on every region that matters, and on every multibit. */
  ghost predicate SameRegions(rose: Rose, st: Stream, w: Stream) {
    && w.offset == st.offset
    && (forall f: Field | Plain(f) && Live(rose, st, f) :: f in st.plain && f in w.plain && w.plain[f] == st.plain[f])
    && (forall f: Field | f.Bits() && Live(rose, st, f) :: f in st.bits && f in w.bits && w.bits[f] == st.bits[f])
  }

  /** The streams agree on the history that was written. */
  ghost predicate SameHistory(rose: Rose, st: Stream, w: Stream) {
    LastBytes(w.history, HistoryLive(rose, st.offset)) == LastBytes(st.history, HistoryLive(rose, st.offset))
  }

  lemma {:induction false} LeafsAre(active: set<nat>, k: nat)
    ensures forall qi: nat :: LeafState(qi) in Leafs(active, k) <==> qi in active && qi < k
  {
    if k > 0 {
      LeafsAre(active, k - 1);
    }
  }

  lemma {:induction false} LeftsAre(active: set<nat>, k: nat)
    ensures forall ri: nat :: LeftState(ri) in Lefts(active, k) <==> ri in active && ri < k
    ensures forall ri: nat :: LeftLag(ri) in Lefts(active, k) <==> ri in active && ri < k
  {
    if k > 0 {
      LeftsAre(active, k - 1);
    }
  }

  lemma {:induction false} SlotsAre(valid: set<nat>, k: nat)
    ensures forall slot: nat :: SomSlot(slot) in Slots(valid, k) <==> slot in valid && slot < k
  {
    if k > 0 {
      SlotsAre(valid, k - 1);
    }
  }

  /** Every region that matters is copied. */
  lemma LiveIsCopied(rose: Rose, st: Stream, f: Field)
    requires Live(rose, st, f)
    ensures f in Fields(rose, st)
  {
    LeafsAre(BitsOf(st, ActiveLeaf), rose.leafCount);
    LeftsAre(BitsOf(st, ActiveLeft) * rose.leftIter, rose.leftCount);
    SlotsAre(BitsOf(st, SomValid), rose.somCount);
    hide Leafs, Lefts, Slots;
    if f.LeafState? {
      assert f in LeafsOf(rose, st);
    } else if f.LeftState? || f.LeftLag? {
      assert f in LeftsOf(rose, st);
    } else if f.SomSlot? {
      assert f in SlotsOf(rose, st);
    } else if f.SomWritable? || f.SomValid? {
      assert f in SomOf(rose);
    } else {
      HeadIsCopied(rose, st, f);
    }
  }

  lemma HeadIsCopied(rose: Rose, st: Stream, f: Field)
    requires Live(rose, st, f) && !f.LeafState? && !f.LeftState? && !f.LeftLag?
    requires !f.SomSlot? && !f.SomWritable? && !f.SomValid?
    ensures f in UpToCombination(rose, st.offset)
  {
    var head := UpToHistory(rose, st.offset);
    assert Offset == head[0] && Status == head[1] && Roles == head[2] && ActiveLeaf == head[3] && ActiveLeft == head[4]
      && LongLit == head[5] && (st.offset <= rose.anchoredDistance ==> Anchor == head[6])
      && Groups == head[|head| - 2] && History == head[|head| - 1];
  }

  /** A stream expanded over any memory has every region that matters. */
  lemma RegionsRestored(rose: Rose, base: Stream, st: Stream)
    requires Shaped(rose, st) && Room(rose, base)
    ensures SameRegions(rose, st, Overlay(rose, base, st, Fields(rose, st)))
  {
    var w := Overlay(rose, base, st, Fields(rose, st));
    LiveIsCopied(rose, st, Offset);
    forall f: Field | Plain(f) && Live(rose, st, f)
      ensures f in st.plain && f in w.plain && w.plain[f] == st.plain[f]
    {
      LiveIsCopied(rose, st, f);
    }
    forall f: Field | f.Bits() && Live(rose, st, f)
      ensures f in st.bits && f in w.bits && w.bits[f] == st.bits[f]
    {
      LiveIsCopied(rose, st, f);
    }
  }

  // ----- the history -----

  /** The offset does not fall where its narrowing to 32 bits loses history. */
  predicate HistoryKept(rose: Rose, offset: nat) {
    offset < U32_RANGE || offset % U32_RANGE >= rose.historyRequired
  }

  lemma ExpandedHistory(rose: Rose, base: Stream, st: Stream)
    ensures Overlay(rose, base, st, Fields(rose, st)).history == NewHistory(rose, base.history, st)
  {
    LiveIsCopied(rose, st, History);
  }

  lemma NewHistoryEnds(rose: Rose, region: seq<Byte>, st: Stream)
    requires |region| == |st.history| == rose.historyRequired
    ensures var n := HistoryCopied(rose, st.offset);
            && |NewHistory(rose, region, st)| == rose.historyRequired
            && LastBytes(NewHistory(rose, region, st), n) == LastBytes(st.history, n)
  {
  }

  lemma HistoryRestored(rose: Rose, base: Stream, st: Stream)
    requires Shaped(rose, st) && Room(rose, base) && HistoryKept(rose, st.offset)
    ensures SameHistory(rose, st, Overlay(rose, base, st, Fields(rose, st)))
  {
    assert HistoryCopied(rose, st.offset) == HistoryLive(rose, st.offset);
    assert |st.history| == |base.history| == rose.historyRequired;
    hide Shaped, Room, Fields, Overlay, NewHistory, HistoryCopied, HistoryLive, HistoryKept;
    ExpandedHistory(rose, base, st);
    NewHistoryEnds(rose, base.history, st);
  }

  /** Bytes before the copied ones stay as they were. */
  lemma HistoryLost(rose: Rose, base: Stream, st: Stream)
    requires Shaped(rose, st) && Room(rose, base) && !HistoryKept(rose, st.offset)
    requires forall i | 0 <= i < rose.historyRequired :: base.history[i] != st.history[i]
    ensures !SameHistory(rose, st, Overlay(rose, base, st, Fields(rose, st)))
  {
    ExpandedHistory(rose, base, st);
    var w := NewHistory(rose, base.history, st);
    var live := HistoryLive(rose, st.offset);
    assert live == rose.historyRequired && LastBytes(w, live) == w && LastBytes(st.history, live) == st.history;
    assert w[0] == base.history[0];
  }

  /** All of the history is restored, whatever the memory held, exactly if the narrowed offset is not too
      small. */
  lemma HistoryRestoredIff(rose: Rose, st: Stream)
    requires Shaped(rose, st)
    ensures (forall base | Room(rose, base) :: SameHistory(rose, st, Overlay(rose, base, st, Fields(rose, st))))
       <==> HistoryKept(rose, st.offset)
  {
    if HistoryKept(rose, st.offset) {
      forall base | Room(rose, base) ensures SameHistory(rose, st, Overlay(rose, base, st, Fields(rose, st))) {
        HistoryRestored(rose, base, st);
      }
    } else {
      var base := st.(history := seq(rose.historyRequired, (i: nat) requires i < rose.historyRequired =>
                                       if st.history[i] == 0 then 1 else 0));
      assert Room(rose, base);
      HistoryLost(rose, base, st);
    }
  }

  /** A stream of exactly 2^32 bytes keeps none of the history it needs. */
  lemma HistoryLostAt32Bits(rose: Rose, st: Stream)
    requires Shaped(rose, st) && st.offset == U32_RANGE && rose.historyRequired > 0
    ensures HistoryCopied(rose, st.offset) == 0 && HistoryLive(rose, st.offset) == rose.historyRequired
    ensures exists base :: Room(rose, base) && !SameHistory(rose, st, Overlay(rose, base, st, Fields(rose, st)))
  {
    HistoryRestoredIff(rose, st);
  }

  // ----- compressing again -----

  lemma {:induction false} EncodeSame(c: Codec, rose: Rose, a: Stream, b: Stream, fs: seq<Field>)
    requires forall f | f in fs :: Piece(c, rose, a, f) == Piece(c, rose, b, f)
    ensures Encode(c, rose, a, fs) == Encode(c, rose, b, fs)
  {
    if fs != [] {
      EncodeSame(c, rose, a, b, fs[..|fs| - 1]);
      assert fs[|fs| - 1] in fs;
    }
  }

  /** An expanded stream compresses to the bytes it was expanded from. */
  lemma CompressesAgain(c: Codec, rose: Rose, base: Stream, st: Stream)
    requires Shaped(rose, st) && Room(rose, base)
    ensures var w := Overlay(rose, base, st, Fields(rose, st));
            Shaped(rose, w) && Serialized(c, rose, w) == Serialized(c, rose, st)
  {
    var fs := Fields(rose, st);
    var w := Overlay(rose, base, st, fs);
    RegionsRestored(rose, base, st);
    OverlayShaped(rose, base, st);
    hide Fields, Overlay, Shaped, Room, Piece, Encode, SameRegions;
    SameFields(rose, st, w);
    forall f | f in fs ensures Piece(c, rose, w, f) == Piece(c, rose, st, f) {
      CopiedPiece(c, rose, base, st, f);
    }
    EncodeSame(c, rose, w, st, fs);
  }

  lemma OverlayShaped(rose: Rose, base: Stream, st: Stream)
    requires Shaped(rose, st) && Room(rose, base)
    requires SameRegions(rose, st, Overlay(rose, base, st, Fields(rose, st)))
    ensures Shaped(rose, Overlay(rose, base, st, Fields(rose, st)))
  {
    OverlayRoom(rose, base, st);
    hide Fields, Overlay, Room;
    var w := Overlay(rose, base, st, Fields(rose, st));
    forall f: Field, i | Region(rose, f) && f.Bits() && i in w.bits[f] ensures i < rose.totals(f) {
      BitsAreLive(rose, st, w, f);
    }
  }

  lemma BitsAreLive(rose: Rose, st: Stream, w: Stream, f: Field)
    requires Shaped(rose, st) && SameRegions(rose, st, w) && Region(rose, f) && f.Bits()
    ensures f in w.bits && forall i | i in w.bits[f] :: i < rose.totals(f)
  {
    assert Live(rose, st, f);
    hide Live;
  }

  lemma OverlayRoom(rose: Rose, base: Stream, st: Stream)
    requires Shaped(rose, st) && Room(rose, base)
    ensures Room(rose, Overlay(rose, base, st, Fields(rose, st)))
  {
    ExpandedHistory(rose, base, st);
    NewHistoryEnds(rose, base.history, st);
    hide Fields, NewHistory;
  }

  /** The regions copied depend on the offset and the multibits alone. */
  lemma SameFields(rose: Rose, st: Stream, w: Stream)
    requires Shaped(rose, st) && SameRegions(rose, st, w)
    ensures Fields(rose, w) == Fields(rose, st)
  {
    assert Live(rose, st, ActiveLeaf) && Live(rose, st, ActiveLeft) && (rose.hasSom ==> Live(rose, st, SomValid));
    hide Leafs, Lefts, Slots, UpToCombination;
  }

  lemma CopiedPiece(c: Codec, rose: Rose, base: Stream, st: Stream, f: Field)
    requires Shaped(rose, st) && Room(rose, base) && f in Fields(rose, st)
    ensures Piece(c, rose, Overlay(rose, base, st, Fields(rose, st)), f) == Piece(c, rose, st, f)
  {
    CopiedRegion(rose, st, f);
    LiveIsCopied(rose, st, Offset);
    ExpandedHistory(rose, base, st);
    NewHistoryEnds(rose, base.history, st);
    hide Fields, NewHistory;
  }

  // ----- the whole round trip -----

  /** Compressing a stream and expanding the result over any memory restores everything that matters, the
      history provided the narrowed offset does not lose it. */
  method CompressAndExpand(codec: Codec, rose: Rose, base: Stream, st: Stream) returns (ok: bool, stream: Stream)
    requires CodecOk(codec) && Shaped(rose, st) && Room(rose, base)
    ensures ok && SameRegions(rose, st, stream) && |stream.history| == rose.historyRequired
    ensures HistoryKept(rose, st.offset) ==> SameHistory(rose, st, stream)
    ensures Shaped(rose, stream) && Serialized(codec, rose, stream) == Serialized(codec, rose, st)
  {
    RegionsRestored(rose, base, st);
    CompressesAgain(codec, rose, base, st);
    ExpandedHistory(rose, base, st);
    NewHistoryEnds(rose, base.history, st);
    hide CodecOk, SameRegions, Fields, Overlay, Serialized, NewHistory;
    var buf := StreamCompress.CompressStream(codec, rose, st);
    var mem: nat -> Byte := (i: nat) => if i < |buf| then buf[i] else 0;
    ok, stream := StreamCompress.ExpandStream(codec, rose, base, mem, |buf|, st);
    if HistoryKept(rose, st.offset) {
      HistoryRestored(rose, base, st);
    }
  }
}
