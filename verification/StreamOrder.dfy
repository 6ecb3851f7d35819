/** Which regions a compressed stream consists of: exactly the live ones, each once, in the order of the
    format. */
module StreamOrder {
  import opened StreamLayout
  import opened StreamRoundTrip
  import StreamTemplate

  /** The place of a region in the format; regions of one kind are ordered by index. */
  function Place(f: Field): (nat, nat) {
    match f
    case Offset => (0, 0)
    case Status => (1, 0)
    case Roles => (2, 0)
    case ActiveLeaf => (3, 0)
    case ActiveLeft => (4, 0)
    case LongLit => (5, 0)
    case Anchor => (6, 0)
    case Groups => (7, 0)
    case History => (8, 0)
    case Exhausted => (9, 0)
    case Logical => (10, 0)
    case Combination => (11, 0)
    case LeafState(qi) => (12, qi)
    case LeftState(ri) => (13, 2 * ri)
    case LeftLag(ri) => (13, 2 * ri + 1)
    case SomWritable => (14, 0)
    case SomValid => (15, 0)
    case SomSlot(slot) => (16, slot)
  }

  predicate Precedes(f: Field, g: Field) {
    Place(f).0 < Place(g).0 || (Place(f).0 == Place(g).0 && Place(f).1 < Place(g).1)
  }

  ghost predicate InPlace(fs: seq<Field>) {
    forall i, j | 0 <= i < j < |fs| :: Precedes(fs[i], fs[j])
  }

  /** The regions are those of places `lo` up to `hi`. */
  ghost predicate Between(fs: seq<Field>, lo: nat, hi: nat) {
    forall f | f in fs :: lo <= Place(f).0 < hi
  }

  lemma Joined(fs: seq<Field>, gs: seq<Field>, lo: nat, mid: nat, hi: nat)
    requires InPlace(fs) && InPlace(gs) && Between(fs, lo, mid) && Between(gs, mid, hi) && lo <= mid <= hi
    ensures InPlace(fs + gs) && Between(fs + gs, lo, hi)
  {
    hide Place;
    forall i, j | 0 <= i < j < |fs + gs| ensures Precedes((fs + gs)[i], (fs + gs)[j]) {
      if i < |fs| <= j {
        assert fs[i] in fs && gs[j - |fs|] in gs;
      }
    }
  }

  lemma {:induction false} LeafsInPlace(active: set<nat>, k: nat)
    ensures InPlace(Leafs(active, k)) && forall f | f in Leafs(active, k) :: f.LeafState? && f.qi < k
  {
    if k > 0 {
      LeafsInPlace(active, k - 1);
    }
  }

  lemma {:induction false} LeftsInPlace(active: set<nat>, k: nat)
    ensures InPlace(Lefts(active, k))
    ensures forall f | f in Lefts(active, k) :: (f.LeftState? || f.LeftLag?) && f.ri < k
  {
    if k > 0 {
      LeftsInPlace(active, k - 1);
    }
  }

  lemma {:induction false} SlotsInPlace(valid: set<nat>, k: nat)
    ensures InPlace(Slots(valid, k)) && forall f | f in Slots(valid, k) :: f.SomSlot? && f.slot < k
  {
    if k > 0 {
      SlotsInPlace(valid, k - 1);
    }
  }

  /** The regions come in the order of the format, none of them twice. */
  lemma FieldsInPlace(rose: Rose, st: Stream)
    ensures InPlace(Fields(rose, st))
  {
    var head, leafs, lefts := UpToCombination(rose, st.offset), LeafsOf(rose, st), LeftsOf(rose, st);
    var som, slots := SomOf(rose), SlotsOf(rose, st);
    HeadInPlace(rose, st.offset);
    LeafsInPlace(BitsOf(st, ActiveLeaf), rose.leafCount);
    LeftsInPlace(BitsOf(st, ActiveLeft) * rose.leftIter, rose.leftCount);
    SlotsInPlace(BitsOf(st, SomValid), rose.somCount);
    assert Between(leafs, 12, 13) && Between(lefts, 13, 14) && Between(som, 14, 16) && Between(slots, 16, 17);
    assert InPlace(som);
    hide UpToCombination, LeafsOf, LeftsOf, SomOf, SlotsOf, InPlace, Between;
    Joined(head, leafs, 0, 12, 13);
    Joined(head + leafs, lefts, 0, 13, 14);
    Joined(head + leafs + lefts, som, 0, 14, 16);
    Joined(head + leafs + lefts + som, slots, 0, 16, 17);
  }

  lemma HeadInPlace(rose: Rose, offset: nat)
    ensures InPlace(UpToCombination(rose, offset)) && Between(UpToCombination(rose, offset), 0, 12)
  {
    hide InPlace, Between, Place, Precedes;
    var anchor := if offset <= rose.anchoredDistance then [Anchor] else [];
    HeadParts(anchor);
    var first, second := [Offset, Status, Roles], [ActiveLeaf, ActiveLeft, LongLit];
    Joined(first, second, 0, 3, 6);
    Joined(first + second, anchor, 0, 6, 7);
    Joined(first + second + anchor, [Groups, History], 0, 7, 9);
    Joined(first + second + anchor + [Groups, History], [Exhausted, Logical, Combination], 0, 9, 12);
  }

  lemma HeadParts(anchor: seq<Field>)
    requires anchor == [Anchor] || anchor == []
    ensures InPlace([Offset, Status, Roles]) && Between([Offset, Status, Roles], 0, 3)
    ensures InPlace([ActiveLeaf, ActiveLeft, LongLit]) && Between([ActiveLeaf, ActiveLeft, LongLit], 3, 6)
    ensures InPlace(anchor) && Between(anchor, 6, 7)
    ensures InPlace([Groups, History]) && Between([Groups, History], 7, 9)
    ensures InPlace([Exhausted, Logical, Combination]) && Between([Exhausted, Logical, Combination], 9, 12)
  {
    Three(Offset, Status, Roles);
    Three(ActiveLeaf, ActiveLeft, LongLit);
    Three(Exhausted, Logical, Combination);
  }

  lemma Three(f: Field, g: Field, h: Field)
    requires Precedes(f, g) && Precedes(g, h)
    ensures InPlace([f, g, h]) && Between([f, g, h], Place(f).0, Place(h).0 + 1)
  {
  }

  /** Nothing else is copied: no state of an engine that is inactive or keeps none, no match start that is
      not valid, no anchored table once the stream is long. */
  lemma CopiedIsLive(rose: Rose, st: Stream, f: Field)
    requires f in Fields(rose, st)
    ensures Live(rose, st, f)
  {
    var active := BitsOf(st, ActiveLeft) * rose.leftIter;
    LeafsAre(BitsOf(st, ActiveLeaf), rose.leafCount);
    LeftsAre(active, rose.leftCount);
    SlotsAre(BitsOf(st, SomValid), rose.somCount);
    LeafsInPlace(BitsOf(st, ActiveLeaf), rose.leafCount);
    LeftsInPlace(active, rose.leftCount);
    SlotsInPlace(BitsOf(st, SomValid), rose.somCount);
    hide Leafs, Lefts, Slots, BitsOf, InPlace;
    if f in UpToCombination(rose, st.offset) {
      assert f == Anchor ==> st.offset <= rose.anchoredDistance;
    }
  }

  /** The regions copied are exactly those that matter. */
  lemma FieldsAreLive(rose: Rose, st: Stream)
    ensures forall f: Field :: f in Fields(rose, st) <==> Live(rose, st, f)
  {
    hide Fields, Live;
    forall f: Field ensures f in Fields(rose, st) <==> Live(rose, st, f) {
      if Live(rose, st, f) {
        LiveIsCopied(rose, st, f);
      }
      if f in Fields(rose, st) {
        CopiedIsLive(rose, st, f);
      }
    }
  }

  ghost predicate ExactlyLive(rose: Rose, st: Stream, fs: seq<Field>) {
    forall f: Field :: f in fs <==> Live(rose, st, f)
  }

  lemma {:induction false} SortedIsUnique(fs: seq<Field>, gs: seq<Field>)
    requires InPlace(fs) && InPlace(gs) && forall f :: f in fs <==> f in gs
    ensures fs == gs
  {
    assert (fs != [] ==> fs[0] in fs) && (gs != [] ==> gs[0] in gs);
    if fs != [] && gs != [] {
      var f, g := fs[|fs| - 1], gs[|gs| - 1];
      assert f in gs && g in fs;
      hide Place;
      assert f == g;
      var a, b := fs[..|fs| - 1], gs[..|gs| - 1];
      LastLeaves(fs, a);
      LastLeaves(gs, b);
      hide InPlace, Precedes;
      forall x: Field | x in a || x in b ensures x in a && x in b {
        assert x in fs && x in gs && x != f;
      }
      SortedIsUnique(a, b);
    }
  }

  lemma LastLeaves(fs: seq<Field>, front: seq<Field>)
    requires InPlace(fs) && fs != [] && front == fs[..|fs| - 1]
    ensures InPlace(front)
    ensures forall f :: f in front <==> f in fs && f != fs[|fs| - 1]
  {
    forall f | f in fs && f != fs[|fs| - 1] ensures f in front {
      var i :| 0 <= i < |fs| && fs[i] == f;
      assert front[i] == f;
    }
  }

  /** The format: the live regions in their order are the regions copied, and nothing else is. */
  lemma OnlyForm(rose: Rose, st: Stream, fs: seq<Field>)
    ensures InPlace(fs) && ExactlyLive(rose, st, fs) <==> fs == Fields(rose, st)
  {
    FieldsInPlace(rose, st);
    FieldsAreLive(rose, st);
    hide Fields, Live, InPlace;
    if InPlace(fs) && ExactlyLive(rose, st, fs) {
      SortedIsUnique(fs, Fields(rose, st));
    }
  }

  // ----- the size -----

  /** The bytes of a live region in the compressed form; of the history, as many as the low half of the
      offset says. */
  function RegionSize(c: Codec, rose: Rose, st: Stream, f: Field): nat {
    if f.Offset? then 8
    else if f.History? then
      if st.offset % 0x1_0000_0000 < rose.historyRequired then st.offset % 0x1_0000_0000 else rose.historyRequired
    else if f.Bits() then |c.enc(rose.totals(f), BitsOf(st, f))|
    else rose.sizes(f)
  }

  function TotalSize(c: Codec, rose: Rose, st: Stream, fs: seq<Field>): nat {
    if fs == [] then 0 else TotalSize(c, rose, st, fs[..|fs| - 1]) + RegionSize(c, rose, st, fs[|fs| - 1])
  }

  lemma {:induction false} TotalWithout(c: Codec, rose: Rose, st: Stream, fs: seq<Field>, i: nat)
    requires i < |fs|
    ensures TotalSize(c, rose, st, fs) == TotalSize(c, rose, st, fs[..i] + fs[i + 1..]) + RegionSize(c, rose, st, fs[i])
  {
    var n := |fs| - 1;
    if i < n {
      var rest := fs[..i] + fs[i + 1..];
      assert rest[..|rest| - 1] == fs[..n][..i] + fs[..n][i + 1..] && rest[|rest| - 1] == fs[n];
      hide RegionSize;
      TotalWithout(c, rose, st, fs[..n], i);
    } else {
      assert fs[..i] + fs[i + 1..] == fs[..n];
    }
  }

  /** The order of the regions does not matter to their size. */
  lemma {:induction false} TotalOfSame(c: Codec, rose: Rose, st: Stream, fs: seq<Field>, gs: seq<Field>)
    requires multiset(fs) == multiset(gs)
    ensures TotalSize(c, rose, st, fs) == TotalSize(c, rose, st, gs)
  {
    assert |multiset(fs)| == |fs| && |multiset(gs)| == |gs|;
    if fs != [] {
      var n := |fs| - 1;
      assert fs[n] in multiset(fs);
      var i :| 0 <= i < |gs| && gs[i] == fs[n];
      hide RegionSize;
      RemoveSame(fs, gs, i);
      TotalOfSame(c, rose, st, fs[..n], gs[..i] + gs[i + 1..]);
      TotalWithout(c, rose, st, gs, i);
    }
  }

  lemma RemoveSame(fs: seq<Field>, gs: seq<Field>, i: nat)
    requires multiset(fs) == multiset(gs) && fs != [] && i < |gs| && gs[i] == fs[|fs| - 1]
    ensures multiset(fs[..|fs| - 1]) == multiset(gs[..i] + gs[i + 1..])
  {
    var n := |fs| - 1;
    assert fs == fs[..n] + [fs[n]] && gs == gs[..i] + ([gs[i]] + gs[i + 1..]);
    assert multiset(fs) == multiset(fs[..n]) + multiset{fs[n]};
    assert multiset(gs) == multiset(gs[..i]) + (multiset{gs[i]} + multiset(gs[i + 1..]));
    assert multiset(gs[..i] + gs[i + 1..]) == multiset(gs[..i]) + multiset(gs[i + 1..]);
    CancelOne(multiset(fs[..n]), multiset(gs[..i]), multiset(gs[i + 1..]), fs[n]);
  }

  lemma CancelOne<T>(a: multiset<T>, b: multiset<T>, d: multiset<T>, x: T)
    requires a + multiset{x} == b + (multiset{x} + d)
    ensures a == b + d
  {
    assert a == (a + multiset{x}) - multiset{x};
    assert b + d == b + (multiset{x} + d) - multiset{x};
  }

  ghost predicate NoneTwice(fs: seq<Field>) {
    forall i, j | 0 <= i < j < |fs| :: fs[i] != fs[j]
  }

  lemma {:induction false} OnceEach(fs: seq<Field>, f: Field)
    requires NoneTwice(fs)
    ensures multiset(fs)[f] == if f in fs then 1 else 0
  {
    if fs != [] {
      var n := |fs| - 1;
      assert fs == fs[..n] + [fs[n]];
      OnceEach(fs[..n], f);
    }
  }

  /** The compressed form has the size of exactly the live regions, each counted once. */
  lemma SizeIsTotal(c: Codec, rose: Rose, st: Stream, fs: seq<Field>)
    requires CodecOk(c) && Shaped(rose, st) && ExactlyLive(rose, st, fs) && NoneTwice(fs)
    ensures |Serialized(c, rose, st)| == TotalSize(c, rose, st, fs)
  {
    var all := Fields(rose, st);
    FieldsOnce(rose, st);
    FieldsAreLive(rose, st);
    assert Serialized(c, rose, st) == Encode(c, rose, st, all);
    hide CodecOk, Shaped, Fields, Live, RegionSize, Piece, NoneTwice, Serialized, Encode, TotalSize;
    forall f: Field | f in all ensures |Piece(c, rose, st, f)| == RegionSize(c, rose, st, f) {
      PieceSize(c, rose, st, f);
    }
    EncodeTotal(c, rose, st, all);
    SameOnce(fs, all);
    TotalOfSame(c, rose, st, fs, all);
  }

  lemma FieldsOnce(rose: Rose, st: Stream)
    ensures NoneTwice(Fields(rose, st))
  {
    FieldsInPlace(rose, st);
    hide Fields;
  }

  lemma SameOnce(fs: seq<Field>, gs: seq<Field>)
    requires NoneTwice(fs) && NoneTwice(gs) && forall f: Field :: f in fs <==> f in gs
    ensures multiset(fs) == multiset(gs)
  {
    hide NoneTwice;
    forall f: Field ensures multiset(fs)[f] == multiset(gs)[f] {
      OnceEach(fs, f);
      OnceEach(gs, f);
    }
  }

  lemma PieceSize(c: Codec, rose: Rose, st: Stream, f: Field)
    requires CodecOk(c) && Shaped(rose, st) && Live(rose, st, f)
    ensures |Piece(c, rose, st, f)| == RegionSize(c, rose, st, f)
  {
    hide CodecOk;
  }

  lemma {:induction false} EncodeTotal(c: Codec, rose: Rose, st: Stream, fs: seq<Field>)
    requires forall f | f in fs :: |Piece(c, rose, st, f)| == RegionSize(c, rose, st, f)
    ensures |Encode(c, rose, st, fs)| == TotalSize(c, rose, st, fs)
  {
    hide Piece, RegionSize;
    if fs != [] {
      EncodeTotal(c, rose, st, fs[..|fs| - 1]);
    }
  }
}
