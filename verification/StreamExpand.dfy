/** What expanding comes to, for a buffer of which only the first bytes were given. */
module StreamExpand {
  import opened StreamLayout
  import opened StreamTemplate

  /** What `st` was compressed to is expanded over `base`; of the memory at the buffer `limit` bytes were
      given. */
  datatype Job = Job(codec: Codec, rose: Rose, base: Stream, st: Stream, mem: nat -> Byte, limit: nat)

  function Enc(j: Job, done: seq<Field>): seq<Byte> {
    Encode(j.codec, j.rose, j.st, done)
  }

  ghost predicate JobOk(j: Job) {
    && CodecOk(j.codec) && Shaped(j.rose, j.st) && Room(j.rose, j.base)
    && AgreesBelow(j.mem, 0, Serialized(j.codec, j.rose, j.st), j.limit)
  }

  /** The memory behind the buffer still holds the rest. */
  ghost predicate Faithful(j: Job) {
    Agrees(j.mem, 0, Serialized(j.codec, j.rose, j.st))
  }

  ghost predicate FitsUpTo(j: Job, done: seq<Field>) {
    Fits(j.codec, j.rose, j.st, done, j.limit)
  }

  /** The regions `done` have been copied. */
  ghost predicate Tracked(j: Job, done: seq<Field>, s: State) {
    && s.currOffset == |Enc(j, done)| && s.stream == Overlay(j.rose, j.base, j.st, done)
    && (Faithful(j) ==> FitsUpTo(j, done))
  }

  /** Something else than a region of `done` was read from behind the end of the buffer. */
  ghost predicate Lost(j: Job, done: seq<Field>, s: State) {
    s.currOffset > j.limit && j.limit < |Enc(j, done)| && !Faithful(j)
  }

  ghost predicate Refused(j: Job, done: seq<Field>) {
    j.limit < |Enc(j, done)| && (Faithful(j) ==> !FitsUpTo(j, done))
  }

  /** The outcome of copying the regions `done`: refused for good reason, copied, or lost. */
  ghost predicate Follows(j: Job, done: seq<Field>, r: Option<State>) {
    && InOrder(j.rose, j.st, done)
    && if r.None? then Refused(j, done) else Tracked(j, done, r.value) || Lost(j, done, r.value)
  }

  function Expanding(j: Job): Mode {
    ExpandFrom(j.mem, j.limit)
  }

  lemma OffsetIsFirst(rose: Rose, st: Stream, done: seq<Field>, f: Field)
    requires InOrder(rose, st, done + [f])
    ensures f.Offset? || Offset in done
    ensures f in Fields(rose, st)
  {
    assert Fields(rose, st)[0] == Offset;
    assert Fields(rose, st)[|done|] == (done + [f])[|done|] == f;
    if |done| > 0 {
      assert (done + [f])[0] == done[0];
    }
  }

  lemma AgreesWithin(mem: nat -> Byte, whole: seq<Byte>, front: seq<Byte>, piece: seq<Byte>, limit: nat)
    requires front + piece <= whole
    ensures AgreesBelow(mem, 0, whole, limit) ==> AgreesBelow(mem, |front|, piece, limit)
    ensures Agrees(mem, 0, whole) ==> Agrees(mem, |front|, piece)
  {
    forall i | 0 <= i < |piece|
      ensures AgreesBelow(mem, 0, whole, limit) && |front| + i < limit ==> mem(|front| + i) == piece[i]
      ensures Agrees(mem, 0, whole) ==> mem(|front| + i) == piece[i]
    {
      assert whole[|front| + i] == (front + piece)[|front| + i] == piece[i];
      if Agrees(mem, 0, whole) {
        assert mem(0 + (|front| + i)) == whole[|front| + i];
      }
      if AgreesBelow(mem, 0, whole, limit) && |front| + i < limit {
        assert mem(0 + (|front| + i)) == whole[|front| + i];
      }
    }
  }

  /** What the buffer holds where the next region is copied from, and where that region ends. */
  lemma BufferHolds(j: Job, done: seq<Field>, f: Field)
    requires JobOk(j) && InOrder(j.rose, j.st, done + [f])
    ensures var pos, piece := |Enc(j, done)|, Piece(j.codec, j.rose, j.st, f);
            && |Enc(j, done + [f])| == pos + |piece|
            && AgreesBelow(j.mem, pos, piece, j.limit) && (Faithful(j) ==> Agrees(j.mem, pos, piece))
  {
    hide Encode, Piece, Fields, Shaped, Room, Agrees, AgreesBelow, CodecOk;
    EncodeWithin(j.codec, j.rose, j.st, done + [f], Fields(j.rose, j.st));
    EncodeAppend(j.codec, j.rose, j.st, done, f);
    AgreesWithin(j.mem, Serialized(j.codec, j.rose, j.st), Enc(j, done), Piece(j.codec, j.rose, j.st, f), j.limit);
  }

  // ----- one plain region -----

  /** The size of a plain region is known once the offset is. */
  lemma PlainSizeKnown(j: Job, done: seq<Field>, f: Field)
    requires JobOk(j) && Region(j.rose, f) && !f.Bits() && (f.Offset? || Offset in done)
    ensures |Piece(j.codec, j.rose, j.st, f)| == PlainSize(j.rose, Overlay(j.rose, j.base, j.st, done).offset, f)
  {
    PlainPiece(j.codec, j.rose, j.st, f);
  }

  /** Storing the bytes of a plain region extends the overlay by it. */
  lemma PutPlain(j: Job, done: seq<Field>, f: Field)
    requires JobOk(j) && Region(j.rose, f) && !f.Bits() && (f.Offset? || Offset in done)
    ensures Overlay(j.rose, j.base, j.st, done + [f])
         == Put(Overlay(j.rose, j.base, j.st, done), f, Piece(j.codec, j.rose, j.st, f))
  {
    if f.Offset? {
      OffsetBytes(j.st.offset);
      OverlayOffset(j.rose, j.base, j.st, done);
    } else if f.History? {
      OverlayHistory(j.rose, j.base, j.st, done);
    } else {
      OverlayPlain(j.rose, j.base, j.st, done, f);
    }
  }

  lemma ReadAgrees(mem: nat -> Byte, pos: nat, b: seq<Byte>, limit: nat)
    requires AgreesBelow(mem, pos, b, limit) && pos + |b| <= limit
    ensures Read(mem, pos, |b|) == b
  {
  }

  /** Fitting, one region on. */
  lemma FitsNext(j: Job, done: seq<Field>, f: Field)
    ensures FitsUpTo(j, done + [f])
       <==> FitsUpTo(j, done) && (Checked(j.rose, j.st, f) ==> |Enc(j, done + [f])| <= j.limit)
  {
    FitsAppend(j.codec, j.rose, j.st, done, f, j.limit);
  }

  /** The bytes that are read, and what storing them comes to. */
  lemma PlainCopied(j: Job, done: seq<Field>, s: State, f: Field)
    requires JobOk(j) && Tracked(j, done, s) && InOrder(j.rose, j.st, done + [f]) && !f.Bits()
    ensures var sz := PlainSize(j.rose, s.stream.offset, f);
            && |Enc(j, done + [f])| == s.currOffset + sz
            && (s.currOffset + sz <= j.limit ==>
                  Put(s.stream, f, Read(j.mem, s.currOffset, sz)) == Overlay(j.rose, j.base, j.st, done + [f]))
  {
    OffsetIsFirst(j.rose, j.st, done, f);
    CopiedRegion(j.rose, j.st, f);
    PlainSizeKnown(j, done, f);
    BufferHolds(j, done, f);
    PutPlain(j, done, f);
    hide Piece, Enc, Overlay, JobOk, FitsUpTo, InOrder, Faithful, PlainSize, Put, AgreesBelow, Read;
    var piece := Piece(j.codec, j.rose, j.st, f);
    if s.currOffset + |piece| <= j.limit {
      ReadAgrees(j.mem, s.currOffset, piece, j.limit);
    }
  }

  lemma PlainStep(j: Job, done: seq<Field>, s: State, f: Field)
    requires JobOk(j) && Tracked(j, done, s) && InOrder(j.rose, j.st, done + [f]) && !f.Bits()
    ensures var r := Step(j.codec, j.rose, Expanding(j), s, f);
            if |Enc(j, done + [f])| <= j.limit then r.Some? && Tracked(j, done + [f], r.value)
            else r.None? && Refused(j, done + [f])
  {
    hide Enc, Overlay, JobOk, FitsUpTo, InOrder, Faithful, PlainSize, Put, Read;
    PlainCopied(j, done, s, f);
    FitsNext(j, done, f);
  }

  // ----- one multibit -----

  lemma BitsFacts(j: Job, done: seq<Field>, f: Field)
    requires JobOk(j) && InOrder(j.rose, j.st, done + [f]) && f.Bits()
    ensures f in j.st.bits && f in j.base.bits && f !in j.base.plain && BitsOf(j.st, f) == j.st.bits[f]
    ensures Within(BitsOf(j.st, f), j.rose.totals(f))
    ensures Piece(j.codec, j.rose, j.st, f) == j.codec.enc(j.rose.totals(f), BitsOf(j.st, f))
    ensures DecodesAt(j.codec, j.rose.totals(f), BitsOf(j.st, f), j.mem, |Enc(j, done)|, j.limit)
    ensures DecodesCut(j.codec, j.rose.totals(f), BitsOf(j.st, f), j.mem, |Enc(j, done)|, j.limit)
  {
    OffsetIsFirst(j.rose, j.st, done, f);
    CopiedRegion(j.rose, j.st, f);
    hide Enc, DecodesAt, DecodesCut;
  }

  lemma AgreesInside(mem: nat -> Byte, pos: nat, b: seq<Byte>, limit: nat)
    requires AgreesBelow(mem, pos, b, limit) && pos + |b| <= limit
    ensures Agrees(mem, pos, b)
  {
  }

  /** The multibit that was there is decoded. */
  lemma BitsTracked(j: Job, done: seq<Field>, s: State, f: Field)
    requires JobOk(j) && Tracked(j, done, s) && InOrder(j.rose, j.st, done + [f]) && f.Bits()
    requires Faithful(j) ==> FitsUpTo(j, done + [f])
    ensures var next := State(s.currOffset + |Piece(j.codec, j.rose, j.st, f)|, s.buf,
                              s.stream.(bits := s.stream.bits[f := BitsOf(j.st, f)]));
            Tracked(j, done + [f], next)
  {
    BitsFacts(j, done, f);
    BufferHolds(j, done, f);
    OverlayBits(j.rose, j.base, j.st, done, f);
    hide Piece, Enc, Overlay, JobOk, FitsUpTo, InOrder, Faithful;
  }

  /** Where the region ends, and what decoding it comes to. */
  lemma BitsDecoded(j: Job, done: seq<Field>, f: Field)
    requires JobOk(j) && InOrder(j.rose, j.st, done + [f]) && f.Bits()
    ensures var end := |Enc(j, done + [f])|;
            var r := j.codec.dec(j.rose.totals(f), j.mem, |Enc(j, done)|, j.limit);
            var exact := Some((BitsOf(j.st, f), |Piece(j.codec, j.rose, j.st, f)| as nat));
            && end == |Enc(j, done)| + |Piece(j.codec, j.rose, j.st, f)|
            && (end <= j.limit ==> r == exact)
            && (end > j.limit && Faithful(j) ==> r == if Checked(j.rose, j.st, f) then None else exact)
            && (end > j.limit && r.Some? ==> |Enc(j, done)| + r.value.1 > j.limit)
  {
    BitsFacts(j, done, f);
    BufferHolds(j, done, f);
    hide Piece, Enc, JobOk, InOrder, Faithful, AgreesBelow, Agrees, DecodesCut, Within;
    var piece, pos := Piece(j.codec, j.rose, j.st, f), |Enc(j, done)|;
    if pos + |piece| <= j.limit {
      AgreesInside(j.mem, pos, piece, j.limit);
    }
  }

  /** Where the multibit was not decoded exactly, or may not be trusted to be complete. */
  lemma BitsMissed(j: Job, done: seq<Field>, f: Field)
    requires JobOk(j) && InOrder(j.rose, j.st, done + [f]) && f.Bits() && (Faithful(j) ==> FitsUpTo(j, done))
    ensures var r := j.codec.dec(j.rose.totals(f), j.mem, |Enc(j, done)|, j.limit);
            var exact := Some((BitsOf(j.st, f), |Piece(j.codec, j.rose, j.st, f)| as nat));
            && (r.None? ==> Refused(j, done + [f]))
            && (r == exact && Faithful(j) ==> FitsUpTo(j, done + [f]))
            && (r.Some? && r != exact ==>
                  |Enc(j, done)| + r.value.1 > j.limit && j.limit < |Enc(j, done + [f])| && !Faithful(j))
  {
    hide Piece, Enc, JobOk, FitsUpTo, InOrder, Faithful, Checked, BitsOf;
    BitsDecoded(j, done, f);
    FitsNext(j, done, f);
  }

  lemma BitsStep(j: Job, done: seq<Field>, s: State, f: Field)
    requires JobOk(j) && Tracked(j, done, s) && InOrder(j.rose, j.st, done + [f]) && f.Bits()
    ensures var r := Step(j.codec, j.rose, Expanding(j), s, f);
            if r.None? then Refused(j, done + [f]) else Tracked(j, done + [f], r.value) || Lost(j, done + [f], r.value)
  {
    assert s.currOffset == |Enc(j, done)|;
    var r := j.codec.dec(j.rose.totals(f), j.mem, s.currOffset, j.limit);
    hide Piece, Enc, Overlay, JobOk, FitsUpTo, InOrder, Faithful, Tracked, BitsOf, PlainSize, Put, Refused;
    BitsMissed(j, done, f);
    if r == Some((BitsOf(j.st, f), |Piece(j.codec, j.rose, j.st, f)| as nat)) {
      BitsTracked(j, done, s, f);
    }
  }

  // ----- several regions -----

  /** A lost expansion stays lost, and ends at the next plain region. */
  lemma LostStep(j: Job, done: seq<Field>, s: State, f: Field)
    requires Lost(j, done, s)
    ensures var r := Step(j.codec, j.rose, Expanding(j), s, f);
            if r.None? then Refused(j, done + [f]) else f.Bits() && Lost(j, done + [f], r.value)
  {
    EncodeAppend(j.codec, j.rose, j.st, done, f);
    hide Faithful, FitsUpTo, PlainSize, Encode;
  }

  lemma StepFollows(j: Job, done: seq<Field>, s: State, f: Field)
    requires JobOk(j) && Follows(j, done, Some(s)) && InOrder(j.rose, j.st, done + [f])
    ensures var r := Step(j.codec, j.rose, Expanding(j), s, f);
            && Follows(j, done + [f], r)
            && (r.Some? && !f.Bits() ==> Tracked(j, done + [f], r.value) && |Enc(j, done + [f])| <= j.limit)
  {
    hide Step, JobOk, InOrder, Tracked, Lost, Refused;
    if !Tracked(j, done, s) {
      LostStep(j, done, s, f);
    } else if f.Bits() {
      BitsStep(j, done, s, f);
    } else {
      PlainStep(j, done, s, f);
    }
  }

  lemma RefusedOn(j: Job, done: seq<Field>, f: Field)
    requires Refused(j, done)
    ensures Refused(j, done + [f])
  {
    EncodeAppend(j.codec, j.rose, j.st, done, f);
    FitsNext(j, done, f);
  }

  lemma InOrderFront(j: Job, done: seq<Field>, fs: seq<Field>)
    requires InOrder(j.rose, j.st, done + fs)
    ensures InOrder(j.rose, j.st, done)
  {
    assert done <= done + fs;
  }

  lemma {:induction false} StepsFollow(j: Job, done: seq<Field>, o: Option<State>, fs: seq<Field>)
    requires JobOk(j) && Follows(j, done, o) && InOrder(j.rose, j.st, done + fs)
    ensures var r := Steps(j.codec, j.rose, Expanding(j), o, fs);
            && Follows(j, done + fs, r)
            && (r.Some? && fs != [] && !fs[|fs| - 1].Bits() ==>
                  Tracked(j, done + fs, r.value) && |Enc(j, done + fs)| <= j.limit)
  {
    hide JobOk, Step, Refused, Tracked, Lost, Enc, InOrder;
    if fs == [] {
      assert done + fs == done;
    } else {
      var n := |fs| - 1;
      var front, f := fs[..n], fs[n];
      assert done + fs == done + front + [f];
      InOrderFront(j, done + front, [f]);
      StepsFollow(j, done, o, front);
      var r := Steps(j.codec, j.rose, Expanding(j), o, front);
      if r.None? {
        RefusedOn(j, done + front, f);
      } else {
        StepFollows(j, done + front, r.value, f);
      }
    }
  }

  /** Nothing plain is copied any more once the position is behind the limit. */
  lemma {:induction false} PlainStops(j: Job, s: State, fs: seq<Field>)
    requires s.currOffset > j.limit && forall f | f in fs :: !f.Bits()
    ensures Steps(j.codec, j.rose, Expanding(j), Some(s), fs) == if fs == [] then Some(s) else None
  {
    if fs != [] {
      PlainStops(j, s, fs[..|fs| - 1]);
    }
  }

  /** Copying regions leaves the other multibits alone. */
  lemma {:induction false} StepsKeepBits(j: Job, o: Option<State>, fs: seq<Field>, g: Field)
    requires o.Some? && g !in fs
    ensures var r := Steps(j.codec, j.rose, Expanding(j), o, fs);
            r.Some? ==> BitsOf(r.value.stream, g) == BitsOf(o.value.stream, g)
  {
    if fs != [] {
      assert forall f | f in fs[..|fs| - 1] :: f in fs;
      StepsKeepBits(j, o, fs[..|fs| - 1], g);
      assert fs[|fs| - 1] != g;
    }
  }

  lemma TrackedBits(j: Job, done: seq<Field>, s: State, g: Field)
    requires JobOk(j) && Tracked(j, done, s) && g in done && g.Bits() && Region(j.rose, g)
    ensures BitsOf(s.stream, g) == BitsOf(j.st, g)
  {
  }

  // ----- the template -----

  function Begin(j: Job): State {
    State(0, [], j.base)
  }

  lemma BeginTracked(j: Job)
    ensures Follows(j, [], Some(Begin(j))) && Tracked(j, [], Begin(j))
  {
    OverlayNothing(j.rose, j.base, j.st);
  }

  lemma {:induction false} RefusedOver(j: Job, done: seq<Field>, fs: seq<Field>)
    requires Refused(j, done)
    ensures Refused(j, done + fs)
  {
    if fs == [] {
      assert done + fs == done;
    } else {
      var n := |fs| - 1;
      assert done + fs == done + fs[..n] + [fs[n]];
      RefusedOver(j, done, fs[..n]);
      RefusedOn(j, done + fs[..n], fs[n]);
    }
  }

  lemma LostOver(j: Job, done: seq<Field>, s: State, fs: seq<Field>)
    requires Lost(j, done, s)
    ensures Lost(j, done + fs, s)
  {
    EncodePrefix(j.codec, j.rose, j.st, done, fs);
  }

  /** The activity of the engines is that of the original. */
  ghost predicate ActiveKept(j: Job, w: Stream) {
    BitsOf(w, ActiveLeaf) == BitsOf(j.st, ActiveLeaf) && BitsOf(w, ActiveLeft) == BitsOf(j.st, ActiveLeft)
  }

  lemma FieldsParts(rose: Rose, st: Stream)
    ensures var engines := UpToEngines(rose, st);
            && engines == UpToCombination(rose, st.offset) + LeafsOf(rose, st) + LeftsOf(rose, st)
            && Fields(rose, st) == engines + SomOf(rose) + SlotsOf(rose, st)
            && InOrder(rose, st, engines) && InOrder(rose, st, engines + SomOf(rose))
            && InOrder(rose, st, UpToCombination(rose, st.offset))
            && InOrder(rose, st, UpToCombination(rose, st.offset) + LeafsOf(rose, st))
            && InOrder(rose, st, UpToHistory(rose, st.offset))
  {
    hide LeafsOf, LeftsOf, SomOf, SlotsOf, UpToHistory;
  }

  /** The anchored table, if the stream needs it. */
  function AnchorOf(rose: Rose, offset: nat): seq<Field> {
    if offset <= rose.anchoredDistance then [Anchor] else []
  }

  lemma FrontParts(rose: Rose, st: Stream)
    ensures var a, b, d := [Offset, Status, Roles], [ActiveLeaf, ActiveLeft, LongLit], AnchorOf(rose, st.offset);
            && UpToHistory(rose, st.offset) == a + b + d + [Groups, History]
            && InOrder(rose, st, a) && InOrder(rose, st, a + b) && InOrder(rose, st, a + b + d)
            && InOrder(rose, st, a + b + d + [Groups, History])
  {
    FieldsParts(rose, st);
    hide Fields;
    var a, b, d := [Offset, Status, Roles], [ActiveLeaf, ActiveLeft, LongLit], AnchorOf(rose, st.offset);
    assert UpToHistory(rose, st.offset) == a + b + d + [Groups, History];
  }

  lemma LiteralsOutcome(j: Job)
    requires JobOk(j)
    ensures var done := [Offset, Status, Roles] + [ActiveLeaf, ActiveLeft, LongLit];
            var roles := Steps(j.codec, j.rose, Expanding(j), Some(Begin(j)), [Offset, Status, Roles]);
            var r := Steps(j.codec, j.rose, Expanding(j), roles, [ActiveLeaf, ActiveLeft, LongLit]);
            && Follows(j, done, r)
            && (r.Some? ==> Tracked(j, done, r.value) && AnchorIf(j.rose, r) == AnchorOf(j.rose, j.st.offset))
  {
    var a, b := [Offset, Status, Roles], [ActiveLeaf, ActiveLeft, LongLit];
    FrontParts(j.rose, j.st);
    BeginTracked(j);
    assert [] + a == a && Offset in a + b;
    hide JobOk, Step, Steps, Follows, InOrder;
    StepsFollow(j, [], Some(Begin(j)), a);
    StepsFollow(j, a, Steps(j.codec, j.rose, Expanding(j), Some(Begin(j)), a), b);
  }

  /** The history is reached only if the buffer reaches to its end. */
  lemma HistoryOutcome(j: Job)
    requires JobOk(j)
    ensures var r := ToHistory(j.codec, j.rose, Expanding(j), Begin(j));
            && Follows(j, UpToHistory(j.rose, j.st.offset), r)
            && (r.Some? ==> Tracked(j, UpToHistory(j.rose, j.st.offset), r.value)
                            && |Enc(j, UpToHistory(j.rose, j.st.offset))| <= j.limit)
  {
    var front, d, last := [Offset, Status, Roles]
        + [ActiveLeaf, ActiveLeft, LongLit], AnchorOf(j.rose, j.st.offset), [Groups, History];
    hide JobOk, Step, Steps, InOrder, Tracked, Enc, Refused, UpToHistory, Lost, AnchorOf;
    FrontParts(j.rose, j.st);
    LiteralsOutcome(j);
    var roles := Steps(j.codec, j.rose, Expanding(j), Some(Begin(j)), [Offset, Status, Roles]);
    var r := Steps(j.codec, j.rose, Expanding(j), roles, [ActiveLeaf, ActiveLeft, LongLit]);
    if r.None? {
      StepsOfNone(j.codec, j.rose, Expanding(j), AnchorIf(j.rose, r));
      StepsOfNone(j.codec, j.rose, Expanding(j), last);
      RefusedOver(j, front, d);
      RefusedOver(j, front + d, last);
    } else {
      StepsFollow(j, front, r, d);
      StepsFollow(j, front + d, Steps(j.codec, j.rose, Expanding(j), r, d), last);
    }
  }

  lemma CombinationParts(rose: Rose, st: Stream)
    ensures var h := UpToHistory(rose, st.offset);
            && ActiveLeaf in h && ActiveLeft in h && InOrder(rose, st, h + [Exhausted, Logical, Combination])
  {
    FieldsParts(rose, st);
    hide InOrder;
    var h := UpToHistory(rose, st.offset);
    assert h[3] == ActiveLeaf && h[4] == ActiveLeft;
  }

  lemma CombinationOutcome(j: Job)
    requires JobOk(j)
    ensures var r := ToCombination(j.codec, j.rose, Expanding(j), Begin(j));
            && Follows(j, UpToCombination(j.rose, j.st.offset), r)
            && (r.Some? ==> ActiveKept(j, r.value.stream) && |Enc(j, UpToHistory(j.rose, j.st.offset))| <= j.limit)
  {
    var h, trailing := UpToHistory(j.rose, j.st.offset), [Exhausted, Logical, Combination];
    var o := ToHistory(j.codec, j.rose, Expanding(j), Begin(j));
    hide JobOk, Step, Steps, InOrder, Tracked, Follows, Enc, ToHistory, UpToHistory, Refused, Lost, BitsOf;
    HistoryOutcome(j);
    CombinationParts(j.rose, j.st);
    StepsFollow(j, h, o, trailing);
    if o.Some? {
      TrackedBits(j, h, o.value, ActiveLeaf);
      TrackedBits(j, h, o.value, ActiveLeft);
      StepsKeepBits(j, o, trailing, ActiveLeaf);
      StepsKeepBits(j, o, trailing, ActiveLeft);
    } else {
      StepsOfNone(j.codec, j.rose, Expanding(j), trailing);
    }
  }

  lemma LeafsArePlain(active: set<nat>, k: nat)
    ensures forall f | f in Leafs(active, k) :: !f.Bits()
  {
    forall f | f in Leafs(active, k) ensures !f.Bits() {
      LeafsBelow(active, k, f);
    }
  }

  lemma LeftsArePlain(active: set<nat>, k: nat)
    ensures forall f | f in Lefts(active, k) :: !f.Bits()
  {
    forall f | f in Lefts(active, k) ensures !f.Bits() {
      LeftsBelow(active, k, f);
    }
  }

  lemma SlotsArePlain(valid: set<nat>, k: nat)
    ensures forall f | f in Slots(valid, k) :: !f.Bits()
  {
    forall f | f in Slots(valid, k) ensures !f.Bits() {
      SlotsBelow(valid, k, f);
    }
  }

  /** If an engine is active, the engines are passed only if the buffer reaches to the end of their states. */
  lemma EnginesOutcome(j: Job)
    requires JobOk(j)
    ensures var r := ToEngines(j.codec, j.rose, Expanding(j), Begin(j));
            && Follows(j, UpToEngines(j.rose, j.st), r)
            && (r.Some? ==> |Enc(j, Certain(j.rose, j.st))| <= j.limit)
  {
    var head, leafs, lefts := UpToCombination(j.rose, j.st.offset), LeafsOf(j.rose, j.st), LeftsOf(j.rose, j.st);
    CombinationOutcome(j);
    FieldsParts(j.rose, j.st);
    LeafsArePlain(BitsOf(j.st, ActiveLeaf), j.rose.leafCount);
    LeftsArePlain(BitsOf(j.st, ActiveLeft) * j.rose.leftIter, j.rose.leftCount);
    var o := ToCombination(j.codec, j.rose, Expanding(j), Begin(j));
    hide JobOk, Step, Steps, InOrder, Tracked, Enc, ToCombination, UpToHistory, UpToCombination, Refused, Lost,
         Leafs, Lefts;
    if o.None? {
      RefusedOver(j, head, leafs);
      RefusedOver(j, head + leafs, lefts);
    } else {
      assert LeafsOf(j.rose, o.value.stream) == leafs;
      StepsFollow(j, head, o, leafs);
      var p := Steps(j.codec, j.rose, Expanding(j), o, leafs);
      if p.None? {
        RefusedOver(j, head + leafs, lefts);
      } else {
        StepsKeepBits(j, o, leafs, ActiveLeft);
        assert LeftsOf(j.rose, p.value.stream) == lefts;
        StepsFollow(j, head + leafs, p, lefts);
        assert leafs + lefts != [] && lefts == [] ==> head + leafs + lefts == head + leafs;
      }
    }
  }

  /** Expansion, whatever lies behind the end of the buffer: it is refused for good reason, gives the
      original over `base`, or was led astray; and then the cut was neither before the end of the certain
      regions nor in the match starts. */
  lemma TemplateOutcome(j: Job)
    requires JobOk(j)
    ensures var r := Template(j.codec, j.rose, Expanding(j), Begin(j));
            && Follows(j, Fields(j.rose, j.st), r)
            && (r.Some? ==> |Enc(j, Certain(j.rose, j.st))| <= j.limit)
            && (r.Some? && j.limit < |Serialized(j.codec, j.rose, j.st)| ==>
                  j.limit < |Enc(j, UpToEngines(j.rose, j.st) + SomOf(j.rose))|)
  {
    var engines, som := UpToEngines(j.rose, j.st), SomOf(j.rose);
    var p := ToEngines(j.codec, j.rose, Expanding(j), Begin(j));
    EnginesOutcome(j);
    FieldsParts(j.rose, j.st);
    hide JobOk, Step, Steps, InOrder, Follows, Tracked, Enc, ToEngines, Refused, Lost, Certain, Serialized, UpToEngines,
      SomOf, SlotsOf, Fields;
    StepsFollow(j, engines, p, som);
    StepsOfNone(j.codec, j.rose, Expanding(j), som);
    SlotsOutcome(j, Steps(j.codec, j.rose, Expanding(j), p, som));
  }

  /** The match starts: a cut in them is always noticed. */
  lemma SlotsOutcome(j: Job, o: Option<State>)
    requires JobOk(j) && Follows(j, UpToEngines(j.rose, j.st) + SomOf(j.rose), o)
    ensures var r := if o.None? then None else Steps(j.codec, j.rose, Expanding(j), o, SlotsOf(j.rose, o.value.stream));
            && Follows(j, Fields(j.rose, j.st), r)
            && (r.Some? && j.limit < |Serialized(j.codec, j.rose, j.st)| ==>
                  j.limit < |Enc(j, UpToEngines(j.rose, j.st) + SomOf(j.rose))|)
  {
    var front, slots := UpToEngines(j.rose, j.st) + SomOf(j.rose), SlotsOf(j.rose, j.st);
    FieldsParts(j.rose, j.st);
    assert Fields(j.rose, j.st) == front + slots && InOrder(j.rose, j.st, front + slots);
    assert Serialized(j.codec, j.rose, j.st) == Enc(j, front + slots);
    if o.None? {
      RefusedOver(j, front, slots);
    } else if Tracked(j, front, o.value) {
      SlotsSame(j, o.value);
      SlotsArePlain(BitsOf(j.st, SomValid), j.rose.somCount);
      assert slots == [] ==> front + slots == front;
      hide JobOk, Step, Steps, InOrder, Tracked, Enc, Refused, Lost, Serialized, UpToEngines, SomOf, SlotsOf, Fields,
           Slots;
      StepsFollow(j, front, o, slots);
    } else {
      hide JobOk, Step, Steps, Tracked, Enc, Refused, Serialized, UpToEngines, SomOf, SlotsOf, Fields;
      LostAtSlots(j, o.value);
    }
  }

  lemma SlotsSame(j: Job, s: State)
    requires JobOk(j) && Tracked(j, UpToEngines(j.rose, j.st) + SomOf(j.rose), s)
    ensures SlotsOf(j.rose, s.stream) == SlotsOf(j.rose, j.st)
  {
    if j.rose.hasSom {
      assert SomValid in SomOf(j.rose);
      TrackedBits(j, UpToEngines(j.rose, j.st) + SomOf(j.rose), s, SomValid);
    }
  }

  lemma LostAtSlots(j: Job, s: State)
    requires Lost(j, UpToEngines(j.rose, j.st) + SomOf(j.rose), s)
    ensures var r := Steps(j.codec, j.rose, Expanding(j), Some(s), SlotsOf(j.rose, s.stream));
            if r.None? then Refused(j, Fields(j.rose, j.st)) else Lost(j, Fields(j.rose, j.st), r.value)
  {
    var front, slots := UpToEngines(j.rose, j.st) + SomOf(j.rose), SlotsOf(j.rose, j.st);
    SlotsArePlain(BitsOf(s.stream, SomValid), j.rose.somCount);
    PlainStops(j, s, SlotsOf(j.rose, s.stream));
    FieldsParts(j.rose, j.st);
    LostOver(j, front, s, slots);
  }
}
