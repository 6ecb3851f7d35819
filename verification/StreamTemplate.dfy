/** The template that measures, compresses and expands a stream, as a function, and what it comes to.

    Each step copies one region; which regions come next is read from the stream as it is by then. */
module StreamTemplate {
  import opened StreamLayout

  /** The three instantiations.  Expanding reads the memory at the buffer, of which `limit` bytes were
      given. */
  datatype Mode = Size | CompressTo | ExpandFrom(mem: nat -> Byte, limit: nat)

  datatype State = State(currOffset: nat, buf: seq<Byte>, stream: Stream)

  function Read(mem: nat -> Byte, pos: nat, n: nat): (b: seq<Byte>)
    ensures |b| == n
  {
    seq(n, (i: nat) => mem(pos + i))
  }

  /** The number of bytes of a plain region, given the offset of the stream. */
  function PlainSize(rose: Rose, offset: nat, f: Field): nat {
    if f.Offset? then 8 else if f.History? then HistoryCopied(rose, offset) else rose.sizes(f)
  }

  /** The stream with the bytes of a plain region stored. */
  function Put(w: Stream, f: Field, bytes: seq<Byte>): Stream {
    if f.Offset? then w.(offset := Value(bytes))
    else if f.History? then
      w.(history := (if |bytes| <= |w.history| then w.history[..|w.history| - |bytes|] else []) + bytes)
    else w.(plain := w.plain[f := bytes])
  }

  /** Copying one region; expansion may refuse. */
  function Step(c: Codec, rose: Rose, mode: Mode, s: State, f: Field): Option<State> {
    match mode
    case Size =>
      var sz := if f.Bits() then c.size(rose.totals(f), BitsOf(s.stream, f)) else PlainSize(rose, s.stream.offset, f);
      Some(s.(currOffset := s.currOffset + sz))
    case CompressTo =>
      var piece := Piece(c, rose, s.stream, f);
      Some(s.(currOffset := s.currOffset + |piece|, buf := s.buf + piece))
    case ExpandFrom(mem, limit) =>
      if f.Bits() then
        var r := c.dec(rose.totals(f), mem, s.currOffset, limit);
        if r.None? then None
        else Some(State(s.currOffset + r.value.1, s.buf, s.stream.(bits := s.stream.bits[f := r.value.0])))
      else
        var sz := PlainSize(rose, s.stream.offset, f);
        if s.currOffset + sz > limit then None
        else Some(State(s.currOffset + sz, s.buf, Put(s.stream, f, Read(mem, s.currOffset, sz))))
  }

  function Steps(c: Codec, rose: Rose, mode: Mode, o: Option<State>, fs: seq<Field>): Option<State> {
    if fs == [] then o
    else
      var before := Steps(c, rose, mode, o, fs[..|fs| - 1]);
      if before.None? then None else Step(c, rose, mode, before.value, fs[|fs| - 1])
  }

  function AnchorIf(rose: Rose, o: Option<State>): seq<Field> {
    if o.Some? && o.value.stream.offset <= rose.anchoredDistance then [Anchor] else []
  }

  /** The template up to the history, up to the trailing multibits, up to the engines, and all of it. */
  function ToHistory(c: Codec, rose: Rose, mode: Mode, s: State): Option<State> {
    var roles := Steps(c, rose, mode, Some(s), [Offset, Status, Roles]);
    var literals := Steps(c, rose, mode, roles, [ActiveLeaf, ActiveLeft, LongLit]);
    var anchor := Steps(c, rose, mode, literals, AnchorIf(rose, literals));
    Steps(c, rose, mode, anchor, [Groups, History])
  }

  function ToCombination(c: Codec, rose: Rose, mode: Mode, s: State): Option<State> {
    Steps(c, rose, mode, ToHistory(c, rose, mode, s), [Exhausted, Logical, Combination])
  }

  function ToEngines(c: Codec, rose: Rose, mode: Mode, s: State): Option<State> {
    var o := ToCombination(c, rose, mode, s);
    var p := if o.None? then None else Steps(c, rose, mode, o, LeafsOf(rose, o.value.stream));
    if p.None? then None else Steps(c, rose, mode, p, LeftsOf(rose, p.value.stream))
  }

  function Template(c: Codec, rose: Rose, mode: Mode, s: State): Option<State> {
    var o := Steps(c, rose, mode, ToEngines(c, rose, mode, s), SomOf(rose));
    if o.None? then None else Steps(c, rose, mode, o, SlotsOf(rose, o.value.stream))
  }

  lemma StepsNext(c: Codec, rose: Rose, mode: Mode, o: Option<State>, fs: seq<Field>, f: Field)
    ensures var before := Steps(c, rose, mode, o, fs);
            Steps(c, rose, mode, o, fs + [f]) == if before.None? then None else Step(c, rose, mode, before.value, f)
  {
    assert (fs + [f])[..|fs|] == fs;
  }

  lemma {:induction false} StepsOfNone(c: Codec, rose: Rose, mode: Mode, fs: seq<Field>)
    ensures Steps(c, rose, mode, None, fs) == None
  {
    if fs != [] {
      StepsOfNone(c, rose, mode, fs[..|fs| - 1]);
    }
  }

  lemma {:induction false} StepsSplit(c: Codec, rose: Rose, mode: Mode, o: Option<State>, fs: seq<Field>,
      gs: seq<Field>)
    ensures Steps(c, rose, mode, o, fs + gs) == Steps(c, rose, mode, Steps(c, rose, mode, o, fs), gs)
  {
    if gs == [] {
      assert fs + gs == fs;
    } else {
      var n := |gs| - 1;
      StepsSplit(c, rose, mode, o, fs, gs[..n]);
      assert fs + gs == fs + gs[..n] + [gs[n]];
      StepsNext(c, rose, mode, o, fs + gs[..n], gs[n]);
    }
  }

  // ----- measuring and compressing -----

  lemma PlainPiece(c: Codec, rose: Rose, st: Stream, f: Field)
    requires Shaped(rose, st) && Region(rose, f)
    ensures !f.Bits() ==> |Piece(c, rose, st, f)| == PlainSize(rose, st.offset, f)
    ensures f.Bits() ==> f in st.bits && BitsOf(st, f) == st.bits[f] && Within(st.bits[f], rose.totals(f))
  {
  }

  /** The state when the regions `fs` of `st` are measured or compressed. */
  function Copied(c: Codec, rose: Rose, mode: Mode, st: Stream, fs: seq<Field>): State {
    State(|Encode(c, rose, st, fs)|, if mode.CompressTo? then Encode(c, rose, st, fs) else [], st)
  }

  lemma StepCopies(c: Codec, rose: Rose, mode: Mode, st: Stream, done: seq<Field>, f: Field)
    requires CodecOk(c) && Shaped(rose, st) && !mode.ExpandFrom? && Region(rose, f)
    ensures Step(c, rose, mode, Copied(c, rose, mode, st, done), f) == Some(Copied(c, rose, mode, st, done + [f]))
  {
    hide CodecOk, Shaped, Region, Encode, PlainSize;
    EncodeAppend(c, rose, st, done, f);
    PlainPiece(c, rose, st, f);
    if f.Bits() {
      SizeIs(c, rose.totals(f), st.bits[f]);
    }
  }

  lemma SizeIs(c: Codec, total: nat, s: set<nat>)
    requires CodecOk(c) && Within(s, total)
    ensures c.size(total, s) == |c.enc(total, s)|
  {
    assert EncodesAs(c, total, s);
  }

  lemma {:induction false} StepsCopy(c: Codec, rose: Rose, mode: Mode, st: Stream, done: seq<Field>, fs: seq<Field>)
    requires CodecOk(c) && Shaped(rose, st) && !mode.ExpandFrom?
    requires forall f | f in fs :: Region(rose, f)
    ensures Steps(c, rose, mode, Some(Copied(c, rose, mode, st, done)), fs)
        == Some(Copied(c, rose, mode, st, done + fs))
  {
    hide Step, Copied, CodecOk, Shaped, Region;
    if fs == [] {
      assert done + fs == done;
    } else {
      var n := |fs| - 1;
      var front, f := fs[..n], fs[n];
      assert f in fs && done + fs == done + front + [f];
      StepsCopy(c, rose, mode, st, done, front);
      StepCopies(c, rose, mode, st, done + front, f);
    }
  }

  lemma PartsRegions(rose: Rose, st: Stream)
    ensures forall f | f in Fields(rose, st) :: Region(rose, f)
  {
    forall f | f in Fields(rose, st) ensures Region(rose, f) {
      CopiedRegion(rose, st, f);
    }
  }

  lemma HeadCopies(c: Codec, rose: Rose, mode: Mode, st: Stream)
    requires CodecOk(c) && Shaped(rose, st) && !mode.ExpandFrom?
    ensures ToCombination(c, rose, mode, State(0, [], st))
        == Some(Copied(c, rose, mode, st, UpToCombination(rose, st.offset)))
  {
    var first, second := [Offset, Status, Roles], [ActiveLeaf, ActiveLeft, LongLit];
    var anchor := if st.offset <= rose.anchoredDistance then [Anchor] else [];
    var last, trailing := [Groups, History], [Exhausted, Logical, Combination];
    assert Copied(c, rose, mode, st, []) == State(0, [], st);
    assert [] + first == first;
    assert forall f | f in first || f in second || f in anchor || f in last || f in trailing :: Region(rose, f);
    assert Copied(c, rose, mode, st, first + second).stream == st;
    hide Copied, CodecOk, Shaped, Region, Steps;
    StepsCopy(c, rose, mode, st, [], first);
    StepsCopy(c, rose, mode, st, first, second);
    StepsCopy(c, rose, mode, st, first + second, anchor);
    StepsCopy(c, rose, mode, st, first + second + anchor, last);
    StepsCopy(c, rose, mode, st, first + second + anchor + last, trailing);
  }

  /** Measuring and compressing: exactly the compressed form. */
  lemma TemplateCopies(c: Codec, rose: Rose, mode: Mode, st: Stream)
    requires CodecOk(c) && Shaped(rose, st) && !mode.ExpandFrom?
    ensures Template(c, rose, mode, State(0, [], st)) == Some(Copied(c, rose, mode, st, Fields(rose, st)))
  {
    HeadCopies(c, rose, mode, st);
    PartsRegions(rose, st);
    var head, leafs, lefts := UpToCombination(rose, st.offset), LeafsOf(rose, st), LeftsOf(rose, st);
    var som, slots := SomOf(rose), SlotsOf(rose, st);
    assert forall f | f in leafs || f in lefts || f in som || f in slots :: f in Fields(rose, st);
    assert forall fs :: Copied(c, rose, mode, st, fs).stream == st;
    hide Copied, CodecOk, Shaped, Region, Steps, LeafsOf, LeftsOf, SomOf, SlotsOf, ToCombination, UpToCombination;
    StepsCopy(c, rose, mode, st, head, leafs);
    StepsCopy(c, rose, mode, st, head + leafs, lefts);
    StepsCopy(c, rose, mode, st, head + leafs + lefts, som);
    StepsCopy(c, rose, mode, st, head + leafs + lefts + som, slots);
  }
}
