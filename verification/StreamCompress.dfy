/** Compressing the state of a stream and expanding it again.

    One class is the template; its three modes are the instantiations.  When expanding, the sets of
    engines and match starts it walks through are those it has just copied. */
module StreamCompress {
  import opened StreamLayout
  import opened StreamTemplate
  import StreamExpand

  lemma StepsTwo(c: Codec, rose: Rose, mode: Mode, s: State, f: Field, g: Field)
    ensures var r := Step(c, rose, mode, s, f);
            && Steps(c, rose, mode, Some(s), [f]) == r
            && Steps(c, rose, mode, Some(s), [f, g]) == if r.None? then None else Step(c, rose, mode, r.value, g)
  {
    assert [f, g] == [] + [f] + [g] && [f] == [] + [f];
    StepsNext(c, rose, mode, Some(s), [], f);
    StepsNext(c, rose, mode, Some(s), [] + [f], g);
  }

  lemma StepsThree(c: Codec, rose: Rose, mode: Mode, s: State, f: Field, g: Field, h: Field)
    ensures var r := Step(c, rose, mode, s, f);
            var t := if r.None? then None else Step(c, rose, mode, r.value, g);
            Steps(c, rose, mode, Some(s), [f, g, h]) == if t.None? then None else Step(c, rose, mode, t.value, h)
  {
    StepsTwo(c, rose, mode, s, f, g);
    assert [f, g, h] == [f, g] + [h];
    StepsNext(c, rose, mode, Some(s), [f, g], h);
  }

  /** Once refused, always refused. */
  lemma NoneStays(c: Codec, rose: Rose, mode: Mode, o: Option<State>, fs: seq<Field>, all: seq<Field>)
    requires fs <= all && Steps(c, rose, mode, o, fs) == None
    ensures Steps(c, rose, mode, o, all) == None
  {
    assert all == fs + all[|fs|..];
    StepsSplit(c, rose, mode, o, fs, all[|fs|..]);
    StepsOfNone(c, rose, mode, all[|fs|..]);
  }

  lemma {:induction false} LeafsPrefix(active: set<nat>, k: nat, n: nat)
    requires k <= n
    ensures Leafs(active, k) <= Leafs(active, n)
  {
    if k < n {
      LeafsPrefix(active, k, n - 1);
    }
  }

  lemma {:induction false} LeftsPrefix(active: set<nat>, k: nat, n: nat)
    requires k <= n
    ensures Lefts(active, k) <= Lefts(active, n)
  {
    if k < n {
      LeftsPrefix(active, k, n - 1);
    }
  }

  lemma {:induction false} SlotsPrefix(valid: set<nat>, k: nat, n: nat)
    requires k <= n
    ensures Slots(valid, k) <= Slots(valid, n)
  {
    if k < n {
      SlotsPrefix(valid, k, n - 1);
    }
  }

  /** One engine state or match start on. */
  lemma LeafNext(c: Codec, rose: Rose, mode: Mode, o: Option<State>, active: set<nat>, k: nat)
    ensures var before := Steps(c, rose, mode, o, Leafs(active, k));
            Steps(c, rose, mode, o, Leafs(active, k + 1)) ==
              if k !in active || before.None? then before else Step(c, rose, mode, before.value, LeafState(k))
  {
    if k in active {
      StepsNext(c, rose, mode, o, Leafs(active, k), LeafState(k));
    } else {
      assert Leafs(active, k + 1) == Leafs(active, k);
    }
  }

  lemma LeftNext(c: Codec, rose: Rose, mode: Mode, o: Option<State>, active: set<nat>, k: nat)
    ensures var before := Steps(c, rose, mode, o, Lefts(active, k));
            var mid := if before.None? then None else Step(c, rose, mode, before.value, LeftState(k));
            Steps(c, rose, mode, o, Lefts(active, k + 1)) ==
              if k !in active then before else if mid.None? then None else Step(c, rose, mode, mid.value, LeftLag(k))
  {
    if k in active {
      assert Lefts(active, k + 1) == Lefts(active, k) + [LeftState(k)] + [LeftLag(k)];
      StepsNext(c, rose, mode, o, Lefts(active, k), LeftState(k));
      StepsNext(c, rose, mode, o, Lefts(active, k) + [LeftState(k)], LeftLag(k));
    } else {
      assert Lefts(active, k + 1) == Lefts(active, k);
    }
  }

  lemma SlotNext(c: Codec, rose: Rose, mode: Mode, o: Option<State>, valid: set<nat>, k: nat)
    ensures var before := Steps(c, rose, mode, o, Slots(valid, k));
            Steps(c, rose, mode, o, Slots(valid, k + 1)) ==
              if k !in valid || before.None? then before else Step(c, rose, mode, before.value, SomSlot(k))
  {
    if k in valid {
      StepsNext(c, rose, mode, o, Slots(valid, k), SomSlot(k));
    } else {
      assert Slots(valid, k + 1) == Slots(valid, k);
    }
  }

  lemma PlainKeepsBits(c: Codec, rose: Rose, mode: Mode, s: State, f: Field)
    requires !f.Bits()
    ensures var r := Step(c, rose, mode, s, f);
            r.Some? ==> r.value.stream.bits == s.stream.bits
  {
  }

  class Copier {
    const codec: Codec
    const rose: Rose
    const mode: Mode
    var currOffset: nat
    var buf: seq<Byte>
    var stream: Stream

    constructor (codec: Codec, rose: Rose, mode: Mode, stream: Stream)
      ensures this.codec == codec && this.rose == rose && this.mode == mode && Now() == State(0, [], stream)
    {
      this.codec, this.rose, this.mode := codec, rose, mode;
      this.currOffset, this.buf, this.stream := 0, [], stream;
    }

    function Now(): State
      reads this
    {
      State(currOffset, buf, stream)
    }

    ghost predicate Becomes(r: Option<State>, ok: bool)
      reads this
    {
      ok == r.Some? && (ok ==> Now() == r.value)
    }

    /** Measuring a region. */
    method CopySize(f: Field)
      requires mode.Size?
      modifies this
      ensures Becomes(Step(codec, rose, mode, old(Now()), f), true)
    {
      if f.Bits() {
        currOffset := currOffset + codec.size(rose.totals(f), BitsOf(stream, f));
      } else {
        currOffset := currOffset + PlainSize(rose, stream.offset, f);
      }
    }

    /** Copying a region into the buffer. */
    method CopyIn(f: Field)
      requires mode.CompressTo?
      modifies this
      ensures Becomes(Step(codec, rose, mode, old(Now()), f), true)
    {
      var piece := Piece(codec, rose, stream, f);
      buf := buf + piece;
      currOffset := currOffset + |piece|;
    }

    /** Copying a region out of the buffer; false if the buffer is found too short. */
    method CopyOut(f: Field) returns (ok: bool)
      requires mode.ExpandFrom?
      modifies this
      ensures Becomes(Step(codec, rose, mode, old(Now()), f), ok)
    {
      if f.Bits() {
        var r := codec.dec(rose.totals(f), mode.mem, currOffset, mode.limit);
        if r.None? {
          return false;
        }
        stream := stream.(bits := stream.bits[f := r.value.0]);
        currOffset := currOffset + r.value.1;
      } else {
        var sz := PlainSize(rose, stream.offset, f);
        if currOffset + sz > mode.limit {
          return false;
        }
        var bytes := Read(mode.mem, currOffset, sz);
        stream := Put(stream, f, bytes);
        currOffset := currOffset + sz;
      }
      return true;
    }

    method Copy(f: Field) returns (ok: bool)
      modifies this
      ensures Becomes(Step(codec, rose, mode, old(Now()), f), ok)
    {
      ok := true;
      if mode.Size? {
        CopySize(f);
      } else if mode.CompressTo? {
        CopyIn(f);
      } else {
        ok := CopyOut(f);
      }
    }

    /** Offset, status and roles. */
    method CopyFirst() returns (ok: bool)
      modifies this
      ensures Becomes(Steps(codec, rose, mode, Some(old(Now())), [Offset, Status, Roles]), ok)
    {
      hide Step, Steps;
      StepsThree(codec, rose, mode, Now(), Offset, Status, Roles);
      ok := Copy(Offset);
      if !ok { return; }
      ok := Copy(Status);
      if !ok { return; }
      ok := Copy(Roles);
    }

    /** The activity of the engines and the long-literal state. */
    method CopyActivity() returns (ok: bool)
      modifies this
      ensures Becomes(Steps(codec, rose, mode, Some(old(Now())), [ActiveLeaf, ActiveLeft, LongLit]), ok)
    {
      hide Step, Steps;
      StepsThree(codec, rose, mode, Now(), ActiveLeaf, ActiveLeft, LongLit);
      ok := Copy(ActiveLeaf);
      if !ok { return; }
      ok := Copy(ActiveLeft);
      if !ok { return; }
      ok := Copy(LongLit);
    }

    /** The anchored table, which is not needed deep in the stream. */
    method CopyAnchor() returns (ok: bool)
      modifies this
      ensures Becomes(Steps(codec, rose, mode, Some(old(Now())), AnchorIf(rose, Some(old(Now())))), ok)
    {
      StepsTwo(codec, rose, mode, Now(), Anchor, Anchor);
      ok := true;
      if stream.offset <= rose.anchoredDistance {
        hide Step, Steps;
        ok := Copy(Anchor);
      }
    }

    /** The groups and the history. */
    method CopyHistory() returns (ok: bool)
      modifies this
      ensures Becomes(Steps(codec, rose, mode, Some(old(Now())), [Groups, History]), ok)
    {
      hide Step, Steps;
      StepsTwo(codec, rose, mode, Now(), Groups, History);
      ok := Copy(Groups);
      if !ok { return; }
      ok := Copy(History);
    }

    /** The exhaustion, logical and combination multibits. */
    method CopyTrailing() returns (ok: bool)
      modifies this
      ensures Becomes(Steps(codec, rose, mode, Some(old(Now())), [Exhausted, Logical, Combination]), ok)
    {
      hide Step, Steps;
      StepsThree(codec, rose, mode, Now(), Exhausted, Logical, Combination);
      ok := Copy(Exhausted);
      if !ok { return; }
      ok := Copy(Logical);
      if !ok { return; }
      ok := Copy(Combination);
    }

    /** The states of the active endfixes. */
    method CopyLeafs() returns (ok: bool)
      modifies this
      ensures Becomes(Steps(codec, rose, mode, Some(old(Now())), LeafsOf(rose, old(stream))), ok)
    {
      hide Step, Steps, Leafs;
      ghost var s, active := Now(), BitsOf(stream, ActiveLeaf);
      LeafsStart(s, active);
      var qi := 0;
      while qi < rose.leafCount
        invariant qi <= rose.leafCount && stream.bits == s.stream.bits
        invariant Steps(codec, rose, mode, Some(s), Leafs(active, qi)) == Some(Now())
      {
        LeafNext(codec, rose, mode, Some(s), active, qi);
        if qi in BitsOf(stream, ActiveLeaf) {
          PlainKeepsBits(codec, rose, mode, Now(), LeafState(qi));
          ok := Copy(LeafState(qi));
          if !ok {
            LeafsPrefix(active, qi + 1, rose.leafCount);
            NoneStays(codec, rose, mode, Some(s), Leafs(active, qi + 1), Leafs(active, rose.leafCount));
            return;
          }
        }
        qi := qi + 1;
      }
      ok := true;
    }

    lemma LeafsStart(s: State, active: set<nat>)
      ensures Steps(codec, rose, mode, Some(s), Leafs(active, 0)) == Some(s)
      ensures Steps(codec, rose, mode, Some(s), Lefts(active, 0)) == Some(s)
      ensures Steps(codec, rose, mode, Some(s), Slots(active, 0)) == Some(s)
    {
    }

    /** The states and lag bytes of the active leftfixes that keep state. */
    method CopyLefts() returns (ok: bool)
      modifies this
      ensures Becomes(Steps(codec, rose, mode, Some(old(Now())), LeftsOf(rose, old(stream))), ok)
    {
      hide Step, Steps, Lefts;
      ghost var s, active := Now(), BitsOf(stream, ActiveLeft) * rose.leftIter;
      LeafsStart(s, active);
      var ri := 0;
      while ri < rose.leftCount
        invariant ri <= rose.leftCount && stream.bits == s.stream.bits
        invariant Steps(codec, rose, mode, Some(s), Lefts(active, ri)) == Some(Now())
      {
        LeftNext(codec, rose, mode, Some(s), active, ri);
        if ri in BitsOf(stream, ActiveLeft) && ri in rose.leftIter {
          ok := CopyLeft(ri);
          if !ok {
            LeftsPrefix(active, ri + 1, rose.leftCount);
            NoneStays(codec, rose, mode, Some(s), Lefts(active, ri + 1), Lefts(active, rose.leftCount));
            return;
          }
        }
        ri := ri + 1;
      }
      ok := true;
    }

    /** The state of one leftfix and its lag byte. */
    method CopyLeft(ri: nat) returns (ok: bool)
      modifies this
      ensures var mid := Step(codec, rose, mode, old(Now()), LeftState(ri));
              Becomes(if mid.None? then None else Step(codec, rose, mode, mid.value, LeftLag(ri)), ok)
      ensures ok ==> stream.bits == old(stream.bits)
    {
      hide Step;
      PlainKeepsBits(codec, rose, mode, Now(), LeftState(ri));
      ok := Copy(LeftState(ri));
      if !ok { return; }
      PlainKeepsBits(codec, rose, mode, Now(), LeftLag(ri));
      ok := Copy(LeftLag(ri));
    }

    /** The multibits of the match starts. */
    method CopySomMultibits() returns (ok: bool)
      modifies this
      ensures Becomes(Steps(codec, rose, mode, Some(old(Now())), SomOf(rose)), ok)
    {
      StepsTwo(codec, rose, mode, Now(), SomWritable, SomValid);
      ok := true;
      if rose.hasSom {
        hide Step, Steps;
        ok := Copy(SomWritable);
        if !ok { return; }
        ok := Copy(SomValid);
      }
    }

    /** The valid match starts. */
    method CopySlots() returns (ok: bool)
      requires rose.hasSom
      modifies this
      ensures Becomes(Steps(codec, rose, mode, Some(old(Now())), SlotsOf(rose, old(stream))), ok)
    {
      hide Step, Steps, Slots;
      ghost var s, valid := Now(), BitsOf(stream, SomValid);
      LeafsStart(s, valid);
      var slot := 0;
      while slot < rose.somCount
        invariant slot <= rose.somCount && stream.bits == s.stream.bits
        invariant Steps(codec, rose, mode, Some(s), Slots(valid, slot)) == Some(Now())
      {
        SlotNext(codec, rose, mode, Some(s), valid, slot);
        if slot in BitsOf(stream, SomValid) {
          PlainKeepsBits(codec, rose, mode, Now(), SomSlot(slot));
          ok := Copy(SomSlot(slot));
          if !ok {
            SlotsPrefix(valid, slot + 1, rose.somCount);
            NoneStays(codec, rose, mode, Some(s), Slots(valid, slot + 1), Slots(valid, rose.somCount));
            return;
          }
        }
        slot := slot + 1;
      }
      ok := true;
    }

    /** The regions up to the trailing multibits. */
    method CopyHead() returns (ok: bool)
      modifies this
      ensures Becomes(ToCombination(codec, rose, mode, old(Now())), ok)
    {
      RefusedHead(Now());
      hide Step, Steps, AnchorIf;
      ok := CopyFirst();
      if !ok { return; }
      ok := CopyActivity();
      if !ok { return; }
      ok := CopyAnchor();
      if !ok { return; }
      ok := CopyHistory();
      if !ok { return; }
      ok := CopyTrailing();
    }

    /** A refusal on the way is one at the end. */
    lemma RefusedHead(s: State)
      ensures forall fs :: Steps(codec, rose, mode, None, fs) == None
    {
      forall fs ensures Steps(codec, rose, mode, None, fs) == None {
        StepsOfNone(codec, rose, mode, fs);
      }
    }

    /** The whole template. */
    method Run() returns (ok: bool)
      modifies this
      ensures Becomes(Template(codec, rose, mode, old(Now())), ok)
    {
      RefusedHead(Now());
      assert !rose.hasSom ==> SomOf(rose) == [] && forall o, w :: Steps(codec, rose, mode, o, SlotsOf(rose, w)) == o;
      hide Step, Steps, ToCombination, LeafsOf, LeftsOf, SlotsOf;
      ok := CopyHead();
      if !ok { return; }
      ok := CopyLeafs();
      if !ok { return; }
      ok := CopyLefts();
      if !ok { return; }
      ok := CopySomMultibits();
      if !ok { return; }
      if rose.hasSom {
        ok := CopySlots();
      }
    }
  }

  // ----- the three instantiations -----

  method SizeCompressStream(codec: Codec, rose: Rose, stream: Stream) returns (size: nat)
    requires CodecOk(codec) && Shaped(rose, stream)
    ensures size == |Serialized(codec, rose, stream)|
  {
    TemplateCopies(codec, rose, Size, stream);
    hide CodecOk, Shaped, Template, Serialized;
    var copier := new Copier(codec, rose, Size, stream);
    var ok := copier.Run();
    size := copier.currOffset;
  }

  method CompressStream(codec: Codec, rose: Rose, stream: Stream) returns (buf: seq<Byte>)
    requires CodecOk(codec) && Shaped(rose, stream)
    ensures buf == Serialized(codec, rose, stream)
  {
    TemplateCopies(codec, rose, CompressTo, stream);
    hide CodecOk, Shaped, Template;
    var copier := new Copier(codec, rose, CompressTo, stream);
    var ok := copier.Run();
    buf := copier.buf;
  }

  datatype Error = Success | InsufficientSpace

  /** `hs_compress_stream`: the space needed is reported in any case, and exactly that much is written. */
  method HsCompressStream(codec: Codec, rose: Rose, stream: Stream, bufSpace: nat)
      returns (rv: Error, usedSpace: nat, buf: seq<Byte>)
    requires CodecOk(codec) && Shaped(rose, stream)
    ensures usedSpace == |Serialized(codec, rose, stream)|
    ensures rv.Success? <==> usedSpace <= bufSpace
    ensures buf == if rv.Success? then Serialized(codec, rose, stream) else []
  {
    hide CodecOk, Shaped;
    usedSpace := SizeCompressStream(codec, rose, stream);
    if bufSpace < usedSpace {
      return InsufficientSpace, usedSpace, [];
    }
    buf := CompressStream(codec, rose, stream);
    rv := Success;
  }

  /** Expanding what `st` was compressed to, of which the first `limit` bytes were given, over the memory
      `base`.  A complete buffer is accepted and gives the stream back.  One that is cut before the end of
      the certain regions or in the match starts is refused whatever follows it.  Where the memory behind
      it still holds the rest, it is accepted exactly if no region is cut whose end is compared with the
      size. */
  method ExpandStream(codec: Codec, rose: Rose, base: Stream, mem: nat -> Byte, limit: nat, ghost st: Stream)
      returns (ok: bool, stream: Stream)
    requires CodecOk(codec) && Shaped(rose, st) && Room(rose, base)
    requires AgreesBelow(mem, 0, Serialized(codec, rose, st), limit)
    ensures limit >= |Serialized(codec, rose, st)| ==> ok && stream == Overlay(rose, base, st, Fields(rose, st))
    ensures limit < |Encode(codec, rose, st, Certain(rose, st))| ==> !ok
    ensures |Encode(codec, rose, st, UpToEngines(rose, st) + SomOf(rose))| <= limit < |Serialized(codec, rose, st)| ==>
        !ok
    ensures Agrees(mem, 0, Serialized(codec, rose, st)) ==>
              && (ok <==> Fits(codec, rose, st, Fields(rose, st), limit))
              && (ok ==> stream == Overlay(rose, base, st, Fields(rose, st)))
    ensures var r := Template(codec, rose, ExpandFrom(mem, limit), State(0, [], base));
            ok == r.Some? && (ok ==> stream == r.value.stream)
  {
    ghost var j := StreamExpand.Job(codec, rose, base, st, mem, limit);
    StreamExpand.TemplateOutcome(j);
    hide CodecOk, Shaped, Room, AgreesBelow, Template, Agrees, Fits, Fields, Certain, Overlay, UpToEngines, SomOf;
    var copier := new Copier(codec, rose, ExpandFrom(mem, limit), base);
    ok := copier.Run();
    stream := copier.stream;
  }
}
