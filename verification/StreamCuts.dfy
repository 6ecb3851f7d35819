/** Which truncations of a compressed stream are refused whatever follows the cut in memory. */
module StreamCuts {
  import opened StreamLayout
  import opened StreamTemplate
  import opened StreamExpand

  /** A buffer of the first `limit` bytes is refused, whatever the memory behind it holds. */
  ghost predicate CutRefused(c: Codec, rose: Rose, base: Stream, st: Stream, limit: nat) {
    forall mem: nat -> Byte | AgreesBelow(mem, 0, Serialized(c, rose, st), limit) ::
      Template(c, rose, ExpandFrom(mem, limit), State(0, [], base)).None?
  }

  /** The cut is in the region with index `i`. */
  ghost predicate CutIn(c: Codec, rose: Rose, st: Stream, limit: nat, i: nat) {
    var fs := Fields(rose, st);
    i < |fs| && |Encode(c, rose, st, fs[..i])| <= limit < |Encode(c, rose, st, fs[..i + 1])|
  }

  /** A cut in region `f` that leaves `visible` of its bytes is noticed behind the certain regions: in plain
      bytes always; in a tree if its root is seen not to be zero; and in the set of match starts if a
      valid one is seen.  In other bitmaps it is never noticed. */
  ghost predicate Noticed(c: Codec, rose: Rose, st: Stream, f: Field, visible: nat) {
    var b := Piece(c, rose, st, f);
    f.Bits() && visible <= |b| ==>
      || (f.SomValid? && NonZero(b[..visible]))
      || (!Flat(rose.totals(f)) && NonZero(b[..Min(BLOCK_SIZE, visible)]))
  }

  // ----- where the cut is -----

  lemma {:induction false} CutExists(c: Codec, rose: Rose, st: Stream, limit: nat, n: nat) returns (i: nat)
    requires n <= |Fields(rose, st)| && limit < |Encode(c, rose, st, Fields(rose, st)[..n])|
    ensures CutIn(c, rose, st, limit, i)
  {
    var fs := Fields(rose, st);
    assert n > 0 && fs[..n - 1 + 1] == fs[..n];
    hide Fields, Encode;
    if |Encode(c, rose, st, fs[..n - 1])| <= limit {
      i := n - 1;
    } else {
      i := CutExists(c, rose, st, limit, n - 1);
    }
  }

  const TRAILING := [Exhausted, Logical, Combination]

  /** The region with index `i` is a trailing multibit, and no engine is active. */
  ghost predicate InTrailing(rose: Rose, st: Stream, i: nat) {
    var fs, h := Fields(rose, st), |UpToHistory(rose, st.offset)|;
    && LeafsOf(rose, st) + LeftsOf(rose, st) == [] && h <= i < h + 3 && i < |fs|
    && fs[..i] == UpToHistory(rose, st.offset) + TRAILING[..i - h] && fs[i] == TRAILING[i - h]
  }

  /** It is a multibit of the match starts. */
  ghost predicate InSom(rose: Rose, st: Stream, i: nat) {
    var fs, m := Fields(rose, st), |UpToEngines(rose, st)|;
    && m <= i < m + |SomOf(rose)| && i < |fs|
    && fs[..i] == UpToEngines(rose, st) + SomOf(rose)[..i - m] && fs[i] == SomOf(rose)[i - m]
  }

  /** It is a match start. */
  ghost predicate InSlots(rose: Rose, st: Stream, i: nat) {
    var fs := Fields(rose, st);
    i < |fs| && UpToEngines(rose, st) + SomOf(rose) <= fs[..i] && !fs[i].Bits()
  }

  /** Nothing else follows the certain regions. */
  lemma CutPlaces(rose: Rose, st: Stream, i: nat)
    requires |Certain(rose, st)| <= i < |Fields(rose, st)|
    ensures InTrailing(rose, st, i) || InSom(rose, st, i) || InSlots(rose, st, i)
  {
    var m := |UpToEngines(rose, st)|;
    var engines := LeafsOf(rose, st) + LeftsOf(rose, st);
    var fs := Fields(rose, st);
    FieldsSplit(rose, st);
    SlotsArePlain(BitsOf(st, SomValid), rose.somCount);
    assert forall f | f in SlotsOf(rose, st) :: !f.Bits();
    hide LeafsOf, LeftsOf, SomOf, SlotsOf, UpToHistory, UpToEngines, Fields;
    if i < m {
      assert engines == [];
      assert fs == UpToHistory(rose, st.offset) + TRAILING + (SomOf(rose) + SlotsOf(rose, st));
      SliceOf(UpToHistory(rose, st.offset), TRAILING, SomOf(rose) + SlotsOf(rose, st), i);
    } else if i < m + |SomOf(rose)| {
      SliceOf(UpToEngines(rose, st), SomOf(rose), SlotsOf(rose, st), i);
    } else {
      assert fs[i] == SlotsOf(rose, st)[i - m - |SomOf(rose)|];
    }
  }

  lemma FieldsSplit(rose: Rose, st: Stream)
    ensures Fields(rose, st) == UpToEngines(rose, st) + SomOf(rose) + SlotsOf(rose, st)
    ensures UpToEngines(rose, st) == UpToHistory(rose, st.offset) + TRAILING + (LeafsOf(rose, st) + LeftsOf(rose, st))
  {
  }

  lemma SliceOf<T>(a: seq<T>, b: seq<T>, d: seq<T>, i: nat)
    requires |a| <= i < |a| + |b|
    ensures (a + b + d)[..i] == a + b[..i - |a|] && (a + b + d)[i] == b[i - |a|]
    ensures a + b + d == a + (b + d)
  {
  }

  /** A cut that is not before the end of the certain regions is in a later region. */
  lemma CutBehindCertain(c: Codec, rose: Rose, st: Stream, limit: nat, i: nat)
    requires CutIn(c, rose, st, limit, i) && |Encode(c, rose, st, Certain(rose, st))| <= limit
    ensures |Certain(rose, st)| <= i
    ensures |Encode(c, rose, st, Certain(rose, st))| <= |Encode(c, rose, st, Fields(rose, st)[..i])|
  {
    var fs, certain := Fields(rose, st), Certain(rose, st);
    CertainIsPrefix(rose, st);
    hide Encode, Fields, Certain;
    if i < |certain| {
      assert fs[..i + 1] <= certain;
      EncodeWithin(c, rose, st, fs[..i + 1], certain);
    } else {
      assert certain <= fs[..i];
      EncodeWithin(c, rose, st, certain, fs[..i]);
    }
  }

  lemma CertainIsPrefix(rose: Rose, st: Stream)
    ensures Certain(rose, st) <= Fields(rose, st)
  {
    FieldsSplit(rose, st);
    hide LeafsOf, LeftsOf, SomOf, SlotsOf, UpToHistory, UpToEngines;
  }

  // ----- what is noticed is refused -----

  /** The regions before the cut are copied. */
  lemma Reached(j: Job, done: seq<Field>, o: Option<State>, front: seq<Field>)
    requires JobOk(j) && Follows(j, done, o) && InOrder(j.rose, j.st, done + front)
    requires |Enc(j, done + front)| <= j.limit
    ensures var r := Steps(j.codec, j.rose, Expanding(j), o, front);
            o.Some? && r.Some? && Tracked(j, done + front, r.value)
  {
    hide JobOk, InOrder, Tracked;
    StepsFollow(j, done, o, front);
    EncodePrefix(j.codec, j.rose, j.st, done, front);
    StepsOfNone(j.codec, j.rose, Expanding(j), front);
  }

  /** The bytes given of the region behind `done`. */
  function Visible(j: Job, done: seq<Field>): nat {
    if |Enc(j, done)| <= j.limit then j.limit - |Enc(j, done)| else 0
  }

  /** The multibit that is cut, as it was encoded. */
  ghost predicate CutMultibit(j: Job, done: seq<Field>, f: Field) {
    && InOrder(j.rose, j.st, done + [f]) && f.Bits()
    && |Enc(j, done)| <= j.limit < |Enc(j, done + [f])|
  }

  /** Cut trees of which the root is seen not to be zero are found out; cut bitmaps keep what is seen. */
  lemma CutDecodes(c: Codec, total: nat, s: set<nat>, mem: nat -> Byte, pos: nat, limit: nat)
    requires CodecOk(c) && Within(s, total)
    requires AgreesBelow(mem, pos, c.enc(total, s), limit) && pos <= limit < pos + |c.enc(total, s)|
    ensures var b, r, visible := c.enc(total, s), c.dec(total, mem, pos, limit), limit - pos;
            && (!Flat(total) && NonZero(b[..Min(BLOCK_SIZE, visible)]) ==> r.None?)
            && (!Flat(total) && NonZero(b[..visible]) ==> r.None?)
            && (Flat(total) ==> r.Some? && r.value.1 == |b|)
            && (Flat(total) && NonZero(b[..visible]) ==> exists i :: i in r.value.0 && i < total)
  {
    CodecFacts(c, total, s);
    assert DecodesCut(c, total, s, mem, pos, limit);
    hide CodecOk;
    var b, r, visible := c.enc(total, s), c.dec(total, mem, pos, limit), limit - pos;
    if Flat(total) && NonZero(b[..visible]) {
      var k :| 0 <= k < visible && b[..visible][k] != 0;
      assert b[k] != 0;
      var i :| i in s && i / 8 == k;
      assert i in r.value.0;
    }
    if !Flat(total) && visible > BLOCK_SIZE {
      assert s != {} && Min(BLOCK_SIZE, visible) == BLOCK_SIZE;
    }
  }

  /** Decoding it fails, or leaves a valid match start behind the end of the buffer. */
  lemma CutDecoded(j: Job, done: seq<Field>, f: Field)
    requires JobOk(j) && CutMultibit(j, done, f)
    requires Noticed(j.codec, j.rose, j.st, f, Visible(j, done))
    ensures var pos := |Enc(j, done)|;
            var r := j.codec.dec(j.rose.totals(f), j.mem, pos, j.limit);
            || r.None?
            || (f.SomValid? && pos + r.value.1 > j.limit && exists i :: i in r.value.0 && i < j.rose.somCount)
  {
    hide Piece, Enc, JobOk, AgreesBelow, CodecOk, NonZero, Within, CutMultibit, BitsOf;
    CutFacts(j, done, f);
    CutDecodes(j.codec, j.rose.totals(f), BitsOf(j.st, f), j.mem, |Enc(j, done)|, j.limit);
  }

  lemma CodecFacts(c: Codec, total: nat, s: set<nat>)
    requires CodecOk(c) && Within(s, total)
    ensures EncodesAs(c, total, s) && EncodesAs(c, total, {})
  {
    assert Within({}, total);
  }

  lemma CutStepStops(j: Job, done: seq<Field>, s: State, f: Field)
    requires JobOk(j) && CutMultibit(j, done, f) && Tracked(j, done, s)
    requires Noticed(j.codec, j.rose, j.st, f, Visible(j, done))
    ensures var r := Step(j.codec, j.rose, Expanding(j), s, f);
            r.None? || (f.SomValid? && r.value.currOffset > j.limit
                        && exists i :: i in BitsOf(r.value.stream, SomValid) && i < j.rose.somCount)
  {
    CutDecoded(j, done, f);
    assert f.Bits() && s.currOffset == |Enc(j, done)|;
    hide JobOk, CutMultibit, Noticed, Enc, Tracked, PlainSize, Put;
    var r := j.codec.dec(j.rose.totals(f), j.mem, s.currOffset, j.limit);
    if r.Some? {
      assert f == SomValid;
      assert BitsOf(s.stream.(bits := s.stream.bits[f := r.value.0]), SomValid) == r.value.0;
    }
  }

  lemma {:induction false} SlotsNonEmpty(valid: set<nat>, k: nat, i: nat)
    requires i in valid && i < k
    ensures Slots(valid, k) != []
  {
    if i < k - 1 {
      SlotsNonEmpty(valid, k - 1, i);
    }
  }

  /** Steps that get stuck do not get on. */
  lemma Stuck(j: Job, o: Option<State>, front: seq<Field>, all: seq<Field>)
    requires front <= all && Steps(j.codec, j.rose, Expanding(j), o, front).None?
    ensures Steps(j.codec, j.rose, Expanding(j), o, all) == None
  {
    assert all == front + all[|front|..];
    StepsSplit(j.codec, j.rose, Expanding(j), o, front, all[|front|..]);
    StepsOfNone(j.codec, j.rose, Expanding(j), all[|front|..]);
  }

  /** The cut is in the multibit `f`, behind the regions `done`, and is noticed. */
  ghost predicate NoticedIn(j: Job, done: seq<Field>, f: Field) {
    CutMultibit(j, done, f) && Noticed(j.codec, j.rose, j.st, f, Visible(j, done))
  }

  lemma Parts(all: seq<Field>, k: nat)
    requires k < |all|
    ensures all == all[..k] + [all[k]] + all[k + 1..] && all[..k] + [all[k]] <= all
    ensures forall f | f in all[k + 1..] :: f in all
    ensures forall f | f in all && all[|all| - 1] == f && k < |all| - 1 :: f in all[k + 1..]
  {
  }

  /** Copying gets as far as the multibit that is cut. */
  lemma CutStops(j: Job, done: seq<Field>, o: Option<State>, front: seq<Field>, f: Field)
    requires JobOk(j) && Follows(j, done, o) && NoticedIn(j, done + front, f)
    ensures var r := Steps(j.codec, j.rose, Expanding(j), o, front + [f]);
            r.None? || (f.SomValid? && r.value.currOffset > j.limit
                        && exists i :: i in BitsOf(r.value.stream, SomValid) && i < j.rose.somCount)
  {
    hide Enc, Steps, Step, Noticed, InOrder, Follows, Tracked, JobOk, Visible;
    InOrderFront(j, done + front, [f]);
    Reached(j, done, o, front);
    CutStepStops(j, done + front, Steps(j.codec, j.rose, Expanding(j), o, front).value, f);
    StepsNext(j.codec, j.rose, Expanding(j), o, front, f);
  }

  /** Multibits of which one is cut: they are not passed, unless valid match starts remain. */
  lemma GroupStops(j: Job, done: seq<Field>, o: Option<State>, all: seq<Field>, k: nat)
    requires JobOk(j) && Follows(j, done, o) && k < |all| && NoticedIn(j, done + all[..k], all[k])
    ensures var r := Steps(j.codec, j.rose, Expanding(j), o, all);
            || r.None?
            || (all[k].SomValid? && (k == |all| - 1 ==>
                  r.value.currOffset > j.limit && exists i ::
                      i in BitsOf(r.value.stream, SomValid) && i < j.rose.somCount))
  {
    hide Enc, Steps, NoticedIn, Follows, JobOk;
    Parts(all, k);
    CutStops(j, done, o, all[..k], all[k]);
    if Steps(j.codec, j.rose, Expanding(j), o, all[..k] + [all[k]]).None? {
      Stuck(j, o, all[..k] + [all[k]], all);
    } else {
      assert k == |all| - 1 ==> all[..k] + [all[k]] == all;
    }
  }

  /** In a trailing multibit. */
  lemma TrailingRefused(j: Job, k: nat)
    requires JobOk(j) && k < 3
    requires NoticedIn(j, UpToHistory(j.rose, j.st.offset) + TRAILING[..k], TRAILING[k])
    ensures ToCombination(j.codec, j.rose, Expanding(j), Begin(j)).None?
  {
    hide UpToHistory, Enc, Steps, ToHistory, NoticedIn, Follows, Tracked, JobOk;
    HistoryOutcome(j);
    GroupStops(j, UpToHistory(j.rose, j.st.offset), ToHistory(j.codec, j.rose, Expanding(j), Begin(j)), TRAILING, k);
  }

  lemma SomLast(rose: Rose, k: nat)
    requires k < |SomOf(rose)|
    ensures rose.hasSom && (SomOf(rose)[k].SomValid? ==> k == |SomOf(rose)| - 1) && forall f | f in SomOf(rose) ::
        f.Bits()
    ensures SomOf(rose)[|SomOf(rose)| - 1] == SomValid
  {
  }

  lemma SomRefused(j: Job, k: nat)
    requires JobOk(j) && k < |SomOf(j.rose)|
        && NoticedIn(j, UpToEngines(j.rose, j.st) + SomOf(j.rose)[..k], SomOf(j.rose)[k])
    ensures Template(j.codec, j.rose, Expanding(j), Begin(j)).None?
  {
    var o := ToEngines(j.codec, j.rose, Expanding(j), Begin(j));
    SomLast(j.rose, k);
    hide UpToEngines, Enc, Steps, Step, NoticedIn, Follows, SomOf, JobOk, ToEngines, Certain, Slots;
    EnginesOutcome(j);
    GroupStops(j, UpToEngines(j.rose, j.st), o, SomOf(j.rose), k);
    var r := Steps(j.codec, j.rose, Expanding(j), o, SomOf(j.rose));
    if r.Some? {
      var valid := BitsOf(r.value.stream, SomValid);
      var x :| x in valid && x < j.rose.somCount;
      SlotsNonEmpty(valid, j.rose.somCount, x);
      SlotsArePlain(valid, j.rose.somCount);
      PlainStops(j, r.value, Slots(valid, j.rose.somCount));
    }
  }

  ghost predicate Prepared(j: Job, i: nat) {
    && JobOk(j) && CutIn(j.codec, j.rose, j.st, j.limit, i)
    && |Encode(j.codec, j.rose, j.st, Certain(j.rose, j.st))| <= j.limit
  }

  ghost predicate NoticedAt(j: Job, i: nat) {
    var fs := Fields(j.rose, j.st);
    i < |fs| && Noticed(j.codec, j.rose, j.st, fs[i], Visible(j, fs[..i]))
  }

  lemma TakeNext(fs: seq<Field>, i: nat)
    requires i < |fs|
    ensures fs[..i] + [fs[i]] == fs[..i + 1] <= fs
  {
  }

  lemma CutRegion(j: Job, i: nat)
    requires Prepared(j, i)
    ensures var fs := Fields(j.rose, j.st);
            && JobOk(j) && i < |fs| && InOrder(j.rose, j.st, fs[..i] + [fs[i]])
            && |Enc(j, fs[..i])| <= j.limit < |Enc(j, fs[..i] + [fs[i]])|
  {
    var fs := Fields(j.rose, j.st);
    hide JobOk, Fields, Encode, Certain;
    TakeNext(fs, i);
  }

  /** In a match start. */
  lemma SlotRefused(j: Job, i: nat)
    requires Prepared(j, i) && UpToEngines(j.rose, j.st) + SomOf(j.rose) <= Fields(j.rose, j.st)[..i]
    ensures Template(j.codec, j.rose, Expanding(j), Begin(j)).None?
  {
    var fs, front := Fields(j.rose, j.st), UpToEngines(j.rose, j.st) + SomOf(j.rose);
    TakeNext(fs, i);
    hide Fields, UpToEngines, SomOf, Template, JobOk, Certain, Encode;
    EncodeWithin(j.codec, j.rose, j.st, front, fs[..i]);
    EncodeWithin(j.codec, j.rose, j.st, fs[..i + 1], fs);
    TemplateOutcome(j);
  }

  lemma CutIsNoticed(j: Job, i: nat)
    requires Prepared(j, i) && Fields(j.rose, j.st)[i].Bits()
    ensures var done, f := Fields(j.rose, j.st)[..i], Fields(j.rose, j.st)[i];
            && JobOk(j) && CutMultibit(j, done, f)
            && (NoticedAt(j, i) <==> Noticed(j.codec, j.rose, j.st, f, Visible(j, done)))
  {
    CutRegion(j, i);
    hide Fields, JobOk, Enc, InOrder, Noticed, Prepared, CutIn, Visible;
  }

  lemma CutIsNoticedIn(j: Job, i: nat)
    requires Prepared(j, i) && NoticedAt(j, i) && Fields(j.rose, j.st)[i].Bits()
    ensures JobOk(j) && NoticedIn(j, Fields(j.rose, j.st)[..i], Fields(j.rose, j.st)[i])
  {
    hide Fields, JobOk, Enc, CutMultibit, Prepared, Noticed, NoticedAt, Visible;
    CutIsNoticed(j, i);
  }

  lemma NoticedInSom(j: Job, i: nat)
    requires Prepared(j, i) && NoticedAt(j, i) && InSom(j.rose, j.st, i)
    ensures Template(j.codec, j.rose, Expanding(j), Begin(j)).None?
  {
    var k := i - |UpToEngines(j.rose, j.st)|;
    SomIsBits(j.rose, k);
    hide Fields, UpToEngines, SomOf, JobOk, Template, NoticedIn, NoticedAt, Prepared;
    CutIsNoticedIn(j, i);
    SomRefused(j, k);
  }

  lemma NoticedInTrailing(j: Job, i: nat)
    requires Prepared(j, i) && NoticedAt(j, i) && InTrailing(j.rose, j.st, i)
    ensures Template(j.codec, j.rose, Expanding(j), Begin(j)).None?
  {
    hide Fields, UpToHistory, SomOf, JobOk, ToCombination, NoticedIn, NoticedAt, Prepared, LeafsOf, LeftsOf;
    CutIsNoticedIn(j, i);
    TrailingRefused(j, i - |UpToHistory(j.rose, j.st.offset)|);
    StepsOfNone(j.codec, j.rose, Expanding(j), SomOf(j.rose));
  }

  lemma NoticedRefused(j: Job, i: nat)
    requires Prepared(j, i) && NoticedAt(j, i)
    ensures Template(j.codec, j.rose, Expanding(j), Begin(j)).None?
  {
    CutBehindCertain(j.codec, j.rose, j.st, j.limit, i);
    CutPlaces(j.rose, j.st, i);
    hide Fields, UpToEngines, UpToHistory, SomOf, JobOk, Template, NoticedAt, Certain, InTrailing, InSom;
    if InSlots(j.rose, j.st, i) {
      SlotRefused(j, i);
    } else if InSom(j.rose, j.st, i) {
      NoticedInSom(j, i);
    } else {
      NoticedInTrailing(j, i);
    }
  }

  lemma SomIsBits(rose: Rose, k: nat)
    requires k < |SomOf(rose)|
    ensures SomOf(rose)[k].Bits()
  {
  }

  // ----- what is not noticed is accepted, with zeros behind the cut -----

  function ZeroFill(b: seq<Byte>, limit: nat): nat -> Byte {
    (i: nat) => if i < limit && i < |b| then b[i] else 0
  }

  /** What is seen of the multibit is not enough: with zeros behind the cut it reads as empty. */
  lemma ZeroDecodes(c: Codec, total: nat, s: set<nat>, mem: nat -> Byte, pos: nat, limit: nat)
    requires CodecOk(c) && Within(s, total) && ZeroFrom(mem, limit)
    requires AgreesBelow(mem, pos, c.enc(total, s), limit) && pos <= limit < pos + |c.enc(total, s)|
    requires !NonZero(c.enc(total, s)[..limit - pos])
          || (!Flat(total) && !NonZero(c.enc(total, s)[..Min(BLOCK_SIZE, limit - pos)]))
    ensures var r := c.dec(total, mem, pos, limit);
            r.Some? && r.value.0 == {} && pos + r.value.1 > limit
  {
    CodecFacts(c, total, s);
    assert DecodesZeros(c, total, mem, pos, limit);
    hide CodecOk;
    var b, visible := c.enc(total, s), limit - pos;
    if !Flat(total) && visible >= BLOCK_SIZE {
      PrefixNonZero(b, BLOCK_SIZE, visible);
      assert false;
    }
    assert !NonZero(b[..visible]);
    forall i | pos <= i ensures mem(i) == 0 {
      if i < limit {
        assert mem(pos + (i - pos)) == b[i - pos] == b[..visible][i - pos];
      }
    }
  }

  lemma PrefixNonZero(b: seq<Byte>, n: nat, m: nat)
    requires n <= m <= |b| && NonZero(b[..n])
    ensures NonZero(b[..m])
  {
    var k :| 0 <= k < n && b[..n][k] != 0;
    assert b[..m][k] != 0;
  }

  /** The cut is in the multibit `f`, behind the regions `done`, and is not noticed; zeros follow it. */
  ghost predicate UnnoticedIn(j: Job, done: seq<Field>, f: Field) {
    && CutMultibit(j, done, f) && !Noticed(j.codec, j.rose, j.st, f, Visible(j, done))
    && ZeroFrom(j.mem, j.limit)
  }

  /** What is seen of a multibit whose cut is not noticed. */
  lemma NoticedMeans(j: Job, done: seq<Field>, f: Field)
    requires JobOk(j) && UnnoticedIn(j, done, f)
    ensures var b, visible := Piece(j.codec, j.rose, j.st, f), j.limit - |Enc(j, done)|;
            && |Enc(j, done + [f])| == |Enc(j, done)| + |b| && visible < |b|
            && (f.SomValid? ==> !NonZero(b[..visible]))
            && (!Flat(j.rose.totals(f)) ==> !NonZero(b[..Min(BLOCK_SIZE, visible)]))
  {
    EncodeAppend(j.codec, j.rose, j.st, done, f);
    hide Piece, Encode, JobOk, InOrder, NonZero, Flat;
  }

  lemma UnnoticedDecodes(j: Job, done: seq<Field>, f: Field)
    requires JobOk(j) && UnnoticedIn(j, done, f)
    ensures var pos := |Enc(j, done)|;
            var r := j.codec.dec(j.rose.totals(f), j.mem, pos, j.limit);
            r.Some? && pos + r.value.1 > j.limit && (f.SomValid? ==> r.value.0 == {})
  {
    hide Piece, Enc, JobOk, Faithful, AgreesBelow, CodecOk, NonZero, Within, ZeroFrom, Noticed, Flat, CutMultibit,
         BitsOf, Visible;
    CutFacts(j, done, f);
    NoticedMeans(j, done, f);
    if f.SomValid? || !Flat(j.rose.totals(f)) {
      ZeroDecodes(j.codec, j.rose.totals(f), BitsOf(j.st, f), j.mem, |Enc(j, done)|, j.limit);
    } else {
      CutDecodes(j.codec, j.rose.totals(f), BitsOf(j.st, f), j.mem, |Enc(j, done)|, j.limit);
    }
  }

  /** The multibit as it was encoded, and what is left of it. */
  lemma CutFacts(j: Job, done: seq<Field>, f: Field)
    requires JobOk(j) && CutMultibit(j, done, f)
    ensures var b, pos := j.codec.enc(j.rose.totals(f), BitsOf(j.st, f)), |Enc(j, done)|;
            && CodecOk(j.codec) && Within(BitsOf(j.st, f), j.rose.totals(f)) && b == Piece(j.codec, j.rose, j.st, f)
            && AgreesBelow(j.mem, pos, b, j.limit) && pos <= j.limit < pos + |b|
            && f.Bits() && (f.SomValid? ==> j.rose.totals(f) == j.rose.somCount)
  {
    BitsFacts(j, done, f);
    BufferHolds(j, done, f);
    hide Piece, Enc, InOrder, Faithful, AgreesBelow, Agrees, DecodesAt, DecodesCut, CodecOk, Within, BitsOf, Room;
  }

  lemma UnnoticedStep(j: Job, done: seq<Field>, s: State, f: Field)
    requires JobOk(j) && UnnoticedIn(j, done, f) && Tracked(j, done, s)
    ensures var r := Step(j.codec, j.rose, Expanding(j), s, f);
            && r.Some? && r.value.currOffset > j.limit
            && (f.SomValid? ==> BitsOf(r.value.stream, SomValid) == {})
  {
    UnnoticedDecodes(j, done, f);
    assert f.Bits() && s.currOffset == |Enc(j, done)|;
    hide JobOk, UnnoticedIn, Enc, Tracked, PlainSize, Put;
    var r := j.codec.dec(j.rose.totals(f), j.mem, s.currOffset, j.limit).value.0;
    if f.SomValid? {
      assert f == SomValid;
      assert BitsOf(s.stream.(bits := s.stream.bits[f := r]), SomValid) == r;
    }
  }

  lemma ZeroStep(j: Job, s: State, f: Field)
    requires JobOk(j) && ZeroFrom(j.mem, s.currOffset) && f.Bits()
    ensures var r := Step(j.codec, j.rose, Expanding(j), s, f);
            && r.Some? && r.value.currOffset >= s.currOffset && BitsOf(r.value.stream, f) == {}
  {
    assert CodecOk(j.codec);
    assert DecodesZeros(j.codec, j.rose.totals(f), j.mem, s.currOffset, j.limit);
    hide JobOk, CodecOk, PlainSize, Put;
    assert BitsOf(s.stream.(bits := s.stream.bits[f := {}]), f) == {};
  }

  /** Zeros are read as empty multibits. */
  lemma {:induction false} ZerosAccepted(j: Job, s: State, fs: seq<Field>, g: Field)
    requires JobOk(j) && ZeroFrom(j.mem, s.currOffset) && forall f | f in fs :: f.Bits()
    ensures var r := Steps(j.codec, j.rose, Expanding(j), Some(s), fs);
            && r.Some? && r.value.currOffset >= s.currOffset
            && (g in fs || BitsOf(s.stream, g) == {} ==> BitsOf(r.value.stream, g) == {})
  {
    hide JobOk, Step;
    if fs != [] {
      var n := |fs| - 1;
      assert forall f | f in fs[..n] :: f in fs;
      ZerosAccepted(j, s, fs[..n], g);
      var t := Steps(j.codec, j.rose, Expanding(j), Some(s), fs[..n]).value;
      assert fs[n] in fs && (g in fs ==> g in fs[..n] || g == fs[n]);
      ZeroStep(j, t, fs[n]);
      if fs[n] != g {
        StepKeepsBits(j, t, fs[n], g);
      }
    }
  }

  lemma StepKeepsBits(j: Job, s: State, f: Field, g: Field)
    requires f.Bits() && f != g
    ensures var r := Step(j.codec, j.rose, Expanding(j), s, f);
            r.Some? ==> BitsOf(r.value.stream, g) == BitsOf(s.stream, g)
  {
  }

  /** Copying passes the cut: whatever multibits follow read as empty. */
  lemma CutPasses(j: Job, done: seq<Field>, o: Option<State>, front: seq<Field>, f: Field, rest: seq<Field>)
    requires JobOk(j) && Follows(j, done, o) && UnnoticedIn(j, done + front, f)
    requires forall g | g in rest :: g.Bits()
    ensures var r := Steps(j.codec, j.rose, Expanding(j), o, front + [f] + rest);
            && r.Some? && r.value.currOffset > j.limit
            && (f.SomValid? || SomValid in rest ==> BitsOf(r.value.stream, SomValid) == {})
  {
    hide Enc, Steps, Step, Noticed, InOrder, Follows, Tracked, JobOk, Visible;
    InOrderFront(j, done + front, [f]);
    Reached(j, done, o, front);
    var s := Steps(j.codec, j.rose, Expanding(j), o, front).value;
    UnnoticedStep(j, done + front, s, f);
    StepsNext(j.codec, j.rose, Expanding(j), o, front, f);
    var t := Step(j.codec, j.rose, Expanding(j), s, f).value;
    ZerosAccepted(j, t, rest, SomValid);
    StepsSplit(j.codec, j.rose, Expanding(j), o, front + [f], rest);
  }

  lemma GroupPasses(j: Job, done: seq<Field>, o: Option<State>, all: seq<Field>, k: nat)
    requires JobOk(j) && Follows(j, done, o) && k < |all| && UnnoticedIn(j, done + all[..k], all[k])
    requires forall g | g in all :: g.Bits()
    ensures var r := Steps(j.codec, j.rose, Expanding(j), o, all);
            && r.Some? && r.value.currOffset > j.limit
            && (all[|all| - 1] == SomValid ==> BitsOf(r.value.stream, SomValid) == {})
  {
    hide Enc, Steps, UnnoticedIn, Follows, JobOk;
    Parts(all, k);
    CutPasses(j, done, o, all[..k], all[k], all[k + 1..]);
  }

  lemma {:induction false} NoSlots(k: nat)
    ensures Slots({}, k) == []
  {
    if k > 0 {
      NoSlots(k - 1);
    }
  }

  /** Without engines, and with zeros from here on, the rest of the template is passed. */
  lemma ZerosToEnd(j: Job, o: Option<State>)
    requires JobOk(j) && o.Some? && ZeroFrom(j.mem, o.value.currOffset)
    requires o == ToEngines(j.codec, j.rose, Expanding(j), Begin(j))
    ensures Template(j.codec, j.rose, Expanding(j), Begin(j)).Some?
  {
    assert forall f | f in SomOf(j.rose) :: f.Bits();
    assert j.rose.hasSom ==> SomValid in SomOf(j.rose);
    NoSlots(j.rose.somCount);
    hide JobOk, Step, ToEngines, SomOf, Slots;
    ZerosAccepted(j, o.value, SomOf(j.rose), SomValid);
  }

  lemma TrailingPassed(j: Job, k: nat)
    requires JobOk(j) && k < 3 && UnnoticedIn(j, UpToHistory(j.rose, j.st.offset) + TRAILING[..k], TRAILING[k])
    ensures var r := ToCombination(j.codec, j.rose, Expanding(j), Begin(j));
            r.Some? && r.value.currOffset > j.limit
  {
    hide UpToHistory, Enc, Steps, ToHistory, Follows, Tracked, JobOk, UnnoticedIn;
    HistoryOutcome(j);
    GroupPasses(j, UpToHistory(j.rose, j.st.offset), ToHistory(j.codec, j.rose, Expanding(j), Begin(j)), TRAILING, k);
  }

  /** No engine is active, as in the original. */
  lemma NoEngines(j: Job)
    requires JobOk(j) && LeafsOf(j.rose, j.st) + LeftsOf(j.rose, j.st) == []
    ensures var p := ToCombination(j.codec, j.rose, Expanding(j), Begin(j));
            p.Some? ==> ToEngines(j.codec, j.rose, Expanding(j), Begin(j)) == p
  {
    hide Steps, ToCombination, Follows, JobOk, Leafs, Lefts, UpToHistory;
    CombinationOutcome(j);
    var p := ToCombination(j.codec, j.rose, Expanding(j), Begin(j));
    NoSteps(j, p);
    if p.Some? {
      assert LeafsOf(j.rose, p.value.stream) == [] && LeftsOf(j.rose, p.value.stream) == [];
    }
  }

  lemma TrailingAccepted(j: Job, k: nat)
    requires JobOk(j) && k < 3 && LeafsOf(j.rose, j.st) + LeftsOf(j.rose, j.st) == []
    requires UnnoticedIn(j, UpToHistory(j.rose, j.st.offset) + TRAILING[..k], TRAILING[k])
    ensures Template(j.codec, j.rose, Expanding(j), Begin(j)).Some?
  {
    hide UpToHistory, ToCombination, ToEngines, JobOk, Template, Enc, CutMultibit, Noticed, LeafsOf, LeftsOf;
    TrailingPassed(j, k);
    NoEngines(j);
    ZerosToEnd(j, ToEngines(j.codec, j.rose, Expanding(j), Begin(j)));
  }

  lemma NoSteps(j: Job, o: Option<State>)
    ensures Steps(j.codec, j.rose, Expanding(j), o, []) == o
  {
  }

  lemma SomAccepted(j: Job, k: nat)
    requires JobOk(j) && k < |SomOf(j.rose)|
        && UnnoticedIn(j, UpToEngines(j.rose, j.st) + SomOf(j.rose)[..k], SomOf(j.rose)[k])
    ensures Template(j.codec, j.rose, Expanding(j), Begin(j)).Some?
  {
    SomLast(j.rose, k);
    NoSlots(j.rose.somCount);
    hide UpToEngines, Enc, Steps, Step, UnnoticedIn, Follows, SomOf, JobOk, ToEngines, Certain, Slots;
    EnginesOutcome(j);
    var o := ToEngines(j.codec, j.rose, Expanding(j), Begin(j));
    GroupPasses(j, UpToEngines(j.rose, j.st), o, SomOf(j.rose), k);
    NoSteps(j, Steps(j.codec, j.rose, Expanding(j), o, SomOf(j.rose)));
  }

  lemma CutIsUnnoticedIn(j: Job, i: nat)
    requires Prepared(j, i) && !NoticedAt(j, i) && ZeroFrom(j.mem, j.limit) && Fields(j.rose, j.st)[i].Bits()
    ensures JobOk(j) && UnnoticedIn(j, Fields(j.rose, j.st)[..i], Fields(j.rose, j.st)[i])
  {
    hide Fields, JobOk, Enc, CutMultibit, Prepared, Noticed, NoticedAt, ZeroFrom, Visible;
    CutIsNoticed(j, i);
  }

  lemma UnnoticedInSom(j: Job, i: nat)
    requires Prepared(j, i) && !NoticedAt(j, i) && ZeroFrom(j.mem, j.limit) && InSom(j.rose, j.st, i)
    ensures Template(j.codec, j.rose, Expanding(j), Begin(j)).Some?
  {
    hide Fields, UpToEngines, SomOf, JobOk, Template, UnnoticedIn, NoticedAt, Prepared, ZeroFrom;
    var k := i - |UpToEngines(j.rose, j.st)|;
    SomIsBits(j.rose, k);
    CutIsUnnoticedIn(j, i);
    SomAccepted(j, k);
  }

  lemma UnnoticedInTrailing(j: Job, i: nat)
    requires Prepared(j, i) && !NoticedAt(j, i) && ZeroFrom(j.mem, j.limit) && InTrailing(j.rose, j.st, i)
    ensures Template(j.codec, j.rose, Expanding(j), Begin(j)).Some?
  {
    hide Fields, UpToHistory, JobOk, Template, UnnoticedIn, NoticedAt, Prepared, ZeroFrom, LeafsOf, LeftsOf;
    CutIsUnnoticedIn(j, i);
    TrailingAccepted(j, i - |UpToHistory(j.rose, j.st.offset)|);
  }

  lemma UnnoticedIsBits(j: Job, i: nat)
    requires Prepared(j, i) && !NoticedAt(j, i)
    ensures Fields(j.rose, j.st)[i].Bits()
  {
    hide Fields, JobOk, Certain, Encode;
  }

  lemma UnnoticedAccepted(j: Job, i: nat)
    requires Prepared(j, i) && !NoticedAt(j, i) && ZeroFrom(j.mem, j.limit)
    ensures Template(j.codec, j.rose, Expanding(j), Begin(j)).Some?
  {
    CutBehindCertain(j.codec, j.rose, j.st, j.limit, i);
    CutPlaces(j.rose, j.st, i);
    UnnoticedIsBits(j, i);
    hide Fields, UpToEngines, UpToHistory, SomOf, JobOk, Template, NoticedAt, Certain, InTrailing, InSom;
    if InSom(j.rose, j.st, i) {
      UnnoticedInSom(j, i);
    } else {
      UnnoticedInTrailing(j, i);
    }
  }

  // ----- the main results -----

  ghost predicate CutNoticed(c: Codec, rose: Rose, st: Stream, limit: nat) {
    exists i: nat :: CutIn(c, rose, st, limit, i) && NoticedThere(c, rose, st, limit, i)
  }

  ghost predicate NoticedThere(c: Codec, rose: Rose, st: Stream, limit: nat, i: nat)
    requires CutIn(c, rose, st, limit, i)
  {
    var fs := Fields(rose, st);
    Noticed(c, rose, st, fs[i], limit - |Encode(c, rose, st, fs[..i])|)
  }

  /** For every cut: it is refused whatever follows it, if and only if it is before the end of the certain
      regions or is noticed. */
  lemma CutRefusedIff(c: Codec, rose: Rose, base: Stream, st: Stream, limit: nat)
    requires CodecOk(c) && Shaped(rose, st) && Room(rose, base) && limit < |Serialized(c, rose, st)|
    ensures CutRefused(c, rose, base, st, limit) <==>
              limit < |Encode(c, rose, st, Certain(rose, st))| || CutNoticed(c, rose, st, limit)
  {
    var i := CutAt(c, rose, st, limit);
    OneCut(c, rose, st, limit, i);
    hide CodecOk, Shaped, Room, Certain, Fields, Serialized, Template, Noticed, Encode;
    if limit < |Encode(c, rose, st, Certain(rose, st))| || NoticedThere(c, rose, st, limit, i) {
      forall mem: nat -> Byte | AgreesBelow(mem, 0, Serialized(c, rose, st), limit)
        ensures Template(c, rose, ExpandFrom(mem, limit), State(0, [], base)).None?
      {
        CutIsRefused(Job(c, rose, base, st, mem, limit), i);
      }
    } else {
      CutIsAccepted(Job(c, rose, base, st, ZeroFill(Serialized(c, rose, st), limit), limit), i);
    }
  }

  lemma CutIsRefused(j: Job, i: nat)
    requires JobOk(j) && CutIn(j.codec, j.rose, j.st, j.limit, i)
    requires j.limit < |Encode(j.codec, j.rose, j.st, Certain(j.rose, j.st))|
        || NoticedThere(j.codec, j.rose, j.st, j.limit, i)
    ensures Template(j.codec, j.rose, ExpandFrom(j.mem, j.limit), State(0, [], j.base)).None?
  {
    hide JobOk, Certain, Fields, Template, Noticed, Encode;
    TemplateOutcome(j);
    if |Encode(j.codec, j.rose, j.st, Certain(j.rose, j.st))| <= j.limit {
      NoticedRefused(j, i);
    }
  }

  lemma CutIsAccepted(j: Job, i: nat)
    requires JobOk(j) && CutIn(j.codec, j.rose, j.st, j.limit, i) && !NoticedThere(j.codec, j.rose, j.st, j.limit, i)
    requires |Encode(j.codec, j.rose, j.st, Certain(j.rose, j.st))| <= j.limit && ZeroFrom(j.mem, j.limit)
    ensures Template(j.codec, j.rose, ExpandFrom(j.mem, j.limit), State(0, [], j.base)).Some?
  {
    hide JobOk, Certain, Fields, Template, Noticed, Encode;
    UnnoticedAccepted(j, i);
  }

  lemma CutAt(c: Codec, rose: Rose, st: Stream, limit: nat) returns (i: nat)
    requires limit < |Serialized(c, rose, st)|
    ensures CutIn(c, rose, st, limit, i)
  {
    assert Fields(rose, st)[..|Fields(rose, st)|] == Fields(rose, st);
    i := CutExists(c, rose, st, limit, |Fields(rose, st)|);
  }

  /** A cut is in one region only. */
  lemma OneCut(c: Codec, rose: Rose, st: Stream, limit: nat, i: nat)
    requires CutIn(c, rose, st, limit, i)
    ensures forall k: nat | CutIn(c, rose, st, limit, k) :: k == i
  {
    var fs := Fields(rose, st);
    hide Fields, Encode;
    forall k: nat | CutIn(c, rose, st, limit, k) ensures k == i {
      if k < i {
        assert fs[..k + 1] <= fs[..i];
        EncodeWithin(c, rose, st, fs[..k + 1], fs[..i]);
      } else if i < k {
        assert fs[..i + 1] <= fs[..k];
        EncodeWithin(c, rose, st, fs[..i + 1], fs[..k]);
      }
    }
  }

  /** Every proper prefix of a compressed stream is refused, whatever follows it, if and only if no byte of
      it lies behind the certain regions. */
  lemma EveryCutRefusedIff(c: Codec, rose: Rose, base: Stream, st: Stream)
    requires CodecOk(c) && Shaped(rose, st) && Room(rose, base)
    ensures (forall limit: nat | limit < |Serialized(c, rose, st)| :: CutRefused(c, rose, base, st, limit))
       <==> |Encode(c, rose, st, Certain(rose, st))| == |Serialized(c, rose, st)|
  {
    var certain, all := |Encode(c, rose, st, Certain(rose, st))|, |Serialized(c, rose, st)|;
    CertainIsPrefix(rose, st);
    EncodeWithin(c, rose, st, Certain(rose, st), Fields(rose, st));
    hide CodecOk, Shaped, Room, Certain, Fields, Serialized, CutRefused, CutNoticed, Encode;
    if certain == all {
      forall limit: nat | limit < all ensures CutRefused(c, rose, base, st, limit) {
        CutRefusedIff(c, rose, base, st, limit);
      }
    } else {
      CutBehindUnnoticed(c, rose, st);
      CutRefusedIff(c, rose, base, st, certain);
    }
  }

  /** A cut right behind the certain regions leaves nothing to be seen of the next one. */
  lemma CutBehindUnnoticed(c: Codec, rose: Rose, st: Stream)
    requires CodecOk(c) && Shaped(rose, st)
    requires |Encode(c, rose, st, Certain(rose, st))| < |Serialized(c, rose, st)|
    ensures !CutNoticed(c, rose, st, |Encode(c, rose, st, Certain(rose, st))|)
  {
    var limit, fs := |Encode(c, rose, st, Certain(rose, st))|, Fields(rose, st);
    var i := CutAt(c, rose, st, limit);
    OneCut(c, rose, st, limit, i);
    FirstBehindCertain(c, rose, st, i);
    hide CodecOk, Shaped, Certain, Fields, Encode, Noticed;
    NothingSeen(c, rose, st, fs[i]);
  }

  lemma FirstBehindCertain(c: Codec, rose: Rose, st: Stream, i: nat)
    requires CodecOk(c) && Shaped(rose, st) && CutIn(c, rose, st, |Encode(c, rose, st, Certain(rose, st))|, i)
    ensures |Encode(c, rose, st, Fields(rose, st)[..i])| == |Encode(c, rose, st, Certain(rose, st))|
    ensures Fields(rose, st)[i].Bits()
  {
    CutBehindCertain(c, rose, st, |Encode(c, rose, st, Certain(rose, st))|, i);
    CutPlaces(rose, st, i);
    NotASlot(c, rose, st, i);
    hide Encode, Certain, Fields, InTrailing, InSom, InSlots;
    PlacesAreBits(rose, st, i);
  }

  lemma PlacesAreBits(rose: Rose, st: Stream, i: nat)
    requires InTrailing(rose, st, i) || InSom(rose, st, i)
    ensures i < |Fields(rose, st)| && Fields(rose, st)[i].Bits()
  {
    hide Fields, UpToHistory, UpToEngines, SomOf, LeafsOf, LeftsOf;
    if InTrailing(rose, st, i) {
      assert TRAILING[i - |UpToHistory(rose, st.offset)|].Bits();
    } else {
      SomIsBits(rose, i - |UpToEngines(rose, st)|);
    }
  }

  lemma NotASlot(c: Codec, rose: Rose, st: Stream, i: nat)
    requires CodecOk(c) && Shaped(rose, st) && CutIn(c, rose, st, |Encode(c, rose, st, Certain(rose, st))|, i)
    ensures !InSlots(rose, st, i)
  {
    var front := UpToEngines(rose, st) + SomOf(rose);
    hide CodecOk, Shaped, Encode, Certain, Fields, UpToEngines, SomOf;
    if InSlots(rose, st, i) {
      SlotsBehindBytes(c, rose, st, i);
      EncodeWithin(c, rose, st, front, Fields(rose, st)[..i]);
    }
  }

  lemma NothingSeen(c: Codec, rose: Rose, st: Stream, f: Field)
    requires f.Bits()
    ensures !Noticed(c, rose, st, f, 0)
  {
  }

  /** Match starts come behind the set that names them, which has bytes. */
  lemma SlotsBehindBytes(c: Codec, rose: Rose, st: Stream, i: nat)
    requires CodecOk(c) && Shaped(rose, st) && InSlots(rose, st, i)
    ensures |Encode(c, rose, st, Certain(rose, st))| < |Encode(c, rose, st, UpToEngines(rose, st) + SomOf(rose))|
  {
    FieldsSplit(rose, st);
    assert rose.hasSom && rose.somCount > 0;
    PlainPiece(c, rose, st, SomValid);
    CodecFacts(c, rose.totals(SomValid), BitsOf(st, SomValid));
    assert |Piece(c, rose, st, SomValid)| > 0;
    assert UpToEngines(rose, st) + SomOf(rose) == UpToEngines(rose, st) + [SomWritable] + [SomValid];
    CertainWithinEngines(rose, st);
    hide CodecOk, Shaped, Certain, Fields, Encode, UpToEngines, SomOf, Piece;
    EncodeAppend(c, rose, st, UpToEngines(rose, st) + [SomWritable], SomValid);
    EncodeWithin(c, rose, st, Certain(rose, st), UpToEngines(rose, st) + [SomWritable]);
  }

  lemma CertainWithinEngines(rose: Rose, st: Stream)
    ensures Certain(rose, st) <= UpToEngines(rose, st) <= UpToEngines(rose, st) + [SomWritable]
  {
    FieldsSplit(rose, st);
    hide LeafsOf, LeftsOf, UpToHistory;
  }
}
