/** What a hybrid scan promises: the match sequence of each pattern, and the invariant that keeps the
    merged Hyperscan and PCRE matches on the way to it. */
module Chimera {
  import opened MatchQueue

  datatype Option<T> = None | Some(value: T)

  const CH_SUCCESS := 0
  const CH_INVALID := -1
  const CH_SCAN_TERMINATED := -3
  const CH_SCRATCH_IN_USE := -10
  const CH_FAIL_INTERNAL := -32

  const CH_CALLBACK_TERMINATE := 1
  const CH_CALLBACK_SKIP_PATTERN := 2

  const HS_SUCCESS := 0
  const HS_SCAN_TERMINATED := -3

  const INT_MAX := 0x7FFF_FFFF
  const U32_RANGE := 0x1_0000_0000

  /** The `fixedWidth` of a pattern whose matches need confirmation by PCRE. */
  const NEEDS_CONFIRM := U32_RANGE - 1

  // ----- inputs of a scan -----

  datatype Span = Span(from: nat, to: nat)

  datatype Pattern = Pattern(single: bool, utf8: bool, minWidth: nat, fixedWidth: nat) {
    predicate Confirmed() {
      fixedWidth == NEEDS_CONFIRM
    }
  }

  /** A match reported by Hyperscan for the pattern with index `id`. */
  datatype Hit = Hit(id: nat, from: nat, to: nat)

  datatype PcreError = MatchLimit | RecursionLimit | BadUtf8 | OtherError

  /** A call of PCRE for a pattern, from `start` on. */
  datatype PcreRun = PcreRun(pattern: nat, start: nat)

  /** What the user's callbacks have been told so far. */
  datatype Event = Reported(pattern: nat, span: Span) | LimitHit(kind: PcreError, pattern: nat)

  /** Everything a scan depends on.  PCRE and Hyperscan are oracles: `leftmost(p, s)` is the leftmost
      match of pattern `p` at or after `s`, `pcreError` says which calls fail, `hits` is what Hyperscan
      delivers.  A callback answers from the whole history of events, so any stateful callback is one. */
  datatype Env = Env(
    data: seq<bv8>,
    validUtf8: bool,
    patterns: seq<Pattern>,
    unguarded: seq<nat>,
    allConfirm: bool,
    allSingle: bool,
    noMultimatch: bool,
    leftmost: (nat, nat) -> Option<Span>,
    pcreError: (nat, nat) -> Option<PcreError>,
    hits: seq<Hit>,
    hsStatus: int,
    onEvent: seq<Event> -> int,
    onError: Option<seq<Event> -> int>
  )

  // ----- the match sequence of a pattern -----

  predicate ContinuationByte(b: bv8) {
    b & 0xC0 == 0x80
  }

  /** The first offset from `i` on that is not inside a code point. */
  function NextCodePoint(data: seq<bv8>, i: nat): (next: nat)
    ensures i <= next
    ensures i <= |data| ==> next <= |data|
    ensures i > |data| ==> next == i
    ensures forall j | i <= j < next :: j < |data| && data[j] & 0xC0 == 0x80
    ensures next < |data| ==> data[next] & 0xC0 != 0x80
    decreases |data| - i
  {
    if i < |data| && ContinuationByte(data[i]) then NextCodePoint(data, i + 1) else i
  }

  /** Where scanning resumes after a match: at its end, or one code point on if it is empty. */
  function Resume(env: Env, p: nat, span: Span): nat
    requires p < |env.patterns|
  {
    if span.from != span.to then span.to
    else if env.patterns[p].utf8 then NextCodePoint(env.data, span.to + 1)
    else span.to + 1
  }

  /** Where that is: behind the match; if it is empty, one byte on, and in UTF-8 past the continuation bytes
      that follow. */
  lemma ResumeMeans(env: Env, p: nat, span: Span)
    requires p < |env.patterns| && span.from <= span.to <= |env.data|
    ensures var next := Resume(env, p, span);
            && (span.from < span.to ==> next == span.to)
            && (span.from == span.to ==>
                  && span.to < next
                  && (!env.patterns[p].utf8 ==> next == span.to + 1)
                  && (forall j | span.to < j < next :: j < |env.data| && env.data[j] & 0xC0 == 0x80)
                  && (env.patterns[p].utf8 && next < |env.data| ==> env.data[next] & 0xC0 != 0x80))
  {
  }

  /** PCRE reports matches that lie in the scanned region. */
  ghost predicate PcreInRange(env: Env) {
    forall p, s :: InRange(env, s, env.leftmost(p, s))
  }

  ghost predicate InRange(env: Env, s: nat, found: Option<Span>) {
    found.Some? ==> s <= found.value.from <= found.value.to <= |env.data|
  }

  lemma ResumeAdvances(env: Env, p: nat, start: nat, span: Span)
    requires p < |env.patterns| && start <= span.from <= span.to <= |env.data|
    ensures start < Resume(env, p, span) <= |env.data| + 1
    ensures span.to <= Resume(env, p, span)
  {
  }

  /** The matches found by running PCRE from `start`, again from where each match ends, and so on. */
  ghost function Iterated(env: Env, p: nat, start: nat): seq<Span>
    requires p < |env.patterns| && PcreInRange(env)
    decreases |env.data| + 1 - start
  {
    if start > |env.data| || env.leftmost(p, start).None? then []
    else
      var span := env.leftmost(p, start).value;
      assert InRange(env, start, env.leftmost(p, start));
      ResumeAdvances(env, p, start, span);
      [span] + Iterated(env, p, Resume(env, p, span))
  }

  /** What is still to come after a match of `p` from which scanning resumes at `start`. */
  ghost function Rest(env: Env, p: nat, start: nat): seq<Span>
    requires p < |env.patterns| && PcreInRange(env)
  {
    if env.patterns[p].single then [] else Iterated(env, p, start)
  }

  /** The match sequence of a pattern: iterated PCRE, or only its first match for SINGLEMATCH. */
  ghost function Expected(env: Env, p: nat): seq<Span>
    requires p < |env.patterns| && PcreInRange(env)
  {
    var all := Iterated(env, p, 0);
    if env.patterns[p].single && |all| > 0 then all[..1] else all
  }

  // ----- reports -----

  /** The spans reported for pattern `p`. */
  function Project(log: seq<Event>, p: nat): seq<Span> {
    if log == [] then []
    else
      var last := log[|log| - 1];
      Project(log[..|log| - 1], p) + (if last.Reported? && last.pattern == p then [last.span] else [])
  }

  lemma ProjectAppend(log: seq<Event>, e: Event, p: nat)
    ensures Project(log + [e], p) == Project(log, p) + (if e.Reported? && e.pattern == p then [e.span] else [])
  {
    assert (log + [e])[..|log|] == log;
  }

  /** The user answered "skip this pattern" to event `i`. */
  ghost predicate SkipAt(env: Env, log: seq<Event>, i: nat)
    requires i < |log|
  {
    log[i].Reported? && env.onEvent(log[..i + 1]) == CH_CALLBACK_SKIP_PATTERN
  }

  /** The answer to event `i` ends the scan wherever it is given. */
  ghost predicate StopAt(env: Env, log: seq<Event>, i: nat)
    requires i < |log|
  {
    match log[i]
    case Reported(_, _) => env.onEvent(log[..i + 1]) == CH_CALLBACK_TERMINATE
    case LimitHit(_, _) =>
      && env.onError.Some?
      && (|| env.onError.value(log[..i + 1]) == CH_CALLBACK_TERMINATE
          || env.onError.value(log[..i + 1]) == CH_FAIL_INTERNAL)
  }

  ghost predicate Skipped(env: Env, log: seq<Event>, p: nat) {
    exists i: nat | i < |log| :: log[i].pattern == p && SkipAt(env, log, i)
  }

  /** Event `i` is the last one of its pattern: the user skips it, or PCRE ran into a limit. */
  ghost predicate EndsAt(env: Env, log: seq<Event>, i: nat)
    requires i < |log|
  {
    log[i].LimitHit? || SkipAt(env, log, i)
  }

  ghost predicate Finished(env: Env, log: seq<Event>, p: nat) {
    exists i: nat | i < |log| :: log[i].pattern == p && EndsAt(env, log, i)
  }

  /** What running PCRE for pattern `p` from `start` raises: every utf8 scan fails on invalid data. */
  function Failure(env: Env, p: nat, start: nat): Option<PcreError>
    requires p < |env.patterns|
  {
    if env.patterns[p].utf8 && !env.validUtf8 then Some(BadUtf8) else env.pcreError(p, start)
  }

  /** Where PCRE looks for the next match of `p` once `found` are found. */
  function NextStart(env: Env, p: nat, found: seq<Span>): nat
    requires p < |env.patterns|
  {
    if found == [] then 0 else Resume(env, p, found[|found| - 1])
  }

  /** PCRE fails on `p` where it is to look for a match, once `found` are found. */
  ghost predicate FailsAfter(env: Env, p: nat, found: seq<Span>)
    requires p < |env.patterns|
  {
    && (found == [] || !env.patterns[p].single)
    && NextStart(env, p, found) <= |env.data| && Failure(env, p, NextStart(env, p, found)).Some?
  }

  /** PCRE fails somewhere along the match sequence of `p`. */
  ghost predicate Fails(env: Env, p: nat)
    requires PcreInRange(env)
  {
    p < |env.patterns| && exists found: seq<Span> :: found <= Expected(env, p) && FailsAfter(env, p, found)
  }

  /** The errors of which the user is told; every other one ends the scan. */
  predicate Limit(kind: PcreError) {
    kind == MatchLimit || kind == RecursionLimit
  }

  /** PCRE ran into a limit where it was to look for the match of `p` behind the reported ones, and the
      user, if there is a handler, was told so. */
  ghost predicate Missed(env: Env, log: seq<Event>, p: nat)
    requires p < |env.patterns|
  {
    var found := Project(log, p);
    && FailsAfter(env, p, found)
    && var kind := Failure(env, p, NextStart(env, p, found)).value;
       Limit(kind) && (env.onError.Some? ==> LimitHit(kind, p) in log)
  }

  /** Matches of `p` may be missing: the user skipped it or PCRE ran into a limit on it. */
  ghost predicate Cut(env: Env, log: seq<Event>, p: nat)
    requires p < |env.patterns|
  {
    Skipped(env, log, p) || Missed(env, log, p)
  }

  /** PCRE did not fail where it looked for the matches `found`. */
  ghost predicate Unfailed(env: Env, p: nat, found: seq<Span>)
    requires p < |env.patterns|
  {
    forall n | 0 <= n < |found| :: !FailsAfter(env, p, found[..n])
  }

  /** Reported end offsets never decrease. */
  ghost predicate Sorted(log: seq<Event>) {
    forall i, j | 0 <= i < j < |log| && log[i].Reported? && log[j].Reported? :: log[i].span.to <= log[j].span.to
  }

  /** All hits come in order of their ends, those of prefiltered patterns too. */
  ghost predicate AllInOrder(env: Env) {
    forall j, k | 0 <= j < k < |env.hits| :: env.hits[j].to <= env.hits[k].to
  }

  /** The reports are in order if the hits are. */
  ghost predicate OrderKept(env: Env, log: seq<Event>) {
    AllInOrder(env) ==> Sorted(log)
  }

  /** A pattern the user skipped, or on which PCRE ran into a limit, has no later event. */
  ghost predicate EndsHonoured(env: Env, log: seq<Event>) {
    forall i, j | 0 <= i < j < |log| && EndsAt(env, log, i) :: log[j].pattern != log[i].pattern
  }

  ghost predicate NeverStopped(env: Env, log: seq<Event>) {
    forall i | 0 <= i < |log| :: !StopAt(env, log, i)
  }

  /** An event that tells of a limit tells the truth: PCRE ran into it where it was to look for the match
      behind the ones reported before. */
  ghost predicate LimitMet(env: Env, before: seq<Event>, e: Event) {
    e.LimitHit? ==>
      && e.pattern < |env.patterns| && env.onError.Some?
      && var found := Project(before, e.pattern);
         && FailsAfter(env, e.pattern, found)
         && Failure(env, e.pattern, NextStart(env, e.pattern, found)) == Some(e.kind) && Limit(e.kind)
  }

  ghost predicate LimitsMet(env: Env, log: seq<Event>) {
    forall i | 0 <= i < |log| :: LimitMet(env, log[..i], log[i])
  }

  /** No event follows the user's request to stop. */
  ghost predicate StopsHonoured(env: Env, log: seq<Event>) {
    forall i | 0 <= i < |log| - 1 :: !StopAt(env, log, i)
  }

  /** The reports of `p` are a prefix of its match sequence; if PCRE finds them all, then without a failure. */
  ghost predicate IsPrefix(env: Env, log: seq<Event>, p: nat)
    requires PcreInRange(env) && p < |env.patterns|
  {
    Project(log, p) <= Expected(env, p) && (Exact(env, p) || Unfailed(env, p, Project(log, p)))
  }

  ghost predicate Prefixes(env: Env, log: seq<Event>)
    requires PcreInRange(env)
  {
    forall p | 0 <= p < |env.patterns| :: IsPrefix(env, log, p)
  }

  /** What holds of the events of every scan, however it ends. */
  ghost predicate Safe(env: Env, log: seq<Event>)
    requires PcreInRange(env)
  {
    && Prefixes(env, log) && OrderKept(env, log) && EndsHonoured(env, log) && StopsHonoured(env, log)
    && LimitsMet(env, log)
  }

  // ----- the calls of PCRE -----

  /** PCRE is called only where the next match of a pattern is to be found. */
  ghost predicate Looks(env: Env, r: PcreRun)
    requires PcreInRange(env)
  {
    && r.pattern < |env.patterns|
    && exists found: seq<Span> ::
         && found <= Expected(env, r.pattern) && r.start == NextStart(env, r.pattern, found) <= |env.data|
         && (found == [] || !env.patterns[r.pattern].single)
  }

  /** PCRE fails with something else than a limit. */
  predicate HardFailure(env: Env, r: PcreRun) {
    && r.pattern < |env.patterns| && Failure(env, r.pattern, r.start).Some?
    && !Limit(Failure(env, r.pattern, r.start).value)
  }

  predicate NoHardFailure(env: Env, runs: seq<PcreRun>) {
    forall i | 0 <= i < |runs| :: !HardFailure(env, runs[i])
  }

  /** The events that tell of limits. */
  function LimitEvents(log: seq<Event>): seq<Event> {
    if log == [] then []
    else LimitEvents(log[..|log| - 1]) + (if log[|log| - 1].LimitHit? then [log[|log| - 1]] else [])
  }

  /** The limits these calls run into, as the user is to be told of them. */
  function LimitsOf(env: Env, runs: seq<PcreRun>): seq<Event> {
    if runs == [] || env.onError.None? then []
    else
      var r := runs[|runs| - 1];
      LimitsOf(env, runs[..|runs| - 1])
      + if r.pattern < |env.patterns| && Failure(env, r.pattern, r.start).Some?
           && Limit(Failure(env, r.pattern, r.start).value)
        then [LimitHit(Failure(env, r.pattern, r.start).value, r.pattern)] else []
  }

  /** The user is told of exactly the limits PCRE runs into, and no call follows another failure. */
  ghost predicate RunsOk(env: Env, log: seq<Event>, runs: seq<PcreRun>)
    requires PcreInRange(env)
  {
    && LimitEvents(log) == LimitsOf(env, runs)
    && (forall i | 0 <= i < |runs| :: Looks(env, runs[i]))
    && NoHardFailure(env, if runs == [] then [] else runs[..|runs| - 1])
  }

  // ----- what is assumed of the compiled database and of Hyperscan -----

  /** Pattern `p` is reported by Hyperscan with its exact matches. */
  ghost predicate Exact(env: Env, p: nat)
    requires p < |env.patterns|
  {
    !env.patterns[p].Confirmed() && p !in env.unguarded
  }

  ghost predicate WellCompiled(env: Env) {
    && |env.patterns| < U32_RANGE
    && (forall i | 0 <= i < |env.unguarded| :: env.unguarded[i] < |env.patterns|)
    && (forall i, j | 0 <= i < j < |env.unguarded| :: env.unguarded[i] != env.unguarded[j])
    && (forall p | 0 <= p < |env.patterns| && !env.patterns[p].Confirmed() ::
          1 <= env.patterns[p].fixedWidth == env.patterns[p].minWidth < NEEDS_CONFIRM)
    && (env.allConfirm ==> forall p | 0 <= p < |env.patterns| :: env.patterns[p].Confirmed())
    && (env.allSingle ==> forall p | 0 <= p < |env.patterns| :: env.patterns[p].single)
    && (env.noMultimatch ==> forall p | 0 <= p < |env.patterns| :: p in env.unguarded)
  }

  ghost predicate HitInRange(env: Env, h: Hit) {
    h.id < |env.patterns| && h.id !in env.unguarded && h.from <= h.to <= |env.data|
  }

  /** Hits are of guarded patterns; those of each fixed-width pattern come in order of their ends. */
  ghost predicate HitsInOrder(env: Env) {
    && (forall k | 0 <= k < |env.hits| :: HitInRange(env, env.hits[k]))
    && (forall j, k | 0 <= j < k < |env.hits| && env.hits[j].id == env.hits[k].id && Exact(env, env.hits[k].id) ::
          env.hits[j].to <= env.hits[k].to)
  }

  /** A hit of a fixed-width pattern is a match, so PCRE finds one no later than it. */
  ghost predicate HitMatches(env: Env, h: Hit) {
    h.id < |env.patterns| && !env.patterns[h.id].Confirmed() ==>
      && h.to == h.from + env.patterns[h.id].fixedWidth
      && forall s: nat | s <= h.from ::
           env.leftmost(h.id, s).Some? && env.leftmost(h.id, s).value.from <= h.from
  }

  /** Hyperscan gave up (with an error status) before reaching offset `to`. */
  ghost predicate GaveUpBefore(env: Env, to: nat) {
    env.hsStatus != HS_SUCCESS && forall k | 0 <= k < |env.hits| :: env.hits[k].to <= to
  }

  /** Every match PCRE can find of a fixed-width pattern is a hit. */
  ghost predicate MatchIsHit(env: Env, p: nat, s: nat) {
    p < |env.patterns| && Exact(env, p) && s <= |env.data| && env.leftmost(p, s).Some? ==>
      var x := env.leftmost(p, s).value;
      && x.to == x.from + env.patterns[p].fixedWidth
      && (Hit(p, x.from, x.to) in env.hits || GaveUpBefore(env, x.to))
  }

  ghost predicate HasHitBy(env: Env, p: nat, to: nat) {
    exists k | 0 <= k < |env.hits| :: env.hits[k].id == p && env.hits[k].to <= to
  }

  /** A prefiltered pattern has a hit no later than the end of its first match. */
  ghost predicate PrefilterHits(env: Env, p: nat) {
    p < |env.patterns| && env.patterns[p].Confirmed() && p !in env.unguarded && env.leftmost(p, 0).Some? ==>
      HasHitBy(env, p, env.leftmost(p, 0).value.to) || GaveUpBefore(env, env.leftmost(p, 0).value.to)
  }

  ghost predicate Assumptions(env: Env) {
    && PcreInRange(env)
    && WellCompiled(env)
    && HitsInOrder(env)
    && (forall k | 0 <= k < |env.hits| :: HitMatches(env, env.hits[k]))
    && (forall p, s :: MatchIsHit(env, p, s))
    && (forall p :: PrefilterHits(env, p))
    && env.hsStatus != HS_SCAN_TERMINATED
  }

  /** One fixed-width pattern that matches every byte of two. */
  function SampleEnv(): Env {
    Env([97, 98], true, [Pattern(false, false, 1, 1)], [], false, false, false,
        (p: nat, s: nat) => if p == 0 && s < 2 then Some(Span(s, s + 1)) else None, (p, s) => None,
        [Hit(0, 0, 1), Hit(0, 1, 2)], HS_SUCCESS, l => 0, None)
  }

  /** The assumptions can be met. */
  lemma AssumptionsMet()
    ensures Assumptions(SampleEnv())
  {
    var env := SampleEnv();
    forall p, s ensures MatchIsHit(env, p, s) {
      SampleMatch(p, s);
    }
    assert env.hits[0] == Hit(0, 0, 1);
    hide MatchIsHit;
  }

  lemma SampleMatch(p: nat, s: nat)
    ensures MatchIsHit(SampleEnv(), p, s)
  {
    var env := SampleEnv();
    assert Hit(0, 0, 1) == env.hits[0] && Hit(0, 1, 2) == env.hits[1];
  }

  /** The same with a prefiltered pattern that matches both bytes at once, and is hit out of order. */
  function UnorderedEnv(): Env {
    SampleEnv().(
      patterns := [Pattern(false, false, 1, 1), Pattern(false, false, 0, NEEDS_CONFIRM)],
      leftmost := (p: nat, s: nat) =>
        if p == 0 && s < 2 then Some(Span(s, s + 1)) else if p == 1 && s == 0 then Some(Span(0, 2)) else None,
      hits := [Hit(1, 0, 2), Hit(0, 0, 1), Hit(0, 1, 2)])
  }

  /** The assumptions do not order the hits of prefiltered patterns. */
  lemma UnorderedMet()
    ensures Assumptions(UnorderedEnv()) && !AllInOrder(UnorderedEnv())
  {
    var env := UnorderedEnv();
    forall p, s ensures MatchIsHit(env, p, s) {
      UnorderedMatch(p, s);
    }
    assert env.hits[0] == Hit(1, 0, 2) && env.hits[1] == Hit(0, 0, 1);
    hide MatchIsHit;
  }

  lemma UnorderedMatch(p: nat, s: nat)
    ensures MatchIsHit(UnorderedEnv(), p, s)
  {
    var env := UnorderedEnv();
    assert Hit(0, 0, 1) == env.hits[1] && Hit(0, 1, 2) == env.hits[2];
  }

  lemma SampleExpected()
    ensures Expected(SampleEnv(), 0) == [Span(0, 1), Span(1, 2)]
  {
    var env := SampleEnv();
    assert Iterated(env, 0, 2) == [];
    assert Iterated(env, 0, 1) == [Span(1, 2)] + Iterated(env, 0, 2);
    assert Iterated(env, 0, 0) == [Span(0, 1)] + Iterated(env, 0, 1);
  }
}
