/** The invariant of a hybrid scan and the steps that keep it, on plain values. */
module ChimeraInvariant {
  import opened MatchQueue
  import opened Chimera

  /** The state of a scan: the events and the calls of PCRE so far and, per pattern, its queued match, where
      its next scan starts and whether it has been seen. */
  datatype View = View(log: seq<Event>, runs: seq<PcreRun>, slot: seq<Option<Span>>, start: seq<nat>, active: set<nat>)

  /** What has been reported, what is queued and what PCRE will still find make up the match sequence. */
  ghost predicate PatternOk(env: Env, log: seq<Event>, p: nat, slot: Option<Span>, start: nat, active: bool)
    requires p < |env.patterns| && PcreInRange(env)
  {
    && (active && Exact(env, p) ==> start <= |env.data|)
    && (match slot
        case Some(s) =>
          && active
          && s.from <= s.to <= |env.data|
          && start == Resume(env, p, s)
          && Project(log, p) + [s] + Rest(env, p, start) == Expected(env, p)
          && (Exact(env, p) || Unfailed(env, p, Project(log, p) + [s]))
        case None =>
          if !active then Project(log, p) == []
          else Settled(env, log, p) && (Exact(env, p) && !env.patterns[p].single ==> start == |env.data|))
  }

  /** Nothing more will be reported for `p`. */
  ghost predicate Settled(env: Env, log: seq<Event>, p: nat)
    requires p < |env.patterns| && PcreInRange(env)
  {
    IsPrefix(env, log, p) && (Cut(env, log, p) || Project(log, p) == Expected(env, p))
  }

  /** Hyperscan hits already seen: every match before `start` of a fixed-width pattern is dealt with. */
  ghost predicate HitsSeen(env: Env, start: seq<nat>, active: set<nat>, done: nat)
    requires |start| == |env.patterns| && done <= |env.hits| && HitsInOrder(env)
  {
    forall j | 0 <= j < done :: HitSeen(env, start, active, env.hits[j])
  }

  ghost predicate HitSeen(env: Env, start: seq<nat>, active: set<nat>, h: Hit)
    requires |start| == |env.patterns|
  {
    && h.id < |start|
    && h.id in active
    && (Exact(env, h.id) && !env.patterns[h.id].single ==> h.from < start[h.id])
  }

  ghost predicate ReportsUpTo(env: Env, log: seq<Event>, bound: nat) {
    AllInOrder(env) ==> forall i | 0 <= i < |log| && log[i].Reported? :: log[i].span.to <= bound
  }

  /** With all hits in order, every queued match ends no earlier than every reported one. */
  ghost predicate QueueAfterReports(env: Env, log: seq<Event>, slot: seq<Option<Span>>) {
    forall p | 0 <= p < |slot| && slot[p].Some? :: ReportsUpTo(env, log, slot[p].value.to)
  }

  ghost predicate LogOk(env: Env, log: seq<Event>) {
    OrderKept(env, log) && EndsHonoured(env, log) && NeverStopped(env, log) && LimitsMet(env, log)
  }

  ghost predicate RunsGood(env: Env, log: seq<Event>, runs: seq<PcreRun>)
    requires PcreInRange(env)
  {
    RunsOk(env, log, runs) && NoHardFailure(env, runs)
  }

  ghost predicate EndsFinal(env: Env, log: seq<Event>, slot: seq<Option<Span>>, active: set<nat>) {
    forall p | 0 <= p < |slot| && Finished(env, log, p) :: slot[p].None? && p in active
  }

  ghost predicate PatternsOk(env: Env, v: View, exempt: int)
    requires |v.slot| == |v.start| == |env.patterns| && PcreInRange(env)
  {
    forall p | 0 <= p < |v.slot| && p != exempt :: PatternOk(env, v.log, p, v.slot[p], v.start[p], p in v.active)
  }

  /** The scan invariant after `done` Hyperscan hits, with reports up to offset `bound`; the pattern
      `exempt`, if it is one, is between two of its matches. */
  ghost predicate Good(env: Env, v: View, done: nat, bound: nat, exempt: int)
    requires Assumptions(env)
  {
    && |v.slot| == |v.start| == |env.patterns|
    && done <= |env.hits|
    && PatternsOk(env, v, exempt)
    && HitsSeen(env, v.start, v.active, done)
    && ReportsUpTo(env, v.log, bound)
    && QueueAfterReports(env, v.log, v.slot)
    && LogOk(env, v.log)
    && EndsFinal(env, v.log, v.slot, v.active)
    && RunsGood(env, v.log, v.runs)
  }

  // ----- appending an event -----

  /** The answers about a limit that end the scan wherever they are given. */
  predicate Ends(answer: int) {
    answer == CH_CALLBACK_TERMINATE || answer == CH_FAIL_INTERNAL
  }

  lemma SkipAtAppend(env: Env, log: seq<Event>, e: Event, i: nat)
    requires i < |log|
    ensures SkipAt(env, log + [e], i) == SkipAt(env, log, i)
    ensures StopAt(env, log + [e], i) == StopAt(env, log, i)
    ensures EndsAt(env, log + [e], i) == EndsAt(env, log, i)
  {
    assert (log + [e])[..i + 1] == log[..i + 1];
  }

  lemma SkipAtLast(env: Env, log: seq<Event>, e: Event)
    ensures SkipAt(env, log + [e], |log|) == (e.Reported? && env.onEvent(log + [e]) == CH_CALLBACK_SKIP_PATTERN)
    ensures EndsAt(env, log + [e], |log|)
         == (e.LimitHit? || (e.Reported? && env.onEvent(log + [e]) == CH_CALLBACK_SKIP_PATTERN))
    ensures e.Reported? ==> (StopAt(env, log + [e], |log|) <==> env.onEvent(log + [e]) == CH_CALLBACK_TERMINATE)
    ensures e.LimitHit? ==>
              (StopAt(env, log + [e], |log|) <==> env.onError.Some? && Ends(env.onError.value(log + [e])))
  {
    assert (log + [e])[..|log| + 1] == log + [e];
  }

  lemma SkippedAppend(env: Env, log: seq<Event>, e: Event, p: nat)
    requires Skipped(env, log, p)
    ensures Skipped(env, log + [e], p)
  {
    hide SkipAt;
    var i: nat :| i < |log| && log[i].pattern == p && SkipAt(env, log, i);
    SkipAtAppend(env, log, e, i);
    assert (log + [e])[i].pattern == p && SkipAt(env, log + [e], i);
  }

  lemma SkippedLast(env: Env, log: seq<Event>, e: Event)
    requires e.Reported? && env.onEvent(log + [e]) == CH_CALLBACK_SKIP_PATTERN
    ensures Skipped(env, log + [e], e.pattern)
  {
    SkipAtLast(env, log, e);
    assert (log + [e])[|log|].pattern == e.pattern && SkipAt(env, log + [e], |log|);
  }

  lemma FinishedAppend(env: Env, log: seq<Event>, e: Event, p: nat)
    ensures Finished(env, log + [e], p) <==> Finished(env, log, p) || (e.pattern == p && EndsAt(env, log + [e], |log|))
  {
    hide EndsAt;
    var after := log + [e];
    assert after[|log|] == e;
    if Finished(env, log, p) {
      var i: nat :| i < |log| && log[i].pattern == p && EndsAt(env, log, i);
      SkipAtAppend(env, log, e, i);
      assert after[i].pattern == p && EndsAt(env, after, i);
    }
    if e.pattern == p && EndsAt(env, after, |log|) {
      assert after[|log|].pattern == p && EndsAt(env, after, |log|);
    }
    if Finished(env, after, p) {
      var i: nat :| i < |after| && after[i].pattern == p && EndsAt(env, after, i);
      if i < |log| {
        SkipAtAppend(env, log, e, i);
        assert log[i].pattern == p && EndsAt(env, log, i);
      }
    }
  }

  lemma AppendSorted(env: Env, log: seq<Event>, e: Event)
    requires OrderKept(env, log) && (e.Reported? ==> ReportsUpTo(env, log, e.span.to))
    ensures OrderKept(env, log + [e])
  {
  }

  lemma AppendEnds(env: Env, log: seq<Event>, e: Event)
    requires EndsHonoured(env, log) && !Finished(env, log, e.pattern)
    ensures EndsHonoured(env, log + [e])
  {
    hide EndsAt;
    forall i, j | 0 <= i < j < |log + [e]| && EndsAt(env, log + [e], i)
      ensures (log + [e])[j].pattern != (log + [e])[i].pattern
    {
      SkipAtAppend(env, log, e, i);
      if j == |log| {
        assert log[i].pattern == (log + [e])[i].pattern && EndsAt(env, log, i);
      } else {
        assert log[j] == (log + [e])[j];
      }
    }
  }

  lemma AppendLimits(env: Env, log: seq<Event>, e: Event)
    requires LimitsMet(env, log) && LimitMet(env, log, e)
    ensures LimitsMet(env, log + [e])
  {
    hide LimitMet;
    var after := log + [e];
    forall i | 0 <= i < |after| ensures LimitMet(env, after[..i], after[i]) {
      if i < |log| {
        assert after[..i] == log[..i] && after[i] == log[i];
      } else {
        assert after[..i] == log && after[i] == e;
      }
    }
  }

  lemma AppendStops(env: Env, log: seq<Event>, e: Event)
    requires NeverStopped(env, log)
    ensures StopsHonoured(env, log + [e])
    ensures NeverStopped(env, log + [e]) <==> !StopAt(env, log + [e], |log|)
  {
    hide StopAt, SkipAt, EndsAt;
    forall i | 0 <= i < |log| ensures !StopAt(env, log + [e], i) {
      SkipAtAppend(env, log, e, i);
    }
  }

  /** Events about other patterns leave a pattern as it was. */
  lemma PatternOkAppend(env: Env, log: seq<Event>, e: Event, p: nat, slot: Option<Span>, start: nat, active: bool)
    requires p < |env.patterns| && PcreInRange(env)
    requires PatternOk(env, log, p, slot, start, active)
    requires e.Reported? ==> e.pattern != p
    ensures PatternOk(env, log + [e], p, slot, start, active)
  {
    hide Project, Skipped, Expected, Rest, Resume, FailsAfter, Failure, NextStart, Unfailed;
    ProjectAppend(log, e, p);
    if Skipped(env, log, p) {
      SkippedAppend(env, log, e, p);
    }
    assert Project(log, p) + [] == Project(log, p);
  }

  lemma PatternIsPrefix(env: Env, log: seq<Event>, p: nat, slot: Option<Span>, start: nat, active: bool)
    requires p < |env.patterns| && PcreInRange(env)
    requires PatternOk(env, log, p, slot, start, active)
    ensures IsPrefix(env, log, p)
  {
    hide Project, Expected, Rest, Resume, FailsAfter;
    if slot.Some? {
      assert Project(log, p) + [slot.value] + Rest(env, p, start)
          == Project(log, p) + ([slot.value] + Rest(env, p, start));
      if !Exact(env, p) {
        UnfailedFront(env, p, Project(log, p), slot.value);
      }
    }
  }

  lemma UnfailedFront(env: Env, p: nat, found: seq<Span>, s: Span)
    requires p < |env.patterns|
    ensures Unfailed(env, p, found + [s]) <==> Unfailed(env, p, found) && !FailsAfter(env, p, found)
  {
    hide FailsAfter;
    var all := found + [s];
    assert all[..|found|] == found;
    forall n | 0 <= n < |found| ensures all[..n] == found[..n] {
    }
    if Unfailed(env, p, found) && !FailsAfter(env, p, found) {
      forall n | 0 <= n < |all| ensures !FailsAfter(env, p, all[..n]) {
        assert n < |found| ==> all[..n] == found[..n];
      }
    }
    if Unfailed(env, p, all) {
      assert !FailsAfter(env, p, all[..|found|]);
      forall n | 0 <= n < |found| ensures !FailsAfter(env, p, found[..n]) {
        assert all[..n] == found[..n] && !FailsAfter(env, p, all[..n]);
      }
    }
  }

  lemma GoodIsSafe(env: Env, v: View, done: nat, bound: nat)
    requires Assumptions(env) && Good(env, v, done, bound, -1)
    ensures Safe(env, v.log)
  {
    assert PcreInRange(env);
    hide Assumptions, PatternOk, EndsHonoured, OrderKept, StopAt, EndsFinal, HitsSeen, QueueAfterReports, IsPrefix,
         RunsGood, LimitsMet;
    forall p | 0 <= p < |env.patterns| ensures IsPrefix(env, v.log, p) {
      PatternIsPrefix(env, v.log, p, v.slot[p], v.start[p], p in v.active);
    }
  }

  // ----- reporting the earliest queued match -----

  /** The match sequence of `p` from `start` on is all that is missing of it. */
  ghost predicate Owed(env: Env, log: seq<Event>, p: nat, start: nat)
    requires p < |env.patterns| && PcreInRange(env)
  {
    Project(log, p) + Rest(env, p, start) == Expected(env, p)
  }

  /** The state once the queued match of `p` is taken from the queue and reported. */
  function Report(v: View, p: nat): View
    requires p < |v.slot| && v.slot[p].Some?
  {
    v.(log := v.log + [Reported(p, v.slot[p].value)], slot := v.slot[p := None])
  }

  ghost predicate Earliest(slot: seq<Option<Span>>, p: nat)
    requires p < |slot|
  {
    slot[p].Some? && forall q | 0 <= q < |slot| && slot[q].Some? :: slot[p].value.to <= slot[q].value.to
  }

  lemma ReportKeepsOthers(env: Env, v: View, p: nat)
    requires PcreInRange(env) && |v.slot| == |v.start| == |env.patterns|
    requires p < |v.slot| && v.slot[p].Some?
    requires PatternsOk(env, v, -1)
    ensures PatternsOk(env, Report(v, p), p)
  {
    hide PatternOk;
    var w := Report(v, p);
    forall q | 0 <= q < |w.slot| && q != p
      ensures PatternOk(env, w.log, q, w.slot[q], w.start[q], q in w.active)
    {
      PatternOkAppend(env, v.log, Reported(p, v.slot[p].value), q, v.slot[q], v.start[q], q in v.active);
    }
  }

  lemma ReportOwes(env: Env, log: seq<Event>, p: nat, s: Span, start: nat)
    requires PcreInRange(env) && p < |env.patterns|
    requires PatternOk(env, log, p, Some(s), start, true)
    ensures Owed(env, log + [Reported(p, s)], p, start)
    ensures IsPrefix(env, log + [Reported(p, s)], p)
    ensures start == NextStart(env, p, Project(log + [Reported(p, s)], p))
  {
    hide Project, Expected, Rest, Resume, Unfailed;
    ProjectAppend(log, Reported(p, s), p);
  }

  lemma ReportsAppend(env: Env, log: seq<Event>, e: Event, bound: nat)
    requires ReportsUpTo(env, log, bound) && (e.Reported? ==> e.span.to <= bound)
    ensures ReportsUpTo(env, log + [e], bound)
  {
  }

  lemma ReportKeepsOrder(env: Env, log: seq<Event>, slot: seq<Option<Span>>, p: nat)
    requires p < |slot| && Earliest(slot, p) && QueueAfterReports(env, log, slot)
    ensures QueueAfterReports(env, log + [Reported(p, slot[p].value)], slot[p := None])
    ensures ReportsUpTo(env, log + [Reported(p, slot[p].value)], slot[p].value.to)
  {
    hide ReportsUpTo;
    var e := Reported(p, slot[p].value);
    ReportsAppend(env, log, e, slot[p].value.to);
    var after := slot[p := None];
    forall q | 0 <= q < |after| && after[q].Some? ensures ReportsUpTo(env, log + [e], after[q].value.to) {
      ReportsAppend(env, log, e, slot[q].value.to);
    }
  }

  lemma ReportKeepsEnds(env: Env, v: View, p: nat)
    requires p < |v.slot| && v.slot[p].Some? && p in v.active
    requires EndsFinal(env, v.log, v.slot, v.active)
    ensures EndsFinal(env, Report(v, p).log, Report(v, p).slot, v.active)
    ensures Finished(env, Report(v, p).log, p) <==> env.onEvent(Report(v, p).log) == CH_CALLBACK_SKIP_PATTERN
    ensures env.onEvent(Report(v, p).log) == CH_CALLBACK_SKIP_PATTERN ==> Skipped(env, Report(v, p).log, p)
  {
    hide Finished, EndsAt, Skipped;
    var e := Reported(p, v.slot[p].value);
    SkipAtLast(env, v.log, e);
    forall q | 0 <= q < |v.slot| && Finished(env, v.log + [e], q) ensures v.slot[p := None][q].None? && q in v.active {
      FinishedAppend(env, v.log, e, q);
    }
    FinishedAppend(env, v.log, e, p);
    if env.onEvent(v.log + [e]) == CH_CALLBACK_SKIP_PATTERN {
      SkippedLast(env, v.log, e);
    }
  }

  lemma ReportLogOk(env: Env, v: View, p: nat)
    requires p < |v.slot| && v.slot[p].Some?
    requires QueueAfterReports(env, v.log, v.slot) && LogOk(env, v.log) && EndsFinal(env, v.log, v.slot, v.active)
    ensures OrderKept(env, Report(v, p).log) && EndsHonoured(env, Report(v, p).log)
        && StopsHonoured(env, Report(v, p).log) && LimitsMet(env, Report(v, p).log)
    ensures env.onEvent(Report(v, p).log) != CH_CALLBACK_TERMINATE ==> NeverStopped(env, Report(v, p).log)
  {
    hide OrderKept, EndsHonoured, StopsHonoured, NeverStopped, ReportsUpTo, Finished, StopAt, LimitsMet;
    var e := Reported(p, v.slot[p].value);
    AppendSorted(env, v.log, e);
    AppendEnds(env, v.log, e);
    AppendStops(env, v.log, e);
    AppendLimits(env, v.log, e);
    SkipAtLast(env, v.log, e);
  }

  lemma ReportRuns(env: Env, log: seq<Event>, runs: seq<PcreRun>, e: Event)
    requires PcreInRange(env) && e.Reported?
    ensures RunsGood(env, log + [e], runs) <==> RunsGood(env, log, runs)
    ensures RunsOk(env, log + [e], runs) <==> RunsOk(env, log, runs)
  {
    assert (log + [e])[..|log|] == log;
    assert LimitEvents(log) + [] == LimitEvents(log);
    hide LimitsOf, Looks;
  }

  lemma ReportPrefixes(env: Env, v: View, p: nat)
    requires PcreInRange(env) && |v.slot| == |v.start| == |env.patterns|
    requires p < |v.slot| && v.slot[p].Some?
    requires PatternsOk(env, v, -1)
    ensures Prefixes(env, Report(v, p).log)
  {
    hide PatternOk, IsPrefix, Owed;
    ReportKeepsOthers(env, v, p);
    PatternQueuedIsActive(env, v.log, p, v.slot[p], v.start[p], p in v.active);
    ReportOwes(env, v.log, p, v.slot[p].value, v.start[p]);
    var w := Report(v, p);
    forall q | 0 <= q < |env.patterns| && q != p ensures IsPrefix(env, w.log, q) {
      PatternIsPrefix(env, w.log, q, w.slot[q], w.start[q], q in w.active);
    }
  }

  lemma PatternQueuedIsActive(env: Env, log: seq<Event>, p: nat, slot: Option<Span>, start: nat, active: bool)
    requires p < |env.patterns| && PcreInRange(env)
    requires PatternOk(env, log, p, slot, start, active) && slot.Some?
    ensures active
  {
  }

  /** Reporting the earliest queued match keeps every promise; the pattern then owes the rest. */
  lemma ReportEarliest(env: Env, v: View, done: nat, bound: nat, p: nat)
    requires Assumptions(env) && Good(env, v, done, bound, -1)
    requires p < |v.slot| && Earliest(v.slot, p) && v.slot[p].value.to <= bound
    ensures Safe(env, Report(v, p).log)
    ensures p in v.active
    ensures Owed(env, Report(v, p).log, p, v.start[p])
    ensures IsPrefix(env, Report(v, p).log, p)
    ensures v.start[p] == NextStart(env, p, Project(Report(v, p).log, p))
    ensures Finished(env, Report(v, p).log, p) <==> env.onEvent(Report(v, p).log) == CH_CALLBACK_SKIP_PATTERN
    ensures env.onEvent(Report(v, p).log) == CH_CALLBACK_SKIP_PATTERN ==> Skipped(env, Report(v, p).log, p)
    ensures RunsGood(env, Report(v, p).log, v.runs)
    ensures env.onEvent(Report(v, p).log) != CH_CALLBACK_TERMINATE ==> Good(env, Report(v, p), done, bound, p)
    ensures ReportsUpTo(env, Report(v, p).log, v.slot[p].value.to)
  {
    assert PcreInRange(env);
    hide PcreInRange, PatternsOk, HitsSeen, QueueAfterReports, ReportsUpTo, EndsFinal, OrderKept, EndsHonoured,
         StopsHonoured;
    hide NeverStopped, Prefixes, Skipped, Finished, Owed, Project, IsPrefix, Assumptions, NextStart, LimitsMet,
         RunsGood;
    assert PatternOk(env, v.log, p, v.slot[p], v.start[p], p in v.active) by { PatternsAt(env, v, p); }
    PatternQueuedIsActive(env, v.log, p, v.slot[p], v.start[p], p in v.active);
    ReportOwes(env, v.log, p, v.slot[p].value, v.start[p]);
    ReportPrefixes(env, v, p);
    ReportKeepsOthers(env, v, p);
    ReportKeepsOrder(env, v.log, v.slot, p);
    ReportKeepsEnds(env, v, p);
    ReportRuns(env, v.log, v.runs, Reported(p, v.slot[p].value));
    ReportLogOk(env, v, p);
    ReportsAppend(env, v.log, Reported(p, v.slot[p].value), bound);
  }

  lemma PatternsAt(env: Env, v: View, p: nat)
    requires |v.slot| == |v.start| == |env.patterns| && PcreInRange(env)
    requires PatternsOk(env, v, -1) && p < |v.slot|
    ensures PatternOk(env, v.log, p, v.slot[p], v.start[p], p in v.active)
  {
  }

  // ----- what a pattern still owes -----

  lemma OwedNext(env: Env, log: seq<Event>, p: nat, start: nat)
    requires PcreInRange(env) && p < |env.patterns|
    requires Owed(env, log, p, start)
    ensures env.patterns[p].single || start > |env.data| || env.leftmost(p, start).None?
            ==> Project(log, p) == Expected(env, p)
    ensures !env.patterns[p].single && start <= |env.data| && env.leftmost(p, start).Some?
            ==> var s := env.leftmost(p, start).value;
                Project(log, p) + [s] + Rest(env, p, Resume(env, p, s)) == Expected(env, p)
  {
    hide Project, Expected, Resume;
    if !env.patterns[p].single && start <= |env.data| && env.leftmost(p, start).Some? {
      var s := env.leftmost(p, start).value;
      assert Rest(env, p, start) == [s] + Iterated(env, p, Resume(env, p, s));
    }
  }

  lemma FirstOwed(env: Env, p: nat)
    requires PcreInRange(env) && p < |env.patterns|
    ensures env.leftmost(p, 0).None? ==> Expected(env, p) == []
    ensures env.leftmost(p, 0).Some? ==>
              var s := env.leftmost(p, 0).value;
              Expected(env, p) == [s] + Rest(env, p, Resume(env, p, s))
  {
    hide Resume;
    if env.leftmost(p, 0).Some? {
      assert InRange(env, 0, env.leftmost(p, 0));
      var s := env.leftmost(p, 0).value;
      assert Iterated(env, p, 0) == [s] + Iterated(env, p, Resume(env, p, s));
    }
  }

  // ----- changing one pattern -----

  lemma OthersKept(env: Env, v: View, w: View, p: nat)
    requires PcreInRange(env) && |v.slot| == |v.start| == |w.slot| == |w.start| == |env.patterns|
    requires PatternsOk(env, v, p) && w.log == v.log && p < |v.slot|
    requires forall q | 0 <= q < |v.slot| && q != p :: v.slot[q] == w.slot[q]
    requires forall q | 0 <= q < |v.slot| && q != p :: v.start[q] == w.start[q]
    requires forall q | 0 <= q < |v.slot| && q != p :: q in v.active <==> q in w.active
    requires PatternOk(env, w.log, p, w.slot[p], w.start[p], p in w.active)
    ensures PatternsOk(env, w, -1)
  {
    hide PatternOk;
    forall q | 0 <= q < |w.slot| ensures PatternOk(env, w.log, q, w.slot[q], w.start[q], q in w.active) {
      if q != p {
        assert PatternOk(env, v.log, q, v.slot[q], v.start[q], q in v.active);
      }
    }
  }

  lemma HitsSeenKept(env: Env, start: seq<nat>, active: set<nat>, done: nat, p: nat, to: nat)
    requires |start| == |env.patterns| && done <= |env.hits| && HitsInOrder(env)
    requires HitsSeen(env, start, active, done) && p < |start| && start[p] <= to
    ensures HitsSeen(env, start[p := to], active, done)
  {
    hide Exact, HitsInOrder;
    forall j | 0 <= j < done ensures HitSeen(env, start[p := to], active, env.hits[j]) {
      assert HitSeen(env, start, active, env.hits[j]);
    }
  }

  /** Retiring a pattern that owes nothing. */
  lemma Settle(env: Env, v: View, done: nat, bound: nat, p: nat, start: nat)
    requires Assumptions(env) && Good(env, v, done, bound, p)
    requires p < |v.slot| && v.slot[p].None? && p in v.active && Settled(env, v.log, p)
    requires start == |env.data| || (start == v.start[p] && !(Exact(env, p) && !env.patterns[p].single))
    requires Exact(env, p) ==> v.start[p] <= start <= |env.data|
    ensures Good(env, v.(start := v.start[p := start]), done, bound, -1)
  {
    assert PcreInRange(env) && HitsInOrder(env);
    hide PcreInRange, QueueAfterReports, ReportsUpTo, EndsFinal, LogOk, Settled, Assumptions, HitsInOrder, PatternsOk,
         RunsGood;
    var w := v.(start := v.start[p := start]);
    OthersKept(env, v, w, p);
    if Exact(env, p) {
      HitsSeenKept(env, v.start, v.active, done, p, start);
    } else {
      HitsSeenInexact(env, v.start, v.active, done, p, start);
    }
  }

  lemma HitsSeenInexact(env: Env, start: seq<nat>, active: set<nat>, done: nat, p: nat, to: nat)
    requires |start| == |env.patterns| && done <= |env.hits| && HitsInOrder(env)
    requires HitsSeen(env, start, active, done) && p < |start| && !Exact(env, p)
    ensures HitsSeen(env, start[p := to], active, done)
  {
    hide Exact, HitsInOrder;
    forall j | 0 <= j < done ensures HitSeen(env, start[p := to], active, env.hits[j]) {
      assert HitSeen(env, start, active, env.hits[j]);
    }
  }

  /** Queueing the next match of a pattern. */
  function Queue(env: Env, v: View, p: nat, s: Span): View
    requires |v.slot| == |v.start| == |env.patterns| && p < |v.slot|
  {
    v.(slot := v.slot[p := Some(s)], start := v.start[p := Resume(env, p, s)])
  }

  lemma QueueNext(env: Env, v: View, done: nat, bound: nat, p: nat, s: Span)
    requires Assumptions(env) && Good(env, v, done, bound, p)
    requires p < |v.slot| && v.slot[p].None? && p in v.active && !Finished(env, v.log, p)
    requires Exact(env, p) || Unfailed(env, p, Project(v.log, p) + [s])
    requires s.from <= s.to <= |env.data| && ReportsUpTo(env, v.log, s.to)
    requires Project(v.log, p) + [s] + Rest(env, p, Resume(env, p, s)) == Expected(env, p)
    requires Exact(env, p) ==> s.from < s.to && v.start[p] <= s.to
    ensures Good(env, Queue(env, v, p, s), done, bound, -1)
  {
    assert PcreInRange(env) && HitsInOrder(env);
    hide PcreInRange, ReportsUpTo, LogOk, Assumptions, HitsInOrder, PatternsOk, Finished, HitsSeen, Project, Rest,
         Expected, Unfailed, RunsGood, Settled;
    var w := Queue(env, v, p, s);
    assert PatternOk(env, w.log, p, w.slot[p], w.start[p], p in w.active);
    OthersKept(env, v, w, p);
    if Exact(env, p) {
      HitsSeenKept(env, v.start, v.active, done, p, Resume(env, p, s));
    } else {
      HitsSeenInexact(env, v.start, v.active, done, p, Resume(env, p, s));
    }
  }

  /** A pattern seen for the first time has no reports yet. */
  lemma Activate(env: Env, v: View, done: nat, bound: nat, p: nat, start: nat)
    requires Assumptions(env) && Good(env, v, done, bound, -1)
    requires p < |v.slot| && p !in v.active
    ensures Good(env, v.(start := v.start[p := start], active := v.active + {p}), done, bound, p)
    ensures v.slot[p].None? && Project(v.log, p) == [] && !Finished(env, v.log, p)
    ensures forall j | 0 <= j < done :: env.hits[j].id != p
  {
    assert PcreInRange(env) && HitsInOrder(env);
    hide PcreInRange, ReportsUpTo, LogOk, Assumptions, HitsInOrder, Finished, Project, Rest, Expected, Exact, Settled,
         Unfailed, RunsGood;
    var w := v.(start := v.start[p := start], active := v.active + {p});
    assert PatternOk(env, v.log, p, v.slot[p], v.start[p], p in v.active);
    forall q | 0 <= q < |w.slot| && q != p
      ensures PatternOk(env, w.log, q, w.slot[q], w.start[q], q in w.active)
    {
      assert PatternOk(env, v.log, q, v.slot[q], v.start[q], q in v.active);
    }
    forall j | 0 <= j < done
      ensures HitSeen(env, w.start, w.active, env.hits[j]) && env.hits[j].id != p
    {
      assert HitSeen(env, v.start, v.active, env.hits[j]);
    }
  }

  // ----- calls of PCRE -----

  /** A call of PCRE for pattern `p`, whose next match is to be found behind those reported. */
  ghost predicate Due(env: Env, v: View, p: nat, start: nat)
    requires PcreInRange(env)
  {
    && p < |env.patterns| == |v.slot| && v.slot[p].None? && p in v.active && !Finished(env, v.log, p)
    && IsPrefix(env, v.log, p) && start == NextStart(env, p, Project(v.log, p)) <= |env.data|
    && (Project(v.log, p) == [] || !env.patterns[p].single)
  }

  lemma DueLooks(env: Env, v: View, p: nat, start: nat)
    requires PcreInRange(env) && Due(env, v, p, start)
    ensures Looks(env, PcreRun(p, start))
    ensures FailsAfter(env, p, Project(v.log, p)) <==> Failure(env, p, start).Some?
  {
    hide Finished, Expected, Project, NextStart, Unfailed;
    var found := Project(v.log, p);
    assert found <= Expected(env, p) && start == NextStart(env, p, found);
  }

  /** A call that tells the user nothing. */
  lemma QuietRun(env: Env, log: seq<Event>, runs: seq<PcreRun>, r: PcreRun)
    requires PcreInRange(env) && RunsGood(env, log, runs) && Looks(env, r)
    requires Failure(env, r.pattern, r.start).None? || HardFailure(env, r) || env.onError.None?
    ensures RunsOk(env, log, runs + [r])
    ensures !HardFailure(env, r) ==> RunsGood(env, log, runs + [r])
  {
    hide Looks;
    assert (runs + [r])[..|runs|] == runs;
    assert LimitsOf(env, runs) + [] == LimitsOf(env, runs);
  }

  /** A call that runs into a limit, of which the user is told. */
  lemma LimitRun(env: Env, log: seq<Event>, runs: seq<PcreRun>, r: PcreRun, kind: PcreError)
    requires PcreInRange(env) && RunsGood(env, log, runs) && Looks(env, r) && env.onError.Some?
    requires r.pattern < |env.patterns| && Failure(env, r.pattern, r.start) == Some(kind) && Limit(kind)
    ensures RunsGood(env, log + [LimitHit(kind, r.pattern)], runs + [r])
  {
    hide Looks, Failure, LimitEvents, LimitsOf, Limit;
    LimitCounted(env, log, runs, r, kind);
    assert (runs + [r])[..|runs|] == runs;
  }

  lemma LimitCounted(env: Env, log: seq<Event>, runs: seq<PcreRun>, r: PcreRun, kind: PcreError)
    requires env.onError.Some? && r.pattern < |env.patterns|
    requires Failure(env, r.pattern, r.start) == Some(kind) && Limit(kind)
    ensures LimitEvents(log + [LimitHit(kind, r.pattern)]) == LimitEvents(log) + [LimitHit(kind, r.pattern)]
    ensures LimitsOf(env, runs + [r]) == LimitsOf(env, runs) + [LimitHit(kind, r.pattern)]
  {
    hide Failure;
    assert (runs + [r])[..|runs|] == runs && (log + [LimitHit(kind, r.pattern)])[..|log|] == log;
  }

  lemma LogRun(env: Env, v: View, done: nat, bound: nat, exempt: int, r: PcreRun)
    requires Assumptions(env) && Good(env, v, done, bound, exempt)
    requires RunsGood(env, v.log, v.runs + [r])
    ensures Good(env, v.(runs := v.runs + [r]), done, bound, exempt)
  {
    assert PcreInRange(env);
    hide PcreInRange, Assumptions, PatternOk, LogOk, EndsFinal, QueueAfterReports, ReportsUpTo, HitsSeen, RunsGood;
  }

  /** The state after the user is told of a limit. */
  function Told(v: View, p: nat, start: nat, kind: PcreError): View {
    v.(log := v.log + [LimitHit(kind, p)], runs := v.runs + [PcreRun(p, start)])
  }

  lemma LimitKeepsPatterns(env: Env, v: View, e: Event, exempt: int)
    requires PcreInRange(env) && |v.slot| == |v.start| == |env.patterns|
    requires PatternsOk(env, v, exempt) && e.LimitHit?
    ensures PatternsOk(env, v.(log := v.log + [e]), exempt)
  {
    hide PatternOk, PcreInRange;
    forall p | 0 <= p < |v.slot| && p != exempt
      ensures PatternOk(env, v.log + [e], p, v.slot[p], v.start[p], p in v.active)
    {
      PatternOkAppend(env, v.log, e, p, v.slot[p], v.start[p], p in v.active);
    }
  }

  lemma LimitKeepsEnds(env: Env, v: View, e: Event)
    requires EndsFinal(env, v.log, v.slot, v.active) && e.LimitHit?
    requires e.pattern < |v.slot| && v.slot[e.pattern].None? && e.pattern in v.active
    ensures EndsFinal(env, v.log + [e], v.slot, v.active)
  {
    hide Finished, EndsAt;
    forall q | 0 <= q < |v.slot| && Finished(env, v.log + [e], q) ensures v.slot[q].None? && q in v.active {
      FinishedAppend(env, v.log, e, q);
    }
  }

  lemma LimitKeepsReports(env: Env, log: seq<Event>, slot: seq<Option<Span>>, e: Event)
    requires e.LimitHit?
    ensures forall b: nat | ReportsUpTo(env, log, b) :: ReportsUpTo(env, log + [e], b)
    ensures QueueAfterReports(env, log, slot) ==> QueueAfterReports(env, log + [e], slot)
  {
    forall b: nat | ReportsUpTo(env, log, b) ensures ReportsUpTo(env, log + [e], b) {
      ReportsAppend(env, log, e, b);
    }
    hide ReportsUpTo;
  }

  lemma LimitLogOk(env: Env, log: seq<Event>, e: Event)
    requires LogOk(env, log) && e.LimitHit? && !Finished(env, log, e.pattern) && LimitMet(env, log, e)
    ensures OrderKept(env, log + [e]) && EndsHonoured(env, log + [e]) && StopsHonoured(env, log + [e])
    ensures LimitsMet(env, log + [e])
    ensures env.onError.Some? && !Ends(env.onError.value(log + [e])) ==> LogOk(env, log + [e])
  {
    hide OrderKept, EndsHonoured, NeverStopped, StopAt, LimitsMet, LimitMet, Finished, StopsHonoured;
    AppendSorted(env, log, e);
    AppendEnds(env, log, e);
    AppendStops(env, log, e);
    AppendLimits(env, log, e);
    SkipAtLast(env, log, e);
  }

  /** Telling the user about a PCRE limit keeps every promise, and the invariant unless he stops the scan. */
  lemma LogLimit(env: Env, v: View, done: nat, bound: nat, p: nat, start: nat, kind: PcreError)
    requires Assumptions(env) && Good(env, v, done, bound, p) && Due(env, v, p, start)
    requires Failure(env, p, start) == Some(kind) && Limit(kind) && env.onError.Some?
    ensures var w := Told(v, p, start, kind);
            && (!Ends(env.onError.value(w.log)) ==> Good(env, w, done, bound, p))
            && OrderKept(env, w.log) && EndsHonoured(env, w.log) && StopsHonoured(env, w.log) && LimitsMet(env, w.log)
            && RunsGood(env, w.log, w.runs) && PatternsOk(env, w, p)
  {
    assert PcreInRange(env) && HitsInOrder(env);
    var e := LimitHit(kind, p);
    DueLooks(env, v, p, start);
    assert LimitMet(env, v.log, e);
    hide PcreInRange, Assumptions, HitsInOrder, PatternsOk, LogOk, RunsGood, Finished, EndsFinal, HitsSeen, LimitMet,
         QueueAfterReports, ReportsUpTo, OrderKept, EndsHonoured, StopsHonoured, LimitsMet, Looks, Failure, IsPrefix;
    LimitRun(env, v.log, v.runs, PcreRun(p, start), kind);
    LimitKeepsPatterns(env, v, e, p);
    LimitKeepsEnds(env, v, e);
    LimitKeepsReports(env, v.log, v.slot, e);
    LimitLogOk(env, v.log, e);
    SamePatterns(env, v.(log := v.log + [e]), Told(v, p, start, kind), p);
  }

  lemma SamePatterns(env: Env, v: View, w: View, exempt: int)
    requires PcreInRange(env) && |v.slot| == |v.start| == |env.patterns| && w == v.(runs := w.runs)
    ensures PatternsOk(env, v, exempt) <==> PatternsOk(env, w, exempt)
  {
    hide PatternOk, PcreInRange;
  }

  lemma LimitMissed(env: Env, v: View, p: nat, start: nat, kind: PcreError, log: seq<Event>)
    requires PcreInRange(env) && Due(env, v, p, start) && Failure(env, p, start) == Some(kind) && Limit(kind)
    requires log == if env.onError.Some? then v.log + [LimitHit(kind, p)] else v.log
    ensures Settled(env, log, p) && Project(log, p) == Project(v.log, p)
  {
    DueLooks(env, v, p, start);
    ProjectAppend(v.log, LimitHit(kind, p), p);
    assert env.onError.Some? ==> log[|v.log|] == LimitHit(kind, p);
    hide Project, Expected, Unfailed, Finished, PcreInRange, FailsAfter;
    var found := Project(v.log, p);
    assert found + [] == found;
    assert Project(log, p) == found;
    assert Missed(env, log, p);
  }

  // ----- Hyperscan hits -----

  /** The end of the last hit seen. */
  function Reach(env: Env, done: nat): nat
    requires done <= |env.hits|
  {
    if done == 0 then 0 else env.hits[done - 1].to
  }

  /** The first hit of a fixed-width pattern at or after `s` is what PCRE finds from `s`. */
  lemma HitIsLeftmost(env: Env, k: nat, s: nat)
    requires Assumptions(env) && k < |env.hits|
    requires env.hits[k].id < |env.patterns| && Exact(env, env.hits[k].id) && s <= env.hits[k].from
    requires forall j | 0 <= j < k && env.hits[j].id == env.hits[k].id :: env.hits[j].from < s
    ensures env.leftmost(env.hits[k].id, s) == Some(Span(env.hits[k].from, env.hits[k].to))
  {
    var h := env.hits[k];
    var p := h.id;
    assert HitMatches(env, h) && HitInRange(env, h);
    var x := env.leftmost(p, s).value;
    assert MatchIsHit(env, p, s) && InRange(env, s, env.leftmost(p, s));
    if Hit(p, x.from, x.to) in env.hits {
      var j :| 0 <= j < |env.hits| && env.hits[j] == Hit(p, x.from, x.to);
      assert j >= k;
    }
    assert h.to <= x.to;
  }

  /** The first hit of a prefiltered pattern comes no later than its first match ends. */
  lemma FirstHitBound(env: Env, k: nat)
    requires Assumptions(env) && k < |env.hits|
    requires env.hits[k].id < |env.patterns| && env.patterns[env.hits[k].id].Confirmed()
    requires forall j | 0 <= j < k :: env.hits[j].id != env.hits[k].id
    requires env.leftmost(env.hits[k].id, 0).Some? && AllInOrder(env)
    ensures env.hits[k].to <= env.leftmost(env.hits[k].id, 0).value.to
  {
    assert HitInRange(env, env.hits[k]);
    assert PrefilterHits(env, env.hits[k].id);
  }

  /** Counting one more hit as seen. */
  lemma NextHit(env: Env, v: View, done: nat, bound: nat, to: nat)
    requires Assumptions(env) && Good(env, v, done, bound, -1) && (AllInOrder(env) ==> bound <= to)
    requires done < |env.hits| && HitSeen(env, v.start, v.active, env.hits[done])
    ensures Good(env, v, done + 1, to, -1)
  {
    hide Assumptions, PatternsOk, QueueAfterReports, LogOk, EndsFinal, HitSeen;
  }

  lemma RaiseBound(env: Env, v: View, done: nat, bound: nat, to: nat, exempt: int)
    requires Assumptions(env) && Good(env, v, done, bound, exempt) && (AllInOrder(env) ==> bound <= to)
    ensures Good(env, v, done, to, exempt)
  {
    hide Assumptions, PatternsOk, QueueAfterReports, LogOk, EndsFinal, HitsSeen;
  }

  /** When every pattern is active and none takes further hits, the remaining hits count as seen. */
  lemma SkipHits(env: Env, v: View, done: nat, bound: nat, to: nat)
    requires Assumptions(env) && Good(env, v, done, bound, -1) && (AllInOrder(env) ==> bound <= to)
    requires env.allConfirm || env.allSingle
    requires forall p | 0 <= p < |env.patterns| :: p in v.active
    ensures Good(env, v, |env.hits|, to, -1)
  {
    assert HitsInOrder(env) && WellCompiled(env);
    hide Assumptions, PatternsOk, QueueAfterReports, LogOk, EndsFinal;
    forall j | 0 <= j < |env.hits| ensures HitSeen(env, v.start, v.active, env.hits[j]) {
      assert HitInRange(env, env.hits[j]);
    }
  }

  // ----- the end of a scan -----

  /** With all hits seen and the queue empty, every match sequence is complete unless it was cut. */
  lemma Complete(env: Env, v: View, bound: nat, p: nat)
    requires Assumptions(env) && Good(env, v, |env.hits|, bound, -1) && p < |env.patterns|
    requires v.slot[p].None?
    requires p in env.unguarded ==> p in v.active
    requires env.hsStatus == HS_SUCCESS || p in v.active
    ensures Cut(env, v.log, p) || Project(v.log, p) == Expected(env, p)
  {
    assert PatternOk(env, v.log, p, v.slot[p], v.start[p], p in v.active);
    if p !in v.active {
      assert MatchIsHit(env, p, 0) && PrefilterHits(env, p);
      forall j | 0 <= j < |env.hits| ensures env.hits[j].id != p {
        assert HitSeen(env, v.start, v.active, env.hits[j]);
      }
      FirstOwed(env, p);
    }
  }
}
