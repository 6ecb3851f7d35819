/** The hybrid scan itself: PCRE and Hyperscan matches merged through the queue of the scratch space. */
module ChimeraScan {
  import opened MatchQueue
  import opened Chimera
  import opened ChimeraInvariant

  // ----- the queue as one slot per pattern -----

  ghost function ItemsOf(slot: seq<Option<Span>>, k: nat): multiset<QueueItem>
    requires k <= |slot|
  {
    if k == 0 then multiset{}
    else ItemsOf(slot, k - 1) +
         (if slot[k - 1].Some? then multiset{QueueItem(slot[k - 1].value.from, slot[k - 1].value.to, k - 1)}
             else multiset{})
  }

  lemma {:induction false} ItemsMember(slot: seq<Option<Span>>, k: nat, x: QueueItem)
    requires k <= |slot|
    ensures x in ItemsOf(slot, k) <==> x.id < k && slot[x.id] == Some(Span(x.from, x.to))
  {
    if k > 0 {
      ItemsMember(slot, k - 1, x);
    }
  }

  lemma {:induction false} ItemsOther(slot: seq<Option<Span>>, p: nat, s: Option<Span>, k: nat)
    requires k <= p < |slot|
    ensures ItemsOf(slot[p := s], k) == ItemsOf(slot, k)
  {
    if k > 0 {
      ItemsOther(slot, p, s, k - 1);
    }
  }

  lemma {:induction false} ItemsAdd(slot: seq<Option<Span>>, p: nat, s: Span, k: nat)
    requires p < k <= |slot| && slot[p].None?
    ensures ItemsOf(slot[p := Some(s)], k) == ItemsOf(slot, k) + multiset{QueueItem(s.from, s.to, p)}
  {
    if k - 1 == p {
      ItemsOther(slot, p, Some(s), p);
    } else {
      ItemsAdd(slot, p, s, k - 1);
    }
  }

  lemma ItemsRemove(slot: seq<Option<Span>>, p: nat)
    requires p < |slot| && slot[p].Some?
    ensures ItemsOf(slot[p := None], |slot|)
         == ItemsOf(slot, |slot|) - multiset{QueueItem(slot[p].value.from, slot[p].value.to, p)}
  {
    ItemsAdd(slot[p := None], p, slot[p].value, |slot|);
    assert slot[p := None][p := slot[p]] == slot;
  }

  /** No more items than patterns, and room for one more while some pattern has none. */
  lemma {:induction false} ItemsFit(slot: seq<Option<Span>>, k: nat)
    requires k <= |slot|
    ensures |ItemsOf(slot, k)| <= k
    ensures (exists p | 0 <= p < k :: slot[p].None?) ==> |ItemsOf(slot, k)| < k
  {
    if k > 0 {
      ItemsFit(slot, k - 1);
    }
  }

  lemma {:induction false} NoItems(slot: seq<Option<Span>>, k: nat)
    requires k <= |slot| && forall p | 0 <= p < |slot| :: slot[p].None?
    ensures ItemsOf(slot, k) == multiset{}
  {
    if k > 0 {
      NoItems(slot, k - 1);
    }
  }

  // ----- how much work is left -----

  ghost function Share(env: Env, slot: seq<Option<Span>>, start: seq<nat>, p: nat): nat
    requires PcreInRange(env) && |slot| == |start| == |env.patterns| && p < |slot|
  {
    if slot[p].Some? then 1 + |Rest(env, p, start[p])| else 0
  }

  /** The number of matches queued or still to be found behind a queued one. */
  ghost function Work(env: Env, slot: seq<Option<Span>>, start: seq<nat>, k: nat): nat
    requires PcreInRange(env) && |slot| == |start| == |env.patterns| && k <= |slot|
  {
    if k == 0 then 0 else Work(env, slot, start, k - 1) + Share(env, slot, start, k - 1)
  }

  lemma {:induction false} WorkChange(env: Env, slot: seq<Option<Span>>, start: seq<nat>, p: nat, s: Option<Span>,
      to: nat, k: nat)
    requires PcreInRange(env) && |slot| == |start| == |env.patterns| && k <= |slot| && p < |slot|
    ensures Work(env, slot[p := s], start[p := to], k) + (if p < k then Share(env, slot, start, p) else 0)
         == Work(env, slot, start, k) + (if p < k then Share(env, slot[p := s], start[p := to], p) else 0)
  {
    hide Share;
    if k > 0 {
      WorkChange(env, slot, start, p, s, to, k - 1);
      if k - 1 != p {
        ShareOther(env, slot, start, p, s, to, k - 1);
      }
    }
  }

  lemma ShareOther(env: Env, slot: seq<Option<Span>>, start: seq<nat>, p: nat, s: Option<Span>, to: nat, q: nat)
    requires PcreInRange(env) && |slot| == |start| == |env.patterns| && p < |slot| && q < |slot| && p != q
    ensures Share(env, slot[p := s], start[p := to], q) == Share(env, slot, start, q)
  {
  }

  lemma WorkDrops(env: Env, slot: seq<Option<Span>>, start: seq<nat>, p: nat, s: Option<Span>, to: nat)
    requires PcreInRange(env) && |slot| == |start| == |env.patterns| && p < |slot|
    requires slot[p].Some? && (s.Some? ==> |Rest(env, p, to)| < |Rest(env, p, start[p])|)
    ensures Work(env, slot[p := s], start[p := to], |slot|) < Work(env, slot, start, |slot|)
  {
    hide Work, Rest;
    WorkChange(env, slot, start, p, s, to, |slot|);
  }

  lemma QueuedInRange(env: Env, v: View, done: nat, bound: nat, p: nat)
    requires Assumptions(env) && Good(env, v, done, bound, -1)
    requires p < |v.slot| && v.slot[p].Some?
    ensures v.slot[p].value.to <= |env.data|
  {
    assert PcreInRange(env);
    hide Assumptions, HitsSeen, ReportsUpTo, QueueAfterReports, LogOk, EndsFinal;
    assert PatternOk(env, v.log, p, v.slot[p], v.start[p], p in v.active);
  }

  lemma RestShrinks(env: Env, p: nat, start: nat)
    requires PcreInRange(env) && p < |env.patterns| && !env.patterns[p].single
    requires start <= |env.data| && env.leftmost(p, start).Some?
    ensures |Rest(env, p, Resume(env, p, env.leftmost(p, start).value))| < |Rest(env, p, start)|
  {
    hide Resume;
    assert Rest(env, p, start)
        == [env.leftmost(p, start).value] + Iterated(env, p, Resume(env, p, env.leftmost(p, start).value));
  }

  // ----- results -----

  /** The status of a scan that the user ends by an answer about a PCRE limit. */
  predicate EndsWith(answer: int, rv: int) {
    && answer != CH_SUCCESS && answer != CH_CALLBACK_SKIP_PATTERN
    && rv == if answer == CH_CALLBACK_TERMINATE then CH_SCAN_TERMINATED else answer
  }

  /** Why a scan ended early with status `rv`: the user's answer to the last report, his answer to being
      told last of a limit, or a PCRE failure that is no limit. */
  ghost predicate Ended(env: Env, log: seq<Event>, runs: seq<PcreRun>, rv: int) {
    || (&& NoHardFailure(env, runs) && |log| > 0 && log[|log| - 1].Reported?
        && env.onEvent(log) == CH_CALLBACK_TERMINATE && rv == CH_SCAN_TERMINATED)
    || (&& NoHardFailure(env, runs) && |log| > 0 && log[|log| - 1].LimitHit? && env.onError.Some?
        && EndsWith(env.onError.value(log), rv))
    || (|runs| > 0 && HardFailure(env, runs[|runs| - 1]) && NeverStopped(env, log) && rv == CH_FAIL_INTERNAL)
  }

  /** A scan that ends early with status `rv`. */
  ghost predicate Stopped(env: Env, log: seq<Event>, runs: seq<PcreRun>, rv: int)
    requires PcreInRange(env)
  {
    rv != CH_SUCCESS && Safe(env, log) && RunsOk(env, log, runs) && Ended(env, log, runs, rv)
  }

  /** The queued match of `id` has been delivered, and a hit may take its place unless the user skipped
      the pattern. */
  ghost predicate Superseded(env: Env, w: View, id: nat, start: nat, done: nat, bound: nat)
    requires Assumptions(env)
  {
    && id < |w.slot| == |w.start| && w.slot[id].None?
    && ((w.start[id] == start && Between(env, w, done, bound, id))
        || (w.start[id] == |env.data| && Good(env, w, done, bound, -1)))
  }

  /** One match of `p` has been delivered and its next one, if any, queued. */
  ghost predicate Continued(env: Env, v: View, w: View, p: nat, done: nat, bound: nat)
    requires Assumptions(env)
  {
    && Good(env, w, done, bound, -1)
    && |v.slot| == |v.start| == |w.slot| == |w.start| == |env.patterns| && p < |w.slot|
    && w.slot == v.slot[p := w.slot[p]] && w.start == v.start[p := w.start[p]] && w.active == v.active
    && Work(env, w.slot, w.start, |w.slot|) < Work(env, v.slot, v.start, |v.slot|)
  }

  lemma ContinuedAfter(env: Env, v: View, w: View, p: nat, done: nat, bound: nat)
    requires Assumptions(env)
    requires |v.slot| == |v.start| == |w.slot| == |w.start| == |env.patterns| && p < |w.slot|
    requires OnlyAt(v, w, p) && v.slot[p].Some?
    requires w.slot[p].Some? ==> |Rest(env, p, w.start[p])| < |Rest(env, p, v.start[p])|
    ensures Good(env, w, done, bound, -1) ==> Continued(env, v, w, p, done, bound)
  {
    assert PcreInRange(env);
    hide Assumptions, Good, Rest, Work, PcreInRange;
    assert w.slot == v.slot[p := w.slot[p]] && w.start == v.start[p := w.start[p]];
    WorkDrops(env, v.slot, v.start, p, w.slot[p], w.start[p]);
  }

  /** The answer to a failed PCRE call, and the events after it. */
  function FailureAnswer(env: Env, log: seq<Event>, kind: PcreError, p: nat): (int, seq<Event>) {
    if kind == MatchLimit || kind == RecursionLimit then
      if env.onError.Some? then
        var after := log + [LimitHit(kind, p)];
        (env.onError.value(after), after)
      else (CH_SUCCESS, log)
    else (CH_FAIL_INTERNAL, log)
  }

  /** The state with the call of PCRE recorded. */
  function Called(v: View, p: nat, start: nat): View {
    v.(runs := v.runs + [PcreRun(p, start)])
  }

  /** The effect of one PCRE scan of `p` from `start`: an error, nothing, or a queued match. */
  ghost predicate Scanned(env: Env, v: View, w: View, p: nat, start: nat, rv: int)
    requires p < |env.patterns| == |v.slot| == |v.start|
  {
    var u := Called(v, p, start);
    if Failure(env, p, start).Some? then
      (rv, w) == (FailureAnswer(env, v.log, Failure(env, p, start).value, p).0,
                  u.(log := FailureAnswer(env, v.log, Failure(env, p, start).value, p).1))
    else if env.leftmost(p, start).None? then rv == CH_SUCCESS && w == u
    else rv == CH_SUCCESS && w == Queue(env, u, p, env.leftmost(p, start).value)
  }

  /** A call that does not fail. */
  lemma CalledGood(env: Env, v: View, done: nat, bound: nat, p: nat, start: nat)
    requires Assumptions(env) && Good(env, v, done, bound, p) && Due(env, v, p, start)
    requires Failure(env, p, start).None?
    ensures Good(env, Called(v, p, start), done, bound, p) && Due(env, Called(v, p, start), p, start)
    ensures !FailsAfter(env, p, Project(v.log, p))
  {
    assert PcreInRange(env);
    DueLooks(env, v, p, start);
    hide Assumptions, Failure, Looks, Finished, IsPrefix, NextStart, Project, FailsAfter, PcreInRange, Good;
    GoodRuns(env, v, done, bound, p);
    QuietRun(env, v.log, v.runs, PcreRun(p, start));
    LogRun(env, v, done, bound, p, PcreRun(p, start));
  }

  lemma GoodRuns(env: Env, v: View, done: nat, bound: nat, exempt: int)
    requires Assumptions(env) && Good(env, v, done, bound, exempt)
    ensures PcreInRange(env) && RunsGood(env, v.log, v.runs) && LogOk(env, v.log)
    ensures |v.slot| == |v.start| == |env.patterns| && PatternsOk(env, v, exempt)
  {
    assert PcreInRange(env);
    hide Assumptions, PcreInRange, PatternsOk, LogOk, RunsGood;
  }

  /** A pattern whose call of PCRE fails: a limit settles it, unless the user's answer ends the scan; any
      other failure ends the scan. */
  lemma FailedRun(env: Env, v: View, done: nat, bound: nat, p: nat, start: nat)
    requires Assumptions(env) && Good(env, v, done, bound, p) && Due(env, v, p, start)
    requires Failure(env, p, start).Some?
    ensures var answer := FailureAnswer(env, v.log, Failure(env, p, start).value, p);
            var w := Called(v, p, start).(log := answer.1);
            && (!Ends(answer.0) ==> Good(env, w, done, bound, p) && Settled(env, w.log, p))
            && (answer.0 != CH_SUCCESS && answer.0 != CH_CALLBACK_SKIP_PATTERN ==>
                  Stopped(env, w.log, w.runs, FinalStatus(answer.0)))
  {
    var kind := Failure(env, p, start).value;
    GoodRuns(env, v, done, bound, p);
    if !Limit(kind) {
      HardRun(env, v, done, bound, p, start);
    } else {
      hide Good, Failure, PcreInRange, Due, Assumptions, RunsGood, LogOk, PatternsOk, Stopped;
      LimitMissed(env, v, p, start, kind, FailureAnswer(env, v.log, kind, p).1);
      if env.onError.None? {
        QuietLimit(env, v, done, bound, p, start);
      } else {
        LogLimit(env, v, done, bound, p, start, kind);
        LimitStops(env, v, done, bound, p, start, kind);
      }
    }
  }

  lemma HardRun(env: Env, v: View, done: nat, bound: nat, p: nat, start: nat)
    requires Assumptions(env) && Good(env, v, done, bound, p) && Due(env, v, p, start)
    requires Failure(env, p, start).Some? && !Limit(Failure(env, p, start).value)
    ensures Stopped(env, v.log, v.runs + [PcreRun(p, start)], CH_FAIL_INTERNAL)
  {
    GoodRuns(env, v, done, bound, p);
    var r := PcreRun(p, start);
    DueLooks(env, v, p, start);
    assert (v.runs + [r])[|v.runs|] == r;
    ExemptIsSafe(env, v, done, bound, p);
    hide Good, PcreInRange, Assumptions, Safe, NeverStopped, RunsOk, Looks, PatternsOk, IsPrefix;
    QuietRun(env, v.log, v.runs, r);
  }

  /** The promises about the events, with one pattern between two of its matches. */
  lemma ExemptIsSafe(env: Env, v: View, done: nat, bound: nat, p: nat)
    requires Assumptions(env) && Good(env, v, done, bound, p) && p < |env.patterns|
    requires PcreInRange(env) && IsPrefix(env, v.log, p)
    ensures Safe(env, v.log) && Prefixes(env, v.log) && NeverStopped(env, v.log)
  {
    hide Assumptions, PatternOk, EndsHonoured, OrderKept, StopAt, EndsFinal, HitsSeen, QueueAfterReports, IsPrefix,
         RunsGood, LimitsMet, PcreInRange;
    forall q | 0 <= q < |env.patterns| ensures IsPrefix(env, v.log, q) {
      if q != p {
        PatternIsPrefix(env, v.log, q, v.slot[q], v.start[q], q in v.active);
      }
    }
  }

  lemma QuietLimit(env: Env, v: View, done: nat, bound: nat, p: nat, start: nat)
    requires Assumptions(env) && Good(env, v, done, bound, p) && PcreInRange(env) && Due(env, v, p, start)
    requires Failure(env, p, start).Some? && env.onError.None?
    requires Limit(Failure(env, p, start).value)
    ensures Good(env, Called(v, p, start), done, bound, p)
  {
    GoodRuns(env, v, done, bound, p);
    DueLooks(env, v, p, start);
    hide Good, PcreInRange, Assumptions, Looks, RunsGood, Failure, Due;
    QuietRun(env, v.log, v.runs, PcreRun(p, start));
    LogRun(env, v, done, bound, p, PcreRun(p, start));
  }

  lemma LimitStops(env: Env, v: View, done: nat, bound: nat, p: nat, start: nat, kind: PcreError)
    requires Assumptions(env) && Good(env, v, done, bound, p) && PcreInRange(env) && Due(env, v, p, start)
    requires Failure(env, p, start) == Some(kind) && Limit(kind) && env.onError.Some?
    ensures var w := Told(v, p, start, kind);
            var answer := env.onError.value(w.log);
            answer != CH_SUCCESS && answer != CH_CALLBACK_SKIP_PATTERN ==>
              Stopped(env, w.log, w.runs, FinalStatus(answer))
  {
    DueIsPrefix(env, v, p, start);
    hide Good, PcreInRange, Assumptions, Due, Failure, PatternsOk, Prefixes, OrderKept, EndsHonoured, StopsHonoured,
         LimitsMet, RunsOk, LogOk, Safe, IsPrefix, NoHardFailure, Finished;
    ExemptIsSafe(env, v, done, bound, p);
    LogLimit(env, v, done, bound, p, start, kind);
    LimitKeepsPrefixes(env, v.log, LimitHit(kind, p));
    var w := Told(v, p, start, kind);
    assert w.log[|w.log| - 1] == LimitHit(kind, p);
    LimitIsSafe(env, w.log);
  }

  lemma LimitIsSafe(env: Env, log: seq<Event>)
    requires PcreInRange(env) && Prefixes(env, log) && OrderKept(env, log) && EndsHonoured(env, log)
    requires StopsHonoured(env, log) && LimitsMet(env, log)
    ensures Safe(env, log)
  {
    hide PcreInRange, Prefixes, OrderKept, EndsHonoured, StopsHonoured, LimitsMet;
  }

  lemma LimitKeepsPrefixes(env: Env, log: seq<Event>, e: Event)
    requires PcreInRange(env) && Prefixes(env, log) && e.LimitHit?
    ensures Prefixes(env, log + [e])
  {
    hide PcreInRange, Project, Unfailed, Expected, Exact;
    forall q | 0 <= q < |env.patterns| ensures IsPrefix(env, log + [e], q) {
      assert IsPrefix(env, log, q);
      ProjectAppend(log, e, q);
      assert Project(log, q) + [] == Project(log, q);
    }
  }

  lemma SettledWhenComplete(env: Env, log: seq<Event>, p: nat)
    requires PcreInRange(env) && p < |env.patterns| && Project(log, p) == Expected(env, p) && IsPrefix(env, log, p)
    ensures Settled(env, log, p)
  {
  }

  /** Pattern `p` has just been reported and not skipped: it owes what PCRE finds from its start on. */
  ghost predicate Between(env: Env, v: View, done: nat, bound: nat, p: nat)
    requires Assumptions(env)
  {
    && Good(env, v, done, bound, p)
    && p < |v.slot| && v.slot[p].None? && p in v.active && !Finished(env, v.log, p)
    && IsPrefix(env, v.log, p)
    && Owed(env, v.log, p, v.start[p])
    && v.start[p] == NextStart(env, p, Project(v.log, p))
    && ReportsUpTo(env, v.log, v.start[p])
    && (Exact(env, p) ==> v.start[p] <= |env.data|)
  }

  /** What the first scan of a pattern confirmed by PCRE leads to. */
  lemma FirstScanOutcome(env: Env, v: View, done: nat, bound: nat, p: nat, w: View, rv: int)
    requires Assumptions(env) && Good(env, v, done, bound, p) && |v.slot| == |v.start| == |env.patterns|
    requires p < |v.slot| && v.slot[p].None? && p in v.active && !Finished(env, v.log, p)
    requires Project(v.log, p) == [] && !Exact(env, p)
    requires env.leftmost(p, 0).Some? && AllInOrder(env) ==> bound <= env.leftmost(p, 0).value.to
    requires Scanned(env, v, w, p, 0, rv)
    ensures |w.start| == |v.start| && w.active == v.active
    ensures !Ends(rv) ==> Good(env, w, done, bound, -1)
    ensures rv == CH_CALLBACK_SKIP_PATTERN ==> Good(env, w.(start := w.start[p := |env.data|]), done, bound, -1)
    ensures rv != CH_SUCCESS && rv != CH_CALLBACK_SKIP_PATTERN ==> Stopped(env, w.log, w.runs, FinalStatus(rv))
  {
    hide FailureAnswer, Resume, PcreInRange, Assumptions, Good, Project, Expected, Finished, ReportsUpTo, Settled,
         Stopped, Failure, Exact, Due;
    AssumedInRange(env);
    FirstIsDue(env, v, p);
    if Failure(env, p, 0).Some? {
      FirstFails(env, v, done, bound, p);
    } else {
      FirstFound(env, v, done, bound, p);
    }
  }

  lemma FirstFails(env: Env, v: View, done: nat, bound: nat, p: nat)
    requires Assumptions(env) && Good(env, v, done, bound, p) && PcreInRange(env) && Due(env, v, p, 0)
    requires |v.slot| == |v.start| == |env.patterns| && !Exact(env, p) && Failure(env, p, 0).Some?
    ensures var answer := FailureAnswer(env, v.log, Failure(env, p, 0).value, p);
            var w := Called(v, p, 0).(log := answer.1);
            && (!Ends(answer.0) ==>
                  Good(env, w, done, bound, -1) && Good(env, w.(start := w.start[p := |env.data|]), done, bound, -1))
            && (answer.0 != CH_SUCCESS && answer.0 != CH_CALLBACK_SKIP_PATTERN ==>
                  Stopped(env, w.log, w.runs, FinalStatus(answer.0)))
  {
    hide FailureAnswer, PcreInRange, Assumptions, Good, Settled, Stopped, Failure, Exact, Due;
    FailedRun(env, v, done, bound, p, 0);
    DueIsPrefix(env, v, p, 0);
    var answer := FailureAnswer(env, v.log, Failure(env, p, 0).value, p);
    var w := Called(v, p, 0).(log := answer.1);
    if !Ends(answer.0) {
      Settle(env, w, done, bound, p, |env.data|);
      Settle(env, w, done, bound, p, w.start[p]);
      assert w.(start := w.start[p := w.start[p]]) == w;
    }
  }

  lemma FirstIsDue(env: Env, v: View, p: nat)
    requires PcreInRange(env) && p < |env.patterns| == |v.slot| && v.slot[p].None? && p in v.active
    requires !Finished(env, v.log, p) && Project(v.log, p) == []
    ensures Due(env, v, p, 0)
  {
    hide PcreInRange, Finished, Expected, Project;
  }

  lemma FirstFound(env: Env, v: View, done: nat, bound: nat, p: nat)
    requires Assumptions(env) && Good(env, v, done, bound, p) && PcreInRange(env) && Due(env, v, p, 0)
    requires |v.slot| == |v.start| == |env.patterns| && Project(v.log, p) == [] && !Exact(env, p)
    requires env.leftmost(p, 0).Some? && AllInOrder(env) ==> bound <= env.leftmost(p, 0).value.to
    requires Failure(env, p, 0).None?
    ensures env.leftmost(p, 0).None? ==> Good(env, Called(v, p, 0), done, bound, -1)
    ensures env.leftmost(p, 0).Some? ==>
        Good(env, Queue(env, Called(v, p, 0), p, env.leftmost(p, 0).value), done, bound, -1)
  {
    hide Resume, PcreInRange, Assumptions, Good, Project, Expected, Rest, Finished, ReportsUpTo, Settled, Failure,
         Exact, FailsAfter, NextStart, Due;
    CalledGood(env, v, done, bound, p, 0);
    DueIsPrefix(env, v, p, 0);
    FirstOwed(env, p);
    var u := Called(v, p, 0);
    if env.leftmost(p, 0).None? {
      SettledWhenComplete(env, v.log, p);
      Settle(env, u, done, bound, p, u.start[p]);
      assert u.(start := u.start[p := u.start[p]]) == u;
    } else {
      FirstQueued(env, u, done, bound, p, env.leftmost(p, 0).value);
    }
  }

  lemma FirstQueued(env: Env, v: View, done: nat, bound: nat, p: nat, s: Span)
    requires Assumptions(env) && Good(env, v, done, bound, p) && PcreInRange(env) && Due(env, v, p, 0)
    requires |v.slot| == |v.start| == |env.patterns| && Project(v.log, p) == [] && !Exact(env, p)
    requires env.leftmost(p, 0) == Some(s) && (AllInOrder(env) ==> bound <= s.to) && !FailsAfter(env, p, [])
    ensures Good(env, Queue(env, v, p, s), done, bound, -1)
  {
    hide Resume, PcreInRange, Assumptions, Good, Project, Expected, Rest, Finished, ReportsUpTo, Settled, Exact,
         FailsAfter, NextStart, Due, AllInOrder, Queue, Unfailed;
    FoundInRange(env, p, 0, s);
    GoodReports(env, v, done, bound, p);
    DueIsPrefix(env, v, p, 0);
    FirstOwed(env, p);
    WeakenReports(env, v.log, bound, s.to);
    UnfailedFront(env, p, [], s);
    assert [] + [s] + Rest(env, p, Resume(env, p, s)) == [s] + Rest(env, p, Resume(env, p, s));
    QueueNext(env, v, done, bound, p, s);
  }

  lemma FoundInRange(env: Env, p: nat, start: nat, s: Span)
    requires PcreInRange(env) && env.leftmost(p, start) == Some(s)
    ensures start <= s.from <= s.to <= |env.data|
  {
    assert InRange(env, start, env.leftmost(p, start));
  }

  lemma GoodReports(env: Env, v: View, done: nat, bound: nat, exempt: int)
    requires Assumptions(env) && Good(env, v, done, bound, exempt)
    ensures ReportsUpTo(env, v.log, bound)
  {
    hide Assumptions, ReportsUpTo, PatternsOk, LogOk, RunsGood;
  }

  /** The state once the pattern of a first hit is marked as seen. */
  function Seen(v: View, p: nat): View
    requires p < |v.start|
  {
    v.(active := v.active + {p}, start := v.start[p := 0])
  }

  lemma QueuedIsActive(env: Env, v: View, k: nat, p: nat)
    requires Assumptions(env) && k <= |env.hits| && Good(env, v, k, Reach(env, k), -1)
    requires p < |env.patterns| && p !in v.active
    ensures p < |v.slot| && v.slot[p].None?
  {
    assert PcreInRange(env);
    hide Assumptions, HitsSeen, ReportsUpTo, QueueAfterReports, LogOk, EndsFinal, PcreInRange;
    assert PatternOk(env, v.log, p, v.slot[p], v.start[p], p in v.active);
  }

  lemma CountHit(env: Env, v: View, k: nat)
    requires Assumptions(env) && k < |env.hits| && Good(env, v, k, Reach(env, k), -1)
    requires env.hits[k].id in v.active && env.hits[k].id < |env.patterns| && !Exact(env, env.hits[k].id)
    ensures Good(env, v, k + 1, Reach(env, k + 1), -1)
  {
    assert HitSeen(env, v.start, v.active, env.hits[k]);
    DroppedHit(env, v, k);
  }

  /** The first hit of a prefiltered pattern runs PCRE from the start of the data. */
  lemma FirstConfirmOutcome(env: Env, v: View, k: nat, p: nat, w: View, rv: int)
    requires Assumptions(env) && k < |env.hits| && Good(env, v, k, Reach(env, k), -1)
    requires p == env.hits[k].id && p < |env.patterns| && env.patterns[p].Confirmed() && p !in v.active
    requires |v.slot| == |v.start| == |env.patterns| && Scanned(env, Seen(v, p), w, p, 0, rv)
    ensures rv == CH_SUCCESS ==> Good(env, w, k + 1, Reach(env, k + 1), -1)
    ensures rv == CH_CALLBACK_SKIP_PATTERN ==>
              |w.start| == |v.start| && Good(env, w.(start := w.start[p := |env.data|]), k + 1, Reach(env, k + 1), -1)
    ensures rv != CH_SUCCESS && rv != CH_CALLBACK_SKIP_PATTERN ==> Stopped(env, w.log, w.runs, FinalStatus(rv))
  {
    var u := Seen(v, p);
    assert PcreInRange(env) && !Exact(env, p);
    Activate(env, v, k, Reach(env, k), p, 0);
    ReachGrows(env, k);
    if env.leftmost(p, 0).Some? && AllInOrder(env) {
      FirstHitBound(env, k);
    }
    hide Assumptions, Good, Stopped, Scanned, Exact, Reach, Finished, Project, PcreInRange;
    FirstScanOutcome(env, u, k, Reach(env, k), p, w, rv);
    if rv == CH_SUCCESS {
      CountHit(env, w, k);
    } else if rv == CH_CALLBACK_SKIP_PATTERN {
      CountHit(env, w.(start := w.start[p := |env.data|]), k);
    }
  }

  /** A hit that is dropped: its pattern is active and, if its matches are exact, past it. */
  lemma DroppedHit(env: Env, v: View, k: nat)
    requires Assumptions(env) && k < |env.hits| && Good(env, v, k, Reach(env, k), -1)
    requires HitSeen(env, v.start, v.active, env.hits[k])
    ensures Good(env, v, k + 1, Reach(env, k + 1), -1)
  {
    ReachGrows(env, k);
    hide Assumptions, Good, HitSeen;
    NextHit(env, v, k, Reach(env, k), Reach(env, k + 1));
  }

  lemma ReachGrows(env: Env, k: nat)
    requires Assumptions(env) && k < |env.hits|
    ensures Reach(env, k + 1) == env.hits[k].to <= |env.data|
    ensures AllInOrder(env) ==> Reach(env, k) <= Reach(env, k + 1) && Reach(env, k) <= Reach(env, |env.hits|)
  {
    assert HitInRange(env, env.hits[k]);
  }

  /** Queueing an accepted hit of a fixed-width pattern, its leftmost match from where it stands. */
  lemma AcceptedHit(env: Env, v: View, k: nat, p: nat, s: Span)
    requires Assumptions(env) && k < |env.hits| && env.hits[k] == Hit(p, s.from, s.to)
    requires Good(env, v, k, s.to, p) && p < |v.slot| && Exact(env, p)
    requires v.slot[p].None? && p in v.active && !Finished(env, v.log, p)
    requires v.start[p] <= s.from
    requires forall j | 0 <= j < k && env.hits[j].id == p :: env.hits[j].from < v.start[p]
    requires (Project(v.log, p) == [] && v.start[p] == 0)
        || (!env.patterns[p].single && Owed(env, v.log, p, v.start[p]))
    ensures Good(env, Queue(env, v, p, s), k + 1, Reach(env, k + 1), -1)
  {
    assert PcreInRange(env) && |v.slot| == |v.start| == |env.patterns|;
    hide PcreInRange, Assumptions, Good, Project, Expected, Rest, Finished, ReportsUpTo, Owed, Exact, Unfailed, Resume,
         Reach, HitSeen;
    HitIsLeftmost(env, k, v.start[p]);
    HitHasWidth(env, k, p, s);
    ReachGrows(env, k);
    GoodReports(env, v, k, s.to, p);
    AcceptedIsNext(env, v.log, p, v.start[p], s);
    QueueNext(env, v, k, s.to, p, s);
    QueuedIsSeen(env, v, p, s);
    NextHit(env, Queue(env, v, p, s), k, s.to, s.to);
  }

  /** Hits of fixed-width patterns are not empty. */
  lemma HitHasWidth(env: Env, k: nat, p: nat, s: Span)
    requires Assumptions(env) && k < |env.hits| && env.hits[k] == Hit(p, s.from, s.to)
    requires p < |env.patterns| && Exact(env, p)
    ensures s.from < s.to <= |env.data|
  {
    assert HitMatches(env, env.hits[k]) && HitInRange(env, env.hits[k]) && WellCompiled(env);
  }

  /** A match found from where a pattern stands is the one it owes next. */
  lemma AcceptedIsNext(env: Env, log: seq<Event>, p: nat, start: nat, s: Span)
    requires PcreInRange(env) && p < |env.patterns| && env.leftmost(p, start) == Some(s) && start <= |env.data|
    requires (Project(log, p) == [] && start == 0) || (!env.patterns[p].single && Owed(env, log, p, start))
    ensures Project(log, p) + [s] + Rest(env, p, Resume(env, p, s)) == Expected(env, p)
  {
    hide PcreInRange, Project, Expected, Rest, Owed, Resume;
    if start == 0 && Project(log, p) == [] {
      FirstOwed(env, p);
      assert Project(log, p) + [s] + Rest(env, p, Resume(env, p, s)) == [s] + Rest(env, p, Resume(env, p, s));
    } else {
      OwedNext(env, log, p, start);
    }
  }

  lemma QueuedIsSeen(env: Env, v: View, p: nat, s: Span)
    requires |v.slot| == |v.start| == |env.patterns| && p < |v.slot| && p in v.active && s.from < s.to
    ensures HitSeen(env, Queue(env, v, p, s).start, v.active, Hit(p, s.from, s.to))
  {
    hide Exact;
  }

  /** The first hit of a fixed-width pattern is its first match. */
  lemma FirstExactOutcome(env: Env, v: View, k: nat, p: nat, s: Span)
    requires Assumptions(env) && k < |env.hits| && env.hits[k] == Hit(p, s.from, s.to)
    requires Good(env, v, k, Reach(env, k), -1)
    requires p < |env.patterns| == |v.slot| == |v.start| && Exact(env, p) && p !in v.active
    ensures v.slot[p].None?
    ensures Good(env, Queue(env, Seen(v, p), p, s), k + 1, Reach(env, k + 1), -1)
  {
    ReachGrows(env, k);
    Activate(env, v, k, Reach(env, k), p, 0);
    assert PcreInRange(env);
    hide Assumptions, Good, Exact, Resume, Reach, Finished, Project, PcreInRange;
    RaiseBound(env, Seen(v, p), k, Reach(env, k), s.to, p);
    AcceptedHit(env, Seen(v, p), k, p, s);
  }

  /** A later hit that is not dropped finds an earlier match of its pattern in the queue. */
  lemma LaterExactReady(env: Env, v: View, k: nat, p: nat)
    requires Assumptions(env) && k < |env.hits| && p == env.hits[k].id && p < |env.patterns|
    requires Good(env, v, k, Reach(env, k), -1)
    requires Exact(env, p) && !env.patterns[p].single && p in v.active
    requires |v.slot| == |v.start| == |env.patterns| && env.hits[k].to >= v.start[p] + env.patterns[p].minWidth
    ensures v.slot[p].Some? && v.slot[p].value.to <= env.hits[k].to
    ensures v.start[p] <= env.hits[k].from && v.start[p] < |env.data|
  {
    assert PcreInRange(env) && HitMatches(env, env.hits[k]) && HitInRange(env, env.hits[k]) && WellCompiled(env);
    hide Assumptions, HitsSeen, ReportsUpTo, QueueAfterReports, LogOk, EndsFinal, PcreInRange, Project, Rest, Expected;
    assert PatternOk(env, v.log, p, v.slot[p], v.start[p], p in v.active);
  }

  /** Hits of a fixed-width pattern that end too early to follow its last match are already seen. */
  lemma EarlyHitSeen(env: Env, v: View, k: nat, p: nat)
    requires Assumptions(env) && k < |env.hits| && p == env.hits[k].id && p < |env.patterns| == |v.start|
    requires Exact(env, p) && p in v.active && env.hits[k].to < v.start[p] + env.patterns[p].minWidth
    ensures HitSeen(env, v.start, v.active, env.hits[k])
  {
    assert HitMatches(env, env.hits[k]);
  }

  /** The sum the source computes in 32 bits does not wrap. */
  lemma SumFits(env: Env, v: View, k: nat, p: nat)
    requires Assumptions(env) && k < |env.hits| && p == env.hits[k].id && p < |env.patterns| && |env.data| <= INT_MAX
    requires Good(env, v, k, Reach(env, k), -1)
    requires Exact(env, p) && p in v.active
    ensures |v.start| == |env.patterns| && v.start[p] + env.patterns[p].minWidth < U32_RANGE
  {
    assert PcreInRange(env) && HitMatches(env, env.hits[k]) && HitInRange(env, env.hits[k]) && WellCompiled(env);
    hide Assumptions, HitsSeen, ReportsUpTo, QueueAfterReports, LogOk, EndsFinal, PcreInRange, Project, Rest, Expected;
    assert PatternOk(env, v.log, p, v.slot[p], v.start[p], p in v.active);
  }

  /** After catching up, either the user skipped the pattern or the hit is its next match. */
  lemma LaterExactOutcome(env: Env, w: View, k: nat, p: nat, s: Span, start: nat)
    requires Assumptions(env) && k < |env.hits| && env.hits[k] == Hit(p, s.from, s.to) && p < |env.patterns|
    requires Exact(env, p) && !env.patterns[p].single && start <= s.from && start < |env.data|
    requires Superseded(env, w, p, start, k, s.to) && p in w.active
    ensures p < |w.start| == |w.slot| && w.slot[p].None?
    ensures w.start[p] >= |env.data| ==> Good(env, w, k + 1, Reach(env, k + 1), -1)
    ensures w.start[p] < |env.data| ==> Good(env, Queue(env, w, p, s), k + 1, Reach(env, k + 1), -1)
  {
    assert PcreInRange(env) && HitMatches(env, env.hits[k]) && HitInRange(env, env.hits[k]) && WellCompiled(env);
    if w.start[p] < |env.data| {
      forall j | 0 <= j < k && env.hits[j].id == p ensures env.hits[j].from < w.start[p] {
        assert HitSeen(env, w.start, w.active, env.hits[j]);
      }
      hide Assumptions, Good, PcreInRange, Project, Owed, Finished, WellCompiled;
      AcceptedHit(env, w, k, p, s);
    } else {
      SkippedIsSeen(env, w, k, s.to, p);
      hide Assumptions, Good, PcreInRange, Project, Owed, Finished, WellCompiled;
      NextHit(env, w, k, s.to, s.to);
    }
  }

  lemma SkippedIsSeen(env: Env, w: View, k: nat, bound: nat, p: nat)
    requires Assumptions(env) && k < |env.hits| && p == env.hits[k].id && p < |env.patterns|
    requires Good(env, w, k, bound, -1) && Exact(env, p) && p in w.active
    requires w.start[p] >= |env.data|
    ensures HitSeen(env, w.start, w.active, env.hits[k])
  {
    assert HitMatches(env, env.hits[k]) && HitInRange(env, env.hits[k]);
  }

  lemma StoppedIsFinal(env: Env, log: seq<Event>, runs: seq<PcreRun>, rv: int)
    requires PcreInRange(env) && Stopped(env, log, runs, rv)
    ensures Stopped(env, log, runs, FinalStatus(rv))
  {
    hide PcreInRange, Safe, RunsOk, HardFailure, NeverStopped, NoHardFailure;
  }

  /** The answer `rv` of the callback on hit `k`, with `ret` stored in the scratch space: go on, stop
      because no later hit can matter, or stop because of the user or of PCRE. */
  ghost predicate Answered(env: Env, w: View, k: nat, rv: int, ret: int)
    requires Assumptions(env) && k < |env.hits|
  {
    && (ret == CH_SUCCESS && rv == HS_SUCCESS ==> Good(env, w, k + 1, Reach(env, k + 1), -1))
    && (ret == CH_SUCCESS && rv != HS_SUCCESS ==>
          && (forall p | 0 <= p < |env.patterns| :: p in w.active)
          && Good(env, w, |env.hits|, Reach(env, |env.hits|), -1))
    && (ret != CH_SUCCESS ==> rv != HS_SUCCESS && Stopped(env, w.log, w.runs, FinalStatus(ret)))
  }

  lemma AnswerGood(env: Env, w: View, k: nat, rv: int)
    requires Assumptions(env) && k < |env.hits|
    requires rv == CH_SUCCESS ==> Good(env, w, k + 1, Reach(env, k + 1), -1)
    requires rv != CH_SUCCESS ==> Stopped(env, w.log, w.runs, FinalStatus(rv))
    ensures Answered(env, w, k, rv, rv)
    ensures rv == CH_CALLBACK_TERMINATE ==> Answered(env, w, k, HS_SCAN_TERMINATED, rv)
  {
    hide Assumptions, Good, Stopped, FinalStatus;
  }

  /** A dropped hit leaves the state as it is; with `stop`, no hit can matter any more. */
  lemma DroppedOutcome(env: Env, v: View, k: nat, stop: bool)
    requires Assumptions(env) && k < |env.hits| && Good(env, v, k, Reach(env, k), -1)
    requires HitSeen(env, v.start, v.active, env.hits[k])
    requires stop ==> (env.allConfirm || env.allSingle) && forall p | 0 <= p < |env.patterns| :: p in v.active
    ensures Answered(env, v, k, if stop then 1 else HS_SUCCESS, CH_SUCCESS)
  {
    ReachGrows(env, k);
    hide Assumptions, Good, HitSeen, Reach;
    DroppedHit(env, v, k);
    if stop {
      SkipHits(env, v, k, Reach(env, k), Reach(env, |env.hits|));
    }
  }

  lemma ActiveHitSeen(env: Env, v: View, k: nat, p: nat)
    requires Assumptions(env) && k < |env.hits| && p == env.hits[k].id && p < |env.patterns| == |v.start|
    requires p in v.active && (env.patterns[p].Confirmed() || env.patterns[p].single)
    ensures HitSeen(env, v.start, v.active, env.hits[k])
  {
  }

  /** The state in which the queue is initialised. */
  lemma InitialGood(env: Env, v: View)
    requires Assumptions(env) && v.log == [] && v.runs == [] && v.active == {}
        && |v.slot| == |v.start| == |env.patterns|
    requires forall p | 0 <= p < |v.slot| :: v.slot[p].None?
    ensures Good(env, v, 0, 0, -1)
  {
    assert PcreInRange(env);
  }

  /** No pattern is started twice. */
  lemma NextUnguarded(env: Env, i: nat)
    requires Assumptions(env) && i < |env.unguarded|
    ensures env.unguarded[i] < |env.patterns| && env.unguarded[i] !in env.unguarded[..i]
    ensures forall p :: p in env.unguarded[..i + 1] <==> p in env.unguarded[..i] || p == env.unguarded[i]
  {
    assert WellCompiled(env);
    assert env.unguarded[..i + 1] == env.unguarded[..i] + [env.unguarded[i]];
  }

  /** A pattern without Hyperscan support is scanned by PCRE from the start. */
  lemma UnguardedOutcome(env: Env, v: View, p: nat, w: View, rv: int)
    requires Assumptions(env) && Good(env, v, 0, 0, -1)
    requires p < |env.patterns| == |v.slot| == |v.start| && p in env.unguarded && p !in v.active
    requires Scanned(env, v.(active := v.active + {p}), w, p, 0, rv)
    ensures |w.start| == |v.start|
    ensures rv == CH_CALLBACK_SKIP_PATTERN ==> Good(env, w.(start := w.start[p := |env.data|]), 0, 0, -1)
    ensures !Ends(rv) ==> Good(env, w, 0, 0, -1)
    ensures rv == CH_CALLBACK_TERMINATE ==> Stopped(env, w.log, w.runs, CH_SCAN_TERMINATED)
    ensures rv == CH_FAIL_INTERNAL ==> Stopped(env, w.log, w.runs, CH_FAIL_INTERNAL)
  {
    var u := v.(active := v.active + {p});
    assert PcreInRange(env) && !Exact(env, p);
    Activate(env, v, 0, 0, p, v.start[p]);
    assert v.(start := v.start[p := v.start[p]], active := v.active + {p}) == u;
    hide Assumptions, Good, Stopped, Scanned, Exact, Finished, Project, PcreInRange;
    FirstScanOutcome(env, u, 0, 0, p, w, rv);
  }

  lemma TopIsEarliest(slot: seq<Option<Span>>, top: QueueItem)
    requires top in ItemsOf(slot, |slot|)
    requires forall x | x in ItemsOf(slot, |slot|) :: !Before(x, top)
    ensures top.id < |slot| && slot[top.id] == Some(Span(top.from, top.to))
    ensures Earliest(slot, top.id)
  {
    hide ItemsOf;
    ItemsMember(slot, |slot|, top);
    forall q | 0 <= q < |slot| && slot[q].Some? ensures top.to <= slot[q].value.to {
      var x := QueueItem(slot[q].value.from, slot[q].value.to, q);
      ItemsMember(slot, |slot|, x);
      assert !Before(x, top);
    }
  }

  lemma ReportStop(env: Env, v: View, done: nat, bound: nat, p: nat)
    requires Assumptions(env) && Good(env, v, done, bound, -1)
    requires p < |v.slot| && Earliest(v.slot, p) && v.slot[p].value.to <= bound
    requires env.onEvent(Report(v, p).log) == CH_CALLBACK_TERMINATE
    ensures Stopped(env, Report(v, p).log, v.runs, CH_SCAN_TERMINATED)
  {
    assert PcreInRange(env);
    hide Assumptions, Good, Safe, RunsOk, PcreInRange;
    ReportEarliest(env, v, done, bound, p);
  }

  lemma ReportSkip(env: Env, v: View, done: nat, bound: nat, p: nat)
    requires Assumptions(env) && Good(env, v, done, bound, -1)
    requires p < |v.slot| && Earliest(v.slot, p) && v.slot[p].value.to <= bound
    requires env.onEvent(Report(v, p).log) == CH_CALLBACK_SKIP_PATTERN
    ensures Good(env, Report(v, p).(start := v.start[p := |env.data|]), done, bound, -1)
  {
    var w := Report(v, p);
    assert PcreInRange(env);
    PatternsAt(env, v, p);
    QueuedStart(env, v.log, p, v.slot[p].value, v.start[p], p in v.active);
    hide PcreInRange, Assumptions, Good, Project, Expected, Rest, Finished, ReportsUpTo, Fails, Resume, PatternOk,
         Owed, Exact, Safe, NextStart;
    ReportEarliest(env, v, done, bound, p);
    Settle(env, w, done, bound, p, |env.data|);
  }

  lemma ReportContinue(env: Env, v: View, done: nat, bound: nat, p: nat)
    requires Assumptions(env) && Good(env, v, done, bound, -1)
    requires p < |v.slot| && Earliest(v.slot, p) && v.slot[p].value.to <= bound
    requires env.onEvent(Report(v, p).log) != CH_CALLBACK_TERMINATE
    requires env.onEvent(Report(v, p).log) != CH_CALLBACK_SKIP_PATTERN
    ensures Between(env, Report(v, p), done, bound, p)
  {
    assert PcreInRange(env);
    PatternsAt(env, v, p);
    QueuedStart(env, v.log, p, v.slot[p].value, v.start[p], p in v.active);
    hide PcreInRange, Assumptions, Good, Project, Expected, Rest, Finished, ReportsUpTo, Fails, Resume, PatternOk,
         Owed, Exact, Safe, NextStart;
    ReportEarliest(env, v, done, bound, p);
    WeakenReports(env, Report(v, p).log, v.slot[p].value.to, v.start[p]);
  }

  /** What the user's answer to the report of `p` leads to. */
  lemma ReportOutcome(env: Env, v: View, done: nat, bound: nat, p: nat)
    requires Assumptions(env) && Good(env, v, done, bound, -1)
    requires p < |v.slot| && Earliest(v.slot, p) && v.slot[p].value.to <= bound
    ensures var w := Report(v, p);
            var answer := env.onEvent(w.log);
            && (answer == CH_CALLBACK_TERMINATE ==> Stopped(env, w.log, w.runs, CH_SCAN_TERMINATED))
            && (answer == CH_CALLBACK_SKIP_PATTERN ==>
                  Good(env, w.(start := v.start[p := |env.data|]), done, bound, -1))
            && (answer != CH_CALLBACK_TERMINATE && answer != CH_CALLBACK_SKIP_PATTERN ==>
                  Between(env, w, done, bound, p))
  {
    assert PcreInRange(env) && |v.start| == |v.slot|;
    hide PcreInRange, Assumptions, Good, Stopped, Between, Report;
    if env.onEvent(Report(v, p).log) == CH_CALLBACK_TERMINATE {
      ReportStop(env, v, done, bound, p);
    } else if env.onEvent(Report(v, p).log) == CH_CALLBACK_SKIP_PATTERN {
      ReportSkip(env, v, done, bound, p);
    } else {
      ReportContinue(env, v, done, bound, p);
    }
  }

  lemma QueuedStart(env: Env, log: seq<Event>, p: nat, s: Span, start: nat, active: bool)
    requires PcreInRange(env) && p < |env.patterns| && PatternOk(env, log, p, Some(s), start, active)
    ensures s.to <= start && (Exact(env, p) ==> start <= |env.data|)
  {
  }

  lemma WeakenReports(env: Env, log: seq<Event>, a: nat, b: nat)
    requires ReportsUpTo(env, log, a) && (AllInOrder(env) ==> a <= b)
    ensures ReportsUpTo(env, log, b)
  {
  }

  /** Nothing but the queued match and the scan start of `p`, and the events, may differ. */
  ghost predicate OnlyAt(v: View, w: View, p: nat) {
    && |v.slot| == |w.slot| && |v.start| == |w.start| && v.active == w.active
    && (forall q | 0 <= q < |w.slot| && q != p :: w.slot[q] == v.slot[q])
    && (forall q | 0 <= q < |w.start| && q != p :: w.start[q] == v.start[q])
  }

  lemma SkipContinues(env: Env, v: View, p: nat, done: nat, bound: nat)
    requires Assumptions(env) && p < |v.slot| == |v.start| == |env.patterns| && v.slot[p].Some?
    requires Good(env, Report(v, p).(start := v.start[p := |env.data|]), done, bound, -1)
    ensures var w := Report(v, p).(start := v.start[p := |env.data|]);
            Superseded(env, w, p, v.start[p], done, bound) && Continued(env, v, w, p, done, bound)
  {
    hide Assumptions, Good, Continued, Between;
    ContinuedAfter(env, v, Report(v, p).(start := v.start[p := |env.data|]), p, done, bound);
  }

  lemma HitSupersedes(env: Env, v: View, p: nat, done: nat, bound: nat)
    requires Assumptions(env) && p < |v.slot| == |v.start| == |env.patterns| && v.slot[p].Some?
    requires Between(env, Report(v, p), done, bound, p)
    ensures Superseded(env, Report(v, p), p, v.start[p], done, bound)
  {
    hide Assumptions, Good, Between;
  }

  lemma RescanContinues(env: Env, v: View, w: View, p: nat, done: nat, bound: nat, rv: int)
    requires Assumptions(env) && p < |v.slot| == |v.start| == |env.patterns| && v.slot[p].Some?
    requires Rescanned(env, Report(v, p), w, done, bound, p, rv)
    ensures rv == CH_SUCCESS ==> Continued(env, v, w, p, done, bound)
    ensures rv != CH_SUCCESS ==> |w.slot| == |v.slot| && w.slot[p].None? && Stopped(env, w.log, w.runs, rv)
  {
    hide Assumptions, Good, Continued, Stopped, Rest;
    if rv == CH_SUCCESS {
      ContinuedAfter(env, v, w, p, done, bound);
    }
  }

  /** The effect of looking for the next match of `p`. */
  ghost predicate Rescanned(env: Env, v: View, w: View, done: nat, bound: nat, p: nat, rv: int)
    requires Assumptions(env)
  {
    && |v.slot| == |v.start| == |env.patterns| && p < |v.slot| && OnlyAt(v, w, p)
    && (w.slot[p].Some? ==> |Rest(env, p, w.start[p])| < |Rest(env, p, v.start[p])|)
    && (if rv == CH_SUCCESS then Good(env, w, done, bound, -1) else w.slot[p].None? && Stopped(env, w.log, w.runs, rv))
  }

  /** A pattern that is not scanned again owes nothing. */
  lemma NoRescan(env: Env, v: View, done: nat, bound: nat, p: nat)
    requires Assumptions(env) && Between(env, v, done, bound, p)
    requires v.start[p] > |env.data| || env.patterns[p].single
    ensures Rescanned(env, v, v, done, bound, p, CH_SUCCESS)
  {
    hide Resume, PcreInRange, Assumptions, Good, Project, Expected, Rest, Finished, ReportsUpTo, Settled, Exact,
         NextStart, IsPrefix, Owed;
    AssumedInRange(env);
    BetweenShape(env, v, done, bound, p);
    OwedNext(env, v.log, p, v.start[p]);
    SettledWhenComplete(env, v.log, p);
    Settle(env, v, done, bound, p, v.start[p]);
    assert v.(start := v.start[p := v.start[p]]) == v;
  }

  /** What a pattern between two of its matches is due to. */
  lemma BetweenIsDue(env: Env, v: View, done: nat, bound: nat, p: nat)
    requires Assumptions(env) && Between(env, v, done, bound, p)
    requires v.start[p] <= |env.data| && !env.patterns[p].single
    ensures PcreInRange(env) && Due(env, v, p, v.start[p]) && |v.slot| == |v.start| == |env.patterns|
    ensures Good(env, v, done, bound, p) && Owed(env, v.log, p, v.start[p])
  {
    AssumedInRange(env);
    assert |v.slot| == |v.start| == |env.patterns|;
    hide Assumptions, Good, PcreInRange, IsPrefix, Finished, Owed, NextStart, ReportsUpTo, Exact;
  }

  /** A failed scan behind a match: the pattern is settled, or the scan stops. */
  lemma RescanFails(env: Env, v: View, done: nat, bound: nat, p: nat)
    requires Assumptions(env) && Between(env, v, done, bound, p)
    requires v.start[p] <= |env.data| && !env.patterns[p].single && Failure(env, p, v.start[p]).Some?
    ensures var answer := FailureAnswer(env, v.log, Failure(env, p, v.start[p]).value, p);
            var w := Called(v, p, v.start[p]).(log := answer.1);
            && |w.slot| == |w.start| == |env.patterns|
            && (answer.0 == CH_CALLBACK_TERMINATE ==> Rescanned(env, v, w, done, bound, p, CH_SCAN_TERMINATED))
            && (answer.0 == CH_FAIL_INTERNAL ==> Rescanned(env, v, w, done, bound, p, CH_FAIL_INTERNAL))
            && (!Ends(answer.0) ==>
                  Rescanned(env, v, w.(start := w.start[p := |env.data|]), done, bound, p, CH_SUCCESS))
  {
    assert |v.slot| == |v.start| == |env.patterns| && p < |v.slot|;
    hide FailureAnswer, PcreInRange, Assumptions, Good, Settled, Stopped, Failure, Due, Owed, Between, Rescanned;
    BetweenIsDue(env, v, done, bound, p);
    BetweenShape(env, v, done, bound, p);
    FailedRun(env, v, done, bound, p, v.start[p]);
    var answer := FailureAnswer(env, v.log, Failure(env, p, v.start[p]).value, p);
    var w := Called(v, p, v.start[p]).(log := answer.1);
    if Ends(answer.0) {
      RescanStops(env, v, w, done, bound, p, FinalStatus(answer.0));
    } else {
      Settle(env, w, done, bound, p, |env.data|);
      RescanSettles(env, v, w.(start := w.start[p := |env.data|]), done, bound, p);
    }
  }

  lemma RescanStops(env: Env, v: View, w: View, done: nat, bound: nat, p: nat, rv: int)
    requires Assumptions(env) && p < |v.slot| == |v.start| == |env.patterns| && v.slot[p].None?
    requires w.slot == v.slot && w.start == v.start && w.active == v.active
    requires PcreInRange(env) && Stopped(env, w.log, w.runs, rv)
    ensures Rescanned(env, v, w, done, bound, p, rv)
  {
    hide Assumptions, PcreInRange, Good, Rest, Safe, RunsOk, Ended;
  }

  lemma RescanSettles(env: Env, v: View, w: View, done: nat, bound: nat, p: nat)
    requires Assumptions(env) && p < |v.slot| == |v.start| == |env.patterns| && v.slot[p].None?
    requires w.slot == v.slot && w.start == v.start[p := |env.data|] && w.active == v.active
    requires Good(env, w, done, bound, -1)
    ensures Rescanned(env, v, w, done, bound, p, CH_SUCCESS)
  {
    assert PcreInRange(env);
    hide Assumptions, PcreInRange, Good, Rest, Stopped;
  }

  lemma BetweenShape(env: Env, v: View, done: nat, bound: nat, p: nat)
    requires Assumptions(env) && Between(env, v, done, bound, p)
    ensures |v.slot| == |v.start| == |env.patterns| && v.slot[p].None? && p in v.active
    ensures Exact(env, p) ==> v.start[p] <= |env.data|
  {
    hide Assumptions, PatternsOk, HitsSeen, LogOk, RunsGood;
  }

  lemma AssumedInRange(env: Env)
    requires Assumptions(env)
    ensures PcreInRange(env) && WellCompiled(env)
  {
    hide PcreInRange, WellCompiled;
  }

  /** A scan that finds nothing: the match sequence is complete. */
  lemma RescanEnds(env: Env, v: View, done: nat, bound: nat, p: nat)
    requires Assumptions(env) && Between(env, v, done, bound, p)
    requires v.start[p] <= |env.data| && !env.patterns[p].single && env.leftmost(p, v.start[p]).None?
    requires Failure(env, p, v.start[p]).None?
    ensures |v.start| == |env.patterns|
    ensures var u := Called(v, p, v.start[p]);
            Rescanned(env, v, u.(start := u.start[p := |env.data|]), done, bound, p, CH_SUCCESS)
  {
    assert |v.slot| == |v.start| == |env.patterns|;
    hide Resume, PcreInRange, Assumptions, Good, Project, Expected, Rest, Finished, ReportsUpTo, Settled, NextStart,
         Owed, Failure, Between, Due, IsPrefix;
    BetweenIsDue(env, v, done, bound, p);
    BetweenShape(env, v, done, bound, p);
    DueIsPrefix(env, v, p, v.start[p]);
    OwedNext(env, v.log, p, v.start[p]);
    SettledWhenComplete(env, v.log, p);
    CalledGood(env, v, done, bound, p, v.start[p]);
    Settle(env, Called(v, p, v.start[p]), done, bound, p, |env.data|);
  }

  lemma DueIsPrefix(env: Env, v: View, p: nat, start: nat)
    requires PcreInRange(env) && Due(env, v, p, start)
    ensures p < |env.patterns| == |v.slot| && v.slot[p].None? && p in v.active
    ensures IsPrefix(env, v.log, p) && !Finished(env, v.log, p)
  {
    hide PcreInRange, IsPrefix, Finished, Project, NextStart;
  }

  lemma FoundIsNext(env: Env, v: View, done: nat, bound: nat, p: nat, s: Span)
    requires Assumptions(env) && Between(env, v, done, bound, p)
    requires v.start[p] <= |env.data| && !env.patterns[p].single && env.leftmost(p, v.start[p]) == Some(s)
    requires Failure(env, p, v.start[p]).None?
    ensures |v.slot| == |v.start| == |env.patterns|
    ensures Good(env, Queue(env, Called(v, p, v.start[p]), p, s), done, bound, -1)
    ensures |Rest(env, p, Resume(env, p, s))| < |Rest(env, p, v.start[p])|
  {
    var start := v.start[p];
    assert PcreInRange(env) && InRange(env, start, env.leftmost(p, start)) && MatchIsHit(env, p, start)
        && WellCompiled(env) && ReportsUpTo(env, v.log, start);
    hide Resume, PcreInRange, Assumptions, Good, Project, Expected, Rest, Finished, ReportsUpTo, Settled, NextStart,
         Owed, Failure, Between, Due, IsPrefix, FailsAfter, Unfailed;
    BetweenIsDue(env, v, done, bound, p);
    BetweenShape(env, v, done, bound, p);
    DueIsPrefix(env, v, p, start);
    OwedNext(env, v.log, p, start);
    WeakenReports(env, v.log, start, s.to);
    CalledGood(env, v, done, bound, p, start);
    PrefixIsUnfailed(env, v.log, p);
    UnfailedFront(env, p, Project(v.log, p), s);
    QueueNext(env, Called(v, p, start), done, bound, p, s);
    RestShrinks(env, p, start);
  }

  lemma PrefixIsUnfailed(env: Env, log: seq<Event>, p: nat)
    requires PcreInRange(env) && p < |env.patterns| && IsPrefix(env, log, p)
    ensures Exact(env, p) || Unfailed(env, p, Project(log, p))
  {
    hide PcreInRange, Unfailed, Project, Expected, Exact;
  }

  lemma OnlyQueued(env: Env, v: View, p: nat, s: Span)
    requires p < |v.slot| == |v.start| == |env.patterns|
    ensures var w := Queue(env, v, p, s);
            |w.slot| == |w.start| == |v.slot| && OnlyAt(v, w, p) && w.slot[p] == Some(s)
                && w.start[p] == Resume(env, p, s)
  {
    hide Resume;
  }

  /** A scan that finds a match queues it, and less is left to find. */
  lemma RescanFinds(env: Env, v: View, done: nat, bound: nat, p: nat)
    requires Assumptions(env) && Between(env, v, done, bound, p)
    requires v.start[p] <= |env.data| && !env.patterns[p].single && env.leftmost(p, v.start[p]).Some?
    requires Failure(env, p, v.start[p]).None?
    ensures |v.slot| == |v.start| == |env.patterns|
    ensures var w := Queue(env, Called(v, p, v.start[p]), p, env.leftmost(p, v.start[p]).value);
            Rescanned(env, v, w, done, bound, p, CH_SUCCESS)
  {
    assert p < |v.start|;
    hide Assumptions, Good, Between, Rest, Resume, Queue, OnlyAt, Failure;
    var s := env.leftmost(p, v.start[p]).value;
    FoundIsNext(env, v, done, bound, p, s);
    OnlyQueued(env, v, p, s);
    OnlyQueued(env, Called(v, p, v.start[p]), p, s);
    SameSlots(env, v, p, v.start[p], s);
  }

  lemma SameSlots(env: Env, v: View, p: nat, start: nat, s: Span)
    requires p < |v.slot| == |v.start| == |env.patterns|
    ensures OnlyAt(v, Queue(env, Called(v, p, start), p, s), p)
  {
    hide Resume;
  }

  /** What the next scan of `p` leads to: a match, no match or a failure. */
  lemma RescanOutcome(env: Env, v: View, done: nat, bound: nat, p: nat, w: View, rv: int)
    requires Assumptions(env) && Between(env, v, done, bound, p)
    requires v.start[p] <= |env.data| && !env.patterns[p].single && Scanned(env, v, w, p, v.start[p], rv)
    ensures |w.slot| == |w.start| == |env.patterns|
    ensures rv == CH_CALLBACK_TERMINATE ==> Rescanned(env, v, w, done, bound, p, CH_SCAN_TERMINATED)
    ensures rv == CH_FAIL_INTERNAL ==> Rescanned(env, v, w, done, bound, p, CH_FAIL_INTERNAL)
    ensures !Ends(rv) && (w.slot[p].None? || rv == CH_CALLBACK_SKIP_PATTERN) ==>
              Rescanned(env, v, w.(start := w.start[p := |env.data|]), done, bound, p, CH_SUCCESS)
    ensures w.slot[p].Some? ==> rv == CH_SUCCESS && Rescanned(env, v, w, done, bound, p, CH_SUCCESS)
  {
    assert |v.slot| == |v.start| == |env.patterns|;
    assert v.slot[p].None?;
    hide FailureAnswer, Resume, Assumptions, Good, Between, Rescanned, Failure;
    if Failure(env, p, v.start[p]).Some? {
      RescanFails(env, v, done, bound, p);
    } else if env.leftmost(p, v.start[p]).None? {
      RescanEnds(env, v, done, bound, p);
    } else {
      RescanFinds(env, v, done, bound, p);
    }
  }

  lemma NoHits(env: Env)
    requires Assumptions(env) && env.noMultimatch
    ensures |env.hits| == 0
  {
    assert |env.hits| > 0 ==> HitInRange(env, env.hits[0]);
  }

  /** The status a scan ends with when a Hyperscan callback stored `ret`. */
  function FinalStatus(ret: int): int {
    if ret == CH_CALLBACK_TERMINATE then CH_SCAN_TERMINATED else ret
  }

  /** Of the pattern of hit `h`, all matches up to the hit are reported but for the last one. */
  ghost predicate CaughtUp(env: Env, log: seq<Event>, h: Hit)
    requires PcreInRange(env)
  {
    && h.id < |env.patterns|
    && (|| Cut(env, log, h.id) || Project(log, h.id) == Expected(env, h.id)
        || exists s: Span ::
             && AllBut(env, log, h.id, s)
             && (Exact(env, h.id) && !env.patterns[h.id].single ==> h.from < Resume(env, h.id, s)))
  }

  /** The match behind the reported ones is `s`. */
  ghost predicate AllBut(env: Env, log: seq<Event>, p: nat, s: Span)
    requires PcreInRange(env) && p < |env.patterns|
  {
    Project(log, p) + [s] <= Expected(env, p)
  }

  /** What a scan that ran delivers.  Every run: per pattern a prefix of its match sequence, ends in order if
      the hits came in order, no report after "skip" or "stop", and the user told of exactly the limits PCRE
      ran into.  A successful run: all of the sequence, unless the user skipped the pattern or PCRE ran into
      a limit where its next match was to be found.  Any other status has its reason; if it is an error of
      Hyperscan, the scan had caught up with every hit. */
  ghost predicate ScanResult(env: Env, log: seq<Event>, runs: seq<PcreRun>, rv: int)
    requires PcreInRange(env)
  {
    && Safe(env, log) && RunsOk(env, log, runs)
    && (rv == CH_SUCCESS ==>
          && NeverStopped(env, log) && NoHardFailure(env, runs)
          && forall p | 0 <= p < |env.patterns| :: Cut(env, log, p) || Project(log, p) == Expected(env, p))
    && (rv != CH_SUCCESS ==>
          || Ended(env, log, runs, rv)
          || (&& rv == env.hsStatus && NeverStopped(env, log) && NoHardFailure(env, runs)
              && forall k | 0 <= k < |env.hits| :: CaughtUp(env, log, env.hits[k])))
  }

  /** When the callback always goes on, PCRE never fails and Hyperscan succeeds, the scan succeeds and
      reports exactly the match sequence of every pattern. */
  lemma UndisturbedScan(env: Env, log: seq<Event>, runs: seq<PcreRun>, rv: int)
    requires PcreInRange(env) && ScanResult(env, log, runs, rv)
    requires forall l :: env.onEvent(l) != CH_CALLBACK_TERMINATE && env.onEvent(l) != CH_CALLBACK_SKIP_PATTERN
    requires forall p: nat :: !Fails(env, p)
    requires env.hsStatus == HS_SUCCESS
    ensures rv == CH_SUCCESS && (AllInOrder(env) ==> Sorted(log))
    ensures forall p | 0 <= p < |env.patterns| :: Project(log, p) == Expected(env, p)
  {
    forall i | 0 <= i < |runs| ensures !HardFailure(env, runs[i]) {
      LooksWithoutFailure(env, runs[i]);
    }
    forall i | 0 <= i < |log| ensures log[i].Reported? {
      if log[i].LimitHit? {
        assert LimitMet(env, log[..i], log[i]);
        FailsThere(env, log, i);
      }
    }
    hide Expected, Fails, HardFailure, LimitMet;
    assert NoHardFailure(env, runs);
    forall p | 0 <= p < |env.patterns| ensures !Cut(env, log, p) || rv != CH_SUCCESS
        || Project(log, p) == Expected(env, p) {
      if Missed(env, log, p) {
        MissedFails(env, log, p);
      }
    }
  }

  lemma LooksWithoutFailure(env: Env, r: PcreRun)
    requires PcreInRange(env) && Looks(env, r) && !Fails(env, r.pattern)
    ensures !HardFailure(env, r)
  {
    hide Failure, Expected, NextStart;
    var found: seq<Span> :| found <= Expected(env, r.pattern)
                            && r.start == NextStart(env, r.pattern, found) <= |env.data|
                            && (found == [] || !env.patterns[r.pattern].single);
    assert !FailsAfter(env, r.pattern, found);
  }

  lemma MissedFails(env: Env, log: seq<Event>, p: nat)
    requires PcreInRange(env) && p < |env.patterns| && Missed(env, log, p) && IsPrefix(env, log, p)
    ensures Fails(env, p)
  {
    hide Failure, Expected, NextStart, Project;
    assert FailsAfter(env, p, Project(log, p));
  }

  /** The reports before an event are a prefix of all of them. */
  lemma {:induction false} ProjectGrows(log: seq<Event>, i: nat, p: nat)
    requires i <= |log|
    ensures Project(log[..i], p) <= Project(log, p)
  {
    if i < |log| {
      var n := |log| - 1;
      ProjectGrows(log[..n], i, p);
      assert log[..n][..i] == log[..i] && log == log[..n] + [log[n]];
      ProjectAppend(log[..n], log[n], p);
    } else {
      assert log[..i] == log;
    }
  }

  lemma FailsThere(env: Env, log: seq<Event>, i: nat)
    requires PcreInRange(env) && Prefixes(env, log) && i < |log| && log[i].LimitHit? && LimitMet(env, log[..i], log[i])
    ensures Fails(env, log[i].pattern)
  {
    var p := log[i].pattern;
    ProjectGrows(log, i, p);
    assert IsPrefix(env, log, p);
    hide Failure, Expected, NextStart, Project;
    assert FailsAfter(env, p, Project(log[..i], p));
  }

  /** What the status of a scan says. */
  lemma StatusMeans(env: Env, log: seq<Event>, runs: seq<PcreRun>, rv: int)
    requires PcreInRange(env) && ScanResult(env, log, runs, rv) && env.hsStatus != HS_SCAN_TERMINATED
    ensures rv == CH_SCAN_TERMINATED ==>
              && |log| > 0
              && match log[|log| - 1]
                 case Reported(_, _) => env.onEvent(log) == CH_CALLBACK_TERMINATE
                 case LimitHit(_, _) =>
                   && env.onError.Some?
                   && (env.onError.value(log) == CH_CALLBACK_TERMINATE || env.onError.value(log) == CH_SCAN_TERMINATED)
    ensures rv == CH_FAIL_INTERNAL ==>
              || env.hsStatus == CH_FAIL_INTERNAL
              || (|log| > 0 && log[|log| - 1].LimitHit? && env.onError.Some?
                  && env.onError.value(log) == CH_FAIL_INTERNAL)
              || (&& |runs| > 0 && Looks(env, runs[|runs| - 1])
                  && Failure(env, runs[|runs| - 1].pattern, runs[|runs| - 1].start).Some?
                  && Failure(env, runs[|runs| - 1].pattern, runs[|runs| - 1].start).value
                     !in {MatchLimit, RecursionLimit})
    ensures rv !in {CH_SUCCESS, CH_SCAN_TERMINATED, CH_FAIL_INTERNAL} ==>
              || rv == env.hsStatus
              || (|log| > 0 && log[|log| - 1].LimitHit? && env.onError.Some? && env.onError.value(log) == rv)
    ensures forall i | 0 <= i < |runs| && HardFailure(env, runs[i]) :: rv == CH_FAIL_INTERNAL && i == |runs| - 1
    ensures forall i | 0 <= i < |log| && StopAt(env, log, i) ::
              i == |log| - 1 && (rv == CH_SCAN_TERMINATED || (log[i].LimitHit? && rv == CH_FAIL_INTERNAL))
  {
    hide Safe, Looks, LimitEvents, LimitsOf, Failure;
    StopsAreLast(env, log);
    assert |log| > 0 ==> log[..|log| - 1 + 1] == log;
  }

  lemma StopsAreLast(env: Env, log: seq<Event>)
    requires PcreInRange(env) && Safe(env, log)
    ensures forall i | 0 <= i < |log| && StopAt(env, log, i) :: i == |log| - 1
  {
  }

  /** A limit that the user is not told of, or at which he lets the scan go on, never ends it. */
  lemma LimitsDoNotEnd(env: Env, log: seq<Event>, runs: seq<PcreRun>, rv: int)
    requires PcreInRange(env) && ScanResult(env, log, runs, rv) && env.hsStatus == HS_SUCCESS
    requires forall r: PcreRun :: !HardFailure(env, r)
    requires forall l :: env.onEvent(l) != CH_CALLBACK_TERMINATE
    requires env.onError.Some? ==> forall l :: env.onError.value(l) in {CH_SUCCESS, CH_CALLBACK_SKIP_PATTERN}
    ensures rv == CH_SUCCESS
  {
    hide Safe, RunsOk, HardFailure;
  }

  /** Over invalid data nothing is reported of a UTF-8 pattern whose matches PCRE has to find. */
  lemma InvalidUtf8(env: Env, log: seq<Event>, p: nat)
    requires PcreInRange(env) && Safe(env, log) && p < |env.patterns|
    requires env.patterns[p].utf8 && !env.validUtf8 && !Exact(env, p)
    ensures Project(log, p) == []
  {
    assert IsPrefix(env, log, p);
    assert Project(log, p)[..0] == [];
    assert FailsAfter(env, p, []);
  }

  /** A SINGLEMATCH pattern is reported once at most. */
  lemma SingleOnce(env: Env, log: seq<Event>, p: nat)
    requires PcreInRange(env) && Safe(env, log) && p < |env.patterns| && env.patterns[p].single
    ensures |Project(log, p)| <= 1
  {
    assert IsPrefix(env, log, p);
  }

  lemma StoppedResult(env: Env, log: seq<Event>, runs: seq<PcreRun>, rv: int)
    requires PcreInRange(env) && Stopped(env, log, runs, rv)
    ensures ScanResult(env, log, runs, rv)
  {
  }

  /** Hyperscan failed: nothing reported is wrong, and every hit was dealt with. */
  lemma HyperscanFailed(env: Env, v: View, bound: nat, rv: int)
    requires Assumptions(env) && Good(env, v, |env.hits|, bound, -1)
    requires rv != CH_SUCCESS && rv == env.hsStatus
    ensures ScanResult(env, v.log, v.runs, rv)
  {
    hide Assumptions, Safe, PatternsOk, Good, CaughtUp, LogOk, PcreInRange;
    AssumedInRange(env);
    GoodIsSafe(env, v, |env.hits|, bound);
    GoodRuns(env, v, |env.hits|, bound, -1);
    LogNeverStopped(env, v.log);
    forall k | 0 <= k < |env.hits| ensures CaughtUp(env, v.log, env.hits[k]) {
      HitCaughtUp(env, v, bound, k);
    }
  }

  lemma LogNeverStopped(env: Env, log: seq<Event>)
    requires LogOk(env, log)
    ensures NeverStopped(env, log)
  {
    hide NeverStopped;
  }

  lemma HitCaughtUp(env: Env, v: View, bound: nat, k: nat)
    requires Assumptions(env) && Good(env, v, |env.hits|, bound, -1) && k < |env.hits|
    ensures PcreInRange(env) && CaughtUp(env, v.log, env.hits[k])
  {
    AssumedInRange(env);
    var p := env.hits[k].id;
    assert HitSeen(env, v.start, v.active, env.hits[k]);
    PatternsAt(env, v, p);
    hide Assumptions, Good, PcreInRange, Project, Expected, Resume, Cut, Unfailed;
    if v.slot[p].Some? {
      var s := v.slot[p].value;
      assert Project(v.log, p) + [s] + Rest(env, p, v.start[p]) == Expected(env, p);
      assert AllBut(env, v.log, p, s);
    }
  }

  /** All hits seen and the queue drained. */
  lemma Drained(env: Env, v: View, bound: nat)
    requires Assumptions(env) && Good(env, v, |env.hits|, bound, -1)
    requires forall p | 0 <= p < |v.slot| :: v.slot[p].None?
    requires forall p | p in env.unguarded :: p in v.active
    requires env.hsStatus == HS_SUCCESS || forall p | 0 <= p < |env.patterns| :: p in v.active
    ensures ScanResult(env, v.log, v.runs, CH_SUCCESS)
  {
    assert PcreInRange(env);
    GoodIsSafe(env, v, |env.hits|, bound);
    hide Assumptions, Safe, PatternsOk, Cut, Project, Expected;
    forall p | 0 <= p < |env.patterns| ensures Cut(env, v.log, p) || Project(v.log, p) == Expected(env, p) {
      Complete(env, v, bound, p);
    }
  }

  class Scratch {
    const pq: MatchPq
    var scanStart: seq<nat>
    var active: set<nat>
    var ret: int
    var inUse: bool
    /** The events delivered to the user by the current scan. */
    var log: seq<Event>
    /** The calls of PCRE it made. */
    ghost var runs: seq<PcreRun>
    ghost var slot: seq<Option<Span>>

    ghost function State(): View
      reads this`log, this`runs, this`slot, this`scanStart, this`active
    {
      View(log, runs, slot, scanStart, active)
    }

    /** The queue holds exactly the match of each filled slot. */
    ghost predicate Linked(n: nat)
      reads this`slot, this`scanStart, pq, pq.item
    {
      && pq.Valid() && pq.item.Length == n == |slot| == |scanStart|
      && pq.Contents() == ItemsOf(slot, n)
    }

    constructor (patternCount: nat)
      ensures fresh(pq) && fresh(pq.item) && pq.Valid() && pq.item.Length == patternCount == |scanStart|
      ensures !inUse
    {
      pq := new MatchPq(patternCount);
      scanStart := seq(patternCount, _ => 0);
      active, ret, inUse, log, runs, slot := {}, CH_SUCCESS, false, [], [], [];
    }

    /** Steps past a match; after an empty one, past the whole next code point. */
    method ResumeAfter(env: Env, p: nat, span: Span) returns (start: nat)
      requires p < |env.patterns|
      ensures start == Resume(env, p, span)
    {
      if span.from != span.to {
        start := span.to;
      } else if env.patterns[p].utf8 {
        start := span.to + 1;
        while start < |env.data| && ContinuationByte(env.data[start])
          invariant NextCodePoint(env.data, start) == NextCodePoint(env.data, span.to + 1)
        {
          start := start + 1;
        }
      } else {
        start := span.to + 1;
      }
    }

    method HandleNonMatch(env: Env, p: nat, kind: PcreError) returns (rv: int)
      modifies this`log
      ensures (rv, log) == FailureAnswer(env, old(log), kind, p)
    {
      rv := CH_FAIL_INTERNAL;
      if kind == MatchLimit || kind == RecursionLimit {
        rv := CH_SUCCESS;
        if env.onError.Some? {
          log := log + [LimitHit(kind, p)];
          rv := env.onError.value(log);
        }
      }
    }

    /** Puts a match in the empty slot of its pattern. */
    method Enqueue(p: nat, s: Span)
      requires Linked(|slot|) && p < |slot| && slot[p].None?
      modifies this`slot, pq, pq.item
      ensures Linked(|slot|) && slot == old(slot)[p := Some(s)]
      ensures pq.size == old(pq.size) + 1
    {
      hide MatchPq.Valid, MatchPq.Contents, Heap, ItemsOf;
      assert 0 <= p < |slot| && slot[p].None?;
      ItemsFit(slot, |slot|);
      ItemsAdd(slot, p, s, |slot|);
      pq.CountIsSize();
      pq.Insert(QueueItem(s.from, s.to, p));
      slot := slot[p := Some(s)];
    }

    /** Runs PCRE from `start` and queues the match it finds. */
    method ScanPcre(env: Env, p: nat, start: nat) returns (rv: int)
      requires Linked(|env.patterns|) && p < |env.patterns| && slot[p].None?
      modifies this`log, this`runs, this`slot, this`scanStart, pq, pq.item
      ensures Linked(|env.patterns|)
      ensures Scanned(env, old(State()), State(), p, start, rv)
      ensures slot[p].Some? ==> pq.size == old(pq.size) + 1
      ensures slot[p].None? ==> pq.size == old(pq.size)
    {
      hide MatchPq.Valid, MatchPq.Contents, Heap, ItemsOf, FailureAnswer, Resume;
      runs := runs + [PcreRun(p, start)];
      if env.patterns[p].utf8 && !env.validUtf8 {
        rv := HandleNonMatch(env, p, BadUtf8);
        return;
      }
      var failed := env.pcreError(p, start);
      if failed.Some? {
        rv := HandleNonMatch(env, p, failed.value);
        return;
      }
      var found := env.leftmost(p, start);
      if found.Some? {
        Enqueue(p, found.value);
        var next := ResumeAfter(env, p, found.value);
        scanStart := scanStart[p := next];
      }
      rv := CH_SUCCESS;
    }

    /** Runs PCRE again for a pattern whose queued match has just been reported. */
    method ScanAgain(env: Env, p: nat, ghost done: nat, ghost bound: nat) returns (rv: int)
      requires Assumptions(env) && Linked(|env.patterns|) && Between(env, State(), done, bound, p)
      requires p < |env.patterns| && slot[p].None?
      requires scanStart[p] <= |env.data| && !env.patterns[p].single
      modifies this`log, this`runs, this`slot, this`scanStart, pq, pq.item
      ensures Linked(|env.patterns|) && Rescanned(env, old(State()), State(), done, bound, p, rv)
    {
      hide MatchPq.Valid, MatchPq.Contents, Heap, ItemsOf, Assumptions, Between, Scanned, Rescanned;
      var numItem := pq.size;
      ghost var v := State();
      var ret := ScanPcre(env, p, scanStart[p]);
      RescanOutcome(env, v, done, bound, p, State(), ret);
      if ret == CH_CALLBACK_TERMINATE {
        return CH_SCAN_TERMINATED;
      } else if ret == CH_FAIL_INTERNAL {
        return ret;
      }
      // The user skips the pattern, or no further match is found.
      if ret == CH_CALLBACK_SKIP_PATTERN || pq.size == numItem {
        Drop(env, p);
      }
      return CH_SUCCESS;
    }

    /** Looks for the next match of a pattern whose queued match has just been reported. */
    method Rescan(env: Env, p: nat, ghost done: nat, ghost bound: nat) returns (rv: int)
      requires Assumptions(env) && Linked(|env.patterns|) && Between(env, State(), done, bound, p)
      requires p < |env.patterns| && slot[p].None?
      modifies this`log, this`runs, this`slot, this`scanStart, pq, pq.item
      ensures Linked(|env.patterns|) && Rescanned(env, old(State()), State(), done, bound, p, rv)
    {
      hide MatchPq.Valid, MatchPq.Contents, Heap, ItemsOf, Assumptions, Between, Rescanned;
      if |env.data| >= scanStart[p] && !env.patterns[p].single {
        rv := ScanAgain(env, p, done, bound);
      } else {
        NoRescan(env, State(), done, bound, p);
        rv := CH_SUCCESS;
      }
    }

    /** Takes the earliest match from the queue and delivers it. */
    method PopAndReport(env: Env, item: QueueItem) returns (answer: int)
      requires Linked(|slot|) && pq.size > 0 && item == pq.item[0]
      requires item.id < |slot| && slot[item.id] == Some(Span(item.from, item.to))
      modifies this`log, this`slot, pq, pq.item
      ensures Linked(|slot|) && State() == Report(old(State()), item.id)
      ensures answer == env.onEvent(log)
    {
      hide MatchPq.Valid, MatchPq.Contents, Heap, ItemsOf;
      ItemsRemove(slot, item.id);
      pq.Pop();
      slot := slot[item.id := None];
      log := log + [Reported(item.id, Span(item.from, item.to))];
      answer := env.onEvent(log);
    }

    /** A failed delivery leaves a free slot in the queue. */
    lemma RoomInQueue(n: nat, p: nat)
      requires Linked(n) && p < n && slot[p].None?
      ensures pq.size < n
    {
      hide MatchPq.Valid, MatchPq.Contents, Heap, ItemsOf;
      pq.CountIsSize();
      ItemsFit(slot, n);
    }

    /** What follows the delivery of the match of `p`: stop, drop the pattern, leave it to the hit that
        supersedes its match, or look for its next match. */
    method FollowUp(env: Env, p: nat, id: nat, answer: int, ghost v: View, ghost done: nat, ghost bound: nat)
      returns (rv: int, last: bool)
      requires Assumptions(env) && Linked(|env.patterns|) && p < |v.slot| == |v.start| == |env.patterns|
      requires v.slot[p].Some? && State() == Report(v, p)
      requires answer == CH_CALLBACK_TERMINATE ==> Stopped(env, log, runs, CH_SCAN_TERMINATED)
      requires answer == CH_CALLBACK_SKIP_PATTERN ==>
                 Good(env, Report(v, p).(start := v.start[p := |env.data|]), done, bound, -1)
      requires answer != CH_CALLBACK_TERMINATE && answer != CH_CALLBACK_SKIP_PATTERN ==>
                 Between(env, Report(v, p), done, bound, p)
      modifies this`log, this`runs, this`slot, this`scanStart, pq, pq.item
      ensures Linked(|env.patterns|)
      ensures rv == CH_SUCCESS && last ==> p == id && Superseded(env, State(), id, v.start[p], done, bound)
      ensures rv == CH_SUCCESS && !last ==> p != id && Continued(env, v, State(), p, done, bound)
      ensures rv != CH_SUCCESS ==> slot[p].None? && Stopped(env, log, runs, rv)
    {
      hide MatchPq.Valid, MatchPq.Contents, Heap, ItemsOf, Assumptions, Good, Between, Stopped, Rescanned, Continued,
           Superseded;
      rv, last := CH_SUCCESS, p == id;
      if answer == CH_CALLBACK_TERMINATE {
        rv := CH_SCAN_TERMINATED;
      } else if answer == CH_CALLBACK_SKIP_PATTERN {
        Drop(env, p);
        SkipContinues(env, v, p, done, bound);
      } else if p == id {
        HitSupersedes(env, v, p, done, bound);
      } else {
        rv := Rescan(env, p, done, bound);
        RescanContinues(env, v, State(), p, done, bound, rv);
      }
    }

    /** One round of catching up with the hit of pattern `id` ending at `to`: delivers the earliest
        queued match and queues the match behind it.  `last` says that the match was that of `id`. */
    method DeliverTop(env: Env, id: nat, to: nat, ghost done: nat) returns (rv: int, last: bool)
      requires Assumptions(env) && Linked(|env.patterns|) && pq.size > 0
      requires Good(env, State(), done, to, -1)
      requires id < |slot| ==> slot[id].Some? && slot[id].value.to <= to
      requires id >= |slot| ==> to == |env.data|
      modifies this`log, this`runs, this`slot, this`scanStart, pq, pq.item
      ensures Linked(|env.patterns|)
      ensures rv == CH_SUCCESS && last ==>
                id < |env.patterns| && Superseded(env, State(), id, old(scanStart[id]), done, to)
      ensures rv == CH_SUCCESS && !last ==>
                exists p: nat | p < |env.patterns| && p != id :: Continued(env, old(State()), State(), p, done, to)
      ensures rv != CH_SUCCESS ==> pq.size < |env.patterns| && Stopped(env, log, runs, rv)
    {
      ghost var v := State();
      assert PcreInRange(env);
      var item := pq.Top();
      var topId := item.id;
      TopIsEarliest(slot, item);
      QueuedInRange(env, v, done, to, topId);
      hide MatchPq.Valid, MatchPq.Contents, Heap, ItemsOf, Assumptions, Good, Between, Stopped, Continued,
           Superseded, PcreInRange;
      if item.to > to {
        // The source would queue the hit at this point.
        assert false;
      }
      ReportOutcome(env, v, done, to, topId);
      var answer := PopAndReport(env, item);
      rv, last := FollowUp(env, topId, id, answer, v, done, to);
      if rv != CH_SUCCESS {
        RoomInQueue(|env.patterns|, topId);
      }
    }

    lemma QueueNotEmpty(n: nat, p: nat)
      requires Linked(n) && p < n && slot[p].Some?
      ensures pq.size > 0
    {
      hide MatchPq.Valid, MatchPq.Contents, Heap, ItemsOf;
      pq.CountIsSize();
      ItemsMember(slot, n, QueueItem(slot[p].value.from, slot[p].value.to, p));
    }

    /** Delivers queued matches, and the ones found behind them, up to the match of pattern `id` that
        the hit ending at `to` supersedes; with no such pattern, until the queue is empty. */
    method CatchUp(env: Env, id: nat, to: nat, ghost done: nat, ghost bound: nat) returns (rv: int)
      requires Assumptions(env) && Linked(|env.patterns|)
      requires Good(env, State(), done, bound, -1) && (AllInOrder(env) ==> bound <= to)
      requires id < |slot| ==> slot[id].Some? && slot[id].value.to <= to
      requires id >= |slot| ==> to == |env.data|
      modifies this`log, this`runs, this`slot, this`scanStart, pq, pq.item
      ensures Linked(|env.patterns|)
      ensures rv == CH_SUCCESS && id < |env.patterns| ==> Superseded(env, State(), id, old(scanStart[id]), done, to)
      ensures rv == CH_SUCCESS && id >= |env.patterns| ==> Good(env, State(), done, to, -1) && pq.size == 0
      ensures rv != CH_SUCCESS ==> pq.size < |env.patterns| && Stopped(env, log, runs, rv)
    {
      assert PcreInRange(env);
      RaiseBound(env, State(), done, bound, to, -1);
      hide MatchPq.Valid, MatchPq.Contents, Heap, ItemsOf, Assumptions, Good, Between, Stopped, Superseded, Work,
           PcreInRange;
      while pq.size > 0
        invariant Linked(|env.patterns|) && Good(env, State(), done, to, -1)
        invariant id < |slot| ==> slot[id] == old(slot[id]) && scanStart[id] == old(scanStart[id])
        decreases Work(env, slot, scanStart, |slot|)
      {
        var last;
        rv, last := DeliverTop(env, id, to, done);
        if rv != CH_SUCCESS || last {
          return;
        }
      }
      if id < |slot| {
        QueueNotEmpty(|slot|, id);
      }
      rv := CH_SUCCESS;
    }

    /** Every pattern has been seen. */
    predicate AllActive(n: nat)
      reads this`active
    {
      forall p | 0 <= p < n :: p in active
    }

    /** Marks a pattern as seen, to be scanned from the start of the data. */
    method MarkSeen(p: nat)
      requires Linked(|slot|) && p < |slot|
      modifies this`active, this`scanStart
      ensures Linked(|slot|) && State() == Seen(old(State()), p)
    {
      active := active + {p};
      scanStart := scanStart[p := 0];
    }

    /** Moves the next scan of a pattern to the end of the data. */
    method Drop(env: Env, p: nat)
      requires Linked(|slot|) && p < |slot|
      modifies this`scanStart
      ensures Linked(|slot|) && scanStart == old(scanStart)[p := |env.data|]
    {
      scanStart := scanStart[p := |env.data|];
    }

    /** The first hit of a prefiltered pattern: confirm it with PCRE. */
    method FirstConfirm(env: Env, k: nat) returns (rv: int)
      requires Assumptions(env) && Linked(|env.patterns|) && k < |env.hits|
      requires Good(env, State(), k, Reach(env, k), -1)
      requires env.hits[k].id < |env.patterns| && env.patterns[env.hits[k].id].Confirmed()
      requires env.hits[k].id !in active
      modifies this`active, this`scanStart, this`log, this`runs, this`slot, pq, pq.item
      ensures Linked(|env.patterns|) && active == old(active) + {env.hits[k].id}
      ensures rv == CH_SUCCESS ==> Good(env, State(), k + 1, Reach(env, k + 1), -1)
      ensures rv != CH_SUCCESS ==> Stopped(env, log, runs, FinalStatus(rv))
    {
      hide MatchPq.Valid, MatchPq.Contents, Heap, ItemsOf, Assumptions, Good, Stopped, Scanned, Reach, FinalStatus;
      var p := env.hits[k].id;
      ghost var v := State();
      QueuedIsActive(env, v, k, p);
      MarkSeen(p);
      rv := ScanPcre(env, p, 0);
      FirstConfirmOutcome(env, v, k, p, State(), rv);
      if rv == CH_CALLBACK_SKIP_PATTERN {
        Drop(env, p);
        rv := CH_SUCCESS;
      }
    }

    /** Queues a hit of a fixed-width pattern; its next scan starts behind it. */
    method QueueHit(env: Env, p: nat, s: Span)
      requires pq.Valid() && pq.item.Length == |env.patterns| == |slot| == |scanStart|
      requires p < |env.patterns| && pq.size < |env.patterns|
      modifies this`slot, this`scanStart, pq, pq.item
      ensures pq.Valid()
      ensures old(Linked(|env.patterns|) && slot[p].None?) ==>
                Linked(|env.patterns|) && State() == Queue(env, old(State()), p, s)
    {
      hide MatchPq.Valid, MatchPq.Contents, Heap, ItemsOf, Resume;
      if slot[p].None? {
        ItemsAdd(slot, p, s, |slot|);
      }
      var start := ResumeAfter(env, p, s);
      scanStart := scanStart[p := start];
      pq.Insert(QueueItem(s.from, s.to, p));
      slot := slot[p := Some(s)];
    }

    /** The first hit of a fixed-width pattern. */
    method FirstExact(env: Env, k: nat)
      requires Assumptions(env) && Linked(|env.patterns|) && k < |env.hits|
      requires Good(env, State(), k, Reach(env, k), -1)
      requires env.hits[k].id < |env.patterns| && Exact(env, env.hits[k].id) && env.hits[k].id !in active
      modifies this`active, this`scanStart, this`slot, pq, pq.item
      ensures Linked(|env.patterns|) && active == old(active) + {env.hits[k].id}
      ensures Good(env, State(), k + 1, Reach(env, k + 1), -1)
    {
      hide MatchPq.Valid, MatchPq.Contents, Heap, ItemsOf, Assumptions, Good, Exact, Reach, Queue;
      var p, s := env.hits[k].id, Span(env.hits[k].from, env.hits[k].to);
      FirstExactOutcome(env, State(), k, p, s);
      MarkSeen(p);
      RoomInQueue(|env.patterns|, p);
      QueueHit(env, p, s);
    }

    /** A later hit of a fixed-width pattern that follows its queued match: deliver what ends no later,
        then queue the hit. */
    method LaterExact(env: Env, k: nat) returns (rv: int)
      requires Assumptions(env) && Linked(|env.patterns|) && k < |env.hits|
      requires Good(env, State(), k, Reach(env, k), -1)
      requires env.hits[k].id < |env.patterns| && Exact(env, env.hits[k].id) && env.hits[k].id in active
      requires !env.patterns[env.hits[k].id].single
      requires env.hits[k].to >= scanStart[env.hits[k].id] + env.patterns[env.hits[k].id].minWidth
      modifies this`log, this`runs, this`scanStart, this`slot, pq, pq.item
      ensures pq.Valid()
      ensures rv == CH_SUCCESS ==> Linked(|env.patterns|) && Good(env, State(), k + 1, Reach(env, k + 1), -1)
      ensures rv != CH_SUCCESS ==> Stopped(env, log, runs, FinalStatus(rv))
    {
      hide MatchPq.Contents, Heap, ItemsOf, Assumptions, Good, Exact, Queue, Superseded, Stopped, FinalStatus,
           PcreInRange;
      AssumedInRange(env);
      var p, s := env.hits[k].id, Span(env.hits[k].from, env.hits[k].to);
      LaterExactReady(env, State(), k, p);
      ReachGrows(env, k);
      ghost var start := scanStart[p];
      rv := CatchUp(env, p, s.to, k, Reach(env, k));
      if rv == CH_SUCCESS {
        LaterExactOutcome(env, State(), k, p, s, start);
        RoomInQueue(|env.patterns|, p);
      } else {
        StoppedIsFinal(env, log, runs, rv);
      }
      if scanStart[p] >= |env.data| {
        return;
      }
      QueueHit(env, p, s);
    }

    /** A hit that changes nothing; no later hit can change anything once all patterns are active and
        `settled` says that active patterns ignore hits. */
    method DropHit(env: Env, k: nat, settled: bool) returns (rv: int)
      requires Assumptions(env) && k < |env.hits| && Good(env, State(), k, Reach(env, k), -1)
      requires HitSeen(env, scanStart, active, env.hits[k])
      requires settled ==> env.allConfirm || env.allSingle
      ensures Answered(env, State(), k, rv, CH_SUCCESS)
    {
      hide Assumptions, Good, HitSeen, Answered;
      DroppedOutcome(env, State(), k, settled && AllActive(|env.patterns|));
      rv := if settled && AllActive(|env.patterns|) then 1 else HS_SUCCESS;
    }

    /** A hit of a pattern seen for the first time. */
    method FirstHit(env: Env, k: nat) returns (rv: int)
      requires Assumptions(env) && Linked(|env.patterns|) && k < |env.hits|
      requires Good(env, State(), k, Reach(env, k), -1) && ret == CH_SUCCESS
      requires HitInRange(env, env.hits[k]) && env.hits[k].id !in active
      modifies this`ret, this`active, this`log, this`runs, this`scanStart, this`slot, pq, pq.item
      ensures Linked(|env.patterns|) && old(active) <= active
      ensures Answered(env, State(), k, rv, ret)
    {
      hide MatchPq.Valid, MatchPq.Contents, Heap, ItemsOf, Assumptions, Good, Stopped, Answered;
      if env.patterns[env.hits[k].id].Confirmed() {
        rv := FirstConfirm(env, k);
        AnswerGood(env, State(), k, rv);
        ret := rv;
        if rv == CH_CALLBACK_TERMINATE {
          rv := HS_SCAN_TERMINATED;
        }
      } else {
        FirstExact(env, k);
        rv := HS_SUCCESS;
        AnswerGood(env, State(), k, rv);
      }
    }

    /** A hit of a pattern that has been seen before. */
    method LaterHit(env: Env, k: nat) returns (rv: int)
      requires Assumptions(env) && Linked(|env.patterns|) && k < |env.hits| && |env.data| <= INT_MAX
      requires Good(env, State(), k, Reach(env, k), -1) && ret == CH_SUCCESS
      requires HitInRange(env, env.hits[k]) && env.hits[k].id in active && !env.patterns[env.hits[k].id].Confirmed()
      modifies this`ret, this`log, this`runs, this`scanStart, this`slot, pq, pq.item
      ensures pq.Valid() && (ret == CH_SUCCESS ==> Linked(|env.patterns|))
      ensures Answered(env, State(), k, rv, ret)
    {
      hide MatchPq.Contents, Heap, ItemsOf, Assumptions, Good, Stopped, Answered, HitSeen;
      var h := env.hits[k];
      var p := h.id;
      SumFits(env, State(), k, p);
      if h.to < (scanStart[p] + env.patterns[p].minWidth) % U32_RANGE {
        EarlyHitSeen(env, State(), k, p);
        rv := DropHit(env, k, false);
      } else if env.patterns[p].single {
        ActiveHitSeen(env, State(), k, p);
        rv := DropHit(env, k, env.allSingle);
      } else {
        rv := LaterExact(env, k);
        AnswerGood(env, State(), k, rv);
        ret := rv;
      }
    }

    /** The Hyperscan match callback on hit `k`: zero to go on, anything else to stop the scan. */
    method MultiCallback(env: Env, k: nat) returns (rv: int)
      requires Assumptions(env) && Linked(|env.patterns|) && k < |env.hits| && |env.data| <= INT_MAX
      requires Good(env, State(), k, Reach(env, k), -1) && ret == CH_SUCCESS
      modifies this`ret, this`active, this`log, this`runs, this`scanStart, this`slot, pq, pq.item
      ensures pq.Valid() && old(active) <= active && (ret == CH_SUCCESS ==> Linked(|env.patterns|))
      ensures Answered(env, State(), k, rv, ret)
    {
      var h := env.hits[k];
      assert HitInRange(env, h) && |scanStart| == |env.patterns|;
      hide MatchPq.Contents, Heap, ItemsOf, Assumptions, Good, Reach, Answered, HitSeen, HitInRange;
      if h.id !in active {
        rv := FirstHit(env, k);
      } else if env.patterns[h.id].Confirmed() {
        ActiveHitSeen(env, State(), k, h.id);
        rv := DropHit(env, k, env.allConfirm);
      } else {
        rv := LaterHit(env, k);
      }
    }

    /** Starts with an empty queue and the first match of every pattern Hyperscan does not support. */
    method InitQueue(env: Env) returns (rv: int)
      requires Assumptions(env) && log == [] && runs == []
      requires pq.item.Length == |env.patterns| == |scanStart|
      modifies this`active, this`log, this`runs, this`scanStart, this`slot, pq, pq.item
      ensures Linked(|env.patterns|)
      ensures rv == CH_SUCCESS ==> Good(env, State(), 0, 0, -1) && forall p | p in env.unguarded :: p in active
      ensures rv != CH_SUCCESS ==> Stopped(env, log, runs, rv)
    {
      hide MatchPq.Valid, MatchPq.Contents, Heap, ItemsOf, Assumptions, Good, Stopped, WellCompiled, Linked;
      StartEmpty(env);
      for i := 0 to |env.unguarded|
        invariant Linked(|env.patterns|) && Good(env, State(), 0, 0, -1)
        invariant forall p :: p in active <==> p in env.unguarded[..i]
      {
        NextUnguarded(env, i);
        rv := StartUnguarded(env, env.unguarded[i]);
        if rv != CH_SUCCESS {
          return;
        }
      }
      rv := CH_SUCCESS;
    }

    /** Nothing is active and nothing is queued. */
    method StartEmpty(env: Env)
      requires Assumptions(env) && log == [] && runs == []
      requires pq.item.Length == |env.patterns| == |scanStart|
      modifies this`active, this`slot, pq, pq.item
      ensures Linked(|env.patterns|) && active == {} && Good(env, State(), 0, 0, -1)
    {
      active := {};
      pq.Clear();
      slot := seq(|env.patterns|, _ => None);
      NoItems(slot, |slot|);
      InitialGood(env, State());
      hide Assumptions, Good;
    }

    /** The first scan of one pattern that Hyperscan does not support. */
    method StartUnguarded(env: Env, p: nat) returns (rv: int)
      requires Assumptions(env) && Linked(|env.patterns|) && Good(env, State(), 0, 0, -1)
      requires p < |env.patterns| && p in env.unguarded && p !in active
      modifies this`active, this`log, this`runs, this`scanStart, this`slot, pq, pq.item
      ensures Linked(|env.patterns|) && active == old(active) + {p}
      ensures rv == CH_SUCCESS ==> Good(env, State(), 0, 0, -1)
      ensures rv != CH_SUCCESS ==> Stopped(env, log, runs, rv)
    {
      hide MatchPq.Valid, MatchPq.Contents, Heap, ItemsOf, Assumptions, Good, Stopped, Scanned;
      ghost var v := State();
      QueuedIsActive(env, v, 0, p);
      active := active + {p};
      var ret := ScanPcre(env, p, 0);
      UnguardedOutcome(env, v, p, State(), ret);
      rv := CH_SUCCESS;
      if ret == CH_CALLBACK_TERMINATE {
        rv := CH_SCAN_TERMINATED;
      } else if ret == CH_CALLBACK_SKIP_PATTERN {
        Drop(env, p);
      } else if ret == CH_FAIL_INTERNAL {
        rv := ret;
      }
    }

    /** Runs Hyperscan: the callback sees every hit until it stops the scan. */
    method ScanHyperscan(env: Env) returns (rv: int)
      requires Assumptions(env) && Linked(|env.patterns|) && |env.data| <= INT_MAX
      requires Good(env, State(), 0, 0, -1) && ret == CH_SUCCESS
      modifies this`ret, this`active, this`log, this`runs, this`scanStart, this`slot, pq, pq.item
      ensures pq.Valid() && old(active) <= active
      ensures ret == CH_SUCCESS ==>
                && Linked(|env.patterns|) && Good(env, State(), |env.hits|, Reach(env, |env.hits|), -1)
                && (rv == env.hsStatus || (rv == HS_SCAN_TERMINATED && AllActive(|env.patterns|)))
      ensures ret != CH_SUCCESS ==> Stopped(env, log, runs, FinalStatus(ret))
    {
      hide MatchPq.Contents, Heap, ItemsOf, Assumptions, Good, Stopped, FinalStatus;
      for k := 0 to |env.hits|
        invariant pq.Valid() && old(active) <= active && ret == CH_SUCCESS
        invariant Linked(|env.patterns|) && Good(env, State(), k, Reach(env, k), -1)
      {
        var answer := MultiCallback(env, k);
        if answer != HS_SUCCESS {
          return HS_SCAN_TERMINATED;
        }
      }
      rv := env.hsStatus;
    }

    /** Delivers what is still queued once Hyperscan is done. */
    method Flush(env: Env) returns (rv: int)
      requires Assumptions(env) && Linked(|env.patterns|)
      requires Good(env, State(), |env.hits|, Reach(env, |env.hits|), -1)
      requires forall p | p in env.unguarded :: p in active
      requires env.hsStatus == HS_SUCCESS || AllActive(|env.patterns|)
      modifies this`log, this`runs, this`scanStart, this`slot, pq, pq.item
      ensures pq.Valid() && ScanResult(env, log, runs, rv)
    {
      assert PcreInRange(env) && |env.patterns| < U32_RANGE;
      if |env.hits| > 0 {
        ReachGrows(env, |env.hits| - 1);
      }
      hide MatchPq.Contents, Heap, ItemsOf, Assumptions, Good, Stopped, ScanResult, PcreInRange;
      rv := CatchUp(env, U32_RANGE - 1, |env.data|, |env.hits|, Reach(env, |env.hits|));
      if rv == CH_SUCCESS {
        forall p | 0 <= p < |slot| ensures slot[p].None? {
          if slot[p].Some? {
            QueueNotEmpty(|slot|, p);
          }
        }
        Drained(env, State(), |env.data|);
      } else {
        StoppedResult(env, log, runs, rv);
      }
    }

    /** The scan proper: initial matches, Hyperscan, flush. */
    method Run(env: Env) returns (rv: int)
      requires Assumptions(env) && |env.data| <= INT_MAX
      requires pq.item.Length == |env.patterns| == |scanStart|
      modifies this`ret, this`active, this`log, this`runs, this`scanStart, this`slot, pq, pq.item
      ensures pq.Valid() && ScanResult(env, log, runs, rv)
    {
      assert PcreInRange(env) && HitsInOrder(env) && WellCompiled(env);
      hide MatchPq.Contents, Heap, ItemsOf, Assumptions, Good, Stopped, ScanResult, PcreInRange;
      log, runs := [], [];
      ret := CH_SUCCESS;
      rv := InitQueue(env);
      if rv != CH_SUCCESS {
        StoppedResult(env, log, runs, rv);
        return;
      }
      if !env.noMultimatch {
        rv := ScanHyperscan(env);
        if ret != CH_SUCCESS {
          StoppedResult(env, log, runs, FinalStatus(ret));
          return if ret == CH_CALLBACK_TERMINATE then CH_SCAN_TERMINATED else ret;
        }
        if rv != HS_SUCCESS && rv != HS_SCAN_TERMINATED {
          HyperscanFailed(env, State(), Reach(env, |env.hits|), rv);
          return;
        }
      } else {
        NoHits(env);
      }
      rv := Flush(env);
    }

    /** A block scan.  The scratch space was allocated for this database. */
    method Scan(env: Env) returns (rv: int)
      requires Assumptions(env)
      requires pq.item.Length == |env.patterns| == |scanStart|
      modifies this, pq, pq.item
      ensures old(inUse) ==> rv == CH_SCRATCH_IN_USE && inUse && log == old(log)
      ensures !old(inUse) ==> !inUse
      ensures !old(inUse) && |env.data| > INT_MAX ==> rv == CH_INVALID && log == old(log)
      ensures !old(inUse) && |env.data| <= INT_MAX ==> pq.Valid() && ScanResult(env, log, runs, rv)
    {
      if inUse {
        return CH_SCRATCH_IN_USE;
      }
      inUse := true;
      if |env.data| > INT_MAX {
        inUse := false;
        return CH_INVALID;
      }
      hide ScanResult, Assumptions;
      rv := Run(env);
      inUse := false;
    }
  }
}
