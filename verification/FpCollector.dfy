/** Counting literal triggers, and those that led to a report, per fragment. */
module FpCollector {
  import opened FpHistogram

  const MAX_U64 := 0xFFFF_FFFF_FFFF_FFFF

  const BACKEND_NEON := 0

  datatype Counter = Counter(triggerCount: nat, trueTriggerCount: nat) {
    predicate Used() {
      triggerCount != 0 || trueTriggerCount != 0
    }
  }

  /** The addition of the source: it stays at the maximum instead of wrapping. */
  function SatAdd(a: nat, b: nat): nat
    requires a <= MAX_U64
  {
    if MAX_U64 - a < b then MAX_U64 else a + b
  }

  function Sat(n: nat): nat {
    if n < MAX_U64 then n else MAX_U64
  }

  lemma SatAddSat(a: nat, b: nat)
    ensures SatAdd(Sat(a), b) == Sat(a + b)
    ensures SatAdd(Sat(a), Sat(b)) == Sat(a + b)
  {
  }

  /** The counters of fragments `meta` after exactly these triggers and credits. */
  function CountersOf(meta: seq<nat>, triggers: seq<nat>, credits: seq<nat>): (c: seq<Counter>)
    ensures |c| == |meta|
  {
    seq(|meta|, i requires 0 <= i < |meta| =>
      Counter(Sat(Count(triggers, meta[i])), Sat(Count(credits, meta[i]))))
  }

  // ----- what one batch adds -----

  /** The counts a histogram adds to `key`. */
  function Added(hist: seq<(nat, nat)>, key: nat): nat {
    if hist == [] then 0
    else Added(hist[..|hist| - 1], key) + (if hist[|hist| - 1].0 == key then hist[|hist| - 1].1 else 0)
  }

  lemma {:induction false} AddedOnce(hist: seq<(nat, nat)>, key: nat)
    requires forall i, j | 0 <= i < j < |hist| :: hist[i].0 != hist[j].0
    ensures (forall i | 0 <= i < |hist| :: hist[i].0 != key) ==> Added(hist, key) == 0
    ensures forall i | 0 <= i < |hist| && hist[i].0 == key :: Added(hist, key) == hist[i].1
  {
    if hist != [] {
      AddedOnce(hist[..|hist| - 1], key);
    }
  }

  /** Adding a batch's histogram adds each key's multiplicity. */
  lemma HistogramAdds(keys: seq<nat>, key: nat)
    ensures Added(Histogram(keys, |keys|), key) == Count(keys, key)
  {
    var hist := Histogram(keys, |keys|);
    HistogramExact(keys, |keys|);
    AddedOnce(hist, key);
    CountAbsent(keys, key);
    assert keys[..|keys|] == keys;
    if key in keys {
      var i :| 0 <= i < |hist| && hist[i].0 == key;
    }
  }

  /** The order of events does not matter. */
  lemma {:induction false} CountIsMultiplicity(keys: seq<nat>, key: nat)
    ensures Count(keys, key) == multiset(keys)[key]
  {
    if keys != [] {
      CountIsMultiplicity(keys[..|keys| - 1], key);
      assert keys == keys[..|keys| - 1] + [keys[|keys| - 1]];
    }
  }

  lemma OrderDoesNotMatter(meta: seq<nat>, t0: seq<nat>, t1: seq<nat>, c0: seq<nat>, c1: seq<nat>)
    requires multiset(t0) == multiset(t1) && multiset(c0) == multiset(c1)
    ensures CountersOf(meta, t0, c0) == CountersOf(meta, t1, c1)
  {
    forall i | 0 <= i < |meta| ensures CountersOf(meta, t0, c0)[i] == CountersOf(meta, t1, c1)[i] {
      CountIsMultiplicity(t0, meta[i]);
      CountIsMultiplicity(t1, meta[i]);
      CountIsMultiplicity(c0, meta[i]);
      CountIsMultiplicity(c1, meta[i]);
    }
  }

  ghost predicate Increasing(meta: seq<nat>) {
    forall i, j | 0 <= i < j < |meta| :: meta[i] < meta[j]
  }

  /** Binary search for a fragment; the number of fragments if there is none with that key. */
  method FindFragment(meta: seq<nat>, key: nat) returns (index: nat)
    requires Increasing(meta)
    ensures index <= |meta| && (index < |meta| ==> meta[index] == key) && (index == |meta| ==> key !in meta)
  {
    var left, right := 0, |meta|;
    while left < right
      invariant 0 <= left <= right <= |meta|
      invariant forall i | 0 <= i < left :: meta[i] < key
      invariant forall i | right <= i < |meta| :: meta[i] >= key
    {
      var mid := left + (right - left) / 2;
      if meta[mid] < key {
        left := mid + 1;
      } else {
        right := mid;
      }
    }
    index := if left < |meta| && meta[left] == key then left else |meta|;
  }

  // ----- credits -----

  /** Never more credits than triggers, for any key. */
  ghost predicate CreditsCovered(triggers: seq<nat>, credits: seq<nat>) {
    forall k: nat :: Count(credits, k) <= Count(triggers, k)
  }

  lemma CoveredCounters(meta: seq<nat>, counted: seq<nat>, credits: seq<nat>, i: nat)
    requires CreditsCovered(counted, credits) && i < |meta|
    ensures CountersOf(meta, counted, credits)[i].trueTriggerCount <= CountersOf(meta, counted, credits)[i].triggerCount
  {
    assert Count(credits, meta[i]) <= Count(counted, meta[i]);
  }

  lemma CoveredByMore(counted: seq<nat>, more: seq<nat>, credits: seq<nat>)
    requires CreditsCovered(counted, credits)
    ensures CreditsCovered(counted + more, credits)
  {
    forall k: nat ensures Count(credits, k) <= Count(counted + more, k) {
      CountConcat(counted, more, k);
    }
  }

  /** Adding the counters of a source to those of a destination, unused ones left out. */
  method AddCounters(dst: seq<Counter>, src: seq<Counter>, ghost meta: seq<nat>, ghost t0: seq<nat>, ghost c0: seq<nat>,
                     ghost t1: seq<nat>, ghost c1: seq<nat>) returns (out: seq<Counter>)
    requires dst == CountersOf(meta, t0, c0) && src == CountersOf(meta, t1, c1)
    ensures out == CountersOf(meta, t0 + t1, c0 + c1)
  {
    out := dst;
    for i := 0 to |src|
      invariant |out| == |dst|
      invariant forall j | 0 <= j < |dst| :: out[j] == if j < i then CountersOf(meta, t0 + t1, c0 + c1)[j] else dst[j]
    {
      CountConcat(t0, t1, meta[i]);
      CountConcat(c0, c1, meta[i]);
      SatAddSat(Count(t0, meta[i]), Count(t1, meta[i]));
      SatAddSat(Count(c0, meta[i]), Count(c1, meta[i]));
      if src[i].Used() {
        out := out[i := Counter(SatAdd(out[i].triggerCount, src[i].triggerCount),
                                SatAdd(out[i].trueTriggerCount, src[i].trueTriggerCount))];
      }
    }
  }

  class Collector {
    const meta: seq<nat>
    const backend: nat
    const lanes: nat
    var counters: seq<Counter>
    var pending: seq<nat>
    /** The triggers counted already; the ones still pending follow them. */
    ghost var counted: seq<nat>
    /** The triggers that led to a report. */
    ghost var credits: seq<nat>

    ghost predicate Valid()
      reads this
    {
      && Increasing(meta) && 1 <= lanes <= 64 && |pending| <= BATCH_SIZE
      && counters == CountersOf(meta, counted, credits)
    }

    /** Every trigger since the collector was created or reset. */
    ghost function Triggers(): seq<nat>
      reads this
    {
      counted + pending
    }

    /** No key has more credits than counted triggers. */
    ghost predicate Covered()
      reads this
    {
      CreditsCovered(counted, credits)
    }

    lemma AllCounted()
      requires pending == []
      ensures Triggers() == counted && (Covered() <==> CreditsCovered(counted, credits))
    {
      hide CreditsCovered;
    }

    constructor (meta: seq<nat>, backend: nat, lanes: nat)
      requires Increasing(meta) && 1 <= lanes <= 64
      ensures Valid() && Covered() && Triggers() == [] && credits == [] && this.meta == meta
      ensures counted == [] && pending == []
    {
      this.meta, this.backend, this.lanes := meta, backend, lanes;
      counters := seq(|meta|, _ => Counter(0, 0));
      pending, counted, credits := [], [], [];
    }

    method Reset()
      requires Valid()
      modifies this
      ensures Valid() && Covered() && Triggers() == [] && credits == []
    {
      pending := [];
      counters := seq(|meta|, _ => Counter(0, 0));
      counted, credits := [], [];
    }

    method AddTriggerCount(key: nat, count: nat)
      requires Increasing(meta) && |counters| == |meta|
      requires forall i | 0 <= i < |counters| :: counters[i].triggerCount <= MAX_U64
      modifies this`counters
      ensures |counters| == |meta|
      ensures forall i | 0 <= i < |meta| ::
                counters[i] == if meta[i] == key
                               then old(counters[i]).(triggerCount := SatAdd(old(counters[i]).triggerCount, count))
                               else old(counters[i])
    {
      var index := FindFragment(meta, key);
      if index < |meta| {
        counters := counters[index := counters[index].(triggerCount := SatAdd(counters[index].triggerCount, count))];
      }
    }

    /** Adds a histogram entry by entry. */
    method AddHistogram(hist: seq<(nat, nat)>, ghost keys: seq<nat>)
      requires Increasing(meta) && counters == CountersOf(meta, counted, credits)
      requires hist == Histogram(keys, |keys|)
      modifies this`counters
      ensures counters == CountersOf(meta, counted + keys, credits)
    {
      ghost var before := counters;
      for j := 0 to |hist|
        invariant |counters| == |meta|
        invariant forall i | 0 <= i < |meta| ::
                    counters[i] == before[i].(triggerCount := Sat(Count(counted, meta[i]) + Added(hist[..j], meta[i])))
      {
        assert hist[..j + 1][..j] == hist[..j];
        AddTriggerCount(hist[j].0, hist[j].1);
      }
      assert hist[..|hist|] == hist;
      forall i | 0 <= i < |meta| ensures counters[i] == CountersOf(meta, counted + keys, credits)[i] {
        HistogramAdds(keys, meta[i]);
        CountConcat(counted, keys, meta[i]);
      }
    }

    /** Counts the pending triggers: counters and history agree afterwards. */
    method Flush()
      requires Valid()
      modifies this`counters, this`pending, this`counted
      ensures Valid() && pending == [] && counted == old(Triggers()) && Triggers() == old(Triggers())
      ensures old(Covered()) ==> Covered()
    {
      if |pending| == 0 {
        return;
      }
      if Covered() {
        CoveredByMore(counted, pending, credits);
      }
      hide CreditsCovered;
      var keys := pending;
      pending := [];
      var emitted;
      if backend == BACKEND_NEON {
        emitted := CountBatchNeon(keys);
      } else {
        emitted := CountBatchSve2(keys, lanes);
      }
      AddHistogram(emitted, keys);
      counted := counted + keys;
    }

    /** Queues one trigger, making room first if the batch is full. */
    method QueueTrigger(key: nat)
      requires Valid()
      modifies this`counters, this`pending, this`counted
      ensures Valid() && Triggers() == old(Triggers()) + [key] && |pending| > 0
      ensures counted == old(counted) || counted == old(Triggers())
      ensures old(Covered()) ==> Covered()
    {
      hide CreditsCovered;
      if |pending| == BATCH_SIZE {
        Flush();
      }
      pending := pending + [key];
    }

    /** The counts that flushing gives a known fragment, whatever batches and back end were used: how often
        it is among the triggers and among the credits, up to the largest 64-bit number. */
    lemma Counters(i: nat)
      requires Valid() && i < |meta|
      ensures i < |counters|
      ensures var n := multiset(Triggers())[meta[i]];
              pending == [] ==>
                counters[i].triggerCount == if n < 0x1_0000_0000_0000_0000 then n else 0xFFFF_FFFF_FFFF_FFFF
      ensures var n := multiset(credits)[meta[i]];
              counters[i].trueTriggerCount == if n < 0x1_0000_0000_0000_0000 then n else 0xFFFF_FFFF_FFFF_FFFF
    {
      assert counted + [] == counted;
      CountIsMultiplicity(counted, meta[i]);
      CountIsMultiplicity(credits, meta[i]);
    }

    /** While the credits are covered, each counter has at most as many true triggers as triggers. */
    lemma TrueTriggersAreTriggers(i: nat)
      requires Valid() && Covered() && i < |meta|
      ensures i < |counters| && counters[i].trueTriggerCount <= counters[i].triggerCount
    {
      CoveredCounters(meta, counted, credits, i);
    }

    /** Credits the trigger `key` with a report, if its counter has seen a trigger. */
    method Credit(key: nat, reported: bool) returns (credited: bool)
      requires Valid() && pending == []
      modifies this`counters, this`credits
      ensures Valid()
      ensures credited <==> !reported && key in meta && (Count(counted, key) > 0 || Count(old(credits), key) > 0)
      ensures credits == old(credits) + (if credited then [key] else [])
    {
      var index := FindFragment(meta, key);
      credited := index < |meta| && counters[index].Used() && !reported;
      if credited {
        var c := counters[index];
        counters := counters[index := c.(trueTriggerCount := SatAdd(c.trueTriggerCount, 1))];
        CreditCounts(meta, counted, credits, index);
        credits := credits + [key];
      } else {
        assert credits + [] == credits;
      }
    }

    /** Flushes the source and adds its counters. */
    method AddCollector(src: Collector)
      requires Valid() && src.Valid() && src != this && src.meta == meta && pending == []
      modifies this`counters, this`counted, this`credits, src`counters, src`pending, src`counted
      ensures src.Valid() && src.Triggers() == old(src.Triggers()) && src.counted == old(src.Triggers())
      ensures old(src.Covered()) ==> src.Covered()
      ensures Valid() && pending == [] && counted == old(counted) + old(src.Triggers())
      ensures credits == old(credits) + old(src.credits)
    {
      hide CountersOf, Increasing;
      src.Flush();
      counters := AddCounters(counters, src.counters, meta, counted, credits, src.counted, src.credits);
      counted, credits := counted + src.counted, credits + src.credits;
    }

    /** Flushes all sources and adds up their counters. */
    method AddAll(collectors: seq<Collector>)
      requires Valid() && this !in collectors && counted == [] && pending == [] && credits == []
      requires forall c | c in collectors :: c.Valid() && c.meta == meta
      modifies this, collectors
      ensures Valid() && pending == []
      ensures counted == Concat(old(TriggersOf(collectors))) && credits == Concat(old(CreditsOf(collectors)))
      ensures forall c | c in collectors ::
          c.Valid() && c.Triggers() == old(c.Triggers()) && c.credits == old(c.credits)
      ensures forall c | c in collectors :: c.counted == old(c.counted) || c.counted == old(c.Triggers())
      ensures forall c | c in collectors :: old(c.Covered()) ==> c.Covered()
    {
      assert Concat([]) == [];
      hide Concat, CreditsCovered, Covered, Valid, Triggers;
      ghost var ts, cs := TriggersOf(collectors), CreditsOf(collectors);
      for i := 0 to |collectors|
        invariant Valid() && pending == []
        invariant forall c | c in collectors ::
            c.Valid() && c.Triggers() == old(c.Triggers()) && c.credits == old(c.credits)
        invariant forall c | c in collectors :: c.counted == old(c.counted) || c.counted == old(c.Triggers())
        invariant forall c | c in collectors :: old(c.Covered()) ==> c.Covered()
        invariant counted == Concat(ts[..i]) && credits == Concat(cs[..i])
      {
        ConcatStep(ts, i);
        ConcatStep(cs, i);
        AddCollector(collectors[i]);
      }
      assert ts[..|collectors|] == ts && cs[..|collectors|] == cs;
    }
  }

  lemma CreditCounts(meta: seq<nat>, counted: seq<nat>, credits: seq<nat>, index: nat)
    requires Increasing(meta) && index < |meta|
    ensures var c := CountersOf(meta, counted, credits);
            c[index := c[index].(trueTriggerCount := SatAdd(c[index].trueTriggerCount, 1))]
            == CountersOf(meta, counted, credits + [meta[index]])
  {
    var c, d := CountersOf(meta, counted, credits), CountersOf(meta, counted, credits + [meta[index]]);
    forall i | 0 <= i < |meta|
      ensures d[i] == if i == index then c[i].(trueTriggerCount := SatAdd(c[i].trueTriggerCount, 1)) else c[i]
    {
      assert (credits + [meta[index]])[..|credits|] == credits;
    }
  }

  // ----- attribution of reports to triggers -----

  /** The trigger a scan is confirming, and whether it has led to a report. */
  datatype Window = Window(active: bool, reported: bool, key: nat) {
    predicate OpenOn(k: nat) {
      active && !reported && key == k
    }
  }

  const CLOSED := Window(false, false, 0)

  /** Several scans on one collector. */
  datatype Scans = Scans(triggers: seq<nat>, credits: seq<nat>, windows: seq<Window>)

  datatype Event = Begin(window: nat, key: nat) | End(window: nat) | Report(window: nat) | Reset

  predicate Possible(e: Event, n: nat) {
    e.Reset? || e.window < n
  }

  /** A report is credited to the open window, once, if its fragment is known and has a used counter; a
      reset does not close the windows. */
  function Next(meta: seq<nat>, s: Scans, e: Event): (r: Scans)
    requires Possible(e, |s.windows|)
    ensures |r.windows| == |s.windows|
  {
    match e
    case Begin(w, k) => s.(triggers := s.triggers + [k], windows := s.windows[w := Window(true, false, k)])
    case End(w) => s.(windows := s.windows[w := CLOSED])
    case Report(w) =>
      var x := s.windows[w];
      if x.active && !x.reported && x.key in meta && (x.key in s.triggers || x.key in s.credits) then
        s.(credits := s.credits + [x.key], windows := s.windows[w := x.(reported := true)])
      else s
    case Reset => Scans([], [], s.windows)
  }

  function Run(meta: seq<nat>, n: nat, events: seq<Event>): (s: Scans)
    requires forall e | e in events :: Possible(e, n)
    ensures |s.windows| == n
  {
    if events == [] then Scans([], [], seq(n, _ => CLOSED))
    else Next(meta, Run(meta, n, events[..|events| - 1]), events[|events| - 1])
  }

  /** Alone on its collector, a window that has not led to a report leaves room for one more credit of its
      key, unless its trigger was forgotten. */
  ghost predicate Alone(s: Scans) {
    && |s.windows| == 1 && CreditsCovered(s.triggers, s.credits)
    && (forall k: nat | s.windows[0].OpenOn(k) ::
          Count(s.triggers, k) == 0 || Count(s.credits, k) < Count(s.triggers, k))
  }

  lemma NextAlone(meta: seq<nat>, s: Scans, e: Event)
    requires Alone(s) && Possible(e, 1)
    ensures Alone(Next(meta, s, e))
  {
    match e
    case Begin(w, k) =>
      CoveredByMore(s.triggers, [k], s.credits);
      RoomForOne(s.triggers, s.credits, k);
    case End(w) =>
    case Report(w) =>
      var x := s.windows[0];
      if Next(meta, s, e) != s {
        assert x.OpenOn(x.key) && Count(s.credits, x.key) <= Count(s.triggers, x.key);
        CountAbsent(s.triggers, x.key);
        CountAbsent(s.credits, x.key);
        CoveredCredit(s.triggers, s.credits, x.key);
      }
    case Reset =>
  }

  /** The scanning side of one scan. */
  class TriggerWindow {
    const collector: Collector
    var active: bool
    var reported: bool
    var key: nat

    ghost function Now(): Scans
      reads this, collector
    {
      Scans(collector.Triggers(), collector.credits, [Window(active, reported, key)])
    }

    /** The state of a window that is alone on its collector. */
    ghost predicate Valid()
      reads this, collector
    {
      collector.Valid() && collector.Covered() && Alone(Now())
    }

    constructor (collector: Collector)
      requires collector.Valid() && collector.Covered()
      ensures Valid() && this.collector == collector
          && Now() == Scans(collector.Triggers(), collector.credits, [CLOSED])
    {
      this.collector := collector;
      active, reported, key := false, false, 0;
      new;
      CoveredByMore(collector.counted, collector.pending, collector.credits);
    }

    method BeginTrigger(k: nat)
      requires collector.Valid()
      modifies this, collector
      ensures collector.Valid() && Now() == Next(collector.meta, old(Now()), Begin(0, k))
      ensures active && !reported && key == k
      ensures collector.Triggers() == old(collector.Triggers()) + [k] && collector.credits == old(collector.credits)
      ensures old(collector.Covered()) ==> collector.Covered()
      ensures old(Valid()) ==> Valid()
    {
      if Alone(Now()) {
        NextAlone(collector.meta, Now(), Begin(0, k));
      }
      hide Alone, CreditsCovered;
      active, reported, key := false, false, 0;
      collector.QueueTrigger(k);
      active, key := true, k;
    }

    method EndTrigger()
      requires collector.Valid()
      modifies this
      ensures Now() == Next(collector.meta, old(Now()), End(0))
      ensures !active && !reported
      ensures old(Valid()) ==> Valid()
    {
      active, reported, key := false, false, 0;
    }

    /** Attributes a delivered report to the open window. */
    method RecordFinalReport()
      requires collector.Valid()
      modifies this, collector
      ensures collector.Valid() && Now() == Next(collector.meta, old(Now()), Report(0))
      ensures active == old(active) && key == old(key) && collector.Triggers() == old(collector.Triggers())
      ensures !old(active) || old(reported) ==> collector.credits == old(collector.credits)
      ensures old(active) && !old(reported) ==>
                if key in collector.meta && (key in collector.Triggers() || key in old(collector.credits))
                then reported && collector.credits == old(collector.credits) + [key]
                else !reported && collector.credits == old(collector.credits)
      ensures old(collector.Covered()) && CreditsCovered(collector.Triggers(), collector.credits) ==>
          collector.Covered()
      ensures old(Valid()) ==> Valid()
    {
      if Alone(Now()) {
        NextAlone(collector.meta, Now(), Report(0));
        assert CreditsCovered(Next(collector.meta, Now(), Report(0)).triggers,
            Next(collector.meta, Now(), Report(0)).credits);
      }
      hide Alone, CreditsCovered;
      if !active {
        return;
      }
      ghost var credits := collector.credits;
      collector.Flush();
      CountAbsent(collector.counted, key);
      CountAbsent(credits, key);
      assert collector.counted + [] == collector.counted;
      var credited := collector.Credit(key, reported);
      assert credits + [] == credits;
      if credited {
        reported := true;
      }
    }

    /** Resetting the collector, even while a window is open. */
    method ResetCollector()
      requires collector.Valid()
      modifies collector
      ensures collector.Valid() && collector.Covered() && Now() == Next(collector.meta, old(Now()), Reset)
      ensures collector.Triggers() == [] && collector.credits == []
      ensures old(Valid()) ==> Valid()
    {
      collector.Reset();
    }
  }

  lemma RoomForOne(triggers: seq<nat>, credits: seq<nat>, k: nat)
    requires CreditsCovered(triggers, credits)
    ensures Count(credits, k) < Count(triggers + [k], k)
  {
    assert Count(credits, k) <= Count(triggers, k);
    assert (triggers + [k])[..|triggers|] == triggers;
  }

  lemma CoveredCredit(counted: seq<nat>, credits: seq<nat>, key: nat)
    requires CreditsCovered(counted, credits) && Count(credits, key) < Count(counted, key)
    ensures CreditsCovered(counted, credits + [key])
  {
    forall k: nat ensures Count(credits + [key], k) <= Count(counted, k) {
      assert (credits + [key])[..|credits|] == credits;
    }
  }

  // ----- several scans on one collector -----

  /** What one scan does is what its window does alone, whatever the other windows. */
  lemma NextIsLocal(meta: seq<nat>, s: Scans, e: Event)
    requires !e.Reset? && Possible(e, |s.windows|)
    ensures var w := e.window;
            var alone := Next(meta, s.(windows := [s.windows[w]]), e.(window := 0));
            Next(meta, s, e) == alone.(windows := s.windows[w := alone.windows[0]])
  {
    assert s.windows[e.window := s.windows[e.window]] == s.windows;
  }

  /** The event opens or closes window `w`. */
  predicate Turns(e: Event, w: nat) {
    (e.Begin? || e.End?) && e.window == w
  }

  /** Window `w` was last opened by event `j`, and has not been closed since. */
  ghost predicate OpenedBy(events: seq<Event>, w: nat, j: nat) {
    j < |events| && events[j].Begin? && events[j].window == w && forall m | j < m < |events| :: !Turns(events[m], w)
  }

  /** Event `m` is a report of window `w` that is credited. */
  ghost predicate CreditAt(meta: seq<nat>, n: nat, events: seq<Event>, w: nat, m: nat)
    requires forall e | e in events :: Possible(e, n)
  {
    && m < |events| && events[m] == Report(w)
    && Run(meta, n, events[..m + 1]).credits != Run(meta, n, events[..m]).credits
  }

  /** Window `w`, opened by event `j`, has led to a credit since. */
  ghost predicate CreditedSince(meta: seq<nat>, n: nat, events: seq<Event>, w: nat, j: nat)
    requires forall e | e in events :: Possible(e, n)
  {
    exists m: nat | j < m :: CreditAt(meta, n, events, w, m)
  }

  /** The state of a window in terms of the events. */
  lemma {:induction false} WindowHistory(meta: seq<nat>, n: nat, events: seq<Event>, w: nat)
    requires (forall e | e in events :: Possible(e, n)) && w < n
    ensures Run(meta, n, events).windows[w].active <==> exists j: nat :: OpenedBy(events, w, j)
    ensures forall j: nat | OpenedBy(events, w, j) ::
              && Run(meta, n, events).windows[w].key == events[j].key
              && (Run(meta, n, events).windows[w].reported <==> CreditedSince(meta, n, events, w, j))
  {
    if events == [] {
      assert forall j: nat :: !OpenedBy(events, w, j);
    } else {
      var front, e := events[..|events| - 1], events[|events| - 1];
      assert events == front + [e];
      WindowHistory(meta, n, front, w);
      var s, r := Run(meta, n, front), Run(meta, n, events);
      hide Run, OpenedBy, CreditedSince;
      assert r == Next(meta, s, e) by { RunLast(meta, n, front, e); }
      if Turns(e, w) {
        OpenedNext(front, e, w, |front|);
      }
      forall j: nat | OpenedBy(events, w, j) || OpenedBy(front, w, j)
        ensures OpenedBy(events, w, j) <==> if Turns(e, w) then j == |front| && e.Begin? else OpenedBy(front, w, j)
        ensures CreditedSince(meta, n, events, w, j) <==>
                  CreditedSince(meta, n, front, w, j) || (j < |front| && e == Report(w) && r.credits != s.credits)
        ensures OpenedBy(front, w, j) ==> j < |front| && events[j] == front[j]
        ensures j >= |front| ==> !CreditedSince(meta, n, front, w, j)
      {
        OpenedNext(front, e, w, j);
        CreditedNext(meta, n, front, e, w, j);
      }
    }
  }

  lemma RunLast(meta: seq<nat>, n: nat, front: seq<Event>, e: Event)
    requires forall x | x in front + [e] :: Possible(x, n)
    ensures (forall x | x in front :: Possible(x, n)) && Possible(e, n)
    ensures Run(meta, n, front + [e]) == Next(meta, Run(meta, n, front), e)
  {
    assert (front + [e])[..|front|] == front;
    assert e == (front + [e])[|front|];
  }

  lemma OpenedNext(front: seq<Event>, e: Event, w: nat, j: nat)
    ensures OpenedBy(front + [e], w, j) <==> if Turns(e, w) then j == |front| && e.Begin? else OpenedBy(front, w, j)
    ensures OpenedBy(front, w, j) ==> j < |front| && (front + [e])[j] == front[j]
  {
    var events := front + [e];
    assert events[|front|] == e;
    if OpenedBy(events, w, j) && j < |front| {
      assert events[j] == front[j];
      forall m | j < m < |front| ensures !Turns(front[m], w) {
        assert events[m] == front[m];
      }
    }
  }

  lemma CreditedNext(meta: seq<nat>, n: nat, front: seq<Event>, e: Event, w: nat, j: nat)
    requires forall x | x in front + [e] :: Possible(x, n)
    requires forall x | x in front :: Possible(x, n)
    ensures CreditedSince(meta, n, front + [e], w, j) <==>
              || CreditedSince(meta, n, front, w, j)
              || (j < |front| && e == Report(w) && Run(meta, n, front + [e]).credits != Run(meta, n, front).credits)
    ensures j >= |front| ==> !CreditedSince(meta, n, front, w, j)
  {
    var events := front + [e];
    assert events[..|front| + 1] == events && events[..|front|] == front && events[|front|] == e;
    forall m: nat | m < |front|
      ensures CreditAt(meta, n, events, w, m) <==> CreditAt(meta, n, front, w, m)
    {
      assert events[..m + 1] == front[..m + 1] && events[..m] == front[..m] && events[m] == front[m];
    }
    hide Run;
    assert CreditAt(meta, n, events, w, |front|) <==>
        e == Report(w) && Run(meta, n, events).credits != Run(meta, n, front).credits;
  }

  /** A report is due to be credited to `k`: the window that makes it was last opened on `k`, has led to no
      credit since, and `k` is a fragment with a used counter. */
  ghost predicate CreditDue(meta: seq<nat>, n: nat, events: seq<Event>, w: nat, k: nat)
    requires forall e | e in events :: Possible(e, n)
  {
    && (exists j: nat :: OpenedBy(events, w, j) && events[j].key == k && !CreditedSince(meta, n, events, w, j))
    && k in meta && (k in Run(meta, n, events).triggers || k in Run(meta, n, events).credits)
  }

  /** Which reports are credited to which key, in every run. */
  lemma CreditedIffDue(meta: seq<nat>, n: nat, events: seq<Event>, w: nat)
    requires (forall e | e in events :: Possible(e, n)) && w < n
    ensures (forall e | e in events + [Report(w)] :: Possible(e, n))
    ensures var before, after := Run(meta, n, events).credits, Run(meta, n, events + [Report(w)]).credits;
            && (forall k: nat :: after == before + [k] <==> CreditDue(meta, n, events, w, k))
            && (after == before || exists k: nat :: CreditDue(meta, n, events, w, k))
  {
    WindowHistory(meta, n, events, w);
    RunLast(meta, n, events, Report(w));
    var s := Run(meta, n, events);
    var x, r := s.windows[w], Next(meta, s, Report(w));
    hide Run, OpenedBy, CreditedSince;
    forall k: nat ensures r.credits == s.credits + [k] <==> CreditDue(meta, n, events, w, k) {
      if r.credits != s.credits {
        assert r.credits == s.credits + [x.key];
        assert (s.credits + [x.key])[|s.credits|] == x.key;
        assert r.credits == s.credits + [k] <==> k == x.key;
      } else {
        assert |s.credits + [k]| != |s.credits|;
      }
    }
    if r.credits != s.credits {
      assert r.credits == s.credits + [x.key];
      assert CreditDue(meta, n, events, w, x.key);
    }
  }

  /** How many windows are open on `k` without having led to a report. */
  function OpenCount(windows: seq<Window>, k: nat): nat {
    if windows == [] then 0
    else OpenCount(windows[..|windows| - 1], k) + (if windows[|windows| - 1].OpenOn(k) then 1 else 0)
  }

  lemma {:induction false} OpenCountUpdate(windows: seq<Window>, w: nat, x: Window, k: nat)
    requires w < |windows|
    ensures OpenCount(windows[w := x], k) + (if windows[w].OpenOn(k) then 1 else 0)
         == OpenCount(windows, k) + (if x.OpenOn(k) then 1 else 0)
  {
    var n := |windows| - 1;
    if w < n {
      assert windows[w := x][..n] == windows[..n][w := x];
      OpenCountUpdate(windows[..n], w, x, k);
    } else {
      assert windows[w := x][..n] == windows[..n];
    }
  }

  lemma {:induction false} NoneOpen(windows: seq<Window>, k: nat)
    requires forall i | 0 <= i < |windows| :: !windows[i].active
    ensures OpenCount(windows, k) == 0
  {
    if windows != [] {
      NoneOpen(windows[..|windows| - 1], k);
    }
  }

  /** Every open window leaves room for its credit: credits and open windows never exceed the triggers. */
  ghost predicate RoomForOpen(s: Scans) {
    forall k: nat :: Count(s.credits, k) + OpenCount(s.windows, k) <= Count(s.triggers, k)
  }

  /** A reset is orderly if no window is open. */
  ghost predicate Orderly(s: Scans, e: Event) {
    e.Reset? ==> forall i | 0 <= i < |s.windows| :: !s.windows[i].active
  }

  lemma NextKeepsRoom(meta: seq<nat>, s: Scans, e: Event)
    requires RoomForOpen(s) && Possible(e, |s.windows|) && Orderly(s, e)
    ensures RoomForOpen(Next(meta, s, e))
  {
    var r := Next(meta, s, e);
    forall k: nat ensures Count(r.credits, k) + OpenCount(r.windows, k) <= Count(r.triggers, k) {
      assert Count(s.credits, k) + OpenCount(s.windows, k) <= Count(s.triggers, k);
      match e
      case Begin(w, key) =>
        CountConcat(s.triggers, [key], k);
        OpenCountUpdate(s.windows, w, Window(true, false, key), k);
      case End(w) =>
        OpenCountUpdate(s.windows, w, CLOSED, k);
      case Report(w) =>
        CountConcat(s.credits, [s.windows[w].key], k);
        OpenCountUpdate(s.windows, w, s.windows[w].(reported := true), k);
      case Reset =>
        NoneOpen(s.windows, k);
    }
  }

  ghost predicate AllOrderly(meta: seq<nat>, n: nat, events: seq<Event>)
    requires forall e | e in events :: Possible(e, n)
  {
    forall i | 0 <= i < |events| :: Orderly(Run(meta, n, events[..i]), events[i])
  }

  /** However many scans share a collector, as long as it is reset only while no window is open the credits
      and the open windows of each key stay within its triggers. */
  lemma {:induction false} RunKeepsRoom(meta: seq<nat>, n: nat, events: seq<Event>)
    requires (forall e | e in events :: Possible(e, n)) && AllOrderly(meta, n, events)
    ensures RoomForOpen(Run(meta, n, events))
    ensures CreditsCovered(Run(meta, n, events).triggers, Run(meta, n, events).credits)
  {
    if events == [] {
      var s := Run(meta, n, []);
      forall k: nat ensures Count(s.credits, k) + OpenCount(s.windows, k) <= Count(s.triggers, k) {
        NoneOpen(s.windows, k);
      }
    } else {
      var last := |events| - 1;
      forall i | 0 <= i < last ensures Orderly(Run(meta, n, events[..last][..i]), events[..last][i]) {
        assert events[..last][..i] == events[..i];
      }
      RunKeepsRoom(meta, n, events[..last]);
      assert Orderly(Run(meta, n, events[..last]), events[last]);
      NextKeepsRoom(meta, Run(meta, n, events[..last]), events[last]);
    }
    RoomCovers(Run(meta, n, events));
  }

  lemma RoomCovers(s: Scans)
    requires RoomForOpen(s)
    ensures CreditsCovered(s.triggers, s.credits)
  {
    forall k: nat ensures Count(s.credits, k) <= Count(s.triggers, k) {
      assert Count(s.credits, k) + OpenCount(s.windows, k) <= Count(s.triggers, k);
    }
  }

  lemma {:induction false} RunAlone(meta: seq<nat>, events: seq<Event>)
    requires forall e | e in events :: Possible(e, 1)
    ensures Alone(Run(meta, 1, events))
  {
    if events != [] {
      RunAlone(meta, events[..|events| - 1]);
      NextAlone(meta, Run(meta, 1, events[..|events| - 1]), events[|events| - 1]);
    }
  }

  lemma {:induction false} RunWithoutScans(meta: seq<nat>, events: seq<Event>)
    requires forall e | e in events :: Possible(e, 0)
    ensures Run(meta, 0, events) == Scans([], [], [])
  {
    if events != [] {
      RunWithoutScans(meta, events[..|events| - 1]);
      assert Possible(events[|events| - 1], 0);
    }
  }

  /** The credits stay within the triggers whatever happens. */
  ghost predicate AlwaysCovered(meta: seq<nat>, n: nat) {
    forall events: seq<Event> | forall e | e in events :: Possible(e, n) ::
      CreditsCovered(Run(meta, n, events).triggers, Run(meta, n, events).credits)
  }

  /** A window that stays open over a reset can be credited with the trigger of another scan. */
  function StaleRun(key: nat): seq<Event> {
    [Begin(0, key), Reset, Begin(1, key), Report(1), Report(0)]
  }

  /** Both windows are open, and there is one trigger. */
  lemma StaleWindows(meta: seq<nat>, n: nat, key: nat)
    requires n >= 2
    ensures var s := Run(meta, n, StaleRun(key)[..3]);
            && s.triggers == [key] && s.credits == []
            && s.windows[0] == Window(true, false, key) && s.windows[1] == Window(true, false, key)
  {
    var es := StaleRun(key);
    assert es[..0] == [];
    hide Run;
    RunEmpty(meta, n);
    RunStep(meta, n, es, 0);
    RunStep(meta, n, es, 1);
    RunStep(meta, n, es, 2);
  }

  lemma StaleCredit(meta: seq<nat>, n: nat, key: nat)
    requires n >= 2 && key in meta
    ensures var s := Run(meta, n, StaleRun(key));
            s.triggers == [key] && s.credits == [key, key] && !CreditsCovered(s.triggers, s.credits)
  {
    var es := StaleRun(key);
    assert es[..|es|] == es;
    hide Run;
    StaleWindows(meta, n, key);
    RunStep(meta, n, es, 3);
    RunStep(meta, n, es, 4);
    assert Count([key], key) == 1 && Count([key, key], key) == 2;
  }

  lemma RunStep(meta: seq<nat>, n: nat, events: seq<Event>, i: nat)
    requires (forall e | e in events :: Possible(e, n)) && i < |events|
    ensures Run(meta, n, events[..i + 1]) == Next(meta, Run(meta, n, events[..i]), events[i])
  {
    assert events[..i + 1][..i] == events[..i];
  }

  lemma RunEmpty(meta: seq<nat>, n: nat)
    ensures Run(meta, n, []) == Scans([], [], seq(n, _ => CLOSED))
  {
  }

  /** Resets during scans are harmless exactly if at most one scan uses the collector. */
  lemma AlwaysCoveredIff(meta: seq<nat>, n: nat)
    requires meta != []
    ensures AlwaysCovered(meta, n) <==> n <= 1
  {
    if n <= 1 {
      forall events: seq<Event> | forall e | e in events :: Possible(e, n)
        ensures CreditsCovered(Run(meta, n, events).triggers, Run(meta, n, events).credits)
      {
        if n == 1 {
          RunAlone(meta, events);
        } else {
          RunWithoutScans(meta, events);
        }
      }
    } else {
      StaleCredit(meta, n, meta[0]);
      assert forall e | e in StaleRun(meta[0]) :: Possible(e, n);
    }
  }

  // ----- merging -----

  function Concat(lists: seq<seq<nat>>): seq<nat> {
    if lists == [] then [] else Concat(lists[..|lists| - 1]) + lists[|lists| - 1]
  }

  lemma ConcatStep(lists: seq<seq<nat>>, i: nat)
    requires i < |lists|
    ensures Concat(lists[..i + 1]) == Concat(lists[..i]) + lists[i]
  {
    assert lists[..i + 1][..i] == lists[..i];
  }

  ghost function TriggersOf(collectors: seq<Collector>): seq<seq<nat>>
    reads collectors
  {
    seq(|collectors|, i requires 0 <= i < |collectors| reads collectors => collectors[i].Triggers())
  }

  ghost function CreditsOf(collectors: seq<Collector>): seq<seq<nat>>
    reads collectors
  {
    seq(|collectors|, i requires 0 <= i < |collectors| reads collectors => collectors[i].credits)
  }

  /** Merging flushes every collector and adds up their counters: the result counts as one collector
      that saw all their events.  A collector given twice counts twice. */
  method Merge(collectors: seq<Collector>) returns (out: Collector?)
    requires forall c | c in collectors :: c.Valid()
    modifies collectors
    ensures out == null <==> |collectors| == 0 || exists c | c in collectors :: c.meta != collectors[0].meta
    ensures forall c | c in collectors :: c.Valid() && c.Triggers() == old(c.Triggers()) && c.credits == old(c.credits)
    ensures forall c | c in collectors :: c.counted == old(c.counted) || c.counted == old(c.Triggers())
    ensures forall c | c in collectors :: old(c.Covered()) ==> c.Covered()
    ensures out != null ==>
              && fresh(out) && out.Valid() && out.meta == collectors[0].meta
              && out.Triggers() == Concat(old(TriggersOf(collectors))) && out.pending == []
              && out.credits == Concat(old(CreditsOf(collectors)))
              && ((forall c | c in collectors :: old(c.Covered())) ==> out.Covered())
  {
    if |collectors| == 0 {
      return null;
    }
    var alike := AllAlike(collectors);
    if !alike {
      return null;
    }
    if forall c | c in collectors :: c.Covered() {
      SourcesCovered(collectors);
    }
    var first := collectors[0];
    assert first in collectors && first.Valid();
    hide CountersOf, Increasing, Concat, CreditsCovered, Collector.Covered, Collector.Triggers;
    out := new Collector(first.meta, first.backend, first.lanes);
    out.AddAll(collectors);
    out.AllCounted();
  }

  method AllAlike(collectors: seq<Collector>) returns (alike: bool)
    requires |collectors| > 0
    ensures alike <==> forall c | c in collectors :: c.meta == collectors[0].meta
  {
    for i := 0 to |collectors|
      invariant forall j | 0 <= j < i :: collectors[j].meta == collectors[0].meta
    {
      if collectors[i].meta != collectors[0].meta {
        return false;
      }
    }
    return true;
  }

  lemma SourcesCovered(collectors: seq<Collector>)
    requires forall c | c in collectors :: c.Covered()
    ensures CreditsCovered(Concat(TriggersOf(collectors)), Concat(CreditsOf(collectors)))
  {
    hide CreditsCovered, Concat;
    var ts, cs := TriggersOf(collectors), CreditsOf(collectors);
    forall i | 0 <= i < |ts| ensures CreditsCovered(ts[i], cs[i]) {
      var c := collectors[i];
      assert c in collectors && c.Covered();
      CoveredByMore(c.counted, c.pending, c.credits);
    }
    MergedCovered(ts, cs);
  }

  /** Merging leaves the open windows of the scans as they were, and the result starts with true triggers
      within triggers: scanning goes on with the sources and the result alike. */
  method MergeScanned(windows: seq<TriggerWindow>) returns (out: TriggerWindow?)
    requires forall w | w in windows :: w.Valid()
    modifies set w | w in windows :: w.collector
    ensures forall w | w in windows :: w.Valid() && w.Now() == old(w.Now())
    ensures out != null ==> fresh(out) && out.Valid() && out.Now().windows == [CLOSED]
    ensures out == null <==> |windows| == 0 || exists w | w in windows :: w.collector.meta != windows[0].collector.meta
  {
    hide Alone, Concat;
    var collectors := seq(|windows|, i requires 0 <= i < |windows| => windows[i].collector);
    forall w | w in windows ensures w.collector in collectors {
      var i :| 0 <= i < |windows| && windows[i] == w;
      assert collectors[i] == w.collector;
    }
    forall c | c in collectors ensures c.Valid() && c.Covered() {
      var i :| 0 <= i < |collectors| && collectors[i] == c;
      assert windows[i] in windows && windows[i].Valid();
    }
    var merged := Merge(collectors);
    out := null;
    if merged != null {
      out := new TriggerWindow(merged);
    }
  }

  /** What merging preserves: never more true triggers than triggers. */
  lemma {:induction false} MergedCovered(ts: seq<seq<nat>>, cs: seq<seq<nat>>)
    requires |ts| == |cs| && forall i | 0 <= i < |ts| :: CreditsCovered(ts[i], cs[i])
    ensures CreditsCovered(Concat(ts), Concat(cs))
  {
    if ts != [] {
      var n := |ts| - 1;
      MergedCovered(ts[..n], cs[..n]);
      forall k: nat ensures Count(Concat(cs), k) <= Count(Concat(ts), k) {
        assert CreditsCovered(ts[n], cs[n]);
        assert Count(Concat(cs[..n]), k) <= Count(Concat(ts[..n]), k) && Count(cs[n], k) <= Count(ts[n], k);
        CountConcat(Concat(cs[..n]), cs[n], k);
        CountConcat(Concat(ts[..n]), ts[n], k);
      }
    }
  }
}
