/** Deduplication of reports with one log per parity of the end offset. */
module Dedupe {

  const U64_RANGE := 0x1_0000_0000_0000_0000

  /** The report offset of a scan that has not reported yet. */
  const NO_OFFSET := U64_RANGE - 1

  const INVALID_DKEY := 0xFFFF_FFFF

  datatype DedupeResult = Continue | Skip | Halt

  /** Reports with start of match, held back until the scan has moved past their end. */
  datatype SomLogs = SomLogs(log: seq<set<nat>>, starts: seq<map<nat, nat>>, dirtyAdjusted: bool, dirtyPlain: bool)

  /** The logs of external reports, one for even and one for odd end offsets. */
  datatype Logs = Logs(current: nat, log: seq<set<nat>>, som: SomLogs)

  /** One request: a report of key `dkey` made at `offset` for a match ending at `offset + adjust`.
      `flush` is what delivering the held-back reports does, and whether the user then stops. */
  datatype Call = Call(offset: nat, from: nat, adjust: int, dkey: nat, external: bool, quashSom: bool, doSom: bool,
                       flush: SomLogs -> (SomLogs, bool)) {
    /** The end offset, in 64 bits. */
    function To(): nat {
      (offset + adjust) % U64_RANGE
    }

    /** The call goes through the log of external reports. */
    predicate Logged() {
      dkey != INVALID_DKEY && (external || quashSom)
    }

    /** The call is held back with its start of match. */
    predicate Held() {
      dkey != INVALID_DKEY && !external && !quashSom && doSom
    }
  }

  /** What the source's assertions say of one call when the scan is at `current`: offsets do not
      decrease, adjustments are 0 or -1. */
  ghost predicate CallOk(current: nat, c: Call) {
    && c.offset < NO_OFFSET
    && (c.offset != current ==> current == NO_OFFSET || current < c.offset)
    && (c.adjust == 0 || c.adjust == -1)
    && (forall s :: SomOk(s) ==> SomOk(c.flush(s).0))
  }

  predicate SomOk(s: SomLogs) {
    |s.log| == 2 && |s.starts| == 2
  }

  predicate LogsOk(d: Logs) {
    |d.log| == 2 && SomOk(d.som)
  }

  /** The logs once the scan has moved to `offset`. */
  function MovedLog(d: Logs, offset: nat): seq<set<nat>>
    requires LogsOk(d)
  {
    if offset == d.current then d.log
    else if offset == (d.current + 1) % U64_RANGE then d.log[offset % 2 := {}]
    else [{}, {}]
  }

  /** The end offsets the logs speak about when the scan is at `offset`. */
  predicate Recent(offset: nat, to: nat) {
    to == offset || to + 1 == offset
  }

  /** The two logs stand for the set of all accepted reports. */
  ghost predicate Represents(d: Logs, accepted: set<(nat, nat)>) {
    && LogsOk(d)
    && (d.current == NO_OFFSET ==> accepted == {})
    && (forall a | a in accepted :: a.1 <= d.current)
    && (d.current != NO_OFFSET ==>
          forall k, to: nat | Recent(d.current, to) :: k in d.log[to % 2] <==> (k, to) in accepted)
  }

  /** Moving on clears exactly the log of ends that cannot occur again. */
  lemma MoveRepresents(d: Logs, accepted: set<(nat, nat)>, offset: nat)
    requires Represents(d, accepted) && offset < NO_OFFSET
    requires offset != d.current ==> d.current == NO_OFFSET || d.current < offset
    ensures Represents(d.(current := offset, log := MovedLog(d, offset)), accepted)
  {
    var e := d.(current := offset, log := MovedLog(d, offset));
    if offset != d.current {
      forall k, to: nat | Recent(offset, to) ensures k in e.log[to % 2] <==> (k, to) in accepted {
        if d.current != NO_OFFSET && to == d.current {
          assert Recent(d.current, to) && to % 2 != offset % 2;
        }
        if (k, to) in accepted {
          assert (k, to).1 <= d.current;
        }
      }
    }
  }

  /** A report is in the log of its end's parity exactly when it was accepted before, unless its end is
      negative: then the log may hold keys a previous scan left behind. */
  lemma LogAnswers(d: Logs, accepted: set<(nat, nat)>, c: Call)
    requires Represents(d, accepted) && CallOk(d.current, c)
    ensures (c.dkey in MovedLog(d, c.offset)[c.To() % 2] <==> (c.dkey, c.To()) in accepted)
       <==> c.offset + c.adjust >= 0 || c.dkey !in d.log[1]
  {
    MoveRepresents(d, accepted, c.offset);
    if c.offset + c.adjust >= 0 {
      assert Recent(c.offset, c.To());
    } else {
      assert c.To() == NO_OFFSET && NO_OFFSET % 2 == 1;
      assert (c.dkey, c.To()) !in accepted;
    }
  }

  /** Accepting a report. */
  lemma AcceptRepresents(d: Logs, accepted: set<(nat, nat)>, k: nat, to: nat)
    requires Represents(d, accepted) && d.current != NO_OFFSET && Recent(d.current, to)
    ensures Represents(d.(log := d.log[to % 2 := d.log[to % 2] + {k}]), accepted + {(k, to)})
  {
    var e := d.(log := d.log[to % 2 := d.log[to % 2] + {k}]);
    forall j, t: nat | Recent(d.current, t) ensures j in e.log[t % 2] <==> (j, t) in accepted + {(k, to)} {
      if t != to {
        assert t % 2 != to % 2;
      }
    }
  }

  /** A wrong answer: key 7 was left in the odd log, and the first report of a scan ends at -1. */
  lemma NegativeEndIsSkipped(flush: SomLogs -> (SomLogs, bool))
    requires forall s :: SomOk(s) ==> SomOk(flush(s).0)
    ensures var d := Logs(NO_OFFSET, [{}, {7}], SomLogs([{}, {}], [map[], map[]], false, false));
            var c := Call(0, 0, -1, 7, true, false, false, flush);
            Represents(d, {}) && CallOk(d.current, c) && c.dkey in MovedLog(d, c.offset)[c.To() % 2]
  {
    assert (-1) % U64_RANGE == NO_OFFSET;
  }

  /** The held-back reports once the scan has moved to the offset of `c`. */
  function Flushed(d: Logs, c: Call): (SomLogs, bool) {
    if c.offset != d.current && c.doSom then c.flush(d.som) else (d.som, false)
  }

  /** A report of key `k` with an end of parity `q`. */
  predicate Concerns(c: Call, q: nat, k: nat) {
    c.dkey == k && c.To() % 2 == q
  }

  /** There is a held-back report of key `k` and parity `q`. */
  predicate Stored(s: SomLogs, q: nat, k: nat)
    requires SomOk(s) && q < 2
  {
    k in s.log[q] && k in s.starts[q]
  }

  /** What holding back `calls` means for key `k` and parity `q`: with no such call nothing changes, else
      the start stored is the earliest of theirs and of the one stored before. */
  ghost predicate KeyHeld(before: SomLogs, after: SomLogs, calls: seq<Call>, q: nat, k: nat)
    requires SomOk(before) && SomOk(after) && q < 2
  {
    if forall i | 0 <= i < |calls| :: !Concerns(calls[i], q, k) then
      && (k in after.log[q] <==> k in before.log[q])
      && (k in after.starts[q] <==> k in before.starts[q])
      && (k in before.starts[q] ==> after.starts[q][k] == before.starts[q][k])
    else
      && Stored(after, q, k)
      && (forall i | 0 <= i < |calls| && Concerns(calls[i], q, k) :: after.starts[q][k] <= calls[i].from)
      && (Stored(before, q, k) ==> after.starts[q][k] <= before.starts[q][k])
      && (|| (Stored(before, q, k) && after.starts[q][k] == before.starts[q][k])
          || exists i | 0 <= i < |calls| :: Concerns(calls[i], q, k) && after.starts[q][k] == calls[i].from)
  }

  /** What holding back `calls`, with no flush between them, does to the logs of held-back reports. */
  ghost predicate HeldBack(before: SomLogs, after: SomLogs, calls: seq<Call>) {
    && SomOk(before) && SomOk(after)
    && (forall q: nat, k: nat | q < 2 :: KeyHeld(before, after, calls, q, k))
    && (after.dirtyAdjusted <==> before.dirtyAdjusted || exists i | 0 <= i < |calls| :: calls[i].adjust != 0)
    && (after.dirtyPlain <==> before.dirtyPlain || exists i | 0 <= i < |calls| :: calls[i].adjust == 0)
  }

  lemma HeldKey(a: SomLogs, b: SomLogs, d: SomLogs, calls: seq<Call>, c: Call, q: nat, k: nat)
    requires SomOk(a) && SomOk(b) && SomOk(d) && q < 2
    requires KeyHeld(a, b, calls, q, k) && KeyHeld(b, d, [c], q, k)
    ensures KeyHeld(a, d, calls + [c], q, k)
  {
    var all := calls + [c];
    assert all[|calls|] == c && [c][0] == c;
    assert forall i | 0 <= i < |calls| :: all[i] == calls[i];
    hide SomOk;
  }

  /** One more. */
  lemma HeldOneMore(a: SomLogs, b: SomLogs, d: SomLogs, calls: seq<Call>, c: Call)
    requires HeldBack(a, b, calls) && HeldBack(b, d, [c])
    ensures HeldBack(a, d, calls + [c])
  {
    var all := calls + [c];
    assert all[|calls|] == c && [c][0] == c;
    assert forall i | 0 <= i < |calls| :: all[i] == calls[i];
    hide KeyHeld;
    forall q: nat, k: nat | q < 2 ensures KeyHeld(a, d, all, q, k) {
      HeldKey(a, b, d, calls, c, q, k);
    }
  }

  lemma HeldNone(s: SomLogs)
    requires SomOk(s)
    ensures HeldBack(s, s, [])
  {
  }

  /** The reports of a scan: offsets in order, no negative end. */
  ghost predicate InOrder(calls: seq<Call>) {
    forall i | 0 <= i < |calls| :: Follows(calls, i)
  }

  ghost predicate Follows(calls: seq<Call>, i: nat)
    requires i < |calls|
  {
    && CallOk(if i == 0 then NO_OFFSET else calls[i - 1].offset, calls[i])
    && calls[i].offset + calls[i].adjust >= 0
  }

  /** An earlier external report had the key and end of report `i`. */
  ghost predicate Repeats(calls: seq<Call>, i: nat)
    requires i < |calls|
  {
    exists j | 0 <= j < i :: calls[j].Logged() && calls[j].dkey == calls[i].dkey && calls[j].To() == calls[i].To()
  }

  /** The keys and ends of the first `n` external reports. */
  ghost function AcceptedBy(calls: seq<Call>, n: nat): set<(nat, nat)>
    requires n <= |calls|
  {
    set j | 0 <= j < n && calls[j].Logged() :: (calls[j].dkey, calls[j].To())
  }

  lemma AcceptedRepeats(calls: seq<Call>, i: nat)
    requires i < |calls|
    ensures (calls[i].dkey, calls[i].To()) in AcceptedBy(calls, i) <==> Repeats(calls, i)
    ensures AcceptedBy(calls, i + 1)
         == AcceptedBy(calls, i) + (if calls[i].Logged() then {(calls[i].dkey, calls[i].To())} else {})
  {
  }

  lemma RepresentsSom(d: Logs, accepted: set<(nat, nat)>, c: Call)
    requires Represents(d, accepted) && CallOk(d.current, c)
    ensures LogsOk(d) && SomOk(Flushed(d, c).0)
  {
  }

  lemma HoldKeeps(d: Logs, s: SomLogs, accepted: set<(nat, nat)>)
    requires Represents(d, accepted) && SomOk(s)
    ensures Represents(d.(som := s), accepted)
  {
  }

  /** A held-back report at the offset the scan is at. */
  ghost predicate HeldAt(offset: nat, c: Call) {
    c.Held() && c.offset == offset && CallOk(offset, c) && c.offset + c.adjust >= 0
  }

  lemma HeldAtMeans(offset: nat, c: Call)
    requires HeldAt(offset, c)
    ensures c.Held() && !c.Logged() && c.offset == offset && CallOk(offset, c) && c.offset + c.adjust >= 0
  {
    hide CallOk;
  }

  lemma RepresentsSomOk(d: Logs, accepted: set<(nat, nat)>)
    requires Represents(d, accepted)
    ensures SomOk(d.som)
  {
  }

  class MatchDeduper {
    var currentReportOffset: nat
    var log: seq<set<nat>>
    var som: SomLogs
    /** The external reports accepted by the current scan, as pairs of key and end offset. */
    ghost var accepted: set<(nat, nat)>

    ghost function State(): Logs
      reads this
    {
      Logs(currentReportOffset, log, som)
    }

    ghost predicate Valid()
      reads this
    {
      Represents(State(), accepted)
    }

    /** Starts a scan: the logs still hold whatever the previous scan left in them. */
    method Reset()
      requires LogsOk(State())
      modifies this
      ensures Valid() && currentReportOffset == NO_OFFSET && accepted == {}
    {
      currentReportOffset := NO_OFFSET;
      accepted := {};
    }

    /** Moves the scan to the offset of a report; false if the user stops it. */
    method MoveTo(c: Call) returns (goOn: bool)
      requires Valid() && CallOk(currentReportOffset, c)
      modifies this`currentReportOffset, this`log, this`som
      ensures goOn <==> !Flushed(old(State()), c).1
      ensures som == Flushed(old(State()), c).0 && SomOk(som)
      ensures !goOn ==> currentReportOffset == old(currentReportOffset)
      ensures goOn ==> Valid() && currentReportOffset == c.offset && log == MovedLog(old(State()), c.offset)
    {
      ghost var d := State();
      MoveRepresents(d, accepted, c.offset);
      RepresentsSom(d, accepted, c);
      HoldKeeps(d.(current := c.offset, log := MovedLog(d, c.offset)), Flushed(d, c).0, accepted);
      hide Represents;
      if c.offset != currentReportOffset {
        if c.offset == (currentReportOffset + 1) % U64_RANGE {
          log := log[c.offset % 2 := {}];
        } else {
          log := [{}, {}];
        }
        if c.doSom {
          var (after, halt) := c.flush(som);
          som := after;
          if halt {
            return false;
          }
        }
        currentReportOffset := c.offset;
      }
      return true;
    }

    /** Enters an external report into the log of its end's parity; true if it was there already. */
    method Enter(c: Call) returns (seen: bool)
      requires Valid() && currentReportOffset == c.offset < NO_OFFSET && Recent(c.offset, c.To())
      modifies this`log, this`accepted
      ensures Valid() && accepted == old(accepted) + {(c.dkey, c.To())}
      ensures seen <==> c.dkey in old(log)[c.To() % 2]
      ensures seen <==> (c.dkey, c.To()) in old(accepted)
    {
      var parity := c.To() % 2;
      assert c.dkey in log[parity] <==> (c.dkey, c.To()) in accepted;
      AcceptRepresents(State(), accepted, c.dkey, c.To());
      seen := c.dkey in log[parity];
      hide Represents;
      if seen {
        assert accepted == accepted + {(c.dkey, c.To())};
      } else {
        log := log[parity := log[parity] + {c.dkey}];
        accepted := accepted + {(c.dkey, c.To())};
      }
    }

    /** Holds back a report with start of match. */
    method Hold(c: Call)
      requires SomOk(som)
      modifies this`som
      ensures HeldBack(old(som), som, [c])
    {
      ghost var before := som;
      var parity := c.To() % 2;
      var starts := som.starts[parity];
      var start := if c.dkey in som.log[parity] && c.dkey in starts && starts[c.dkey] < c.from
                   then starts[c.dkey] else c.from;
      som := som.(log := som.log[parity := som.log[parity] + {c.dkey}],
                  starts := som.starts[parity := starts[c.dkey := start]],
                  dirtyAdjusted := som.dirtyAdjusted || c.adjust != 0,
                  dirtyPlain := som.dirtyPlain || c.adjust == 0);
      assert [c][0] == c;
      assert Concerns([c][0], parity, c.dkey);
    }

    /** Decides what to do with one report; an external one is skipped exactly when it repeats. */
    method Catchup(c: Call) returns (r: DedupeResult)
      requires Valid() && CallOk(currentReportOffset, c) && c.offset + c.adjust >= 0
      modifies this
      ensures r == Halt <==> c.offset != old(currentReportOffset) && c.doSom && c.flush(old(som)).1
      ensures r == Halt ==>
                accepted == old(accepted) && currentReportOffset == old(currentReportOffset)
                && som == c.flush(old(som)).0
      ensures r != Halt ==> Valid() && currentReportOffset == c.offset
      ensures r != Halt && c.Logged() ==>
                && (r == Skip <==> (c.dkey, c.To()) in old(accepted))
                && accepted == old(accepted) + {(c.dkey, c.To())}
      ensures r != Halt && !c.Logged() ==> accepted == old(accepted) && (r == Skip <==> c.Held())
      ensures r != Halt ==>
                var flushed := if c.offset != old(currentReportOffset) && c.doSom then c.flush(old(som)).0
                    else old(som);
                if c.Held() then HeldBack(flushed, som, [c]) else som == flushed
    {
      hide Represents, HeldBack;
      var goOn := MoveTo(c);
      if !goOn {
        return Halt;
      }
      if c.dkey != INVALID_DKEY {
        if c.external || c.quashSom {
          var seen := Enter(c);
          return if seen then Skip else Continue;
        } else if c.doSom {
          ghost var d := State();
          Hold(c);
          HoldKeeps(d, som, accepted);
          return Skip;
        }
      }
      return Continue;
    }

    /** A run of held-back reports at one offset. */
    method HoldRun(calls: seq<Call>)
      requires Valid() && currentReportOffset != NO_OFFSET
      requires forall i | 0 <= i < |calls| :: HeldAt(currentReportOffset, calls[i])
      modifies this
      ensures Valid() && currentReportOffset == old(currentReportOffset) && accepted == old(accepted)
      ensures HeldBack(old(som), som, calls)
    {
      HeldNone(som);
      RepresentsSomOk(State(), accepted);
      hide Represents, HeldBack, HeldAt, CallOk;
      for i := 0 to |calls|
        invariant Valid() && currentReportOffset == old(currentReportOffset) && accepted == old(accepted)
        invariant HeldBack(old(som), som, calls[..i])
      {
        HeldAtMeans(currentReportOffset, calls[i]);
        ghost var before := som;
        var r := Catchup(calls[i]);
        HeldOneMore(old(som), before, som, calls[..i], calls[i]);
        assert calls[..i + 1] == calls[..i] + [calls[i]];
      }
      assert calls[..|calls|] == calls;
    }

    /** All reports of one scan, until the user stops it: each external report is skipped exactly when
        an earlier one had the same key and end. */
    method ReportAll(calls: seq<Call>) returns (results: seq<DedupeResult>)
      requires LogsOk(State()) && InOrder(calls)
      modifies this
      ensures |results| <= |calls| && (|results| < |calls| ==> |results| > 0 && results[|results| - 1] == Halt)
      ensures forall i | 0 <= i < |results| && calls[i].Logged() && results[i] != Halt ::
                results[i] == Skip <==> Repeats(calls, i)
    {
      hide Represents, CallOk;
      Reset();
      results := [];
      for i := 0 to |calls|
        invariant |results| == i && Valid()
        invariant currentReportOffset == if i == 0 then NO_OFFSET else calls[i - 1].offset
        invariant accepted == AcceptedBy(calls, i)
        invariant forall j | 0 <= j < i && calls[j].Logged() :: results[j] == Skip <==> Repeats(calls, j)
        invariant forall j | 0 <= j < i :: results[j] != Halt
      {
        AcceptedRepeats(calls, i);
        assert Follows(calls, i);
        var r := Catchup(calls[i]);
        results := results + [r];
        if r == Halt {
          return;
        }
      }
    }
  }
}
