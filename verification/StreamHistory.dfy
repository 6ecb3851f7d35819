/** The history a stream keeps: a fixed window over input that arrives in arbitrary chunks. */
module StreamHistory {

  const HS_SUCCESS := 0
  const HS_SCAN_TERMINATED := -3
  const HS_UNKNOWN_ERROR := -13

  datatype Status = Status(terminated: bool, exhausted: bool, error: bool) {
    /** No further data is scanned. */
    predicate CanStop() {
      terminated || exhausted || error
    }
  }

  /** What running the engines on a chunk leads to; `zeroHalt` says that the reports at offset zero
      already stopped the scan. */
  datatype Outcome = Outcome(zeroHalt: bool, status: Status)

  function Min(a: nat, b: nat): nat {
    if a < b then a else b
  }

  /** The last `n` elements of `s`. */
  function Last<T>(s: seq<T>, n: nat): seq<T>
    requires n <= |s|
  {
    s[|s| - n..]
  }

  function Flatten<T>(chunks: seq<seq<T>>): seq<T> {
    if chunks == [] then [] else Flatten(chunks[..|chunks| - 1]) + chunks[|chunks| - 1]
  }

  /** The history region after scanning `chunks` one by one, each replacing what it pushes out. */
  ghost function Maintained<T>(his: seq<T>, chunks: seq<seq<T>>): seq<T>
    ensures |Maintained(his, chunks)| == |his|
  {
    if chunks == [] then his
    else Last(Maintained(his, chunks[..|chunks| - 1]) + chunks[|chunks| - 1], |his|)
  }

  lemma LastOfLast<T>(s: seq<T>, chunk: seq<T>, n: nat)
    requires n <= |s|
    ensures Last(Last(s, n) + chunk, n) == Last(s + chunk, n)
  {
    assert Last(s, n) + chunk == Last(s + chunk, n + |chunk|);
  }

  /** The history depends on the bytes only, not on where the chunks end. */
  lemma {:induction false} ChunksDoNotMatter<T>(his: seq<T>, chunks: seq<seq<T>>)
    ensures Maintained(his, chunks) == Last(his + Flatten(chunks), |his|)
  {
    if chunks == [] {
      assert his + [] == his;
    } else {
      var front, chunk := chunks[..|chunks| - 1], chunks[|chunks| - 1];
      ChunksDoNotMatter(his, front);
      LastOfLast(his + Flatten(front), chunk, |his|);
      assert his + (Flatten(front) + chunk) == his + Flatten(front) + chunk;
    }
  }

  class HsStream {
    var offset: nat
    var status: Status
    const his: array<bv8>
    /** Every byte scanned since the stream was opened or reset. */
    ghost var consumed: seq<bv8>

    /** The history region ends with the last bytes of the input, as many as fit. */
    ghost predicate Valid()
      reads this, his
    {
      && offset == |consumed|
      && Last(his[..], Min(his.Length, offset)) == Last(consumed, Min(his.Length, offset))
    }

    constructor (historyRequired: nat)
      ensures Valid() && fresh(his) && his.Length == historyRequired && consumed == []
      ensures status == Status(false, false, false)
    {
      his := new bv8[historyRequired];
      offset, status, consumed := 0, Status(false, false, false), [];
    }

    /** Back to the start of a stream; the bytes of the history region stay. */
    method Reset()
      modifies this
      ensures Valid() && consumed == [] && status == Status(false, false, false)
    {
      offset, status, consumed := 0, Status(false, false, false), [];
    }

    function GetHistoryAmount(): nat
      reads this
    {
      Min(his.Length, offset)
    }

    /** The history handed to the engines: where it starts in the region, to the region's end. */
    method GetHistory() returns (start: nat, amount: nat)
      requires Valid()
      ensures start + amount == his.Length && amount == Min(his.Length, |consumed|)
      ensures his[start..] == Last(consumed, amount)
    {
      amount := GetHistoryAmount();
      start := his.Length - amount;
      assert his[start..] == Last(his[..], amount);
    }

    /** Shifts the history region and appends the end of a chunk. */
    method MaintainHistoryBuffer(buffer: seq<bv8>)
      modifies his
      ensures his[..] == Last(old(his[..]) + buffer, his.Length)
    {
      if his.Length == 0 || |buffer| == 0 {
        assert old(his[..]) + buffer == if |buffer| == 0 then old(his[..]) else buffer;
        return;
      }
      if |buffer| < his.Length {
        var shortfall := his.Length - |buffer|;
        forall i | 0 <= i < shortfall {
          his[i] := his[his.Length - shortfall + i];
        }
      }
      var amount := Min(his.Length, |buffer|);
      forall i | 0 <= i < amount {
        his[his.Length - amount + i] := buffer[|buffer| - amount + i];
      }
    }

    /** Scans one chunk. */
    method ScanStream(data: seq<bv8>, outcome: Outcome) returns (rv: int)
      requires Valid()
      requires outcome.zeroHalt ==> outcome.status.terminated || outcome.status.exhausted
      modifies this, his
      ensures Valid()
      ensures old(status).CanStop() || |data| == 0 ==>
                consumed == old(consumed) && status == old(status) && his[..] == old(his[..])
                && rv == if old(status).error then HS_UNKNOWN_ERROR
                         else if old(status).terminated then HS_SCAN_TERMINATED else HS_SUCCESS
      ensures !old(status).CanStop() && |data| > 0 ==>
                status == outcome.status
                && (outcome.status.CanStop() ==>
                      consumed == old(consumed) && his[..] == old(his[..])
                      && rv == if outcome.status.error && !(old(offset) == 0 && outcome.zeroHalt) then HS_UNKNOWN_ERROR
                               else if outcome.status.terminated then HS_SCAN_TERMINATED else HS_SUCCESS)
                && (!outcome.status.CanStop() ==>
                      rv == HS_SUCCESS && consumed == old(consumed) + data
                      && his[..] == Last(old(his[..]) + data, his.Length))
    {
      hide Last;
      if status.terminated || status.exhausted || status.error {
        return if status.error then HS_UNKNOWN_ERROR
               else if status.terminated then HS_SCAN_TERMINATED
               else HS_SUCCESS;
      }
      if |data| == 0 {
        return HS_SUCCESS;
      }
      if offset == 0 && outcome.zeroHalt {
        status := outcome.status;
        return if status.terminated then HS_SCAN_TERMINATED else HS_SUCCESS;
      }
      status := outcome.status;
      if status.error {
        return HS_UNKNOWN_ERROR;
      } else if !status.CanStop() {
        ghost var before := his[..];
        MaintainHistoryBuffer(data);
        KeepsLast(before, consumed, data, Min(his.Length, offset), Min(his.Length, offset + |data|));
        offset := offset + |data|;
        consumed := consumed + data;
      } else if status.terminated {
        return HS_SCAN_TERMINATED;
      }
      return HS_SUCCESS;
    }
  }

  /** Appending to the region and to the input keeps their common ending. */
  lemma KeepsLast(his: seq<bv8>, consumed: seq<bv8>, data: seq<bv8>, n: nat, m: nat)
    requires n == Min(|his|, |consumed|) && m == Min(|his|, |consumed| + |data|)
    requires Last(his, n) == Last(consumed, n)
    ensures Last(Last(his + data, |his|), m) == Last(consumed + data, m)
  {
    LastAppended(his, data, n, m);
    LastAppended(consumed, data, n, m);
    LastLast(his + data, |his|, m);
  }

  lemma LastAppended<T>(s: seq<T>, data: seq<T>, n: nat, m: nat)
    requires n <= |s| && m <= n + |data|
    ensures Last(Last(s, n) + data, m) == Last(s + data, m)
  {
  }

  lemma LastLast<T>(s: seq<T>, k: nat, m: nat)
    requires m <= k <= |s|
    ensures Last(Last(s, k), m) == Last(s, m)
  {
  }

  lemma FlattenStep<T>(chunks: seq<seq<T>>, i: nat)
    requires i < |chunks|
    ensures Flatten(chunks[..i + 1]) == Flatten(chunks[..i]) + chunks[i]
    ensures chunks[i] == [] ==> Flatten(chunks[..i + 1]) == Flatten(chunks[..i])
  {
    assert chunks[..i + 1][..i] == chunks[..i];
  }

  lemma MaintainedStep<T>(his: seq<T>, chunks: seq<seq<T>>, i: nat)
    requires i < |chunks|
    ensures Maintained(his, chunks[..i + 1]) == Last(Maintained(his, chunks[..i]) + chunks[i], |his|)
    ensures chunks[i] == [] ==> Maintained(his, chunks[..i + 1]) == Maintained(his, chunks[..i])
  {
    assert chunks[..i + 1][..i] == chunks[..i];
    assert Maintained(his, chunks[..i]) + [] == Maintained(his, chunks[..i]);
  }

  /** Scanning a whole input in any chunks. */
  method ScanAll(s: HsStream, chunks: seq<seq<bv8>>)
    requires s.Valid() && !s.status.CanStop()
    modifies s, s.his
    ensures s.Valid() && s.consumed == old(s.consumed) + Flatten(chunks)
    ensures s.his[..] == Last(old(s.his[..]) + Flatten(chunks), s.his.Length)
  {
    hide Flatten, Maintained, Last, HsStream.Valid;
    ghost var before, input := s.his[..], s.consumed;
    EmptyRun(before, input, chunks[..0]);
    for i := 0 to |chunks|
      invariant s.Valid() && !s.status.CanStop()
      invariant s.consumed == input + Flatten(chunks[..i])
      invariant s.his[..] == Maintained(before, chunks[..i])
    {
      FlattenStep(chunks, i);
      MaintainedStep(before, chunks, i);
      assert input + (Flatten(chunks[..i]) + chunks[i]) == input + Flatten(chunks[..i]) + chunks[i];
      var rv := s.ScanStream(chunks[i], Outcome(false, Status(false, false, false)));
    }
    assert chunks[..|chunks|] == chunks;
    ChunksDoNotMatter(before, chunks);
  }

  lemma EmptyRun<T>(his: seq<T>, input: seq<T>, none: seq<seq<T>>)
    requires none == []
    ensures Maintained(his, none) == his && input + Flatten(none) == input
  {
  }
}
