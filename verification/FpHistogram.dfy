/** Histograms of a batch of trigger keys, by two vector back ends. */
module FpHistogram {

  const BATCH_SIZE := 64

  const U32_RANGE := 0x1_0000_0000

  /** How often `key` occurs in `keys`. */
  function Count(keys: seq<nat>, key: nat): nat {
    if keys == [] then 0
    else Count(keys[..|keys| - 1], key) + (if keys[|keys| - 1] == key then 1 else 0)
  }

  /** The histogram of the first `n` keys' distinct values: each value where it first occurs, with its
      number of occurrences in the whole batch. */
  function Histogram(keys: seq<nat>, n: nat): seq<(nat, nat)>
    requires n <= |keys|
  {
    if n == 0 then []
    else
      Histogram(keys, n - 1)
      + (if keys[n - 1] in keys[..n - 1] then [] else [(keys[n - 1], Count(keys, keys[n - 1]))])
  }

  // ----- facts about counting -----

  lemma {:induction false} CountConcat(a: seq<nat>, b: seq<nat>, key: nat)
    ensures Count(a + b, key) == Count(a, key) + Count(b, key)
  {
    if b == [] {
      assert a + b == a;
    } else {
      assert (a + b)[..|a + b| - 1] == a + b[..|b| - 1];
      CountConcat(a, b[..|b| - 1], key);
    }
  }

  lemma {:induction false} CountAbsent(keys: seq<nat>, key: nat)
    ensures Count(keys, key) <= |keys|
    ensures Count(keys, key) == 0 <==> key !in keys
  {
    if keys != [] {
      CountAbsent(keys[..|keys| - 1], key);
      assert keys == keys[..|keys| - 1] + [keys[|keys| - 1]];
    }
  }

  lemma CountStep(keys: seq<nat>, n: nat, key: nat)
    requires n < |keys|
    ensures Count(keys[..n + 1], key) == Count(keys[..n], key) + (if keys[n] == key then 1 else 0)
  {
    assert keys[..n + 1][..n] == keys[..n];
  }

  /** Counting from the first occurrence on counts them all. */
  lemma CountFromFirst(keys: seq<nat>, first: nat)
    requires first < |keys| && keys[first] !in keys[..first]
    ensures Count(keys[first..], keys[first]) == Count(keys, keys[first])
  {
    assert keys == keys[..first] + keys[first..];
    CountConcat(keys[..first], keys[first..], keys[first]);
    CountAbsent(keys[..first], keys[first]);
  }

  /** Every key of the batch is in its histogram once, with its multiplicity, and nothing else is. */
  ghost predicate Exact(keys: seq<nat>, n: nat, hist: seq<(nat, nat)>)
    requires n <= |keys|
  {
    && (forall i, j | 0 <= i < j < |hist| :: hist[i].0 != hist[j].0)
    && (forall i | 0 <= i < |hist| :: hist[i].0 in keys[..n] && hist[i].1 == Count(keys, hist[i].0) > 0)
    && (forall k | k in keys[..n] :: exists i | 0 <= i < |hist| :: hist[i].0 == k)
  }

  lemma {:induction false} HistogramExact(keys: seq<nat>, n: nat)
    requires n <= |keys|
    ensures Exact(keys, n, Histogram(keys, n))
  {
    if n > 0 {
      HistogramExact(keys, n - 1);
      var hist, rest := Histogram(keys, n), Histogram(keys, n - 1);
      assert keys[..n] == keys[..n - 1] + [keys[n - 1]];
      CountAbsent(keys, keys[n - 1]);
      forall k | k in keys[..n] ensures exists i | 0 <= i < |hist| :: hist[i].0 == k {
        if k in keys[..n - 1] {
          var i :| 0 <= i < |rest| && rest[i].0 == k;
          assert hist[i].0 == k;
        } else {
          assert hist[|rest|].0 == k;
        }
      }
    }
  }

  // ----- NEON: four lanes, comparison masks of all ones -----

  function Wrap(x: nat): nat {
    x % U32_RANGE
  }

  /** Four 32-bit lanes. */
  datatype Lanes = Lanes(a: nat, b: nat, c: nat, d: nat) {
    /** The horizontal sum, in 32 bits. */
    function Sum(): nat {
      Wrap(a + b + c + d)
    }
  }

  const ZERO := Lanes(0, 0, 0, 0)

  /** The comparison mask of one lane: all ones where equal. */
  function Mask(x: nat, key: nat): nat {
    if x == key then U32_RANGE - 1 else 0
  }

  /** Compares four keys from `pos` on with `key`. */
  function CompareEq(keys: seq<nat>, pos: nat, key: nat): Lanes
    requires pos + 4 <= |keys|
  {
    Lanes(Mask(keys[pos], key), Mask(keys[pos + 1], key), Mask(keys[pos + 2], key), Mask(keys[pos + 3], key))
  }

  function SubLane(x: nat, y: nat): nat {
    (x - y) % U32_RANGE
  }

  /** Lane-wise subtraction with wrap-around. */
  function Sub(x: Lanes, y: Lanes): Lanes {
    Lanes(SubLane(x.a, y.a), SubLane(x.b, y.b), SubLane(x.c, y.c), SubLane(x.d, y.d))
  }

  function AddLanes(x: Lanes, y: Lanes): Lanes {
    Lanes(Wrap(x.a + y.a), Wrap(x.b + y.b), Wrap(x.c + y.c), Wrap(x.d + y.d))
  }

  /** An accumulator holding `total` hits, spread over lanes that have not wrapped. */
  predicate Holds(acc: Lanes, total: nat) {
    acc.a + acc.b + acc.c + acc.d == total < U32_RANGE
  }

  lemma ZeroHolds()
    ensures Holds(ZERO, 0)
  {
  }

  lemma SubMask(x: nat, y: nat, key: nat)
    requires x < U32_RANGE - 1
    ensures SubLane(x, Mask(y, key)) == x + (if y == key then 1 else 0)
  {
    if y == key {
      assert x - (U32_RANGE - 1) == x + 1 + (-1) * U32_RANGE;
      assert (x + 1) % U32_RANGE == x + 1;
    }
  }

  /** Subtracting a mask of all ones adds one in each lane that matched. */
  lemma SubCounts(acc: Lanes, total: nat, keys: seq<nat>, pos: nat, key: nat)
    requires Holds(acc, total) && pos + 4 <= |keys| && total + 4 < U32_RANGE
    ensures Holds(Sub(acc, CompareEq(keys, pos, key)), total + Count(keys[pos..pos + 4], key))
    ensures Count(keys[..pos + 4], key) == Count(keys[..pos], key) + Count(keys[pos..pos + 4], key)
  {
    SubMask(acc.a, keys[pos], key);
    SubMask(acc.b, keys[pos + 1], key);
    SubMask(acc.c, keys[pos + 2], key);
    SubMask(acc.d, keys[pos + 3], key);
    assert keys[..pos + 4] == keys[..pos] + keys[pos..pos + 4];
    CountConcat(keys[..pos], keys[pos..pos + 4], key);
    CountStep(keys, pos, key);
    CountStep(keys, pos + 1, key);
    CountStep(keys, pos + 2, key);
    CountStep(keys, pos + 3, key);
  }

  lemma NoWrap(x: nat)
    requires x < U32_RANGE
    ensures Wrap(x) == x
  {
  }

  lemma LanesAdd(x: Lanes, y: Lanes)
    requires x.a + y.a < U32_RANGE && x.b + y.b < U32_RANGE && x.c + y.c < U32_RANGE && x.d + y.d < U32_RANGE
    ensures AddLanes(x, y) == Lanes(x.a + y.a, x.b + y.b, x.c + y.c, x.d + y.d)
  {
    hide Wrap;
    NoWrap(x.a + y.a);
    NoWrap(x.b + y.b);
    NoWrap(x.c + y.c);
    NoWrap(x.d + y.d);
  }

  lemma SumOfBoth(x: Lanes, y: Lanes, m: nat, n: nat)
    requires Holds(x, m) && Holds(y, n) && m + n < U32_RANGE
    ensures AddLanes(x, y).Sum() == m + n
  {
    LanesAdd(x, y);
    hide Wrap, AddLanes;
    NoWrap(m + n);
  }

  method CountKeyNeon(keys: seq<nat>, key: nat) returns (total: nat)
    requires |keys| + 4 < U32_RANGE
    ensures total == Count(keys, key)
  {
    hide Holds, Sub, CompareEq, AddLanes;
    var acc0, acc1, pos := ZERO, ZERO, 0;
    ZeroHolds();
    ghost var n0: nat, n1: nat := 0, 0;
    while pos + 8 <= |keys|
      invariant 0 <= pos <= |keys|
      invariant Holds(acc0, n0) && Holds(acc1, n1) && n0 + n1 == Count(keys[..pos], key) <= pos
    {
      SubCounts(acc0, n0, keys, pos, key);
      SubCounts(acc1, n1, keys, pos + 4, key);
      n0, n1 := n0 + Count(keys[pos..pos + 4], key), n1 + Count(keys[pos + 4..pos + 4 + 4], key);
      acc0 := Sub(acc0, CompareEq(keys, pos, key));
      acc1 := Sub(acc1, CompareEq(keys, pos + 4, key));
      CountAbsent(keys[..pos + 8], key);
      pos := pos + 8;
    }
    if pos + 4 <= |keys| {
      SubCounts(acc0, n0, keys, pos, key);
      n0 := n0 + Count(keys[pos..pos + 4], key);
      acc0 := Sub(acc0, CompareEq(keys, pos, key));
      CountAbsent(keys[..pos + 4], key);
      pos := pos + 4;
    }
    SumOfBoth(acc0, acc1, n0, n1);
    total := AddLanes(acc0, acc1).Sum();
    while pos < |keys|
      invariant 0 <= pos <= |keys| && total == Count(keys[..pos], key)
    {
      CountStep(keys, pos, key);
      total := total + (if keys[pos] == key then 1 else 0);
      pos := pos + 1;
    }
    assert keys[..|keys|] == keys;
  }

  method KeySeenBeforeNeon(keys: seq<nat>, end: nat, key: nat) returns (seen: bool)
    requires end <= |keys|
    ensures seen <==> key in keys[..end]
  {
    var pos := 0;
    while pos + 4 <= end
      invariant 0 <= pos <= end && key !in keys[..pos]
    {
      var hits := CompareEq(keys, pos, key);
      if hits.a != 0 || hits.b != 0 || hits.c != 0 || hits.d != 0 {
        return true;
      }
      pos := pos + 4;
    }
    while pos < end
      invariant 0 <= pos <= end && key !in keys[..pos]
    {
      if keys[pos] == key {
        return true;
      }
      pos := pos + 1;
    }
    return false;
  }

  /** The NEON back end; the emitted pairs in order. */
  method CountBatchNeon(keys: seq<nat>) returns (emitted: seq<(nat, nat)>)
    requires |keys| <= BATCH_SIZE
    ensures emitted == Histogram(keys, |keys|)
  {
    emitted := [];
    for i := 0 to |keys|
      invariant emitted == Histogram(keys, i)
    {
      var seen := KeySeenBeforeNeon(keys, i, keys[i]);
      if !seen {
        var n := CountKeyNeon(keys[i..], keys[i]);
        CountFromFirst(keys, i);
        emitted := emitted + [(keys[i], n)];
      }
    }
  }

  // ----- SVE2: any number of lanes, predicated -----

  /** How often the key of each lane occurs in the segment up to and including that lane. */
  function Ranks(segment: seq<nat>): (ranks: seq<nat>)
    ensures |ranks| == |segment|
  {
    seq(|segment|, i requires 0 <= i < |segment| => Count(segment[..i + 1], segment[i]))
  }

  method KeySeenBefore(keys: seq<nat>, end: nat, key: nat, lanes: nat) returns (seen: bool)
    requires end <= |keys| && lanes > 0
    ensures seen <==> key in keys[..end]
  {
    var pos := 0;
    while pos < end
      invariant 0 <= pos && key !in keys[..if pos < end then pos else end]
    {
      var stop := if pos + lanes < end then pos + lanes else end;
      if exists i | pos <= i < stop :: keys[i] == key {
        return true;
      }
      pos := pos + lanes;
    }
    return false;
  }

  /** The hits of one predicated comparison, one per active lane. */
  function HitLanes(keys: seq<nat>, pos: nat, key: nat, lanes: nat): (hits: seq<nat>)
    ensures |hits| == lanes
  {
    seq(lanes, (i: nat) => if pos + i < |keys| && keys[pos + i] == key then 1 else 0)
  }

  function AddEach(acc: seq<nat>, hits: seq<nat>): (r: seq<nat>)
    requires |acc| == |hits|
    ensures |r| == |acc|
  {
    seq(|acc|, i requires 0 <= i < |acc| => acc[i] + hits[i])
  }

  function SumAll(s: seq<nat>): nat {
    if s == [] then 0 else SumAll(s[..|s| - 1]) + s[|s| - 1]
  }

  lemma {:induction false} SumAddEach(acc: seq<nat>, hits: seq<nat>)
    requires |acc| == |hits|
    ensures SumAll(AddEach(acc, hits)) == SumAll(acc) + SumAll(hits)
  {
    if acc != [] {
      var n := |acc| - 1;
      SumAddEach(acc[..n], hits[..n]);
      assert AddEach(acc, hits)[..n] == AddEach(acc[..n], hits[..n]);
    }
  }

  lemma {:induction false} SumHits(keys: seq<nat>, pos: nat, key: nat, lanes: nat)
    requires pos <= |keys|
    ensures SumAll(HitLanes(keys, pos, key, lanes))
         == Count(keys[pos..if pos + lanes < |keys| then pos + lanes else |keys|], key)
  {
    if lanes > 0 {
      SumHits(keys, pos, key, lanes - 1);
      assert HitLanes(keys, pos, key, lanes)[..lanes - 1] == HitLanes(keys, pos, key, lanes - 1);
      if pos + lanes <= |keys| {
        assert keys[pos..pos + lanes][..lanes - 1] == keys[pos..pos + lanes - 1];
      }
    }
  }

  lemma {:induction false} SumZero(lanes: nat)
    ensures SumAll(seq(lanes, _ => 0)) == 0
  {
    if lanes > 0 {
      SumZero(lanes - 1);
      assert seq(lanes, _ => 0)[..lanes - 1] == seq(lanes - 1, _ => 0);
    }
  }

  method CountKeyInBatch(keys: seq<nat>, key: nat, lanes: nat) returns (total: nat)
    requires lanes > 0
    ensures total == Count(keys, key)
  {
    var acc: seq<nat> := seq(lanes, _ => 0);
    SumZero(lanes);
    var pos := 0;
    while pos < |keys|
      invariant 0 <= pos && |acc| == lanes
      invariant SumAll(acc) == Count(keys[..if pos < |keys| then pos else |keys|], key)
    {
      var stop := if pos + lanes < |keys| then pos + lanes else |keys|;
      SumHits(keys, pos, key, lanes);
      SumAddEach(acc, HitLanes(keys, pos, key, lanes));
      assert keys[..stop] == keys[..pos] + keys[pos..stop];
      CountConcat(keys[..pos], keys[pos..stop], key);
      acc := AddEach(acc, HitLanes(keys, pos, key, lanes));
      pos := pos + lanes;
    }
    assert keys[..|keys|] == keys;
    total := SumAll(acc);
  }

  /** A rank of one and no occurrence in earlier segments is a first occurrence. */
  lemma RankOneIsFirst(keys: seq<nat>, pos: nat, active: nat, lane: nat)
    requires lane < active && pos + active <= |keys|
    ensures keys[pos + lane] in keys[..pos + lane]
       <==> Ranks(keys[pos..pos + active])[lane] != 1 || keys[pos + lane] in keys[..pos]
  {
    var segment, key := keys[pos..pos + active], keys[pos + lane];
    CountStep(segment, lane, key);
    CountAbsent(segment[..lane], key);
    assert keys[..pos + lane] == keys[..pos] + segment[..lane];
  }

  /** The SVE2 back end for vectors of `lanes` 32-bit lanes. */
  method CountBatchSve2(keys: seq<nat>, lanes: nat) returns (emitted: seq<(nat, nat)>)
    requires |keys| <= BATCH_SIZE && 1 <= lanes <= 64
    ensures emitted == Histogram(keys, |keys|)
  {
    emitted := [];
    var pos := 0;
    while pos < |keys|
      invariant 0 <= pos
      invariant emitted == Histogram(keys, if pos < |keys| then pos else |keys|)
    {
      var active := if lanes < |keys| - pos then lanes else |keys| - pos;
      var ranks := Ranks(keys[pos..pos + active]);
      for lane := 0 to active
        invariant emitted == Histogram(keys, pos + lane)
      {
        var first := pos + lane;
        RankOneIsFirst(keys, pos, active, lane);
        var seen := ranks[lane] != 1;
        if !seen && pos > 0 {
          seen := KeySeenBefore(keys, pos, keys[first], lanes);
        }
        if !seen {
          var n := CountKeyInBatch(keys[first..], keys[first], lanes);
          CountFromFirst(keys, first);
          emitted := emitted + [(keys[first], n)];
        }
      }
      pos := pos + lanes;
    }
  }
}
