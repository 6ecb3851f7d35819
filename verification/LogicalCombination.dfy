/** Logical combinations of sub-expressions, evaluated in place over the logical vector. */
module LogicalCombination {

  datatype OpType = Not | And | Or

  /** An operator; the operand `lo` of a negation is not used. */
  datatype LogicalOp = LogicalOp(op: OpType, lo: nat, ro: nat) {
    predicate Uses(k: nat) {
      k == ro || (!Unary() && k == lo)
    }

    predicate Unary() {
      op.Not?
    }

    function Apply(l: bool, r: bool): bool {
      match op
      case Not => !r
      case And => l && r
      case Or => l || r
    }
  }

  /** The operators with keys `start..result` form formulas over the sub-expressions, whose keys are
      below `n`: operands precede their operator and do not leave the range. */
  ghost predicate Formula(ops: seq<LogicalOp>, n: nat, start: nat, result: nat) {
    && n <= start <= result < n + |ops|
    && forall i | start <= i <= result :: OperandsOk(ops, n, start, i)
  }

  /** Key `k` is an operand of the operator with key `i`. */
  predicate UsesAt(ops: seq<LogicalOp>, n: nat, i: int, k: nat) {
    n <= i < n + |ops| && ops[i - n].Uses(k)
  }

  ghost predicate OperandsOk(ops: seq<LogicalOp>, n: nat, start: nat, i: int) {
    forall k: nat | UsesAt(ops, n, i, k) :: k < n || start <= k < i
  }

  lemma Operands(ops: seq<LogicalOp>, n: nat, start: nat, result: nat, i: nat)
    requires Formula(ops, n, start, result) && start <= i <= result
    ensures var op := ops[i - n];
            && (op.ro < n || start <= op.ro < i)
            && (!op.Unary() ==> op.lo < n || start <= op.lo < i)
            && UsesAt(ops, n, i, op.ro) && (!op.Unary() ==> UsesAt(ops, n, i, op.lo))
  {
    var op := ops[i - n];
    assert OperandsOk(ops, n, start, i) && UsesAt(ops, n, i, op.ro) && (!op.Unary() ==> UsesAt(ops, n, i, op.lo));
  }

  /** The truth value of key `i`: a sub-expression, or the formula of an operator. */
  ghost function Eval(ops: seq<LogicalOp>, n: nat, start: nat, result: nat, vals: seq<bool>, i: nat): bool
    requires Formula(ops, n, start, result) && n <= |vals|
    requires i < n || start <= i <= result
    decreases i
  {
    if i < n then vals[i]
    else
      var op := ops[i - n];
      Operands(ops, n, start, result, i);
      op.Apply(!op.Unary() && Eval(ops, n, start, result, vals, op.lo), Eval(ops, n, start, result, vals, op.ro))
  }

  /** The bit of operator `i` is what its operands' bits say. */
  ghost predicate Consistent(ops: seq<LogicalOp>, n: nat, bits: seq<bool>, i: nat)
    requires n <= i < n + |ops|
  {
    var op := ops[i - n];
    && i < |bits| && op.ro < |bits| && (op.op != Not ==> op.lo < |bits|)
    && (op.op == Not ==> (bits[i] <==> !bits[op.ro]))
    && (op.op == And ==> (bits[i] <==> bits[op.lo] && bits[op.ro]))
    && (op.op == Or ==> (bits[i] <==> bits[op.lo] || bits[op.ro]))
  }

  /** The truth values of all keys, as bits, are consistent. */
  lemma EvalIsConsistent(ops: seq<LogicalOp>, n: nat, start: nat, result: nat, vals: seq<bool>, bits: seq<bool>, i: nat)
    requires Formula(ops, n, start, result) && |vals| == |bits| == n + |ops| && start <= i <= result
    requires forall k | 0 <= k < n || start <= k <= result :: bits[k] == Eval(ops, n, start, result, vals, k)
    ensures Consistent(ops, n, bits, i)
  {
    Operands(ops, n, start, result, i);
  }

  /** Evaluates the operators `start..result` in order, each result into its own bit. */
  method IsLogicalCombination(ops: seq<LogicalOp>, n: nat, lvec: array<bool>, start: nat, result: nat) returns (r: bool)
    requires Formula(ops, n, start, result) && lvec.Length == n + |ops|
    modifies lvec
    ensures r == Eval(ops, n, start, result, old(lvec[..]), result)
    ensures forall k | 0 <= k < lvec.Length ::
              lvec[k] == if start <= k <= result then Eval(ops, n, start, result, old(lvec[..]), k) else old(lvec[k])
    ensures r == lvec[result]
    ensures forall i | start <= i <= result :: Consistent(ops, n, lvec[..], i)
  {
    ghost var vals := lvec[..];
    for i := start to result + 1
      invariant forall k | 0 <= k < lvec.Length ::
                  lvec[k] == if start <= k < i then Eval(ops, n, start, result, vals, k) else vals[k]
    {
      var op := ops[i - n];
      Operands(ops, n, start, result, i);
      match op.op {
        case Not => lvec[i] := !lvec[op.ro];
        case And => lvec[i] := lvec[op.lo] && lvec[op.ro];
        case Or => lvec[i] := lvec[op.lo] || lvec[op.ro];
      }
    }
    r := lvec[result];
    forall i | start <= i <= result ensures Consistent(ops, n, lvec[..], i) {
      EvalIsConsistent(ops, n, start, result, vals, lvec[..], i);
    }
  }

  /** Only sub-expression bits matter: stale operator bits are ignored. */
  lemma {:induction false} EvalIgnoresOperators(ops: seq<LogicalOp>, n: nat, start: nat, result: nat,
                                                vals: seq<bool>, other: seq<bool>, i: nat)
    requires Formula(ops, n, start, result) && n <= |vals| && n <= |other| && vals[..n] == other[..n]
    requires i < n || start <= i <= result
    ensures Eval(ops, n, start, result, vals, i) == Eval(ops, n, start, result, other, i)
    decreases i
  {
    if i < n {
      assert vals[i] == vals[..n][i] && other[i] == other[..n][i];
    } else {
      var op := ops[i - n];
      Operands(ops, n, start, result, i);
      EvalIgnoresOperators(ops, n, start, result, vals, other, op.ro);
      if !op.Unary() {
        EvalIgnoresOperators(ops, n, start, result, vals, other, op.lo);
      }
    }
  }

  // ----- combinations that match when nothing does -----

  /** The sub-expressions the formula of key `i` depends on. */
  ghost function Leaves(ops: seq<LogicalOp>, n: nat, start: nat, result: nat, i: nat): set<nat>
    requires Formula(ops, n, start, result)
    requires i < n || start <= i <= result
    decreases i
  {
    if i < n then {i}
    else
      var op := ops[i - n];
      Operands(ops, n, start, result, i);
      Leaves(ops, n, start, result, op.ro) + (if op.Unary() then {} else Leaves(ops, n, start, result, op.lo))
  }

  /** The operators of a formula are one tree: each but the last is an operand of a later one. */
  ghost predicate OneTree(ops: seq<LogicalOp>, n: nat, start: nat, result: nat)
    requires Formula(ops, n, start, result)
  {
    forall j | start <= j < result :: UsedLater(ops, n, j, result)
  }

  ghost predicate UsedLater(ops: seq<LogicalOp>, n: nat, j: nat, result: nat) {
    exists i | j < i <= result :: UsesAt(ops, n, i, j)
  }

  /** No sub-expression an operator with key in `start..end-1` uses is set. */
  ghost predicate NoneSet(ops: seq<LogicalOp>, n: nat, start: nat, end: nat, vals: seq<bool>)
    requires n <= start <= end <= n + |ops| && n <= |vals|
  {
    forall i, k: nat | start <= i < end && k < n && UsesAt(ops, n, i, k) :: !vals[k]
  }

  /** The in-place check as the source does it: give up at the first operator that uses a set
      sub-expression. */
  method ScanNegative(ops: seq<LogicalOp>, n: nat, lvec: array<bool>, start: nat, result: nat) returns (r: bool)
    requires Formula(ops, n, start, result) && lvec.Length == n + |ops|
    modifies lvec
    ensures r <==> NoneSet(ops, n, start, result + 1, old(lvec[..]))
                   && Eval(ops, n, start, result, old(lvec[..]), result)
    ensures forall k | 0 <= k < lvec.Length && !(start <= k <= result) :: lvec[k] == old(lvec[k])
  {
    ghost var vals := lvec[..];
    for i := start to result + 1
      invariant forall k | 0 <= k < lvec.Length ::
                  lvec[k] == if start <= k < i then Eval(ops, n, start, result, vals, k) else vals[k]
      invariant NoneSet(ops, n, start, i, vals)
    {
      var op := ops[i - n];
      Operands(ops, n, start, result, i);
      match op.op {
        case Not =>
          if op.ro < n && lvec[op.ro] {
            return false;
          }
          lvec[i] := !lvec[op.ro];
        case And =>
          if (op.lo < n && lvec[op.lo]) || (op.ro < n && lvec[op.ro]) {
            return false;
          }
          lvec[i] := lvec[op.lo] && lvec[op.ro];
        case Or =>
          if (op.lo < n && lvec[op.lo]) || (op.ro < n && lvec[op.ro]) {
            return false;
          }
          lvec[i] := lvec[op.lo] || lvec[op.ro];
      }
    }
    r := lvec[result];
  }

  lemma {:induction false} LeavesAreUsed(ops: seq<LogicalOp>, n: nat, start: nat, result: nat, i: nat, k: nat)
    requires Formula(ops, n, start, result) && start <= i <= result
    requires k in Leaves(ops, n, start, result, i)
    ensures k < n && exists j | start <= j <= i :: UsesAt(ops, n, j, k)
    decreases i
  {
    var op := ops[i - n];
    Operands(ops, n, start, result, i);
    var operand := if k in Leaves(ops, n, start, result, op.ro) then op.ro else op.lo;
    if operand < n {
      assert UsesAt(ops, n, i, k);
    } else {
      LeavesAreUsed(ops, n, start, result, operand, k);
    }
  }

  lemma {:induction false} UsedAreLeaves(ops: seq<LogicalOp>, n: nat, start: nat, result: nat, j: nat, k: nat)
    requires Formula(ops, n, start, result) && OneTree(ops, n, start, result) && start <= j <= result
    requires k in Leaves(ops, n, start, result, j)
    ensures k in Leaves(ops, n, start, result, result)
    decreases result - j
  {
    if j < result {
      assert UsedLater(ops, n, j, result);
      var i :| j < i <= result && UsesAt(ops, n, i, j);
      UsedAreLeaves(ops, n, start, result, i, k);
    }
  }

  lemma NoneSetIffNoLeafSet(ops: seq<LogicalOp>, n: nat, start: nat, result: nat, vals: seq<bool>)
    requires Formula(ops, n, start, result) && OneTree(ops, n, start, result) && n <= |vals|
    ensures NoneSet(ops, n, start, result + 1, vals)
       <==> forall k | k in Leaves(ops, n, start, result, result) :: k < n && !vals[k]
  {
    forall k | k in Leaves(ops, n, start, result, result)
      ensures k < n && exists j | start <= j <= result :: UsesAt(ops, n, j, k)
    {
      LeavesAreUsed(ops, n, start, result, result, k);
    }
    forall i, k: nat | start <= i <= result && k < n && UsesAt(ops, n, i, k)
      ensures k in Leaves(ops, n, start, result, result)
    {
      UsedAreLeaves(ops, n, start, result, i, k);
    }
  }

  /** With no leaf set, a formula has the value it has when nothing matches. */
  lemma {:induction false} EvalAllFalse(ops: seq<LogicalOp>, n: nat, start: nat, result: nat, vals: seq<bool>, i: nat)
    requires Formula(ops, n, start, result) && n <= |vals|
    requires i < n || start <= i <= result
    requires forall k | k in Leaves(ops, n, start, result, i) :: k < n && !vals[k]
    ensures Eval(ops, n, start, result, vals, i)
         == Eval(ops, n, start, result, seq(n, _ => false), i)
    decreases i
  {
    if i >= n {
      var op := ops[i - n];
      Operands(ops, n, start, result, i);
      EvalAllFalse(ops, n, start, result, vals, op.ro);
      if !op.Unary() {
        EvalAllFalse(ops, n, start, result, vals, op.lo);
      }
    } else {
      assert i in Leaves(ops, n, start, result, i);
    }
  }

  /** A purely negative match: no sub-expression of the formula is set, and the formula holds when
      nothing matches. */
  ghost predicate PurelyNegative(ops: seq<LogicalOp>, n: nat, start: nat, result: nat, vals: seq<bool>)
    requires Formula(ops, n, start, result) && n <= |vals|
  {
    && (forall k | k in Leaves(ops, n, start, result, result) :: k < n && !vals[k])
    && Eval(ops, n, start, result, seq(n, _ => false), result)
  }

  method IsPurelyNegativeMatch(ops: seq<LogicalOp>, n: nat, lvec: array<bool>, start: nat, result: nat)
      returns (r: bool)
    requires Formula(ops, n, start, result) && OneTree(ops, n, start, result) && lvec.Length == n + |ops|
    modifies lvec
    ensures r <==> PurelyNegative(ops, n, start, result, old(lvec[..]))
    ensures forall k | 0 <= k < lvec.Length && !(start <= k <= result) :: lvec[k] == old(lvec[k])
  {
    ghost var vals := lvec[..];
    r := ScanNegative(ops, n, lvec, start, result);
    NegativeOutcome(ops, n, start, result, vals);
  }

  lemma NegativeOutcome(ops: seq<LogicalOp>, n: nat, start: nat, result: nat, vals: seq<bool>)
    requires Formula(ops, n, start, result) && OneTree(ops, n, start, result) && n <= |vals|
    ensures NoneSet(ops, n, start, result + 1, vals) && Eval(ops, n, start, result, vals, result)
       <==> PurelyNegative(ops, n, start, result, vals)
  {
    hide Eval, Leaves, NoneSet, OneTree;
    NoneSetIffNoLeafSet(ops, n, start, result, vals);
    if NoneSet(ops, n, start, result + 1, vals) {
      assert forall k | k in Leaves(ops, n, start, result, result) :: k < n && !vals[k];
      EvalAllFalse(ops, n, start, result, vals, result);
    } else {
      assert !PurelyNegative(ops, n, start, result, vals);
    }
  }
}
