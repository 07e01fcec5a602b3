/** Pruning by hive partition values: part of the predicate is evaluated on the
    values in the file's path, and the file is dropped when that decides it. */
module HivePartitions {
  import opened Scalars
  import opened Expressions

  datatype Decision = DecidedTrue | DecidedFalse | Undecided

  /** Does the expression read some column, and only partition columns? */
  predicate PartitionOnly(e: Expr, partitions: Row) {
    Columns(e) != {} && forall c :: c in Columns(e) ==> c in partitions
  }

  function Leaf(env: Env, e: Expr, partitions: Row): Result<Decision> {
    if !PartitionOnly(e, partitions) then Ok(Undecided)
    else
      var m :- Matches(env, Some(e), partitions);
      Ok(if m then DecidedTrue else DecidedFalse)
  }

  function PartitionEval(env: Env, e: Expr, partitions: Row): Result<Decision>
    decreases e, 1
  {
    match e
    case Literal(_) => Ok(Undecided)
    case Column(_) => Ok(Undecided)
    case Not(operand) =>
      var d :- PartitionEval(env, operand, partitions);
      Ok(match d case DecidedTrue => DecidedFalse case DecidedFalse => DecidedTrue case Undecided => Undecided)
    case Logical(op, operands) =>
      var ds :- PartitionEvalAll(env, operands, partitions);
      Ok(Combine(op, ds))
    case _ => Leaf(env, e, partitions)
  }

  function PartitionEvalAll(env: Env, es: seq<Expr>, partitions: Row): (r: Result<seq<Decision>>)
    ensures r.Ok? ==> |r.value| == |es|
    decreases es, 0
  {
    if es == [] then Ok([])
    else
      var d :- PartitionEval(env, es[0], partitions);
      var ds :- PartitionEvalAll(env, es[1..], partitions);
      Ok([d] + ds)
  }

  function Combine(op: LogicalOp, ds: seq<Decision>): Decision {
    if op == And then
      if DecidedFalse in ds then DecidedFalse
      else if forall i :: 0 <= i < |ds| ==> ds[i] == DecidedTrue then DecidedTrue
      else Undecided
    else if DecidedTrue in ds then DecidedTrue
    else if forall i :: 0 <= i < |ds| ==> ds[i] == DecidedFalse then DecidedFalse
    else Undecided
  }

  function PartitionMayMatch(env: Env, e: Expr, partitions: Row): Result<bool> {
    var d :- PartitionEval(env, e, partitions);
    Ok(d != DecidedFalse)
  }

  /** The row a query sees: the path's values, overridden by the file's own columns. */
  function WithPartitions(partitions: Row, raw: Row): Row {
    partitions + raw
  }

  /** What a decision says of a row: true rules out false, false rules out true.
      A null on the partition side is decided false, so nothing stronger holds. */
  ghost predicate Consistent(d: Decision, v: Result<Scalar>) {
    && (d == DecidedTrue ==> v != Ok(Bool(false)))
    && (d == DecidedFalse ==> v != Ok(Bool(true)))
  }

  lemma LeafConsistent(env: Env, e: Expr, partitions: Row, row: Row)
    requires AgreeOn(partitions, row, partitions.Keys) && Leaf(env, e, partitions).Ok?
    ensures Consistent(Leaf(env, e, partitions).value, Evaluate(env, e, row))
  {
    if PartitionOnly(e, partitions) {
      assert Columns(e) <= partitions.Keys;
      EvaluateReadsOnlyColumns(env, e, partitions, row, partitions.Keys);
    }
  }

  /** How the running value of a conjunction or disjunction can end. */
  lemma {:induction false} LogicalEnds(env: Env, op: LogicalOp, es: seq<Expr>, acc: SqlBool, row: Row,
                                       ds: seq<Decision>)
    requires |ds| == |es| && forall i :: 0 <= i < |es| ==> Consistent(ds[i], Evaluate(env, es[i], row))
    ensures op == And && (acc != True || DecidedFalse in ds) ==> EvaluateLogical(env, op, es, acc, row) != Ok(True)
    ensures op == And && acc != False && (forall i :: 0 <= i < |ds| ==> ds[i] == DecidedTrue) ==>
      EvaluateLogical(env, op, es, acc, row) != Ok(False)
    ensures op == Or && (acc != False || DecidedTrue in ds) ==> EvaluateLogical(env, op, es, acc, row) != Ok(False)
    ensures op == Or && acc != True && (forall i :: 0 <= i < |ds| ==> ds[i] == DecidedFalse) ==>
      EvaluateLogical(env, op, es, acc, row) != Ok(True)
    decreases |es|
  {
    hide Evaluate;
    if es != [] {
      var v := Evaluate(env, es[0], row);
      if v.Ok? && ToSqlBool(v.value).Ok? {
        var b := ToSqlBool(v.value).value;
        assert forall i :: 0 <= i < |es[1..]| ==> es[1..][i] == es[i + 1] && ds[1..][i] == ds[i + 1];
        LogicalEnds(env, op, es[1..], SqlLogic(op, acc, b), row, ds[1..]);
        assert Consistent(ds[0], v);
        assert ds == [ds[0]] + ds[1..];
      }
    }
  }

  /** Every decision is consistent with the value on any row that keeps the
      partition values, through not, and, or and nulls. */
  lemma {:induction false} DecisionConsistent(env: Env, e: Expr, partitions: Row, row: Row)
    requires AgreeOn(partitions, row, partitions.Keys) && PartitionEval(env, e, partitions).Ok?
    ensures Consistent(PartitionEval(env, e, partitions).value, Evaluate(env, e, row))
    decreases e, 1
  {
    hide EvaluateLogical, Columns, Evaluate, Consistent, Combine, AgreeOn;
    match e {
      case Literal(_) => EndConsistent(env, e, partitions, row);
      case Column(_) => EndConsistent(env, e, partitions, row);
      case Not(operand) =>
        DecisionConsistent(env, operand, partitions, row);
        NotConsistent(env, operand, partitions, row);
      case Logical(op, operands) =>
        DecisionsConsistent(env, operands, partitions, row);
        LogicalConsistent(env, op, operands, row, PartitionEvalAll(env, operands, partitions).value);
      case _ =>
        LeafConsistent(env, e, partitions, row);
    }
  }

  lemma EndConsistent(env: Env, e: Expr, partitions: Row, row: Row)
    requires AgreeOn(partitions, row, partitions.Keys) && PartitionEval(env, e, partitions).Ok?
    requires e.Literal? || e.Column?
    ensures Consistent(PartitionEval(env, e, partitions).value, Evaluate(env, e, row))
  {
    hide Columns;
  }

  lemma NotConsistent(env: Env, operand: Expr, partitions: Row, row: Row)
    requires PartitionEval(env, operand, partitions).Ok? && PartitionEval(env, Not(operand), partitions).Ok?
    requires Consistent(PartitionEval(env, operand, partitions).value, Evaluate(env, operand, row))
    ensures Consistent(PartitionEval(env, Not(operand), partitions).value, Evaluate(env, Not(operand), row))
  {
  }

  lemma LogicalConsistent(env: Env, op: LogicalOp, operands: seq<Expr>, row: Row, ds: seq<Decision>)
    requires |ds| == |operands| && forall i :: 0 <= i < |ds| ==> Consistent(ds[i], Evaluate(env, operands[i], row))
    ensures Consistent(Combine(op, ds), Evaluate(env, Logical(op, operands), row))
  {
    LogicalEnds(env, op, operands, if op == And then True else False, row, ds);
    hide EvaluateLogical;
  }

  lemma {:induction false} DecisionsConsistent(env: Env, es: seq<Expr>, partitions: Row, row: Row)
    requires AgreeOn(partitions, row, partitions.Keys) && PartitionEvalAll(env, es, partitions).Ok?
    ensures forall i :: 0 <= i < |es| ==>
      Consistent(PartitionEvalAll(env, es, partitions).value[i], Evaluate(env, es[i], row))
    decreases es, 0
  {
    if es != [] {
      DecisionConsistent(env, es[0], partitions, row);
      DecisionsConsistent(env, es[1..], partitions, row);
      var ds, rest := PartitionEvalAll(env, es, partitions).value, PartitionEvalAll(env, es[1..], partitions).value;
      hide Consistent;
      forall i | 0 <= i < |es| ensures Consistent(ds[i], Evaluate(env, es[i], row)) {
        if i > 0 {
          assert ds[i] == rest[i - 1] && es[i] == es[1..][i - 1];
        }
      }
    }
  }

  /** The file's rows do not change what the path says. */
  ghost predicate KeepsPartitions(partitions: Row, raw: Row) {
    forall c :: c in partitions && c in raw ==> raw[c] == partitions[c]
  }

  /** A dropped file has no matching row. */
  lemma DroppedFileHasNoMatch(env: Env, where: Expr, partitions: Row, raw: Row)
    requires PartitionMayMatch(env, where, partitions) == Ok(false) && KeepsPartitions(partitions, raw)
    ensures Matches(env, Some(where), WithPartitions(partitions, raw)) != Ok(true)
  {
    DecisionConsistent(env, where, partitions, WithPartitions(partitions, raw));
  }

  ghost predicate NeverDropsMatch(env: Env, partitions: Row, raw: Row) {
    forall where :: PartitionMayMatch(env, where, partitions) == Ok(false) ==>
      Matches(env, Some(where), WithPartitions(partitions, raw)) != Ok(true)
  }

  /** A column the file redefines to another text, or to null, has a predicate
      that drops the file although the row matches. */
  lemma RedefinedColumnIsLost(env: Env, partitions: Row, raw: Row, c: string) returns (where: Expr)
    requires c in partitions && c in raw && partitions[c].Str?
    requires (raw[c].Str? || raw[c].Null?) && raw[c] != partitions[c]
    ensures PartitionMayMatch(env, where, partitions) == Ok(false)
    ensures Matches(env, Some(where), WithPartitions(partitions, raw)) == Ok(true)
  {
    var row := WithPartitions(partitions, raw);
    assert row[c] == raw[c];
    if raw[c].Null? {
      where := NullCheck(false, Column(c));
      assert Columns(where) == {c};
      assert c in Columns(where);
      assert Evaluate(env, Column(c), row) == Ok(Null);
      assert Evaluate(env, where, partitions) == Ok(Bool(false));
      assert Evaluate(env, where, row) == Ok(Bool(true));
    } else {
      where := Expr.Compare(Eq, Column(c), Literal(raw[c]));
      assert Columns(where) == {c};
      assert c in Columns(where);
      LexAntisymmetric(partitions[c].s, raw[c].s);
      LexAntisymmetric(raw[c].s, raw[c].s);
      assert Evaluate(env, where, partitions) == Ok(Bool(false));
      assert Evaluate(env, where, row) == Ok(Bool(true));
    }
    assert PartitionOnly(where, partitions);
    assert Matches(env, Some(where), row) == Ok(true);
  }

  /** A function that renders the two values as different texts, as a cast does
      with the path's "05" and the file's 5. */
  ghost predicate RendersApart(env: Env, fn: string, x: Scalar, y: Scalar) {
    var a, b := env.call(fn, [x]), env.call(fn, [y]);
    a.Ok? && b.Ok? && a.value.Str? && b.value.Str? && a.value != b.value
  }

  /** A column the file redefines to anything some function renders differently
      has such a predicate too. */
  lemma RenderedColumnIsLost(env: Env, partitions: Row, raw: Row, c: string, fn: string) returns (where: Expr)
    requires c in partitions && c in raw && RendersApart(env, fn, partitions[c], raw[c])
    ensures PartitionMayMatch(env, where, partitions) == Ok(false)
    ensures Matches(env, Some(where), WithPartitions(partitions, raw)) == Ok(true)
  {
    var row := WithPartitions(partitions, raw);
    assert row[c] == raw[c];
    var call := Expr.Call(fn, [Column(c)]);
    var a, b := env.call(fn, [partitions[c]]).value, env.call(fn, [raw[c]]).value;
    where := Expr.Compare(Eq, call, Literal(b));
    OneArgument(env, fn, c, partitions);
    OneArgument(env, fn, c, row);
    assert c in Columns(where) && Columns(where) == {c};
    LexAntisymmetric(a.s, b.s);
    LexAntisymmetric(b.s, b.s);
    assert Evaluate(env, where, partitions) == Ok(Bool(false));
    assert Evaluate(env, where, row) == Ok(Bool(true));
    assert PartitionOnly(where, partitions);
    assert Matches(env, Some(where), row) == Ok(true);
  }

  lemma OneArgument(env: Env, fn: string, c: string, row: Row)
    requires c in row
    ensures Evaluate(env, Expr.Call(fn, [Column(c)]), row) == env.call(fn, [row[c]])
    ensures Columns(Expr.Call(fn, [Column(c)])) == {c}
  {
    var args := [Column(c)];
    assert args[1..] == [];
    assert EvaluateAll(env, args[1..], row) == Ok([]);
    assert EvaluateAll(env, args, row) == Ok([row[c]] + []);
    assert [row[c]] + [] == [row[c]];
    assert ColumnsOfAll(args[1..]) == {};
    assert ColumnsOfAll(args) == {c};
  }

  /** The value a file gives a partition column is the path's, or a predicate can
      tell: it is a text, a null, or rendered differently by some function. */
  ghost predicate Decidable(env: Env, x: Scalar, y: Scalar) {
    x == y || (x.Str? && (y.Str? || y.Null?)) || exists fn :: RendersApart(env, fn, x, y)
  }

  /** Where a file's values of partition columns are the path's or can be told
      apart from them, dropping is right for every predicate if and only if none
      of them is redefined. */
  lemma PruningIsSoundExactly(env: Env, partitions: Row, raw: Row)
    requires forall c :: c in partitions && c in raw ==> Decidable(env, partitions[c], raw[c])
    ensures NeverDropsMatch(env, partitions, raw) <==> KeepsPartitions(partitions, raw)
  {
    if KeepsPartitions(partitions, raw) {
      forall where | PartitionMayMatch(env, where, partitions) == Ok(false)
        ensures Matches(env, Some(where), WithPartitions(partitions, raw)) != Ok(true)
      {
        DroppedFileHasNoMatch(env, where, partitions, raw);
      }
    } else {
      var c :| c in partitions && c in raw && raw[c] != partitions[c];
      if partitions[c].Str? && (raw[c].Str? || raw[c].Null?) {
        var where := RedefinedColumnIsLost(env, partitions, raw, c);
      } else {
        var fn :| RendersApart(env, fn, partitions[c], raw[c]);
        var where := RenderedColumnIsLost(env, partitions, raw, c, fn);
      }
    }
  }
}
