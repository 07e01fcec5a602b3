/** Exactly what the values in a file's path decide about a filter. */
module HiveMeanings {
  import opened Scalars
  import opened Expressions
  import opened ExpressionMeanings
  import opened HivePartitions

  /** An expression that is evaluated on the path's values if it can be. */
  predicate IsLeaf(e: Expr) {
    !e.Literal? && !e.Column? && !e.Not? && !e.Logical?
  }

  /** A leaf is decided exactly when it reads columns and all of them are in the
      path: true if it is true of the path's values, false if it is false or null. */
  lemma LeafDecides(env: Env, e: Expr, partitions: Row)
    requires IsLeaf(e)
    ensures PartitionEval(env, e, partitions) == Ok(Undecided) <==>
      Columns(e) == {} || exists c :: c in Columns(e) && c !in partitions
    ensures PartitionEval(env, e, partitions) == Ok(DecidedTrue) <==>
      && Columns(e) != {} && (forall c :: c in Columns(e) ==> c in partitions)
      && Evaluate(env, e, partitions) == Ok(Bool(true))
    ensures PartitionEval(env, e, partitions) == Ok(DecidedFalse) <==>
      && Columns(e) != {} && (forall c :: c in Columns(e) ==> c in partitions)
      && Evaluate(env, e, partitions) in {Ok(Bool(false)), Ok(Null)}
  {
    MatchesMeans(env, Some(e), partitions);
    hide Matches, Evaluate, Columns;
  }

  lemma {:induction false} AllDecisions(env: Env, es: seq<Expr>, partitions: Row)
    ensures PartitionEvalAll(env, es, partitions).Ok? <==>
      forall i :: 0 <= i < |es| ==> PartitionEval(env, es[i], partitions).Ok?
    ensures PartitionEvalAll(env, es, partitions).Ok? ==>
      forall i :: 0 <= i < |es| ==>
        PartitionEval(env, es[i], partitions) == Ok(PartitionEvalAll(env, es, partitions).value[i])
    decreases es
  {
    hide PartitionEval;
    if es != [] {
      AllDecisions(env, es[1..], partitions);
      assert forall i :: 1 <= i < |es| ==> es[i] == es[1..][i - 1];
    }
  }

  lemma DecisionsAt(env: Env, op: LogicalOp, es: seq<Expr>, partitions: Row) returns (ds: seq<Decision>)
    requires forall i :: 0 <= i < |es| ==> PartitionEval(env, es[i], partitions).Ok?
    ensures |ds| == |es| && forall i :: 0 <= i < |es| ==> PartitionEval(env, es[i], partitions) == Ok(ds[i])
    ensures PartitionEval(env, Logical(op, es), partitions) == Ok(Combine(op, ds))
  {
    AllDecisions(env, es, partitions);
    ds := PartitionEvalAll(env, es, partitions).value;
    hide Combine;
  }

  /** `and` is decided false by one false operand, true if all are decided true. */
  lemma AndDecides(env: Env, es: seq<Expr>, partitions: Row)
    requires forall i :: 0 <= i < |es| ==> PartitionEval(env, es[i], partitions).Ok?
    ensures PartitionEval(env, Logical(And, es), partitions) == Ok(DecidedFalse) <==>
      exists i :: 0 <= i < |es| && PartitionEval(env, es[i], partitions) == Ok(DecidedFalse)
    ensures PartitionEval(env, Logical(And, es), partitions) == Ok(DecidedTrue) <==>
      forall i :: 0 <= i < |es| ==> PartitionEval(env, es[i], partitions) == Ok(DecidedTrue)
    ensures PartitionEval(env, Logical(And, es), partitions).Ok?
  {
    var ds := DecisionsAt(env, And, es, partitions);
    hide PartitionEval;
    assert DecidedFalse in ds <==> exists i :: 0 <= i < |ds| && ds[i] == DecidedFalse;
  }

  /** `or` is decided true by one true operand, false if all are decided false. */
  lemma OrDecides(env: Env, es: seq<Expr>, partitions: Row)
    requires forall i :: 0 <= i < |es| ==> PartitionEval(env, es[i], partitions).Ok?
    ensures PartitionEval(env, Logical(Or, es), partitions) == Ok(DecidedTrue) <==>
      exists i :: 0 <= i < |es| && PartitionEval(env, es[i], partitions) == Ok(DecidedTrue)
    ensures PartitionEval(env, Logical(Or, es), partitions) == Ok(DecidedFalse) <==>
      forall i :: 0 <= i < |es| ==> PartitionEval(env, es[i], partitions) == Ok(DecidedFalse)
    ensures PartitionEval(env, Logical(Or, es), partitions).Ok?
  {
    var ds := DecisionsAt(env, Or, es, partitions);
    hide PartitionEval;
    assert DecidedTrue in ds <==> exists i :: 0 <= i < |ds| && ds[i] == DecidedTrue;
  }

  /** `not` swaps the decisions; a literal or a bare column is never decided. */
  lemma NotDecides(env: Env, operand: Expr, partitions: Row)
    ensures PartitionEval(env, Not(operand), partitions) == Ok(DecidedTrue) <==>
      PartitionEval(env, operand, partitions) == Ok(DecidedFalse)
    ensures PartitionEval(env, Not(operand), partitions) == Ok(DecidedFalse) <==>
      PartitionEval(env, operand, partitions) == Ok(DecidedTrue)
    ensures PartitionEval(env, Not(operand), partitions).Ok? <==> PartitionEval(env, operand, partitions).Ok?
    ensures operand.Literal? || operand.Column? ==> PartitionEval(env, operand, partitions) == Ok(Undecided)
  {
  }

  /** A file is dropped exactly when the filter is decided false. */
  lemma DroppedExactly(env: Env, e: Expr, partitions: Row)
    ensures PartitionMayMatch(env, e, partitions) == Ok(false) <==>
      PartitionEval(env, e, partitions) == Ok(DecidedFalse)
    ensures PartitionMayMatch(env, e, partitions).Ok? <==> PartitionEval(env, e, partitions).Ok?
  {
    hide PartitionEval;
  }
}
