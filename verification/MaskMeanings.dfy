/** What predicate masks hold, entry by entry: 1 for true, 0 for false, 2 for null. */
module MaskMeanings {
  import opened Scalars
  import opened Expressions
  import opened Vectors
  import opened Predicates
  import opened BatchPredicates

  /** An entry is 1, 0 or 2 exactly when the row evaluator says true, false or null. */
  lemma MaskMeans(env: Env, batch: Batch, e: Expr, i: nat)
    requires ScalarBatch(batch) && Faithful(env, batch, e) && i < batch.rowCount
    requires PredicateMask(env, batch, e).Ok?
    ensures |PredicateMask(env, batch, e).value| == batch.rowCount
    ensures var m, v := PredicateMask(env, batch, e).value[i], Evaluate(env, e, MaterializeRow(batch, i));
      && (m == 1 <==> v == Ok(Bool(true)))
      && (m == 0 <==> v == Ok(Bool(false)))
      && (m == 2 <==> v == Ok(Null))
  {
    MaskCorrect(env, batch, e);
    hide PredicateMask, Evaluate, Faithful;
    assert EntryRefines(env, batch, e, PredicateMask(env, batch, e).value[i], i);
  }

  // ----- Every mask has an entry for every row -----

  lemma {:induction false} KernelLength(env: Env, op: CompareOp, v: Vector, literal: Scalar)
    requires WellFormed(v) && VectorLiteralMask(env, op, v, literal).Some?
    ensures |VectorLiteralMask(env, op, v, literal).value| == Length(v)
  {
  }

  lemma ColumnLength(env: Env, batch: Batch, e: Expr)
    requires ScalarBatch(batch) && BatchExprValues(env, batch, e).Ok?
    requires BatchExprValues(env, batch, e).value.vector.Some?
    ensures Length(BatchExprValues(env, batch, e).value.vector.value) == batch.rowCount
  {
  }

  lemma CompareMasksLength(env: Env, batch: Batch, op: CompareOp, left: Expr, right: Expr)
    requires ScalarBatch(batch)
    requires BatchExprValues(env, batch, left).Ok? && BatchExprValues(env, batch, right).Ok?
    ensures var masks := CompareMasks(env, batch.rowCount, op, BatchExprValues(env, batch, left).value,
                                      BatchExprValues(env, batch, right).value);
            masks.Ok? ==> |masks.value| == batch.rowCount
  {
    var n, l, r := batch.rowCount, BatchExprValues(env, batch, left).value, BatchExprValues(env, batch, right).value;
    hide BatchExprValues, WellFormed;
    SequenceMeans(seq(n, i requires 0 <= i < n => CompareAt(env, op, ValueOf(l, i), ValueOf(r, i))));
    if l.vector.Some? {
      ColumnLength(env, batch, left);
    }
    if r.vector.Some? {
      ColumnLength(env, batch, right);
    }
    if l.vector.Some? && r.literal.Some? && VectorLiteralMask(env, op, l.vector.value, r.literal.value).Some? {
      KernelLength(env, op, l.vector.value, r.literal.value);
    } else if l.literal.Some? && r.vector.Some?
              && VectorLiteralMask(env, FlipCompareOp(op), r.vector.value, l.literal.value).Some? {
      KernelLength(env, FlipCompareOp(op), r.vector.value, l.literal.value);
    }
    hide VectorLiteralMask;
  }

  lemma {:induction false} MaskLength(env: Env, batch: Batch, e: Expr)
    requires ScalarBatch(batch) && PredicateMask(env, batch, e).Ok?
    ensures |PredicateMask(env, batch, e).value| == batch.rowCount
    decreases e, 1
  {
    hide BatchExprValues, CompareMasks, AllValues;
    var n := batch.rowCount;
    match e {
      case Compare(op, left, right) => CompareMasksLength(env, batch, op, left, right);
      case In(negated, target, values) =>
        var t, vs := BatchExprValues(env, batch, target).value, AllValues(env, batch, values).value;
        SequenceMeans(seq(n, i requires 0 <= i < n => InAt(env, negated, ValueOf(t, i), RowOf(vs, i))));
      case Between(target, low, high) => CompareMasksLength(env, batch, Gte, target, low);
      case NullCheck(negated, target) =>
        var t := BatchExprValues(env, batch, target).value;
        SequenceMeans(seq(n, i requires 0 <= i < n => NullCheckAt(negated, ValueOf(t, i))));
      case Logical(op, operands) =>
        AllLengths(env, batch, operands);
        var masks := AllMasks(env, batch, operands).value;
        ReduceLength(op, masks[0], masks[1..]);
      case Not(operand) => MaskLength(env, batch, operand);
      case Like(_, _, _) =>
      case Call(_, _) =>
      case _ =>
        var v := BatchExprValues(env, batch, e).value;
        SequenceMeans(seq(n, i requires 0 <= i < n => PredicateAt(ValueOf(v, i))));
    }
  }

  lemma {:induction false} AllLengths(env: Env, batch: Batch, es: seq<Expr>)
    requires ScalarBatch(batch) && AllMasks(env, batch, es).Ok?
    ensures |AllMasks(env, batch, es).value| == |es|
    ensures forall k :: 0 <= k < |es| ==>
      PredicateMask(env, batch, es[k]) == Ok(AllMasks(env, batch, es).value[k])
    ensures forall k :: 0 <= k < |es| ==> |AllMasks(env, batch, es).value[k]| == batch.rowCount
    decreases es, 0
  {
    hide PredicateMask;
    if es != [] {
      MaskLength(env, batch, es[0]);
      AllLengths(env, batch, es[1..]);
    }
  }

  lemma {:induction false} ReduceLength(op: LogicalOp, acc: seq<MaskValue>, masks: seq<seq<MaskValue>>)
    ensures |ReduceMasks(op, acc, masks)| == |acc|
    decreases masks
  {
    if masks != [] {
      ReduceLength(op, LogicMasks(op, acc, masks[0]), masks[1..]);
    }
  }

  // ----- And, or, not -----

  lemma {:induction false} OrReduces(acc: seq<MaskValue>, masks: seq<seq<MaskValue>>, i: nat)
    requires i < |acc| && forall k :: 0 <= k < |masks| ==> i < |masks[k]|
    ensures |ReduceMasks(Or, acc, masks)| == |acc|
    ensures ReduceMasks(Or, acc, masks)[i] == 1 <==> acc[i] == 1 || exists k :: 0 <= k < |masks| && masks[k][i] == 1
    ensures ReduceMasks(Or, acc, masks)[i] == 0 <==> acc[i] == 0 && forall k :: 0 <= k < |masks| ==> masks[k][i] == 0
    decreases masks
  {
    if masks != [] {
      assert forall k :: 1 <= k < |masks| ==> masks[k] == masks[1..][k - 1];
      OrReduces(LogicMasks(Or, acc, masks[0]), masks[1..], i);
    }
  }

  lemma {:induction false} AndReduces(acc: seq<MaskValue>, masks: seq<seq<MaskValue>>, i: nat)
    requires i < |acc| && forall k :: 0 <= k < |masks| ==> i < |masks[k]|
    ensures |ReduceMasks(And, acc, masks)| == |acc|
    ensures ReduceMasks(And, acc, masks)[i] == 0 <==> acc[i] == 0 || exists k :: 0 <= k < |masks| && masks[k][i] == 0
    ensures ReduceMasks(And, acc, masks)[i] == 1 <==> acc[i] == 1 && forall k :: 0 <= k < |masks| ==> masks[k][i] == 1
    decreases masks
  {
    if masks != [] {
      assert forall k :: 1 <= k < |masks| ==> masks[k] == masks[1..][k - 1];
      AndReduces(LogicMasks(And, acc, masks[0]), masks[1..], i);
    }
  }

  /** The masks of the operands, when the whole has one. */
  ghost predicate OperandMasks(env: Env, batch: Batch, es: seq<Expr>)
    requires ScalarBatch(batch)
  {
    forall k :: 0 <= k < |es| ==>
      PredicateMask(env, batch, es[k]).Ok? && |PredicateMask(env, batch, es[k]).value| == batch.rowCount
  }

  lemma MasksOfOperands(env: Env, batch: Batch, op: LogicalOp, es: seq<Expr>)
    requires ScalarBatch(batch) && PredicateMask(env, batch, Logical(op, es)).Ok?
    ensures AllMasks(env, batch, es).Ok? && OperandMasks(env, batch, es) && es != []
    ensures |AllMasks(env, batch, es).value| == |es|
    ensures forall k :: 0 <= k < |es| ==> PredicateMask(env, batch, es[k]) == Ok(AllMasks(env, batch, es).value[k])
    ensures |PredicateMask(env, batch, Logical(op, es)).value| == batch.rowCount
    ensures PredicateMask(env, batch, Logical(op, es)).value
         == ReduceMasks(op, AllMasks(env, batch, es).value[0], AllMasks(env, batch, es).value[1..])
  {
    AllLengths(env, batch, es);
    MaskLength(env, batch, Logical(op, es));
  }

  /** An `or` is 1 where one operand is 1, 0 where all are 0, and 2 elsewhere. */
  lemma OrMaskMeans(env: Env, batch: Batch, es: seq<Expr>, i: nat)
    requires ScalarBatch(batch) && PredicateMask(env, batch, Logical(Or, es)).Ok? && i < batch.rowCount
    ensures OperandMasks(env, batch, es) && |PredicateMask(env, batch, Logical(Or, es)).value| == batch.rowCount
    ensures var m := PredicateMask(env, batch, Logical(Or, es)).value[i];
      && (m == 1 <==> exists k :: 0 <= k < |es| && PredicateMask(env, batch, es[k]).value[i] == 1)
      && (m == 0 <==> forall k :: 0 <= k < |es| ==> PredicateMask(env, batch, es[k]).value[i] == 0)
  {
    MasksOfOperands(env, batch, Or, es);
    var masks := AllMasks(env, batch, es).value;
    hide PredicateMask, AllMasks, ReduceMasks;
    OrReduces(masks[0], masks[1..], i);
    assert forall k :: 1 <= k < |masks| ==> masks[k] == masks[1..][k - 1];
    assert masks[0][i] == PredicateMask(env, batch, es[0]).value[i];
  }

  /** An `and` is 0 where one operand is 0, 1 where all are 1, and 2 elsewhere. */
  lemma AndMaskMeans(env: Env, batch: Batch, es: seq<Expr>, i: nat)
    requires ScalarBatch(batch) && PredicateMask(env, batch, Logical(And, es)).Ok? && i < batch.rowCount
    ensures OperandMasks(env, batch, es) && |PredicateMask(env, batch, Logical(And, es)).value| == batch.rowCount
    ensures var m := PredicateMask(env, batch, Logical(And, es)).value[i];
      && (m == 0 <==> exists k :: 0 <= k < |es| && PredicateMask(env, batch, es[k]).value[i] == 0)
      && (m == 1 <==> forall k :: 0 <= k < |es| ==> PredicateMask(env, batch, es[k]).value[i] == 1)
  {
    MasksOfOperands(env, batch, And, es);
    var masks := AllMasks(env, batch, es).value;
    hide PredicateMask, AllMasks, ReduceMasks;
    AndReduces(masks[0], masks[1..], i);
    assert forall k :: 1 <= k < |masks| ==> masks[k] == masks[1..][k - 1];
    assert masks[0][i] == PredicateMask(env, batch, es[0]).value[i];
  }

  /** A `not` swaps 1 and 0 and keeps 2. */
  lemma NotMaskMeans(env: Env, batch: Batch, operand: Expr, i: nat)
    requires ScalarBatch(batch) && PredicateMask(env, batch, Not(operand)).Ok? && i < batch.rowCount
    ensures PredicateMask(env, batch, operand).Ok?
    ensures |PredicateMask(env, batch, operand).value| == |PredicateMask(env, batch, Not(operand)).value|
      == batch.rowCount
    ensures var m, of := PredicateMask(env, batch, Not(operand)).value[i], PredicateMask(env, batch, operand).value[i];
            (m == 1 <==> of == 0) && (m == 0 <==> of == 1) && (m == 2 <==> of == 2)
  {
    MaskLength(env, batch, operand);
    MaskLength(env, batch, Not(operand));
  }
}
