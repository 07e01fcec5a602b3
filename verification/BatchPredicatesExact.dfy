/** How sharp the refinement is: the exact condition on the fast kernels, the
    inputs on which they differ, and when a mask is returned at all. A kernel
    misjudges NaN and timestamps finer than its column, and two intervals part
    the slow paths; the batches below meet each case. A batch evaluates every
    operand on every row, so it fails where some row would. */
module BatchPredicatesExact {
  import opened Scalars
  import opened Expressions
  import opened Vectors
  import opened Predicates
  import opened BatchPredicates

  /** One column compared with one literal, whichever is on the left. */
  predicate ColumnAgainstLiteral(e: Expr) {
    e.Compare? && ((e.left.Column? && e.right.Literal?) || (e.left.Literal? && e.right.Column?))
  }

  function ColumnName(e: Expr): string
    requires ColumnAgainstLiteral(e)
  {
    if e.left.Column? then e.left.name else e.right.name
  }

  function LiteralOf(e: Expr): Scalar
    requires ColumnAgainstLiteral(e)
  {
    if e.left.Column? then e.right.value else e.left.value
  }

  /** The operator with the column on the left. */
  function ColumnOp(e: Expr): CompareOp
    requires ColumnAgainstLiteral(e)
  {
    if e.left.Column? then e.op else FlipCompareOp(e.op)
  }

  /** The kernel does not misjudge row `i`. */
  ghost predicate EntrySafe(env: Env, batch: Batch, e: Expr, i: nat)
    requires ScalarBatch(batch) && ColumnAgainstLiteral(e) && i < batch.rowCount
    requires ColumnName(e) in batch.columns
  {
    EntryAgrees(env, ColumnOp(e), ScalarAt(batch.columns[ColumnName(e)], i), LiteralOf(e))
  }

  /** For a column against a literal the mask is right on every row if and only
      if no entry is misjudged. */
  lemma FastMaskExact(env: Env, batch: Batch, e: Expr)
    requires ScalarBatch(batch) && ColumnAgainstLiteral(e) && !LiteralOf(e).Span?
    requires PredicateMask(env, batch, e).Ok?
    ensures ColumnName(e) in batch.columns
    ensures MaskRefines(env, batch, e, PredicateMask(env, batch, e).value)
       <==> forall i :: 0 <= i < batch.rowCount ==> EntrySafe(env, batch, e, i)
  {
    var mask := PredicateMask(env, batch, e).value;
    assert BatchExprValues(env, batch, Column(ColumnName(e))).Ok?;
    if MaskRefines(env, batch, e, mask) {
      forall i | 0 <= i < batch.rowCount ensures EntrySafe(env, batch, e, i) {
        RefinedEntryIsSafe(env, batch, e, i);
      }
    }
    if forall i :: 0 <= i < batch.rowCount ==> EntrySafe(env, batch, e, i) {
      SafeIsFaithful(env, batch, e);
      MaskCorrect(env, batch, e);
    }
  }

  lemma SafeIsFaithful(env: Env, batch: Batch, e: Expr)
    requires ScalarBatch(batch) && ColumnAgainstLiteral(e) && !LiteralOf(e).Span?
    requires ColumnName(e) in batch.columns
    requires forall i :: 0 <= i < batch.rowCount ==> EntrySafe(env, batch, e, i)
    ensures Faithful(env, batch, e)
  {
    forall i | 0 <= i < batch.rowCount
      ensures EntryAgrees(env, ColumnOp(e), ScalarAt(batch.columns[ColumnName(e)], i), LiteralOf(e))
    {
      assert EntrySafe(env, batch, e, i);
    }
    assert Faithful(env, batch, e.left) && Faithful(env, batch, e.right);
  }

  lemma RefinedEntryIsSafe(env: Env, batch: Batch, e: Expr, i: nat)
    requires ScalarBatch(batch) && ColumnAgainstLiteral(e) && !LiteralOf(e).Span? && i < batch.rowCount
    requires PredicateMask(env, batch, e).Ok? && ColumnName(e) in batch.columns
    requires MaskRefines(env, batch, e, PredicateMask(env, batch, e).value)
    ensures EntrySafe(env, batch, e, i)
  {
    var mask := PredicateMask(env, batch, e).value;
    var column, literal, op := batch.columns[ColumnName(e)], LiteralOf(e), ColumnOp(e);
    if VectorLiteralMask(env, op, column, literal).Some? {
      MaskIsKernel(env, batch, e);
      assert EntryRefines(env, batch, e, mask[i], i);
      RowCompare(env, batch, e, i);
      KernelEntryExact(env, op, column, literal, i);
    } else {
      NoKernelAgrees(env, op, column, literal, i);
    }
  }

  lemma MaskIsKernel(env: Env, batch: Batch, e: Expr)
    requires ScalarBatch(batch) && ColumnAgainstLiteral(e) && ColumnName(e) in batch.columns
    requires VectorLiteralMask(env, ColumnOp(e), batch.columns[ColumnName(e)], LiteralOf(e)).Some?
    ensures PredicateMask(env, batch, e)
         == Ok(VectorLiteralMask(env, ColumnOp(e), batch.columns[ColumnName(e)], LiteralOf(e)).value)
  {
    assert BatchExprValues(env, batch, Column(ColumnName(e))).Ok?;
    assert BatchExprValues(env, batch, Literal(LiteralOf(e))).Ok?;
  }

  lemma RowCompare(env: Env, batch: Batch, e: Expr, i: nat)
    requires ScalarBatch(batch) && ColumnAgainstLiteral(e) && !LiteralOf(e).Span? && i < batch.rowCount
    requires ColumnName(e) in batch.columns && Evaluate(env, e, MaterializeRow(batch, i)).Ok?
    ensures var slow := CompareValue(env, ColumnOp(e), ScalarAt(batch.columns[ColumnName(e)], i), LiteralOf(e));
      slow.Ok? && Evaluate(env, e, MaterializeRow(batch, i)) == Ok(ToScalar(slow.value))
  {
    var value, literal := ScalarAt(batch.columns[ColumnName(e)], i), LiteralOf(e);
    FlippedCompare(env, e.op, literal, value);
    SlowPathsAgree(env, e.op, value, literal);
    SlowPathsAgree(env, e.op, literal, value);
  }

  /** Without a kernel there is nothing to misjudge. */
  lemma {:induction false} NoKernelAgrees(env: Env, op: CompareOp, v: Vector, literal: Scalar, i: nat)
    requires WellFormed(v) && IsScalarVector(v) && i < Length(v)
    requires VectorLiteralMask(env, op, v, literal).None?
    ensures EntryAgrees(env, op, ScalarAt(v, i), literal)
    decreases v
  {
    if v.DictVector? && Present(v.valid, i) {
      NoKernelAgrees(env, op, v.dictionary, literal, v.indices[i]);
    }
  }

  // ----- Inputs on which the kernels differ -----

  function OneColumn(v: Vector): Batch {
    Batch(Length(v), map["x" := v])
  }

  /** The row evaluator on the one row of a one-row column. */
  lemma OneColumnRow(env: Env, v: Vector, op: CompareOp, literal: Scalar)
    requires WellFormed(v) && IsScalarVector(v) && Length(v) == 1
    ensures ScalarBatch(OneColumn(v))
    ensures CompareValues(env, op, ScalarAt(v, 0), literal).Ok? ==>
      Evaluate(env, Expr.Compare(op, Column("x"), Literal(literal)), MaterializeRow(OneColumn(v), 0))
      == Ok(ToScalar(CompareValues(env, op, ScalarAt(v, 0), literal).value))
  {
    hide CompareValues;
    var row := MaterializeRow(OneColumn(v), 0);
    assert row["x"] == ScalarAt(v, 0);
    assert Evaluate(env, Column("x"), row) == Ok(row["x"]);
    assert Evaluate(env, Literal(literal), row) == Ok(literal);
  }

  /** NaN <> 1 is true for the kernel and false for the row evaluator. */
  lemma NaNMisjudged(env: Env)
    ensures var batch := OneColumn(NumberVector(F64, [NaN], None));
            var e := Expr.Compare(Ne, Column("x"), Literal(Number(Fin(1.0))));
      && ScalarBatch(batch)
      && PredicateMask(env, batch, e) == Ok([1])
      && Evaluate(env, e, MaterializeRow(batch, 0)) == Ok(Bool(false))
  {
    var v, one := NumberVector(F64, [NaN], None), Number(Fin(1.0));
    NaNKernel(env);
    OneColumnRow(env, v, Ne, one);
    hide PredicateMask, BatchExprValues, Evaluate, MaterializeRow, CompareValues, VectorLiteralMask, ScalarAt;
    MaskIsKernel(env, OneColumn(v), Expr.Compare(Ne, Column("x"), Literal(one)));
  }

  lemma NaNKernel(env: Env)
    ensures var v, one := NumberVector(F64, [NaN], None), Number(Fin(1.0));
            && WellFormed(v) && VectorLiteralMask(env, Ne, v, one) == Some([1])
            && ScalarAt(v, 0) == Number(NaN) && CompareValues(env, Ne, Number(NaN), one) == Ok(False)
  {
    assert NumberLiteralMask(Ne, [NaN], None, Fin(1.0)) == [1];
  }

  /** A literal one nanosecond past a millisecond equals that millisecond for
      the kernel, but not for the row evaluator. */
  lemma FinerTimestampMisjudged(env: Env)
    ensures var batch := OneColumn(TimestampVector([0], Millis, true, None));
            var e := Expr.Compare(Eq, Column("x"), Literal(Time(Timestamp(1, Nanos, true))));
      && ScalarBatch(batch)
      && PredicateMask(env, batch, e) == Ok([1])
      && Evaluate(env, e, MaterializeRow(batch, 0)) == Ok(Bool(false))
  {
    var v, later := TimestampVector([0], Millis, true, None), Time(Timestamp(1, Nanos, true));
    FinerKernel(env);
    OneColumnRow(env, v, Eq, later);
    hide PredicateMask, BatchExprValues, Evaluate, MaterializeRow, CompareValues, VectorLiteralMask, ScalarAt;
    MaskIsKernel(env, OneColumn(v), Expr.Compare(Eq, Column("x"), Literal(later)));
  }

  lemma FinerKernel(env: Env)
    ensures var v, later := TimestampVector([0], Millis, true, None), Time(Timestamp(1, Nanos, true));
            && WellFormed(v) && VectorLiteralMask(env, Eq, v, later) == Some([1])
            && CompareValues(env, Eq, ScalarAt(v, 0), later) == Ok(False)
  {
    assert TimestampEpochForUnit(Timestamp(1, Nanos, true), Millis) == 0;
    assert IntLiteralMask(Eq, [0], None, 0) == [1];
  }

  /** Two interval literals compare as equal in a batch and are refused in a row. */
  lemma IntervalMisjudged(env: Env, a: Interval, b: Interval)
    ensures var batch := OneColumn(NullVector(1));
            var e := Expr.Compare(Eq, Literal(Span(a)), Literal(Span(b)));
      && ScalarBatch(batch)
      && PredicateMask(env, batch, e) == Ok([1])
      && Evaluate(env, e, MaterializeRow(batch, 0)) == Err(TypeError)
  {
    var l := ExprValues(None, Some(Span(a)), seq(1, _ => Ok(Span(a))));
    var r := ExprValues(None, Some(Span(b)), seq(1, _ => Ok(Span(b))));
    var row := seq(1, k requires 0 <= k < 1 => CompareAt(env, Eq, ValueOf(l, k), ValueOf(r, k)));
    assert CompareAt(env, Eq, ValueOf(l, 0), ValueOf(r, 0)) == Ok(1);
    SequenceMeans(row);
    assert Sequence(row).value == [1];
    var batch := OneColumn(NullVector(1));
    assert BatchExprValues(env, batch, Literal(Span(a))) == Ok(l);
    assert BatchExprValues(env, batch, Literal(Span(b))) == Ok(r);
  }

  // ----- When a mask is returned -----

  predicate ValueForm(e: Expr) {
    match e
    case Literal(_) => true
    case Column(_) => true
    case Arithmetic(_, left, right) => ValueForm(left) && ValueForm(right)
    case _ => false
  }

  /** Comparisons, lists, ranges and null checks over values, joined by
      non-empty connectives; no LIKE, no calls and no CASE. */
  predicate PredicateForm(e: Expr) {
    match e
    case Compare(_, left, right) => ValueForm(left) && ValueForm(right)
    case In(_, target, values) => ValueForm(target) && forall v :: v in values ==> ValueForm(v)
    case Between(target, low, high) => ValueForm(target) && ValueForm(low) && ValueForm(high)
    case NullCheck(_, target) => ValueForm(target)
    case Logical(_, operands) => operands != [] && forall operand :: operand in operands ==> PredicateForm(operand)
    case Not(operand) => PredicateForm(operand)
    case _ => ValueForm(e)
  }

  ghost predicate RowsEvaluate(env: Env, batch: Batch, e: Expr)
    requires ScalarBatch(batch)
  {
    forall i :: 0 <= i < batch.rowCount ==> Evaluate(env, e, MaterializeRow(batch, i)).Ok?
  }

  lemma {:induction false} ValuesReturned(env: Env, batch: Batch, e: Expr)
    requires ScalarBatch(batch) && ValueForm(e) && Columns(e) <= batch.columns.Keys
    ensures BatchExprValues(env, batch, e).Ok?
  {
    if e.Arithmetic? {
      ValuesReturned(env, batch, e.left);
      ValuesReturned(env, batch, e.right);
    }
  }

  lemma {:induction false} AllValuesReturned(env: Env, batch: Batch, es: seq<Expr>)
    requires ScalarBatch(batch) && ColumnsOfAll(es) <= batch.columns.Keys
    requires forall e :: e in es ==> ValueForm(e)
    ensures AllValues(env, batch, es).Ok?
  {
    if es != [] {
      ValuesReturned(env, batch, es[0]);
      AllValuesReturned(env, batch, es[1..]);
    }
  }

  lemma RowComparesOk(env: Env, op: CompareOp, left: Expr, right: Expr, row: Row)
    requires Evaluate(env, Expr.Compare(op, left, right), row).Ok?
    requires !Evaluate(env, left, row).value.Span?
    ensures CompareAt(env, op, Evaluate(env, left, row), Evaluate(env, right, row)).Ok?
  {
    SlowPathsAgree(env, op, Evaluate(env, left, row).value, Evaluate(env, right, row).value);
  }

  lemma CompareReturned(env: Env, batch: Batch, op: CompareOp, left: Expr, right: Expr)
    requires ScalarBatch(batch) && ValueForm(left) && ValueForm(right)
    requires Columns(left) + Columns(right) <= batch.columns.Keys
    requires Faithful(env, batch, left) && Faithful(env, batch, right)
    requires RowsEvaluate(env, batch, Expr.Compare(op, left, right))
    ensures BatchExprValues(env, batch, left).Ok? && BatchExprValues(env, batch, right).Ok?
    ensures CompareMasks(env, batch.rowCount, op, BatchExprValues(env, batch, left).value,
                         BatchExprValues(env, batch, right).value).Ok?
  {
    hide BatchExprValues;
    ValuesReturned(env, batch, left);
    ValuesReturned(env, batch, right);
    ValuesCorrect(env, batch, left);
    ValuesCorrect(env, batch, right);
    var n := batch.rowCount;
    var l := BatchExprValues(env, batch, left).value;
    var r := BatchExprValues(env, batch, right).value;
    forall i | 0 <= i < n ensures CompareAt(env, op, ValueOf(l, i), ValueOf(r, i)).Ok? {
      assert RowRefines(env, batch, left, l.at[i], i) && RowRefines(env, batch, right, r.at[i], i);
      RowComparesOk(env, op, left, right, MaterializeRow(batch, i));
    }
    SequenceMeans(seq(n, k requires 0 <= k < n => CompareAt(env, op, ValueOf(l, k), ValueOf(r, k))));
  }

  lemma {:induction false} OperandsEvaluate(env: Env, op: LogicalOp, es: seq<Expr>, acc: SqlBool, row: Row)
    requires EvaluateLogical(env, op, es, acc, row).Ok?
    ensures forall e :: e in es ==> Evaluate(env, e, row).Ok? && ToSqlBool(Evaluate(env, e, row).value).Ok?
  {
    if es != [] {
      var b := ToSqlBool(Evaluate(env, es[0], row).value).value;
      OperandsEvaluate(env, op, es[1..], SqlLogic(op, acc, b), row);
    }
  }

  /** A case-free predicate is refused exactly when some row fails: the mask is
      returned if and only if the row evaluator succeeds on every row. */
  lemma MaskReturnedIffRowsEvaluate(env: Env, batch: Batch, e: Expr)
    requires ScalarBatch(batch) && Faithful(env, batch, e) && PredicateForm(e)
    requires Columns(e) <= batch.columns.Keys && BooleanRows(env, batch, e)
    ensures PredicateMask(env, batch, e).Ok? <==> RowsEvaluate(env, batch, e)
  {
    if PredicateMask(env, batch, e).Ok? {
      MaskCorrect(env, batch, e);
      forall i | 0 <= i < batch.rowCount ensures Evaluate(env, e, MaterializeRow(batch, i)).Ok? {
        assert EntryRefines(env, batch, e, PredicateMask(env, batch, e).value[i], i);
      }
    }
    if RowsEvaluate(env, batch, e) {
      MaskReturned(env, batch, e);
    }
  }

  /** Rows on which the expression has a value give it a boolean or null. */
  ghost predicate BooleanRows(env: Env, batch: Batch, e: Expr)
    requires ScalarBatch(batch)
  {
    forall i :: 0 <= i < batch.rowCount ==> BooleanResult(Evaluate(env, e, MaterializeRow(batch, i)))
  }

  ghost predicate BooleanResult(r: Result<Scalar>) {
    r.Ok? ==> ToSqlBool(r.value).Ok?
  }

  lemma {:induction false} MaskReturned(env: Env, batch: Batch, e: Expr)
    requires ScalarBatch(batch) && Faithful(env, batch, e) && PredicateForm(e)
    requires Columns(e) <= batch.columns.Keys && BooleanRows(env, batch, e) && RowsEvaluate(env, batch, e)
    ensures PredicateMask(env, batch, e).Ok?
    decreases e, 1
  {
    hide BatchExprValues, MaterializeRow;
    match e {
      case Compare(op, left, right) =>
        CompareReturned(env, batch, op, left, right);
      case In(_, _, _) => InReturned(env, batch, e);
      case Between(_, _, _) => BetweenReturned(env, batch, e);
      case NullCheck(_, _) => NullCheckReturned(env, batch, e);
      case Logical(op, operands) =>
        forall operand | operand in operands
          ensures BooleanRows(env, batch, operand) && RowsEvaluate(env, batch, operand)
        {
          forall i | 0 <= i < batch.rowCount
            ensures Evaluate(env, operand, MaterializeRow(batch, i)).Ok?
            ensures BooleanResult(Evaluate(env, operand, MaterializeRow(batch, i)))
          {
            OperandsEvaluate(env, op, operands, if op == And then True else False, MaterializeRow(batch, i));
          }
        }
        AllMasksReturned(env, batch, operands);
      case Not(operand) =>
        forall i | 0 <= i < batch.rowCount
          ensures Evaluate(env, operand, MaterializeRow(batch, i)).Ok?
          ensures BooleanResult(Evaluate(env, operand, MaterializeRow(batch, i)))
        {
          assert Evaluate(env, e, MaterializeRow(batch, i)).Ok?;
        }
        MaskReturned(env, batch, operand);
      case _ => ValueReturned(env, batch, e);
    }
  }

  lemma {:induction false} AllMasksReturned(env: Env, batch: Batch, es: seq<Expr>)
    requires ScalarBatch(batch) && AllFaithful(env, batch, es) && ColumnsOfAll(es) <= batch.columns.Keys
    requires forall e :: e in es ==>
      PredicateForm(e) && BooleanRows(env, batch, e) && RowsEvaluate(env, batch, e)
    ensures AllMasks(env, batch, es).Ok?
    decreases es, 0
  {
    if es != [] {
      MaskReturned(env, batch, es[0]);
      AllMasksReturned(env, batch, es[1..]);
    }
  }

  lemma ValueReturned(env: Env, batch: Batch, e: Expr)
    requires ScalarBatch(batch) && Faithful(env, batch, e) && ValueForm(e)
    requires Columns(e) <= batch.columns.Keys && BooleanRows(env, batch, e) && RowsEvaluate(env, batch, e)
    ensures PredicateMask(env, batch, e).Ok?
  {
    ValuesReturned(env, batch, e);
    ValuesCorrect(env, batch, e);
    var n, v := batch.rowCount, BatchExprValues(env, batch, e).value;
    forall i | 0 <= i < n ensures PredicateAt(ValueOf(v, i)).Ok? {
      assert RowRefines(env, batch, e, v.at[i], i);
      assert BooleanResult(Evaluate(env, e, MaterializeRow(batch, i)));
    }
    SequenceMeans(seq(n, i requires 0 <= i < n => PredicateAt(ValueOf(v, i))));
  }

  lemma NullCheckReturned(env: Env, batch: Batch, e: Expr)
    requires ScalarBatch(batch) && Faithful(env, batch, e) && e.NullCheck? && ValueForm(e.target)
    requires Columns(e) <= batch.columns.Keys && RowsEvaluate(env, batch, e)
    ensures PredicateMask(env, batch, e).Ok?
  {
    ValuesReturned(env, batch, e.target);
    ValuesCorrect(env, batch, e.target);
    var n, t := batch.rowCount, BatchExprValues(env, batch, e.target).value;
    forall i | 0 <= i < n ensures NullCheckAt(e.negated, ValueOf(t, i)).Ok? {
      assert RowRefines(env, batch, e.target, t.at[i], i);
      assert Evaluate(env, e, MaterializeRow(batch, i)).Ok?;
    }
    SequenceMeans(seq(n, i requires 0 <= i < n => NullCheckAt(e.negated, ValueOf(t, i))));
  }

  lemma InReturned(env: Env, batch: Batch, e: Expr)
    requires ScalarBatch(batch) && Faithful(env, batch, e) && e.In? && PredicateForm(e)
    requires Columns(e) <= batch.columns.Keys && RowsEvaluate(env, batch, e)
    ensures PredicateMask(env, batch, e).Ok?
  {
    hide BatchExprValues, MaterializeRow;
    ValuesReturned(env, batch, e.target);
    ValuesCorrect(env, batch, e.target);
    AllValuesReturned(env, batch, e.values);
    var n, t := batch.rowCount, BatchExprValues(env, batch, e.target).value;
    var vs := AllValues(env, batch, e.values).value;
    forall i | 0 <= i < n ensures InAt(env, e.negated, ValueOf(t, i), RowOf(vs, i)).Ok? {
      assert RowRefines(env, batch, e.target, t.at[i], i);
      AllValuesCorrect(env, batch, e.values, i);
      assert Evaluate(env, e, MaterializeRow(batch, i)).Ok?;
      InPathsAgree(env, t.at[i].value, Sequence(RowOf(vs, i)).value, false);
    }
    SequenceMeans(seq(n, i requires 0 <= i < n => InAt(env, e.negated, ValueOf(t, i), RowOf(vs, i))));
  }

  lemma BetweenEnds(env: Env, target: Expr, low: Expr, high: Expr, row: Row)
    requires Evaluate(env, Expr.Between(target, low, high), row).Ok?
    ensures Evaluate(env, Expr.Compare(Gte, target, low), row).Ok?
    ensures Evaluate(env, Expr.Compare(Lte, target, high), row).Ok?
  {
  }

  lemma BetweenReturned(env: Env, batch: Batch, e: Expr)
    requires ScalarBatch(batch) && Faithful(env, batch, e) && e.Between? && PredicateForm(e)
    requires Columns(e) <= batch.columns.Keys && RowsEvaluate(env, batch, e)
    ensures PredicateMask(env, batch, e).Ok?
  {
    hide BatchExprValues, MaterializeRow, Evaluate;
    forall i | 0 <= i < batch.rowCount
      ensures Evaluate(env, Expr.Compare(Gte, e.target, e.low), MaterializeRow(batch, i)).Ok?
      ensures Evaluate(env, Expr.Compare(Lte, e.target, e.high), MaterializeRow(batch, i)).Ok?
    {
      BetweenEnds(env, e.target, e.low, e.high, MaterializeRow(batch, i));
    }
    CompareReturned(env, batch, Gte, e.target, e.low);
    CompareReturned(env, batch, Lte, e.target, e.high);
  }
}
