/** Predicate masks of whole batches, and the theorem that a returned mask is
    the row evaluator's verdict on every row. The batch evaluator is stated as
    the source computes it: values of sub-expressions column by column, fast
    kernels where a column meets a literal, and errors kept per row until the
    row is read. */
module BatchPredicates {
  import opened Scalars
  import opened Expressions
  import opened Vectors
  import opened Predicates

  /** Values of an expression over a batch: one per row, each computed or failed
      when it is read. The vector or literal behind them selects fast kernels. */
  datatype ExprValues = ExprValues(vector: Option<Vector>, literal: Option<Scalar>, at: seq<Result<Scalar>>)

  datatype BranchValues = BranchValues(mask: seq<MaskValue>, values: ExprValues)

  function ValueOf(values: ExprValues, i: nat): Result<Scalar> {
    if i < |values.at| then values.at[i] else Err(TypeError)
  }

  function MaskAt(mask: seq<MaskValue>, i: nat): MaskValue {
    if i < |mask| then mask[i] else 2
  }

  /** All results, or the first failure. */
  function Sequence<T>(rs: seq<Result<T>>): Result<seq<T>> {
    if rs == [] then Ok([])
    else
      var r :- rs[0];
      var rest :- Sequence(rs[1..]);
      Ok([r] + rest)
  }

  lemma {:induction false} SequenceMeans<T>(rs: seq<Result<T>>)
    ensures Sequence(rs).Ok? <==> forall i :: 0 <= i < |rs| ==> rs[i].Ok?
    ensures Sequence(rs).Ok? ==>
      |Sequence(rs).value| == |rs| && forall i :: 0 <= i < |rs| ==> rs[i] == Ok(Sequence(rs).value[i])
  {
    if rs != [] {
      SequenceMeans(rs[1..]);
      assert forall i :: 0 < i < |rs| ==> rs[i] == rs[1..][i - 1];
    }
  }

  // ----- Row-wise pieces -----

  function CompareAt(env: Env, op: CompareOp, l: Result<Scalar>, r: Result<Scalar>): Result<MaskValue> {
    var a :- l;
    var b :- r;
    var c :- CompareValue(env, op, a, b);
    Ok(SqlMaskValue(c))
  }

  function ArithmeticAt(env: Env, op: ArithOp, l: Result<Scalar>, r: Result<Scalar>): Result<Scalar> {
    var a :- l;
    var b :- r;
    ArithmeticValue(env, op, a, b)
  }

  function InValue(env: Env, target: Scalar, values: seq<Scalar>): Result<SqlBool> {
    if target.Null? then Ok(Unknown) else InValueFrom(env, target, values, false)
  }

  function InValueFrom(env: Env, target: Scalar, values: seq<Scalar>, sawNull: bool): Result<SqlBool> {
    if values == [] then Ok(if sawNull then Unknown else False)
    else
      var c :- CompareValue(env, Eq, target, values[0]);
      if c == True then Ok(True)
      else InValueFrom(env, target, values[1..], sawNull || c == Unknown)
  }

  function InAt(env: Env, negated: bool, target: Result<Scalar>, values: seq<Result<Scalar>>): Result<MaskValue> {
    var t :- target;
    var vs :- Sequence(values);
    var c :- InValue(env, t, vs);
    Ok(SqlMaskValue(if negated then SqlNot(c) else c))
  }

  function PredicateAt(v: Result<Scalar>): Result<MaskValue> {
    var s :- v;
    var b :- ToSqlBool(s);
    Ok(SqlMaskValue(b))
  }

  function NullCheckAt(negated: bool, v: Result<Scalar>): Result<MaskValue> {
    var s :- v;
    Ok(MaskOfBool(s.Null? != negated))
  }

  function CaseAt(branches: seq<BranchValues>, otherwise: Option<ExprValues>, i: nat): Result<Scalar> {
    if branches == [] then (if otherwise.None? then Ok(Null) else ValueOf(otherwise.value, i))
    else if MaskAt(branches[0].mask, i) == 1 then ValueOf(branches[0].values, i)
    else CaseAt(branches[1..], otherwise, i)
  }

  function LogicMasks(op: LogicalOp, l: seq<MaskValue>, r: seq<MaskValue>): seq<MaskValue> {
    seq(|l|, i requires 0 <= i < |l| => SqlMaskValue(SqlLogic(op, MaskSql(l[i]), MaskSql(MaskAt(r, i)))))
  }

  function NotMask(mask: seq<MaskValue>): seq<MaskValue> {
    seq(|mask|, i requires 0 <= i < |mask| => SqlMaskValue(SqlNot(MaskSql(mask[i]))))
  }

  function ReduceMasks(op: LogicalOp, acc: seq<MaskValue>, masks: seq<seq<MaskValue>>): seq<MaskValue>
    decreases masks
  {
    if masks == [] then acc else ReduceMasks(op, LogicMasks(op, acc, masks[0]), masks[1..])
  }

  /** The fast kernel for a column against a literal, in either order. */
  ghost function FastCompareMasks(env: Env, op: CompareOp, l: ExprValues, r: ExprValues): Option<seq<MaskValue>>
    requires l.vector.Some? ==> WellFormed(l.vector.value)
    requires r.vector.Some? ==> WellFormed(r.vector.value)
  {
    if l.vector.Some? && r.literal.Some? then VectorLiteralMask(env, op, l.vector.value, r.literal.value)
    else if l.literal.Some? && r.vector.Some? then
      VectorLiteralMask(env, FlipCompareOp(op), r.vector.value, l.literal.value)
    else None
  }

  ghost function CompareMasks(env: Env, rowCount: nat, op: CompareOp, l: ExprValues, r: ExprValues)
    : Result<seq<MaskValue>>
    requires l.vector.Some? ==> WellFormed(l.vector.value)
    requires r.vector.Some? ==> WellFormed(r.vector.value)
  {
    match FastCompareMasks(env, op, l, r)
    case Some(mask) => Ok(mask)
    case None =>
      Sequence(seq(rowCount, i requires 0 <= i < rowCount => CompareAt(env, op, ValueOf(l, i), ValueOf(r, i))))
  }

  // ----- The vectorised evaluator -----

  /** Values whose vector, if any, is a column of the batch. */
  ghost predicate Backed(v: ExprValues) {
    v.vector.Some? ==> WellFormed(v.vector.value)
  }

  ghost function BatchExprValues(env: Env, batch: Batch, e: Expr): (r: Result<ExprValues>)
    requires ScalarBatch(batch)
    ensures r.Ok? ==> Backed(r.value)
    decreases e, 1
  {
    match e
    case Literal(v) => Ok(ExprValues(None, Some(v), seq(batch.rowCount, _ => Ok(v))))
    case Column(name) =>
      if name !in batch.columns then Err(UnknownColumn)
      else
        var vector := batch.columns[name];
        Ok(ExprValues(Some(vector), None,
                      seq(batch.rowCount, i requires 0 <= i < batch.rowCount => Ok(ScalarAt(vector, i)))))
    case Arithmetic(op, left, right) =>
      var l :- BatchExprValues(env, batch, left);
      var r :- BatchExprValues(env, batch, right);
      Ok(ExprValues(None, None, seq(batch.rowCount, i requires 0 <= i < batch.rowCount =>
        ArithmeticAt(env, op, ValueOf(l, i), ValueOf(r, i)))))
    case Case(whens, otherwise) =>
      var branches :- AllBranches(env, batch, whens);
      if otherwise.None? then
        Ok(ExprValues(None, None, seq(batch.rowCount, i requires 0 <= i < batch.rowCount => CaseAt(branches, None, i))))
      else
        var last :- BatchExprValues(env, batch, otherwise.value);
        Ok(ExprValues(None, None, seq(batch.rowCount, i requires 0 <= i < batch.rowCount =>
          CaseAt(branches, Some(last), i))))
    case _ => Err(UnsupportedPushdown)
  }

  ghost function AllBranches(env: Env, batch: Batch, whens: seq<Branch>): Result<seq<BranchValues>>
    requires ScalarBatch(batch)
    decreases whens, 0
  {
    if whens == [] then Ok([])
    else
      var first :- BranchOf(env, batch, whens[0]);
      var rest :- AllBranches(env, batch, whens[1..]);
      Ok([first] + rest)
  }

  ghost function BranchOf(env: Env, batch: Batch, branch: Branch): Result<BranchValues>
    requires ScalarBatch(batch)
    decreases branch, 3
  {
    var mask :- PredicateMask(env, batch, branch.when);
    var values :- BatchExprValues(env, batch, branch.then_);
    Ok(BranchValues(mask, values))
  }

  ghost function AllValues(env: Env, batch: Batch, es: seq<Expr>): Result<seq<ExprValues>>
    requires ScalarBatch(batch)
    decreases es, 0
  {
    if es == [] then Ok([])
    else
      var v :- BatchExprValues(env, batch, es[0]);
      var vs :- AllValues(env, batch, es[1..]);
      Ok([v] + vs)
  }

  ghost function AllMasks(env: Env, batch: Batch, es: seq<Expr>): Result<seq<seq<MaskValue>>>
    requires ScalarBatch(batch)
    decreases es, 0
  {
    if es == [] then Ok([])
    else
      var m :- PredicateMask(env, batch, es[0]);
      var ms :- AllMasks(env, batch, es[1..]);
      Ok([m] + ms)
  }

  /** The mask of a predicate over a batch; functions and LIKE have no vector form here. */
  ghost function PredicateMask(env: Env, batch: Batch, e: Expr): Result<seq<MaskValue>>
    requires ScalarBatch(batch)
    decreases e, 2
  {
    var n := batch.rowCount;
    match e
    case Compare(op, left, right) =>
      var l :- BatchExprValues(env, batch, left);
      var r :- BatchExprValues(env, batch, right);
      CompareMasks(env, n, op, l, r)
    case In(negated, target, values) =>
      var t :- BatchExprValues(env, batch, target);
      var vs :- AllValues(env, batch, values);
      Sequence(seq(n, i requires 0 <= i < n => InAt(env, negated, ValueOf(t, i), RowOf(vs, i))))
    case Between(target, low, high) =>
      var t :- BatchExprValues(env, batch, target);
      var l :- BatchExprValues(env, batch, low);
      var above :- CompareMasks(env, n, Gte, t, l);
      var h :- BatchExprValues(env, batch, high);
      var below :- CompareMasks(env, n, Lte, t, h);
      Ok(LogicMasks(And, above, below))
    case NullCheck(negated, target) =>
      var t :- BatchExprValues(env, batch, target);
      Sequence(seq(n, i requires 0 <= i < n => NullCheckAt(negated, ValueOf(t, i))))
    case Logical(op, operands) =>
      var masks :- AllMasks(env, batch, operands);
      if masks == [] then Err(TypeError) else Ok(ReduceMasks(op, masks[0], masks[1..]))
    case Not(operand) =>
      var mask :- PredicateMask(env, batch, operand);
      Ok(NotMask(mask))
    case Like(_, _, _) => Err(UnsupportedPushdown)
    case Call(_, _) => Err(UnsupportedPushdown)
    case _ =>
      var v :- BatchExprValues(env, batch, e);
      Sequence(seq(n, i requires 0 <= i < n => PredicateAt(ValueOf(v, i))))
  }

  function RowOf(vs: seq<ExprValues>, i: nat): seq<Result<Scalar>> {
    seq(|vs|, k requires 0 <= k < |vs| => ValueOf(vs[k], i))
  }

  // ----- Conditions on the expression -----

  /** A column against a literal never meets an entry its kernel misjudges. */
  ghost predicate KernelSafe(env: Env, batch: Batch, op: CompareOp, left: Expr, right: Expr)
    requires ScalarBatch(batch)
  {
    && (left.Column? && right.Literal? && left.name in batch.columns ==>
          forall i :: 0 <= i < batch.rowCount ==>
            EntryAgrees(env, op, ScalarAt(batch.columns[left.name], i), right.value))
    && (left.Literal? && right.Column? && right.name in batch.columns ==>
          forall i :: 0 <= i < batch.rowCount ==>
            EntryAgrees(env, FlipCompareOp(op), ScalarAt(batch.columns[right.name], i), left.value))
  }

  /** No interval literal, and every fast comparison is safe on this batch. */
  ghost predicate Faithful(env: Env, batch: Batch, e: Expr)
    requires ScalarBatch(batch)
    decreases e, 1
  {
    match e
    case Literal(v) => !v.Span?
    case Column(_) => true
    case Compare(op, left, right) =>
      KernelSafe(env, batch, op, left, right) && Faithful(env, batch, left) && Faithful(env, batch, right)
    case In(_, target, values) => Faithful(env, batch, target) && AllFaithful(env, batch, values)
    case Between(target, low, high) =>
      && KernelSafe(env, batch, Gte, target, low)
      && KernelSafe(env, batch, Lte, target, high)
      && Faithful(env, batch, target) && Faithful(env, batch, low) && Faithful(env, batch, high)
    case NullCheck(_, target) => Faithful(env, batch, target)
    case Logical(_, operands) => AllFaithful(env, batch, operands)
    case Not(operand) => Faithful(env, batch, operand)
    case Like(_, target, _) => Faithful(env, batch, target)
    case Call(_, args) => AllFaithful(env, batch, args)
    case Arithmetic(_, left, right) => Faithful(env, batch, left) && Faithful(env, batch, right)
    case Case(whens, otherwise) =>
      WhensFaithful(env, batch, whens) && (otherwise.Some? ==> Faithful(env, batch, otherwise.value))
  }

  ghost predicate AllFaithful(env: Env, batch: Batch, es: seq<Expr>)
    requires ScalarBatch(batch)
    decreases es, 0
  {
    es == [] || (Faithful(env, batch, es[0]) && AllFaithful(env, batch, es[1..]))
  }

  ghost predicate WhensFaithful(env: Env, batch: Batch, whens: seq<Branch>)
    requires ScalarBatch(batch)
    decreases whens, 0
  {
    whens == [] || (BranchFaithful(env, batch, whens[0]) && WhensFaithful(env, batch, whens[1..]))
  }

  ghost predicate BranchFaithful(env: Env, batch: Batch, branch: Branch)
    requires ScalarBatch(batch)
    decreases branch, 2
  {
    Faithful(env, batch, branch.when) && Faithful(env, batch, branch.then_)
  }

  // ----- Refinement -----

  ghost predicate ValuesRefine(env: Env, batch: Batch, e: Expr, v: ExprValues)
    requires ScalarBatch(batch)
  {
    && |v.at| == batch.rowCount
    && (v.vector.Some? ==> e.Column? && e.name in batch.columns && v.vector.value == batch.columns[e.name])
    && (v.literal.Some? ==> e == Literal(v.literal.value))
    && forall i :: 0 <= i < batch.rowCount ==> RowRefines(env, batch, e, v.at[i], i)
  }

  ghost predicate RowRefines(env: Env, batch: Batch, e: Expr, r: Result<Scalar>, i: nat)
    requires ScalarBatch(batch) && i < batch.rowCount
  {
    r == Evaluate(env, e, MaterializeRow(batch, i)) && (r.Ok? ==> !r.value.Span?)
  }

  /** Every entry is the row evaluator's three-valued verdict on that row. */
  ghost predicate MaskRefines(env: Env, batch: Batch, e: Expr, mask: seq<MaskValue>)
    requires ScalarBatch(batch)
  {
    |mask| == batch.rowCount && forall i :: 0 <= i < batch.rowCount ==> EntryRefines(env, batch, e, mask[i], i)
  }

  ghost predicate EntryRefines(env: Env, batch: Batch, e: Expr, m: MaskValue, i: nat)
    requires ScalarBatch(batch) && i < batch.rowCount
  {
    Evaluate(env, e, MaterializeRow(batch, i)) == Ok(ToScalar(MaskSql(m)))
  }

  lemma FastMaskRefines(env: Env, batch: Batch, op: CompareOp, left: Expr, right: Expr, l: ExprValues, r: ExprValues,
                        i: nat)
    requires ScalarBatch(batch) && Backed(l) && Backed(r) && i < batch.rowCount
    requires ValuesRefine(env, batch, left, l) && ValuesRefine(env, batch, right, r)
    requires KernelSafe(env, batch, op, left, right)
    requires FastCompareMasks(env, op, l, r).Some?
    ensures var mask := FastCompareMasks(env, op, l, r).value;
      && |mask| == batch.rowCount
      && CompareAt(env, op, l.at[i], r.at[i]) == Ok(mask[i])
  {
    assert RowRefines(env, batch, left, l.at[i], i) && RowRefines(env, batch, right, r.at[i], i);
    if l.vector.Some? && r.literal.Some? {
      KernelEntryExact(env, op, l.vector.value, r.literal.value, i);
    } else {
      KernelEntryExact(env, FlipCompareOp(op), r.vector.value, l.literal.value, i);
      FlippedCompare(env, op, l.literal.value, ScalarAt(r.vector.value, i));
    }
  }

  lemma SlowMaskMeans(env: Env, rowCount: nat, op: CompareOp, l: ExprValues, r: ExprValues, i: nat)
    requires Backed(l) && Backed(r) && i < rowCount
    requires FastCompareMasks(env, op, l, r).None?
    requires CompareMasks(env, rowCount, op, l, r).Ok?
    ensures var mask := CompareMasks(env, rowCount, op, l, r).value;
      |mask| == rowCount && CompareAt(env, op, ValueOf(l, i), ValueOf(r, i)) == Ok(mask[i])
  {
    SequenceMeans(seq(rowCount, k requires 0 <= k < rowCount => CompareAt(env, op, ValueOf(l, k), ValueOf(r, k))));
  }

  lemma CompareAtMeans(env: Env, op: CompareOp, l: Result<Scalar>, r: Result<Scalar>, m: MaskValue)
    requires CompareAt(env, op, l, r) == Ok(m)
    requires !(l.Ok? && l.value.Span?)
    ensures l.Ok? && r.Ok? && CompareValues(env, op, l.value, r.value) == Ok(MaskSql(m))
  {
    SlowPathsAgree(env, op, l.value, r.value);
  }

  /** What `CompareMasks` returns is, on every row, the row path's comparison. */
  lemma CompareMasksRefine(
    env: Env, batch: Batch, op: CompareOp, left: Expr, right: Expr, l: ExprValues, r: ExprValues, i: nat)
    requires ScalarBatch(batch) && Backed(l) && Backed(r) && i < batch.rowCount
    requires ValuesRefine(env, batch, left, l) && ValuesRefine(env, batch, right, r)
    requires KernelSafe(env, batch, op, left, right)
    requires CompareMasks(env, batch.rowCount, op, l, r).Ok?
    ensures var mask := CompareMasks(env, batch.rowCount, op, l, r).value;
      && |mask| == batch.rowCount
      && l.at[i].Ok? && r.at[i].Ok?
      && CompareValues(env, op, l.at[i].value, r.at[i].value) == Ok(MaskSql(mask[i]))
  {
    var mask := CompareMasks(env, batch.rowCount, op, l, r).value;
    assert RowRefines(env, batch, left, l.at[i], i);
    if FastCompareMasks(env, op, l, r).Some? {
      FastMaskRefines(env, batch, op, left, right, l, r, i);
    } else {
      SlowMaskMeans(env, batch.rowCount, op, l, r, i);
    }
    CompareAtMeans(env, op, l.at[i], r.at[i], mask[i]);
  }

  lemma {:induction false} InPathsAgree(env: Env, target: Scalar, values: seq<Scalar>, sawNull: bool)
    requires !target.Span?
    ensures InValueFrom(env, target, values, sawNull) == InListFrom(env, target, values, sawNull)
  {
    if values != [] {
      SlowPathsAgree(env, Eq, target, values[0]);
      var c := CompareValues(env, Eq, target, values[0]);
      if c.Ok? {
        InPathsAgree(env, target, values[1..], sawNull || c.value == Unknown);
      }
    }
  }

  lemma {:induction false} ValuesCorrect(env: Env, batch: Batch, e: Expr)
    requires ScalarBatch(batch) && Faithful(env, batch, e)
    requires BatchExprValues(env, batch, e).Ok?
    ensures ValuesRefine(env, batch, e, BatchExprValues(env, batch, e).value)
    decreases e, 1
  {
    hide PredicateMask;
    var v := BatchExprValues(env, batch, e).value;
    match e {
      case Literal(_) =>
      case Column(name) =>
        forall i | 0 <= i < batch.rowCount ensures RowRefines(env, batch, e, v.at[i], i) {
          NoSpanInVector(batch.columns[name], i);
        }
      case Arithmetic(op, left, right) =>
        ValuesCorrect(env, batch, left);
        ValuesCorrect(env, batch, right);
        var l := BatchExprValues(env, batch, left).value;
        var r := BatchExprValues(env, batch, right).value;
        forall i | 0 <= i < batch.rowCount ensures RowRefines(env, batch, e, v.at[i], i) {
          assert RowRefines(env, batch, left, l.at[i], i) && RowRefines(env, batch, right, r.at[i], i);
        }
      case Case(whens, otherwise) =>
        var branches := AllBranches(env, batch, whens).value;
        var last := if otherwise.None? then None else Some(BatchExprValues(env, batch, otherwise.value).value);
        if otherwise.Some? {
          ValuesCorrect(env, batch, otherwise.value);
        }
        forall i | 0 <= i < batch.rowCount ensures RowRefines(env, batch, e, v.at[i], i) {
          BranchesCorrect(env, batch, whens, otherwise, last, i);
        }
    }
  }

  /** The first true branch of the masks is the first true branch of the row. */
  lemma {:induction false} BranchesCorrect(
    env: Env, batch: Batch, whens: seq<Branch>, otherwise: Option<Expr>, last: Option<ExprValues>, i: nat)
    requires ScalarBatch(batch) && i < batch.rowCount && WhensFaithful(env, batch, whens)
    requires AllBranches(env, batch, whens).Ok?
    requires otherwise.Some? <==> last.Some?
    requires otherwise.Some? ==> ValuesRefine(env, batch, otherwise.value, last.value)
    ensures var row := MaterializeRow(batch, i);
            var at := CaseAt(AllBranches(env, batch, whens).value, last, i);
            var taken := EvaluateWhens(env, whens, row);
      && (at.Ok? ==> !at.value.Span?)
      && at == (match taken
                case Err(error) => Err(error)
                case Ok(Some(s)) => Ok(s)
                case Ok(None) => if otherwise.None? then Ok(Null) else Evaluate(env, otherwise.value, row))
    decreases whens, 0
  {
    hide Evaluate, Faithful, MaterializeRow, PredicateMask, BatchExprValues;
    if whens == [] {
      if otherwise.Some? {
        assert RowRefines(env, batch, otherwise.value, last.value.at[i], i);
      }
    } else {
      BranchCorrect(env, batch, whens[0], i);
      BranchesCorrect(env, batch, whens[1..], otherwise, last, i);
    }
  }

  lemma {:induction false} BranchCorrect(env: Env, batch: Batch, branch: Branch, i: nat)
    requires ScalarBatch(batch) && i < batch.rowCount && BranchFaithful(env, batch, branch)
    requires BranchOf(env, batch, branch).Ok?
    ensures var b := BranchOf(env, batch, branch).value;
      && |b.mask| == batch.rowCount && |b.values.at| == batch.rowCount
      && EntryRefines(env, batch, branch.when, b.mask[i], i)
      && RowRefines(env, batch, branch.then_, b.values.at[i], i)
    decreases branch, 4
  {
    MaskCorrect(env, batch, branch.when);
    ValuesCorrect(env, batch, branch.then_);
  }

  lemma {:induction false} AllValuesCorrect(env: Env, batch: Batch, es: seq<Expr>, i: nat)
    requires ScalarBatch(batch) && i < batch.rowCount && AllFaithful(env, batch, es)
    requires AllValues(env, batch, es).Ok?
    ensures Sequence(RowOf(AllValues(env, batch, es).value, i)) == EvaluateAll(env, es, MaterializeRow(batch, i))
    decreases es, 0
  {
    if es != [] {
      ValuesCorrect(env, batch, es[0]);
      AllValuesCorrect(env, batch, es[1..], i);
      var vs := AllValues(env, batch, es).value;
      assert RowRefines(env, batch, es[0], vs[0].at[i], i);
      assert vs[1..] == AllValues(env, batch, es[1..]).value;
      assert RowOf(vs, i)[1..] == RowOf(vs[1..], i);
    }
  }

  /** A left-to-right reduction of masks is the row's left-to-right fold. */
  lemma {:induction false} ReduceCorrect(
    env: Env, batch: Batch, op: LogicalOp, acc: seq<MaskValue>, es: seq<Expr>, i: nat)
    requires ScalarBatch(batch) && i < batch.rowCount && AllFaithful(env, batch, es)
    requires |acc| == batch.rowCount && AllMasks(env, batch, es).Ok?
    ensures var mask := ReduceMasks(op, acc, AllMasks(env, batch, es).value);
      && |mask| == batch.rowCount
      && EvaluateLogical(env, op, es, MaskSql(acc[i]), MaterializeRow(batch, i)) == Ok(MaskSql(mask[i]))
    decreases es, 0
  {
    hide Evaluate, Faithful, MaterializeRow, PredicateMask;
    if es != [] {
      MaskCorrect(env, batch, es[0]);
      var masks := AllMasks(env, batch, es).value;
      assert EntryRefines(env, batch, es[0], masks[0][i], i);
      assert masks[1..] == AllMasks(env, batch, es[1..]).value;
      ReduceCorrect(env, batch, op, LogicMasks(op, acc, masks[0]), es[1..], i);
    }
  }

  /** Main theorem: whenever a mask is returned, each entry is the verdict of
      the row evaluator on that row. */
  lemma {:induction false} MaskCorrect(env: Env, batch: Batch, e: Expr)
    requires ScalarBatch(batch) && Faithful(env, batch, e)
    requires PredicateMask(env, batch, e).Ok?
    ensures MaskRefines(env, batch, e, PredicateMask(env, batch, e).value)
    decreases e, 3
  {
    var mask := PredicateMask(env, batch, e).value;
    match e {
      case Compare(op, left, right) => CompareCorrect(env, batch, e);
      case In(_, _, _) => InCorrect(env, batch, e);
      case Between(_, _, _) => BetweenCorrect(env, batch, e);
      case NullCheck(_, _) => NullCheckCorrect(env, batch, e);
      case Logical(op, operands) => LogicalCorrect(env, batch, e);
      case Not(operand) =>
        MaskCorrect(env, batch, operand);
        forall i | 0 <= i < batch.rowCount ensures EntryRefines(env, batch, e, mask[i], i) {
          assert EntryRefines(env, batch, operand, PredicateMask(env, batch, operand).value[i], i);
        }
      case Like(_, _, _) =>
      case Call(_, _) =>
      case _ => PredicateCorrect(env, batch, e);
    }
  }

  lemma {:induction false} PredicateCorrect(env: Env, batch: Batch, e: Expr)
    requires ScalarBatch(batch) && Faithful(env, batch, e)
    requires e.Literal? || e.Column? || e.Arithmetic? || e.Case?
    requires PredicateMask(env, batch, e).Ok?
    ensures MaskRefines(env, batch, e, PredicateMask(env, batch, e).value)
    decreases e, 2, 0
  {
    hide Evaluate, Faithful, BatchExprValues, MaterializeRow;
    ValuesCorrect(env, batch, e);
    var n, v := batch.rowCount, BatchExprValues(env, batch, e).value;
    var mask := PredicateMask(env, batch, e).value;
    SequenceMeans(seq(n, i requires 0 <= i < n => PredicateAt(ValueOf(v, i))));
    forall i | 0 <= i < n ensures EntryRefines(env, batch, e, mask[i], i) {
      assert RowRefines(env, batch, e, v.at[i], i);
    }
  }

  lemma {:induction false} CompareCorrect(env: Env, batch: Batch, e: Expr)
    requires ScalarBatch(batch) && Faithful(env, batch, e) && e.Compare?
    requires PredicateMask(env, batch, e).Ok?
    ensures MaskRefines(env, batch, e, PredicateMask(env, batch, e).value)
    decreases e, 2, 0
  {
    hide MaterializeRow, BatchExprValues;
    ValuesCorrect(env, batch, e.left);
    ValuesCorrect(env, batch, e.right);
    var l := BatchExprValues(env, batch, e.left).value;
    var r := BatchExprValues(env, batch, e.right).value;
    var mask := PredicateMask(env, batch, e).value;
    CompareLength(env, batch, e.op, e.left, e.right, l, r);
    forall i | 0 <= i < batch.rowCount ensures EntryRefines(env, batch, e, mask[i], i) {
      assert RowRefines(env, batch, e.left, l.at[i], i) && RowRefines(env, batch, e.right, r.at[i], i);
      CompareMasksRefine(env, batch, e.op, e.left, e.right, l, r, i);
    }
  }

  lemma {:induction false} BetweenCorrect(env: Env, batch: Batch, e: Expr)
    requires ScalarBatch(batch) && Faithful(env, batch, e) && e.Between?
    requires PredicateMask(env, batch, e).Ok?
    ensures MaskRefines(env, batch, e, PredicateMask(env, batch, e).value)
    decreases e, 2, 0
  {
    hide MaterializeRow;
    ValuesCorrect(env, batch, e.target);
    ValuesCorrect(env, batch, e.low);
    ValuesCorrect(env, batch, e.high);
    var t := BatchExprValues(env, batch, e.target).value;
    var l := BatchExprValues(env, batch, e.low).value;
    var h := BatchExprValues(env, batch, e.high).value;
    var mask := PredicateMask(env, batch, e).value;
    CompareLength(env, batch, Gte, e.target, e.low, t, l);
    forall i | 0 <= i < batch.rowCount ensures EntryRefines(env, batch, e, mask[i], i) {
      assert RowRefines(env, batch, e.target, t.at[i], i);
      assert RowRefines(env, batch, e.low, l.at[i], i) && RowRefines(env, batch, e.high, h.at[i], i);
      CompareMasksRefine(env, batch, Gte, e.target, e.low, t, l, i);
      CompareMasksRefine(env, batch, Lte, e.target, e.high, t, h, i);
    }
  }

  lemma CompareLength(env: Env, batch: Batch, op: CompareOp, left: Expr, right: Expr, l: ExprValues, r: ExprValues)
    requires ScalarBatch(batch) && Backed(l) && Backed(r)
    requires ValuesRefine(env, batch, left, l) && ValuesRefine(env, batch, right, r)
    requires KernelSafe(env, batch, op, left, right)
    requires CompareMasks(env, batch.rowCount, op, l, r).Ok?
    ensures |CompareMasks(env, batch.rowCount, op, l, r).value| == batch.rowCount
  {
    var n := batch.rowCount;
    if FastCompareMasks(env, op, l, r).None? {
      SequenceMeans(seq(n, k requires 0 <= k < n => CompareAt(env, op, ValueOf(l, k), ValueOf(r, k))));
    }
  }

  lemma {:induction false} InCorrect(env: Env, batch: Batch, e: Expr)
    requires ScalarBatch(batch) && Faithful(env, batch, e) && e.In?
    requires PredicateMask(env, batch, e).Ok?
    ensures MaskRefines(env, batch, e, PredicateMask(env, batch, e).value)
    decreases e, 2, 0
  {
    hide MaterializeRow, BatchExprValues;
    ValuesCorrect(env, batch, e.target);
    var n := batch.rowCount;
    var t := BatchExprValues(env, batch, e.target).value;
    var vs := AllValues(env, batch, e.values).value;
    var mask := PredicateMask(env, batch, e).value;
    SequenceMeans(seq(n, i requires 0 <= i < n => InAt(env, e.negated, ValueOf(t, i), RowOf(vs, i))));
    forall i | 0 <= i < n ensures EntryRefines(env, batch, e, mask[i], i) {
      assert RowRefines(env, batch, e.target, t.at[i], i);
      AllValuesCorrect(env, batch, e.values, i);
      assert InAt(env, e.negated, ValueOf(t, i), RowOf(vs, i)) == Ok(mask[i]);
      InPathsAgree(env, t.at[i].value, Sequence(RowOf(vs, i)).value, false);
    }
  }

  lemma {:induction false} NullCheckCorrect(env: Env, batch: Batch, e: Expr)
    requires ScalarBatch(batch) && Faithful(env, batch, e) && e.NullCheck?
    requires PredicateMask(env, batch, e).Ok?
    ensures MaskRefines(env, batch, e, PredicateMask(env, batch, e).value)
    decreases e, 2, 0
  {
    ValuesCorrect(env, batch, e.target);
    var n, t := batch.rowCount, BatchExprValues(env, batch, e.target).value;
    var mask := PredicateMask(env, batch, e).value;
    SequenceMeans(seq(n, i requires 0 <= i < n => NullCheckAt(e.negated, ValueOf(t, i))));
    forall i | 0 <= i < n ensures EntryRefines(env, batch, e, mask[i], i) {
      assert RowRefines(env, batch, e.target, t.at[i], i);
    }
  }

  /** One row of a connective: the masks combine as the operands' values do. */
  lemma {:induction false} LogicalRow(env: Env, batch: Batch, op: LogicalOp, es: seq<Expr>, i: nat)
    requires ScalarBatch(batch) && i < batch.rowCount && AllFaithful(env, batch, es) && es != []
    requires AllMasks(env, batch, es).Ok?
    ensures var masks, start := AllMasks(env, batch, es).value, if op == And then True else False;
      && |masks| > 0 && |ReduceMasks(op, masks[0], masks[1..])| == batch.rowCount
      && EvaluateLogical(env, op, es, start, MaterializeRow(batch, i))
      == Ok(MaskSql(ReduceMasks(op, masks[0], masks[1..])[i]))
    decreases es, 1
  {
    hide Evaluate, Faithful, MaterializeRow, PredicateMask, ReduceMasks;
    var masks := AllMasks(env, batch, es).value;
    MaskCorrect(env, batch, es[0]);
    assert EntryRefines(env, batch, es[0], masks[0][i], i);
    assert masks[1..] == AllMasks(env, batch, es[1..]).value;
    ReduceCorrect(env, batch, op, masks[0], es[1..], i);
  }

  lemma {:induction false} LogicalCorrect(env: Env, batch: Batch, e: Expr)
    requires ScalarBatch(batch) && Faithful(env, batch, e) && e.Logical?
    requires PredicateMask(env, batch, e).Ok?
    ensures MaskRefines(env, batch, e, PredicateMask(env, batch, e).value)
    decreases e, 2, 0
  {
    hide MaterializeRow, BatchExprValues, ReduceMasks, EvaluateLogical;
    var es, mask := e.operands, PredicateMask(env, batch, e).value;
    var masks := AllMasks(env, batch, es).value;
    assert AllFaithful(env, batch, es);
    MaskCorrect(env, batch, es[0]);
    ReduceLength(e.logic, masks[0], masks[1..]);
    forall i | 0 <= i < batch.rowCount ensures EntryRefines(env, batch, e, mask[i], i) {
      LogicalRow(env, batch, e.logic, es, i);
      assert Evaluate(env, e, MaterializeRow(batch, i)) == Ok(ToScalar(MaskSql(mask[i])));
    }
  }

  lemma {:induction false} ReduceLength(op: LogicalOp, acc: seq<MaskValue>, masks: seq<seq<MaskValue>>)
    ensures |ReduceMasks(op, acc, masks)| == |acc|
    decreases masks
  {
    if masks != [] {
      ReduceLength(op, LogicMasks(op, acc, masks[0]), masks[1..]);
    }
  }

  /** The rows a vectorised filter keeps are the rows the row filter keeps. */
  lemma SelectionIsMatches(env: Env, batch: Batch, e: Expr, i: nat)
    requires ScalarBatch(batch) && Faithful(env, batch, e) && i < batch.rowCount
    requires PredicateMask(env, batch, e).Ok?
    ensures |PredicateMask(env, batch, e).value| == batch.rowCount
    ensures Matches(env, Some(e), MaterializeRow(batch, i)) == Ok(PredicateMask(env, batch, e).value[i] == 1)
  {
    MaskCorrect(env, batch, e);
    assert EntryRefines(env, batch, e, PredicateMask(env, batch, e).value[i], i);
  }
}
