/** The loops that fill masks, each equal to the specification used by
    `BatchPredicates.PredicateMask`. */
module MaskLoops {
  import opened Scalars
  import opened Expressions
  import opened Predicates
  import opened BatchPredicates

  /** `and` is decided by a 0 and `or` by a 1; undecided entries are 2. */
  predicate EntryCombines(op: LogicalOp, l: MaskValue, r: MaskValue, m: MaskValue) {
    match op
    case And => (m == 0 <==> l == 0 || r == 0) && (m == 1 <==> l == 1 && r == 1)
    case Or => (m == 1 <==> l == 1 || r == 1) && (m == 0 <==> l == 0 && r == 0)
  }

  method CombineMasks(op: LogicalOp, left: array<MaskValue>, right: array<MaskValue>) returns (mask: array<MaskValue>)
    ensures mask[..] == LogicMasks(op, left[..], right[..]) && mask.Length == left.Length
    ensures forall i :: 0 <= i < mask.Length ==>
      EntryCombines(op, left[i], if i < right.Length then right[i] else 2, mask[i])
  {
    mask := new MaskValue[left.Length];
    ghost var spec := LogicMasks(op, left[..], right[..]);
    for i := 0 to left.Length
      invariant forall j :: 0 <= j < i ==> mask[j] == spec[j]
    {
      var r := if i < right.Length then right[i] else 2;
      mask[i] := SqlMaskValue(SqlLogic(op, MaskSql(left[i]), MaskSql(r)));
    }
  }

  method NegateMask(input: array<MaskValue>) returns (mask: array<MaskValue>)
    ensures mask[..] == NotMask(input[..]) && mask.Length == input.Length
    ensures forall i :: 0 <= i < mask.Length ==>
      (mask[i] == 1 <==> input[i] == 0) && (mask[i] == 0 <==> input[i] == 1) && (mask[i] == 2 <==> input[i] == 2)
  {
    mask := new MaskValue[input.Length];
    ghost var spec := NotMask(input[..]);
    for i := 0 to input.Length
      invariant forall j :: 0 <= j < i ==> mask[j] == spec[j]
    {
      mask[i] := SqlMaskValue(SqlNot(MaskSql(input[i])));
    }
  }

  method SearchList(env: Env, target: Scalar, values: seq<Scalar>) returns (r: Result<SqlBool>)
    ensures r == InValue(env, target, values)
  {
    if target.Null? {
      return Ok(Unknown);
    }
    var sawNull := false;
    for i := 0 to |values|
      invariant InValue(env, target, values) == InValueFrom(env, target, values[i..], sawNull)
    {
      var comparison := CompareValue(env, Eq, target, values[i]);
      if comparison.Err? {
        return Err(comparison.error);
      }
      if comparison.value == True {
        return Ok(True);
      }
      if comparison.value == Unknown {
        sawNull := true;
      }
      assert values[i..][1..] == values[i + 1..];
    }
    r := Ok(if sawNull then Unknown else False);
  }

  lemma {:induction false} SequenceFails<T>(rs: seq<Result<T>>, i: nat)
    requires i < |rs| && rs[i].Err? && forall j :: 0 <= j < i ==> rs[j].Ok?
    ensures Sequence(rs) == Err(rs[i].error)
  {
    if i > 0 {
      SequenceFails(rs[1..], i - 1);
    }
  }

  lemma SequenceSucceeds<T>(rs: seq<Result<T>>, values: seq<T>)
    requires |rs| == |values| && forall j :: 0 <= j < |rs| ==> rs[j] == Ok(values[j])
    ensures Sequence(rs) == Ok(values)
  {
    SequenceMeans(rs);
    var all := Sequence(rs).value;
    forall j | 0 <= j < |rs| ensures all[j] == values[j] {
      assert rs[j] == Ok(all[j]);
    }
    assert all == values;
  }

  method CompareRows(env: Env, op: CompareOp, rowCount: nat, left: ExprValues, right: ExprValues)
    returns (r: Result<array<MaskValue>>)
    ensures var spec := Sequence(seq(rowCount, i requires 0 <= i < rowCount =>
                                       CompareAt(env, op, ValueOf(left, i), ValueOf(right, i))));
      if r.Ok? then spec == Ok(r.value[..]) else spec == Err(r.error)
  {
    ghost var rows := seq(rowCount, i requires 0 <= i < rowCount =>
                            CompareAt(env, op, ValueOf(left, i), ValueOf(right, i)));
    var mask := new MaskValue[rowCount];
    for i := 0 to rowCount
      invariant forall j :: 0 <= j < i ==> rows[j] == Ok(mask[j])
    {
      var m := CompareAt(env, op, ValueOf(left, i), ValueOf(right, i));
      if m.Err? {
        SequenceFails(rows, i);
        return Err(m.error);
      }
      mask[i] := m.value;
    }
    SequenceSucceeds(rows, mask[..]);
    r := Ok(mask);
  }

  method SearchRows(env: Env, negated: bool, rowCount: nat, target: ExprValues, values: seq<ExprValues>)
    returns (r: Result<array<MaskValue>>)
    ensures var spec := Sequence(seq(rowCount, i requires 0 <= i < rowCount =>
                                       InAt(env, negated, ValueOf(target, i), RowOf(values, i))));
      if r.Ok? then spec == Ok(r.value[..]) else spec == Err(r.error)
  {
    ghost var rows := seq(rowCount, i requires 0 <= i < rowCount =>
                            InAt(env, negated, ValueOf(target, i), RowOf(values, i)));
    var mask := new MaskValue[rowCount];
    for i := 0 to rowCount
      invariant forall j :: 0 <= j < i ==> rows[j] == Ok(mask[j])
    {
      var m := InAt(env, negated, ValueOf(target, i), RowOf(values, i));
      if m.Err? {
        SequenceFails(rows, i);
        return Err(m.error);
      }
      mask[i] := m.value;
    }
    SequenceSucceeds(rows, mask[..]);
    r := Ok(mask);
  }

  /** A non-boolean, non-null value is refused; anything else becomes its mask. */
  method ScalarToPredicateMask(rowCount: nat, values: ExprValues) returns (r: Result<array<MaskValue>>)
    ensures var spec := Sequence(seq(rowCount, i requires 0 <= i < rowCount => PredicateAt(ValueOf(values, i))));
      if r.Ok? then spec == Ok(r.value[..]) else spec == Err(r.error)
  {
    ghost var rows := seq(rowCount, i requires 0 <= i < rowCount => PredicateAt(ValueOf(values, i)));
    var mask := new MaskValue[rowCount];
    for i := 0 to rowCount
      invariant forall j :: 0 <= j < i ==> rows[j] == Ok(mask[j])
    {
      var m := PredicateAt(ValueOf(values, i));
      if m.Err? {
        SequenceFails(rows, i);
        return Err(m.error);
      }
      mask[i] := m.value;
    }
    SequenceSucceeds(rows, mask[..]);
    r := Ok(mask);
  }
}
