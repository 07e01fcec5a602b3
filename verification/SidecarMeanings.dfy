/** Exactly which files the sidecar check skips, said of the recorded range and
    the literals of the filter. */
module SidecarMeanings {
  import opened Scalars
  import opened ValueOrders
  import opened Expressions
  import opened Sidecar

  /** A literal that is compared with a recorded extreme: of the same type, or a big
      integer beside a number that is a safe integer. */
  predicate Compared(extreme: Scalar, v: Scalar) {
    match (extreme, v)
    case (Str(_), Str(_)) => true
    case (Bool(_), Bool(_)) => true
    case (BigInt(_), BigInt(_)) => true
    case (Number(Fin(_)), Number(Fin(_))) => true
    case (Number(n), BigInt(_)) => IsSafeInteger(n)
    case (BigInt(_), Number(n)) => IsSafeInteger(n)
    case _ => false
  }

  predicate RangeCompared(stats: Stats, v: Scalar) {
    Compared(stats.min, v) && Compared(stats.max, v)
  }

  predicate Outside(stats: Stats, v: Scalar) {
    Precedes(v, stats.min) || Precedes(stats.max, v)
  }

  /** The range rules out every value the comparison is true of. */
  predicate RuledOut(stats: Stats, op: CompareOp, v: Scalar) {
    match op
    case Eq => Outside(stats, v)
    case Ne => !Precedes(stats.min, v) && !Precedes(v, stats.min) && !Precedes(stats.max, v) && !Precedes(v, stats.max)
    case Lt => !Precedes(stats.min, v)
    case Lte => Precedes(v, stats.min)
    case Gt => !Precedes(v, stats.max)
    case Gte => Precedes(stats.max, v)
  }

  predicate Indexed(stats: Stats) {
    IsIndexValue(stats.min) && IsIndexValue(stats.max)
  }

  lemma ComparedMeans(p: Pruner, extreme: Scalar, v: Scalar)
    requires IsIndexValue(extreme) && IsIndexValue(v)
    ensures SameComparableType(extreme, v) <==> Compared(extreme, v)
    ensures Compared(extreme, v) ==>
      && (CompareIndexValues(p, extreme, v) < 0 <==> Precedes(extreme, v))
      && (CompareIndexValues(p, extreme, v) > 0 <==> Precedes(v, extreme))
      && (CompareIndexValues(p, v, extreme) < 0 <==> Precedes(v, extreme))
      && (CompareIndexValues(p, v, extreme) > 0 <==> Precedes(extreme, v))
  {
    LooseOrderMeans(extreme, v);
    LooseOrderMeans(v, extreme);
    hide LooseOrder, Precedes;
  }

  /** A later value replaces an extreme only when it lies strictly beyond it. */
  lemma ExtremesMove(p: Pruner, stats: Stats, v: Scalar)
    requires Indexed(stats) && IsIndexValue(v) && SameClass(v, stats.min) && SameClass(v, stats.max)
    ensures Widen(p, Some(stats), v).min == if Precedes(v, stats.min) then v else stats.min
    ensures Widen(p, Some(stats), v).max == if Precedes(stats.max, v) then v else stats.max
  {
    LooseOrderMeans(v, stats.min);
    LooseOrderMeans(v, stats.max);
    hide LooseOrder, Precedes;
  }

  lemma StatsCheckMeans(p: Pruner, stats: Stats, op: CompareOp, v: Scalar)
    requires Indexed(stats) && IsIndexValue(v)
    ensures StatsMayMatch(p, stats, op, v) <==> !(RangeCompared(stats, v) && RuledOut(stats, op, v))
  {
    ComparedMeans(p, stats.min, v);
    ComparedMeans(p, stats.max, v);
    hide Precedes, Compared, CompareIndexValues, SameComparableType;
  }

  /** A comparison of an indexed column and a literal skips its file exactly when the
      literal is compared with the range and the range rules the comparison out. */
  lemma CompareSkipsExactly(p: Pruner, file: SidecarFile, op: CompareOp, column: string, v: Scalar, stats: Stats)
    requires StatsOf(file, column) == Some(stats) && Indexed(stats) && IsIndexValue(v)
    ensures !FileMayMatch(p, file, Expr.Compare(op, Column(column), Literal(v))) <==>
      RangeCompared(stats, v) && RuledOut(stats, op, v)
    ensures !FileMayMatch(p, file, Expr.Compare(op, Literal(v), Column(column))) <==>
      RangeCompared(stats, v) && RuledOut(stats, op, v)
  {
    StatsCheckMeans(p, stats, op, v);
    hide StatsMayMatch, RuledOut;
  }

  /** `between` skips exactly when the whole range lies beyond one of its limits. */
  lemma BetweenSkipsExactly(p: Pruner, file: SidecarFile, column: string, low: Scalar, high: Scalar, stats: Stats)
    requires StatsOf(file, column) == Some(stats) && Indexed(stats) && IsIndexValue(low) && IsIndexValue(high)
    ensures !FileMayMatch(p, file, Expr.Between(Column(column), Literal(low), Literal(high))) <==>
      && Compared(stats.min, low) && Compared(stats.max, high)
      && (CompareIndexValues(p, stats.max, low) < 0 || CompareIndexValues(p, stats.min, high) > 0)
    ensures RangeCompared(stats, low) && RangeCompared(stats, high) ==>
      (!FileMayMatch(p, file, Expr.Between(Column(column), Literal(low), Literal(high))) <==>
         Precedes(stats.max, low) || Precedes(high, stats.min))
  {
    ComparedMeans(p, stats.min, low);
    ComparedMeans(p, stats.max, high);
    ComparedMeans(p, stats.max, low);
    ComparedMeans(p, stats.min, high);
    hide Precedes, Compared, CompareIndexValues, SameComparableType;
  }

  /** A list member that cannot be what a cell of this file equals. */
  predicate MemberRuledOut(stats: Stats, e: Expr) {
    e.Literal? && IsIndexValue(e.value) && RangeCompared(stats, e.value) && Outside(stats, e.value)
  }

  lemma {:induction false} MembersMean(p: Pruner, stats: Stats, values: seq<Expr>)
    requires Indexed(stats)
    ensures SomeValueWithin(p, stats, values) <==>
      exists i :: 0 <= i < |values| && !MemberRuledOut(stats, values[i])
  {
    if values != [] {
      MembersMean(p, stats, values[1..]);
      assert forall i :: 1 <= i < |values| ==> values[i] == values[1..][i - 1];
      if values[0].Literal? && IsIndexValue(values[0].value) {
        StatsCheckMeans(p, stats, Eq, values[0].value);
      }
      hide RangeCompared, Outside, StatsMayMatch;
    }
  }

  /** `in` skips exactly when every listed value is a literal outside the range, and
      `not in` never. */
  lemma InSkipsExactly(p: Pruner, file: SidecarFile, negated: bool, column: string, values: seq<Expr>, stats: Stats)
    requires StatsOf(file, column) == Some(stats) && Indexed(stats)
    ensures !FileMayMatch(p, file, Expr.In(negated, Column(column), values)) <==>
      !negated && forall i :: 0 <= i < |values| ==> MemberRuledOut(stats, values[i])
  {
    MembersMean(p, stats, values);
    hide MemberRuledOut, SomeValueWithin;
  }

  lemma {:induction false} OperandsMean(p: Pruner, file: SidecarFile, es: seq<Expr>)
    ensures EveryMayMatch(p, file, es) <==> forall i :: 0 <= i < |es| ==> FileMayMatch(p, file, es[i])
    ensures SomeMayMatch(p, file, es) <==> exists i :: 0 <= i < |es| && FileMayMatch(p, file, es[i])
  {
    hide FileMayMatch;
    if es != [] {
      OperandsMean(p, file, es[1..]);
      assert forall i :: 1 <= i < |es| ==> es[i] == es[1..][i - 1];
    }
  }

  /** `and` skips if one operand does, `or` if all do; `not`, null checks, LIKE and
      anything without an index entry never skip. */
  lemma NestingSkipsExactly(p: Pruner, file: SidecarFile, e: Expr)
    ensures e.Logical? && e.logic == And ==>
      (!FileMayMatch(p, file, e) <==> exists i :: 0 <= i < |e.operands| && !FileMayMatch(p, file, e.operands[i]))
    ensures e.Logical? && e.logic == Or ==>
      (!FileMayMatch(p, file, e) <==> forall i :: 0 <= i < |e.operands| ==> !FileMayMatch(p, file, e.operands[i]))
    ensures e.Not? || e.NullCheck? || e.Like? || e.Literal? || e.Column? || e.Arithmetic? || e.Case? ==>
      FileMayMatch(p, file, e)
    ensures file.columns.None? && (e.Compare? || e.Between? || e.In?) ==> FileMayMatch(p, file, e)
  {
    if e.Logical? {
      OperandsMean(p, file, e.operands);
    }
    hide EveryMayMatch, SomeMayMatch;
  }
}
