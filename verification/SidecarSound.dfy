/** Sidecar pruning never drops a matching row, and where it would: an ordered
    comparison with the literal on the left, whose operator is not flipped.
    Soundness goes by induction over the predicate. One comparison against a
    column's range comes first, then between and in, which are built from it,
    then the logical operators. */
module SidecarSound {
  import opened Scalars
  import opened Expressions
  import opened Predicates
  import opened Sidecar

  predicate Ordered(op: CompareOp) {
    op != Eq && op != Ne
  }

  // ----- One comparison -----

  /** Whether the comparison of a cell and a value of one class is true. */
  lemma CompareInClass(env: Env, op: CompareOp, cell: Scalar, v: Scalar)
    requires IsIndexValue(cell) && IsIndexValue(v) && SameClass(cell, v)
    ensures CompareValues(env, op, cell, v) == Ok(SqlOf(CompareOrder(op, LooseOrder(cell, v))))
    ensures CompareValues(env, op, v, cell) == Ok(SqlOf(CompareOrder(op, LooseOrder(v, cell))))
  {
  }

  predicate Comparable(stats: Stats, v: Scalar) {
    SameComparableType(stats.min, v) && SameComparableType(stats.max, v)
  }

  /** A cell whose comparison is true keeps the file. */
  lemma CellKeepsFile(env: Env, p: Pruner, op: CompareOp, cells: seq<Scalar>, stats: Stats, cell: Scalar, v: Scalar)
    requires Covers(Some(stats), cells) && Homogeneous(cells) && cell in cells && IsIndexValue(v)
    requires CompareValues(env, op, cell, v) == Ok(True)
    ensures StatsMayMatch(p, stats, op, v)
  {
    if Comparable(stats, v) && !cell.Null? {
      hide Covers, Homogeneous, LooseOrder, CompareValues;
      ClassTransitive(cell, stats.min, v);
      CompareInClass(env, op, cell, v);
      ClassOrder(stats.min, v);
      ClassOrder(stats.max, v);
      ClassOrder(cell, v);
      ClassOrder(cell, stats.min);
      ClassOrder(cell, stats.max);
      ClassTransitive(stats.min, cell, v);
      ClassTransitive(v, cell, stats.max);
    }
  }

  /** For every operator but equality the check is exact: the file is kept if and
      only if some cell satisfies the comparison. */
  lemma CheckIsExact(env: Env, p: Pruner, op: CompareOp, cells: seq<Scalar>, stats: Stats, v: Scalar)
    requires Covers(Some(stats), cells) && Homogeneous(cells) && IsIndexValue(v) && Comparable(stats, v) && op != Eq
    ensures StatsMayMatch(p, stats, op, v) <==>
      exists cell :: cell in cells && CompareValues(env, op, cell, v) == Ok(True)
  {
    CompareInClass(env, op, stats.min, v);
    CompareInClass(env, op, stats.max, v);
    if cell :| cell in cells && CompareValues(env, op, cell, v) == Ok(True) {
      CellKeepsFile(env, p, op, cells, stats, cell, v);
    }
    if StatsMayMatch(p, stats, op, v) {
      var found :=
        if op == Gt || op == Gte || (op == Ne && LooseOrder(stats.min, v) == 0) then stats.max else stats.min;
      assert found in cells && CompareValues(env, op, found, v) == Ok(True);
    }
  }

  lemma FlippedValues(env: Env, op: CompareOp, cell: Scalar, v: Scalar)
    requires IsIndexValue(v) && (cell.Null? || (IsIndexValue(cell) && SameClass(cell, v)))
    ensures CompareValues(env, op, v, cell) == CompareValues(env, FlipCompareOp(op), cell, v)
  {
    if !cell.Null? {
      CompareInClass(env, op, cell, v);
      CompareInClass(env, FlipCompareOp(op), cell, v);
      ClassOrder(cell, v);
    }
  }

  /** With the literal on the left, the file is wrongly skipped exactly when the
      unflipped check refuses it and the flipped one would keep it. */
  lemma LiteralLeftExact(env: Env, p: Pruner, op: CompareOp, cells: seq<Scalar>, stats: Stats, v: Scalar)
    requires Covers(Some(stats), cells) && Homogeneous(cells) && IsIndexValue(v) && Comparable(stats, v) && op != Eq
    ensures (!StatsMayMatch(p, stats, op, v)
             && exists cell :: cell in cells && CompareValues(env, op, v, cell) == Ok(True))
       <==> (!StatsMayMatch(p, stats, op, v) && StatsMayMatch(p, stats, FlipCompareOp(op), v))
  {
    CheckIsExact(env, p, FlipCompareOp(op), cells, stats, v);
    forall cell | cell in cells
      ensures CompareValues(env, op, v, cell) == CompareValues(env, FlipCompareOp(op), cell, v)
    {
      if !cell.Null? {
        ClassTransitive(cell, stats.min, v);
      }
      FlippedValues(env, op, cell, v);
    }
  }

  /** `5 < c` over a file whose only value of `c` is 10: skipped, though it matches. */
  lemma LiteralLeftIsLost(env: Env, p: Pruner)
    ensures var five, ten := Number(Fin(5.0)), Number(Fin(10.0));
            var rows := [map["c" := ten]];
            var e := Expr.Compare(Lt, Literal(five), Column("c"));
            var file := SidecarFile("a", Some(map["c" := Stats(ten, ten, 0)]));
            && Covers(Some(Stats(ten, ten, 0)), CellsOf(rows, "c")) && Homogeneous(CellsOf(rows, "c"))
            && Evaluate(env, e, rows[0]) == Ok(Bool(true))
            && !FileMayMatch(p, file, e)
  {
    var ten := Number(Fin(10.0));
    var rows := [map["c" := ten]];
    assert CellsOf(rows, "c") == [ten];
    assert ten in CellsOf(rows, "c") && !AllNull(CellsOf(rows, "c"));
  }

  /** A cell is null, a number or a text; texts are compared by code unit with
      each other and as numbers with a number. */
  function MixedColumn(): seq<Scalar> {
    [Number(Fin(5.0)), Str("4"), Str("30"), Number(Fin(20.0)), Number(Fin(40.0))]
  }

  /** What the runtime makes of the mixed pairs: 4 < 5 < 30, 20 < 30 < 40. */
  predicate ComparesAsNumbers(p: Pruner) {
    && p.coerce(Str("4"), Number(Fin(5.0))) == -1 && p.coerce(Str("30"), Number(Fin(5.0))) == 1
    && p.coerce(Number(Fin(20.0)), Str("30")) == -1 && p.coerce(Number(Fin(40.0)), Str("30")) == 1
  }

  lemma MixedExtremes(p: Pruner)
    requires ComparesAsNumbers(p)
    ensures StatsFor(p, MixedColumn()) == Some(Stats(Number(Fin(20.0)), Number(Fin(40.0)), 0))
  {
    var c := MixedColumn();
    assert c[..5] == c && c[..5][..4] == c[..4] && c[..4][..3] == c[..3] && c[..3][..2] == c[..2]
           && c[..2][..1] == c[..1] && c[..1][..0] == [];
    assert Extremes(p, c[..1]) == Some(Stats(c[0], c[0], 0));
    assert Extremes(p, c[..2]) == Some(Stats(c[1], c[0], 0));
    assert LexOrder("30", "4") < 0;
    assert Extremes(p, c[..3]) == Some(Stats(c[2], c[2], 0));
    assert Extremes(p, c[..4]) == Some(Stats(c[3], c[2], 0));
    assert NullsIn(c[..5]) == NullsIn(c[..4]) == NullsIn(c[..3]) == NullsIn(c[..2]) == NullsIn(c[..1]) == 0;
  }

  function RowsWith(cells: seq<Scalar>): (rows: seq<Row>)
    ensures |rows| == |cells| && forall i :: 0 <= i < |rows| ==> rows[i] == map["c" := cells[i]]
  {
    seq(|cells|, i requires 0 <= i < |cells| => map["c" := cells[i]])
  }

  /** A column of numbers and texts: 5, "4", "30", 20, 40. The index has the range
      20 to 40, so that `c < 10` skips the file although the first row matches. */
  lemma MixedColumnIsLost(env: Env, p: Pruner)
    requires ComparesAsNumbers(p)
    ensures var rows, e := RowsWith(MixedColumn()), Expr.Compare(Lt, Column("c"), Literal(Number(Fin(10.0))));
            var stats := StatsFor(p, CellsOf(rows, "c"));
            && stats.Some? && !Homogeneous(CellsOf(rows, "c"))
            && Evaluate(env, e, rows[0]) == Ok(Bool(true))
            && !FileMayMatch(p, SidecarFile("a", Some(map["c" := stats.value])), e)
  {
    var rows := RowsWith(MixedColumn());
    assert CellsOf(rows, "c") == MixedColumn();
    MixedExtremes(p);
    MixedClasses();
    FiveIsBelowTen(env);
    TwentyIsNotBelowTen(p);
    hide *;
  }

  lemma MixedClasses()
    ensures !Homogeneous(MixedColumn()) && MixedColumn()[0] == Number(Fin(5.0))
  {
    assert MixedColumn()[0] in MixedColumn() && MixedColumn()[1] in MixedColumn();
  }

  lemma FiveIsBelowTen(env: Env)
    ensures Evaluate(env, Expr.Compare(Lt, Column("c"), Literal(Number(Fin(10.0)))), map["c" := Number(Fin(5.0))])
         == Ok(Bool(true))
  {
    var cell, ten := Number(Fin(5.0)), Number(Fin(10.0));
    CompareInClass(env, Lt, cell, ten);
    hide CompareValues;
  }

  lemma TwentyIsNotBelowTen(p: Pruner)
    ensures var range := Stats(Number(Fin(20.0)), Number(Fin(40.0)), 0);
            !FileMayMatch(p, SidecarFile("a", Some(map["c" := range])),
                          Expr.Compare(Lt, Column("c"), Literal(Number(Fin(10.0)))))
  {
  }

  // ----- Whole predicates -----

  /** No ordered comparison with the literal on the left where pruning looks. */
  ghost predicate ColumnsOnLeft(e: Expr)
    decreases e, 1
  {
    match e
    case Compare(op, left, right) => !(left.Literal? && right.Column? && Ordered(op))
    case Logical(_, operands) => AllColumnsOnLeft(operands)
    case _ => true
  }

  ghost predicate AllColumnsOnLeft(es: seq<Expr>)
    decreases es, 0
  {
    es == [] || (ColumnsOnLeft(es[0]) && AllColumnsOnLeft(es[1..]))
  }

  /** The file's entries were built from its rows, column by column, and every
      indexed column is of one class. */
  ghost predicate Describes(file: SidecarFile, rows: seq<Row>, columns: seq<string>) {
    && (file.columns.Some? ==> IndexOf(file.columns.value, rows, columns))
    && (file.columns.Some? ==> forall c :: c in file.columns.value ==> Homogeneous(CellsOf(rows, c)))
  }

  /** Call pruning is right about this row. */
  ghost predicate CallsSound(env: Env, p: Pruner, file: SidecarFile, row: Row) {
    forall fn, args :: !p.callMayMatch(file, fn, args) ==> Evaluate(env, Call(fn, args), row) != Ok(Bool(true))
  }

  lemma StatsCoverRow(file: SidecarFile, rows: seq<Row>, columns: seq<string>, row: Row, column: string)
    requires Describes(file, rows, columns) && row in rows && StatsOf(file, column).Some?
    ensures Covers(Some(StatsOf(file, column).value), CellsOf(rows, column)) && Homogeneous(CellsOf(rows, column))
    ensures CellOf(row, column) in CellsOf(rows, column)
  {
    assert column in columns;
    assert Summarises(Some(file.columns.value[column]), CellsOf(rows, column));
    var i :| 0 <= i < |rows| && rows[i] == row;
    assert CellsOf(rows, column)[i] == CellOf(row, column);
  }

  /** A row whose cell satisfies the comparison keeps the file. */
  lemma RowKeepsFile(
    env: Env, p: Pruner, file: SidecarFile, rows: seq<Row>, columns: seq<string>, row: Row,
    op: CompareOp, column: string, v: Scalar)
    requires Describes(file, rows, columns) && row in rows && StatsOf(file, column).Some? && IsIndexValue(v)
    requires CompareValues(env, op, CellOf(row, column), v) == Ok(True)
    ensures StatsMayMatch(p, StatsOf(file, column).value, op, v)
  {
    hide *;
    StatsCoverRow(file, rows, columns, row, column);
    CellKeepsFile(env, p, op, CellsOf(rows, column), StatsOf(file, column).value, CellOf(row, column), v);
  }

  /** The same with the operands swapped, for an operator that does not change. */
  lemma RowKeepsFileSwapped(
    env: Env, p: Pruner, file: SidecarFile, rows: seq<Row>, columns: seq<string>, row: Row,
    op: CompareOp, column: string, v: Scalar)
    requires Describes(file, rows, columns) && row in rows && StatsOf(file, column).Some? && IsIndexValue(v)
    requires CompareValues(env, op, v, CellOf(row, column)) == Ok(True) && !Ordered(op)
    ensures StatsMayMatch(p, StatsOf(file, column).value, op, v)
  {
    StatsCoverRow(file, rows, columns, row, column);
    var cell, stats := CellOf(row, column), StatsOf(file, column).value;
    hide Describes, Covers, Homogeneous, LooseOrder, CellOf, CellsOf, StatsOf;
    if Comparable(stats, v) && !cell.Null? {
      ClassTransitive(cell, stats.min, v);
      FlippedValues(env, op, cell, v);
      CellKeepsFile(env, p, op, CellsOf(rows, column), stats, cell, v);
    }
  }

  lemma TrueCompare(env: Env, op: CompareOp, left: Expr, right: Expr, row: Row)
    requires Evaluate(env, Expr.Compare(op, left, right), row) == Ok(Bool(true))
    ensures Evaluate(env, left, row).Ok? && Evaluate(env, right, row).Ok?
    ensures CompareValues(env, op, Evaluate(env, left, row).value, Evaluate(env, right, row).value) == Ok(True)
  {
  }

  lemma ColumnCell(env: Env, column: string, row: Row)
    requires Evaluate(env, Column(column), row).Ok?
    ensures Evaluate(env, Column(column), row).value == CellOf(row, column)
  {
  }

  lemma LiteralValue(env: Env, v: Scalar, row: Row)
    ensures Evaluate(env, Literal(v), row) == Ok(v)
  {
  }

  lemma CompareSound(
    env: Env, p: Pruner, file: SidecarFile, rows: seq<Row>, columns: seq<string>, row: Row,
    op: CompareOp, left: Expr, right: Expr)
    requires Describes(file, rows, columns) && row in rows
    requires !(left.Literal? && right.Column? && Ordered(op))
    requires Evaluate(env, Expr.Compare(op, left, right), row) == Ok(Bool(true))
    ensures CompareMayMatch(p, file, op, left, right)
  {
    hide Describes, Evaluate, CompareValues, StatsMayMatch, CellOf, StatsOf;
    TrueCompare(env, op, left, right, row);
    var pair := ColumnLiteralPair(left, right);
    if pair.Some? && StatsOf(file, pair.value.0).Some? {
      var column, v := pair.value.0, pair.value.1;
      ColumnCell(env, column, row);
      LiteralValue(env, v, row);
      if left.Column? && right.Literal? && IsIndexValue(right.value) {
        RowKeepsFile(env, p, file, rows, columns, row, op, column, v);
      } else {
        RowKeepsFileSwapped(env, p, file, rows, columns, row, op, column, v);
      }
    }
  }

  lemma TrueBetween(env: Env, target: Expr, low: Expr, high: Expr, row: Row)
    requires Evaluate(env, Expr.Between(target, low, high), row) == Ok(Bool(true))
    ensures Evaluate(env, target, row).Ok? && Evaluate(env, low, row).Ok? && Evaluate(env, high, row).Ok?
    ensures var t := Evaluate(env, target, row).value;
            && CompareValues(env, Gte, t, Evaluate(env, low, row).value) == Ok(True)
            && CompareValues(env, Lte, t, Evaluate(env, high, row).value) == Ok(True)
  {
  }

  /** A cell between the limits leaves room between the column's extremes. */
  lemma CellBetween(env: Env, p: Pruner, cells: seq<Scalar>, stats: Stats, cell: Scalar, low: Scalar, high: Scalar)
    requires Covers(Some(stats), cells) && Homogeneous(cells) && cell in cells
    requires IsIndexValue(low) && IsIndexValue(high)
    requires SameComparableType(stats.min, low) && SameComparableType(stats.max, high)
    requires CompareValues(env, Gte, cell, low) == Ok(True) && CompareValues(env, Lte, cell, high) == Ok(True)
    ensures CompareIndexValues(p, stats.max, low) >= 0 && CompareIndexValues(p, stats.min, high) <= 0
  {
    assert !cell.Null?;
    hide Covers, Homogeneous, LooseOrder;
    ClassTransitive(cell, stats.min, low);
    ClassTransitive(cell, stats.max, high);
    CompareInClass(env, Gte, cell, low);
    CompareInClass(env, Lte, cell, high);
    ClassOrder(low, cell);
    ClassTransitive(low, cell, stats.max);
    ClassTransitive(stats.min, cell, high);
    ClassOrder(low, stats.max);
  }

  lemma BetweenSound(
    env: Env, p: Pruner, file: SidecarFile, rows: seq<Row>, columns: seq<string>, row: Row,
    target: Expr, low: Expr, high: Expr)
    requires Describes(file, rows, columns) && row in rows
    requires Evaluate(env, Expr.Between(target, low, high), row) == Ok(Bool(true))
    ensures BetweenMayMatch(p, file, target, low, high)
  {
    hide Describes, Evaluate, CompareValues, CellOf, StatsOf, SameComparableType, CompareIndexValues, Covers;
    hide Homogeneous;
    TrueBetween(env, target, low, high, row);
    if target.Column? && low.Literal? && high.Literal? && StatsOf(file, target.name).Some? {
      var column, stats := target.name, StatsOf(file, target.name).value;
      StatsCoverRow(file, rows, columns, row, column);
      ColumnCell(env, column, row);
      LiteralValue(env, low.value, row);
      LiteralValue(env, high.value, row);
      if IsIndexValue(low.value) && IsIndexValue(high.value)
         && SameComparableType(stats.min, low.value) && SameComparableType(stats.max, high.value) {
        CellBetween(env, p, CellsOf(rows, column), stats, CellOf(row, column), low.value, high.value);
      }
    }
  }

  /** A true IN has a value equal to the target. */
  lemma {:induction false} InHasEqual(env: Env, target: Scalar, values: seq<Scalar>, sawNull: bool) returns (i: nat)
    requires InListFrom(env, target, values, sawNull) == Ok(True)
    ensures i < |values| && CompareValues(env, Eq, target, values[i]) == Ok(True)
    decreases values
  {
    var c := CompareValues(env, Eq, target, values[0]);
    if c == Ok(True) {
      i := 0;
    } else {
      var j := InHasEqual(env, target, values[1..], sawNull || c.value == Unknown);
      i := j + 1;
    }
  }

  lemma {:induction false} ValueKept(p: Pruner, stats: Stats, values: seq<Expr>, i: nat)
    requires i < |values| && ValueWithin(p, stats, values[i])
    ensures SomeValueWithin(p, stats, values)
  {
    if i > 0 {
      ValueKept(p, stats, values[1..], i - 1);
    }
  }

  lemma {:induction false} EvaluatedAt(env: Env, es: seq<Expr>, row: Row, i: nat)
    requires EvaluateAll(env, es, row).Ok? && i < |es|
    ensures Evaluate(env, es[i], row) == Ok(EvaluateAll(env, es, row).value[i])
    decreases es
  {
    if i > 0 {
      EvaluatedAt(env, es[1..], row, i - 1);
    }
  }

  lemma TrueIn(env: Env, target: Expr, values: seq<Expr>, row: Row)
    requires Evaluate(env, Expr.In(false, target, values), row) == Ok(Bool(true))
    ensures Evaluate(env, target, row).Ok? && EvaluateAll(env, values, row).Ok?
    ensures InListFrom(env, Evaluate(env, target, row).value, EvaluateAll(env, values, row).value, false) == Ok(True)
  {
  }

  lemma InSound(
    env: Env, p: Pruner, file: SidecarFile, rows: seq<Row>, columns: seq<string>, row: Row,
    negated: bool, target: Expr, values: seq<Expr>)
    requires Describes(file, rows, columns) && row in rows
    requires Evaluate(env, Expr.In(negated, target, values), row) == Ok(Bool(true))
    ensures InMayMatch(p, file, negated, target, values)
  {
    if !negated && target.Column? && StatsOf(file, target.name).Some? {
      var column := target.name;
      hide Describes, Evaluate, EvaluateAll, CompareValues, CellOf, StatsOf, StatsMayMatch, InListFrom, SomeValueWithin;
      TrueIn(env, target, values, row);
      ColumnCell(env, column, row);
      var vs := EvaluateAll(env, values, row).value;
      var i := InHasEqual(env, CellOf(row, column), vs, false);
      EvaluatedAt(env, values, row, i);
      if values[i].Literal? && IsIndexValue(values[i].value) {
        LiteralValue(env, values[i].value, row);
        RowKeepsFile(env, p, file, rows, columns, row, Eq, column, values[i].value);
      }
      ValueKept(p, StatsOf(file, column).value, values, i);
    }
  }

  /** If a conjunction is true so is each operand; a true disjunction has a true one. */
  lemma {:induction false} LogicalOperands(env: Env, op: LogicalOp, es: seq<Expr>, acc: SqlBool, row: Row)
    requires EvaluateLogical(env, op, es, acc, row) == Ok(True)
    ensures op == And ==> acc == True && forall i :: 0 <= i < |es| ==> Evaluate(env, es[i], row) == Ok(Bool(true))
    ensures op == Or ==> acc == True || exists i :: 0 <= i < |es| && Evaluate(env, es[i], row) == Ok(Bool(true))
    decreases es
  {
    if es != [] {
      var b := ToSqlBool(Evaluate(env, es[0], row).value).value;
      LogicalOperands(env, op, es[1..], SqlLogic(op, acc, b), row);
      assert forall i :: 1 <= i < |es| ==> es[i] == es[1..][i - 1];
      if op == Or && acc != True && b != True {
        var i :| 0 <= i < |es[1..]| && Evaluate(env, es[1..][i], row) == Ok(Bool(true));
        assert Evaluate(env, es[i + 1], row) == Ok(Bool(true));
      }
    }
  }

  /** A row that matches keeps its file, through every nesting of and, or, not,
      comparisons, between and in. */
  lemma {:induction false} MatchKeepsFile(
    env: Env, p: Pruner, file: SidecarFile, rows: seq<Row>, columns: seq<string>, row: Row, e: Expr)
    requires Describes(file, rows, columns) && row in rows && CallsSound(env, p, file, row) && ColumnsOnLeft(e)
    requires Evaluate(env, e, row) == Ok(Bool(true))
    ensures FileMayMatch(p, file, e)
    decreases e, 1
  {
    match e {
      case Compare(op, left, right) => CompareSound(env, p, file, rows, columns, row, op, left, right);
      case Between(target, low, high) => BetweenSound(env, p, file, rows, columns, row, target, low, high);
      case In(negated, target, values) => InSound(env, p, file, rows, columns, row, negated, target, values);
      case Logical(op, operands) =>
        LogicalOperands(env, op, operands, if op == And then True else False, row);
        if op == And {
          AllMatchKeepsFile(env, p, file, rows, columns, row, operands);
        } else {
          var i :| 0 <= i < |operands| && Evaluate(env, operands[i], row) == Ok(Bool(true));
          OneMatchKeepsFile(env, p, file, rows, columns, row, operands, i);
        }
      case _ =>
    }
  }

  lemma {:induction false} AllMatchKeepsFile(
    env: Env, p: Pruner, file: SidecarFile, rows: seq<Row>, columns: seq<string>, row: Row, es: seq<Expr>)
    requires Describes(file, rows, columns) && row in rows && CallsSound(env, p, file, row) && AllColumnsOnLeft(es)
    requires forall i :: 0 <= i < |es| ==> Evaluate(env, es[i], row) == Ok(Bool(true))
    ensures EveryMayMatch(p, file, es)
    decreases es, 0
  {
    if es != [] {
      MatchKeepsFile(env, p, file, rows, columns, row, es[0]);
      assert forall i :: 0 <= i < |es[1..]| ==> es[1..][i] == es[i + 1];
      AllMatchKeepsFile(env, p, file, rows, columns, row, es[1..]);
    }
  }

  lemma {:induction false} OneMatchKeepsFile(
    env: Env, p: Pruner, file: SidecarFile, rows: seq<Row>, columns: seq<string>, row: Row, es: seq<Expr>, i: nat)
    requires Describes(file, rows, columns) && row in rows && CallsSound(env, p, file, row) && AllColumnsOnLeft(es)
    requires i < |es| && Evaluate(env, es[i], row) == Ok(Bool(true))
    ensures SomeMayMatch(p, file, es)
    decreases es, 0
  {
    if i == 0 {
      MatchKeepsFile(env, p, file, rows, columns, row, es[0]);
    } else {
      OneMatchKeepsFile(env, p, file, rows, columns, row, es[1..], i - 1);
    }
  }

  /** No row of a skipped file matches. */
  lemma SkippedFileHasNoMatch(
    env: Env, p: Pruner, file: SidecarFile, rows: seq<Row>, columns: seq<string>, where: Option<Expr>, row: Row)
    requires Describes(file, rows, columns) && row in rows && CallsSound(env, p, file, row)
    requires where.Some? ==> ColumnsOnLeft(where.value)
    requires !MayMatch(p, file, where)
    ensures Matches(env, where, row) != Ok(true)
  {
    if Evaluate(env, where.value, row) == Ok(Bool(true)) {
      MatchKeepsFile(env, p, file, rows, columns, row, where.value);
    }
  }
}
