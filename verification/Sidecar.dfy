/** Sidecar min/max indexes: how they are built, which files they skip, and why
    no skipped file holds a matching row. */
module Sidecar {
  import opened Scalars
  import opened Expressions
  import opened Orders

  datatype Stats = Stats(min: Scalar, max: Scalar, nullCount: nat)

  datatype SidecarFile = SidecarFile(path: string, columns: Option<map<string, Stats>>)

  /** What the pruner borrows: the runtime's comparison of two values of different
      types, the path order, and the pruning of function calls. */
  datatype Pruner = Pruner(
    coerce: (Scalar, Scalar) -> int,
    comparePaths: (string, string) -> int,
    callMayMatch: (SidecarFile, string, seq<Expr>) -> bool)

  predicate IsIndexValue(v: Scalar) {
    v.Str? || (v.Number? && v.n.Fin?) || v.BigInt? || v.Bool?
  }

  predicate LosslessPair(l: Scalar, r: Scalar) {
    || (l.Number? && r.BigInt? && IsSafeInteger(l.n))
    || (l.BigInt? && r.Number? && IsSafeInteger(r.n))
  }

  predicate SameComparableType(l: Scalar, r: Scalar) {
    TypeOfScalar(l) == TypeOfScalar(r) || LosslessPair(l, r)
  }

  /** Values of one class: numeric, text or boolean. */
  predicate SameClass(l: Scalar, r: Scalar) {
    TypeOfScalar(l) == TypeOfScalar(r) || (IsNumberLike(l) && IsNumberLike(r))
  }

  function CompareIndexValues(p: Pruner, l: Scalar, r: Scalar): int {
    if SameClass(l, r) then LooseOrder(l, r) else p.coerce(l, r)
  }

  /** A value of one row for the index; an absent column counts as null. */
  function CellOf(row: Row, column: string): Scalar {
    if column in row then row[column] else Null
  }

  function CellsOf(rows: seq<Row>, column: string): (cells: seq<Scalar>)
    ensures |cells| == |rows| && forall i :: 0 <= i < |rows| ==> cells[i] == CellOf(rows[i], column)
  {
    seq(|rows|, i requires 0 <= i < |rows| => CellOf(rows[i], column))
  }

  ghost predicate AllNull(cells: seq<Scalar>) {
    forall v :: v in cells ==> v.Null?
  }

  /** The non-null values are of one class. */
  ghost predicate Homogeneous(cells: seq<Scalar>) {
    forall v, w :: v in cells && w in cells && !v.Null? && !w.Null? ==> SameClass(v, w)
  }

  ghost predicate AllBounded(cells: seq<Scalar>, stats: Stats) {
    forall v :: v in cells && !v.Null? ==> IsIndexValue(v) && Bounded(v, stats)
  }

  /** The extremes occur in the column, and bound it when it is of one class. */
  ghost predicate Covers(stats: Option<Stats>, cells: seq<Scalar>) {
    && (stats.None? <==> AllNull(cells))
    && (stats.Some? ==>
          && stats.value.min in cells && IsIndexValue(stats.value.min)
          && stats.value.max in cells && IsIndexValue(stats.value.max)
          && (Homogeneous(cells) ==> AllBounded(cells, stats.value)))
  }

  /** The statistics of a column, with its number of nulls. */
  ghost predicate Summarises(stats: Option<Stats>, cells: seq<Scalar>) {
    Covers(stats, cells) && (stats.Some? ==> stats.value.nullCount == NullsIn(cells))
  }

  predicate Bounded(v: Scalar, stats: Stats) {
    && SameClass(v, stats.min) && SameClass(v, stats.max)
    && LooseOrder(stats.min, v) <= 0 && LooseOrder(v, stats.max) <= 0
  }

  function NullsIn(cells: seq<Scalar>): nat {
    if cells == [] then 0 else NullsIn(cells[..|cells| - 1]) + if cells[|cells| - 1].Null? then 1 else 0
  }

  // ----- LooseOrder on one class -----

  lemma ClassOrder(a: Scalar, b: Scalar)
    requires IsIndexValue(a) && IsIndexValue(b) && SameClass(a, b)
    ensures LooseOrder(b, a) == -LooseOrder(a, b) && SameClass(b, a)
  {
    if a.Str? {
      LexAntisymmetric(a.s, b.s);
    }
  }

  lemma ClassTransitive(a: Scalar, b: Scalar, c: Scalar)
    requires IsIndexValue(a) && IsIndexValue(b) && IsIndexValue(c) && SameClass(a, b) && SameClass(b, c)
    ensures SameClass(a, c)
    ensures LooseOrder(a, b) <= 0 && LooseOrder(b, c) <= 0 ==> LooseOrder(a, c) <= 0
    ensures LooseOrder(a, b) <= 0 && LooseOrder(b, c) < 0 ==> LooseOrder(a, c) < 0
    ensures LooseOrder(a, b) < 0 && LooseOrder(b, c) <= 0 ==> LooseOrder(a, c) < 0
  {
    if a.Str? {
      LexAntisymmetric(a.s, b.s);
      LexAntisymmetric(b.s, c.s);
      LexAntisymmetric(a.s, c.s);
      if LexOrder(a.s, b.s) <= 0 && LexOrder(b.s, c.s) <= 0 {
        LexTransitive(a.s, b.s, c.s);
      }
    }
  }

  // ----- Building the index -----

  /** The running minimum and maximum after one more non-null value. */
  function Widen(p: Pruner, stats: Option<Stats>, v: Scalar): Stats {
    match stats
    case None => Stats(v, v, 0)
    case Some(s) =>
      Stats(if CompareIndexValues(p, v, s.min) < 0 then v else s.min,
            if CompareIndexValues(p, v, s.max) > 0 then v else s.max, 0)
  }

  /** The extremes after a scan of the cells in row order. */
  function Extremes(p: Pruner, cells: seq<Scalar>): Option<Stats>
    decreases |cells|
  {
    if cells == [] then None
    else
      var before, last := Extremes(p, cells[..|cells| - 1]), cells[|cells| - 1];
      if last.Null? then before else Some(Widen(p, before, last))
  }

  function StatsFor(p: Pruner, cells: seq<Scalar>): Option<Stats> {
    match Extremes(p, cells)
    case None => None
    case Some(stats) => Some(stats.(nullCount := NullsIn(cells)))
  }

  /** Scans one column; a value that cannot be indexed is a type error. */
  method SummariseColumn(p: Pruner, rows: seq<Row>, column: string) returns (r: Result<Option<Stats>>)
    ensures r.Err? <==> Unindexable(CellsOf(rows, column))
    ensures r.Err? ==> r.error == TypeError
    ensures r.Ok? ==> r.value == StatsFor(p, CellsOf(rows, column)) && Summarises(r.value, CellsOf(rows, column))
  {
    ghost var cells := CellsOf(rows, column);
    var stats: Option<Stats> := None;
    var nulls: nat := 0;
    NothingScanned(p, cells);
    hide *;
    for n := 0 to |rows|
      invariant Scanned(p, stats, nulls, cells, n)
    {
      var cell := CellOf(rows[n], column);
      CellAt(rows, column, n);
      ScanCell(p, stats, nulls, cells, n);
      if cell.Null? {
        nulls := nulls + 1;
      } else {
        if !IsIndexValue(cell) {
          return Err(TypeError);
        }
        stats := Some(Widen(p, stats, cell));
      }
    }
    AllScanned(p, rows, column, stats, nulls);
    if stats.Some? {
      stats := Some(stats.value.(nullCount := nulls));
    }
    return Ok(stats);
  }

  /** What the scan knows about the first n cells. */
  ghost predicate Scanned(p: Pruner, stats: Option<Stats>, nulls: nat, cells: seq<Scalar>, n: nat) {
    && n <= |cells| && !Unindexable(cells[..n])
    && stats == Extremes(p, cells[..n]) && nulls == NullsIn(cells[..n]) && Covers(stats, cells[..n])
  }

  lemma NothingScanned(p: Pruner, cells: seq<Scalar>)
    ensures Scanned(p, None, 0, cells, 0)
  {
  }

  lemma CellAt(rows: seq<Row>, column: string, n: nat)
    requires n < |rows|
    ensures |CellsOf(rows, column)| == |rows| && CellsOf(rows, column)[n] == CellOf(rows[n], column)
  {
  }

  lemma ScanCell(p: Pruner, stats: Option<Stats>, nulls: nat, cells: seq<Scalar>, n: nat)
    requires n < |cells| && Scanned(p, stats, nulls, cells, n)
    ensures cells[n].Null? ==> Scanned(p, stats, nulls + 1, cells, n + 1)
    ensures !cells[n].Null? && IsIndexValue(cells[n]) ==>
      Scanned(p, Some(Widen(p, stats, cells[n])), nulls, cells, n + 1)
    ensures !cells[n].Null? && !IsIndexValue(cells[n]) ==> Unindexable(cells)
  {
    var cell := cells[n];
    assert cells[..n + 1] == cells[..n] + [cell];
    hide Covers, Widen;
    UnindexableSnoc(cells[..n], cell);
    if cell.Null? {
      ScanNull(stats, cells[..n]);
    } else if IsIndexValue(cell) {
      ScanValue(p, stats, cells[..n], cell);
    }
  }

  lemma AllScanned(p: Pruner, rows: seq<Row>, column: string, stats: Option<Stats>, nulls: nat)
    requires Scanned(p, stats, nulls, CellsOf(rows, column), |rows|)
    ensures !Unindexable(CellsOf(rows, column))
    ensures var all := if stats.Some? then Some(stats.value.(nullCount := nulls)) else None;
      all == StatsFor(p, CellsOf(rows, column)) && Summarises(all, CellsOf(rows, column))
  {
    var cells := CellsOf(rows, column);
    assert cells[..|rows|] == cells;
    hide Covers, Summarises;
    CountIrrelevant(stats, nulls, cells);
  }

  ghost predicate Unindexable(cells: seq<Scalar>) {
    exists v :: v in cells && !v.Null? && !IsIndexValue(v)
  }

  lemma UnindexableSnoc(cells: seq<Scalar>, cell: Scalar)
    ensures Unindexable(cells + [cell]) <==> Unindexable(cells) || (!cell.Null? && !IsIndexValue(cell))
  {
    var all := cells + [cell];
    assert all[|cells|] == cell && forall i :: 0 <= i < |cells| ==> all[i] == cells[i];
  }

  lemma CountIrrelevant(stats: Option<Stats>, nulls: nat, cells: seq<Scalar>)
    requires Covers(stats, cells) && nulls == NullsIn(cells)
    ensures Summarises(if stats.Some? then Some(stats.value.(nullCount := nulls)) else None, cells)
  {
    if stats.Some? && Homogeneous(cells) {
      var counted := stats.value.(nullCount := nulls);
      forall v | v in cells && !v.Null? ensures IsIndexValue(v) && Bounded(v, counted) {
        assert Bounded(v, stats.value);
      }
    }
  }

  lemma ScanNull(stats: Option<Stats>, cells: seq<Scalar>)
    requires Covers(stats, cells)
    ensures Covers(stats, cells + [Null])
  {
    var all := cells + [Null];
    assert forall v :: v in all <==> v in cells || v == Null by {
      assert all[|cells|] == Null;
      assert forall i :: 0 <= i < |cells| ==> all[i] == cells[i];
    }
  }

  lemma ScanValue(p: Pruner, stats: Option<Stats>, cells: seq<Scalar>, cell: Scalar)
    requires Covers(stats, cells) && IsIndexValue(cell)
    ensures Covers(Some(Widen(p, stats, cell)), cells + [cell])
  {
    var all, wide := cells + [cell], Widen(p, stats, cell);
    assert forall v :: v in all <==> v in cells || v == cell by {
      assert all[|cells|] == cell;
      assert forall i :: 0 <= i < |cells| ==> all[i] == cells[i];
    }
    ClassOrder(cell, cell);
    hide Bounded, CompareIndexValues, IsIndexValue;
    if stats.Some? && Homogeneous(all) {
      forall v | v in all && !v.Null? ensures IsIndexValue(v) && Bounded(v, wide) {
        if v in cells {
          WidenKeeps(p, stats.value, cell, v);
        } else {
          WidenCovers(p, stats.value, cell);
        }
      }
    }
  }

  lemma WidenKeeps(p: Pruner, stats: Stats, cell: Scalar, v: Scalar)
    requires IsIndexValue(cell) && IsIndexValue(v) && IsIndexValue(stats.min) && IsIndexValue(stats.max)
    requires SameClass(cell, stats.min) && SameClass(cell, stats.max) && Bounded(v, stats)
    ensures Bounded(v, Widen(p, Some(stats), cell))
  {
    ClassOrder(v, stats.min);
    ClassOrder(cell, stats.min);
    ClassOrder(cell, stats.max);
    ClassOrder(v, stats.max);
    ClassTransitive(cell, stats.min, v);
    ClassTransitive(v, stats.max, cell);
    ClassOrder(cell, v);
  }

  lemma WidenCovers(p: Pruner, stats: Stats, cell: Scalar)
    requires IsIndexValue(cell) && IsIndexValue(stats.min) && IsIndexValue(stats.max)
    requires SameClass(cell, stats.min) && SameClass(cell, stats.max)
    ensures Bounded(cell, Widen(p, Some(stats), cell))
  {
    ClassOrder(cell, stats.min);
    ClassOrder(cell, stats.max);
    ClassOrder(cell, cell);
  }

  /** Every listed column is summarised; a column of nulls has no entry. */
  ghost predicate IndexOf(index: map<string, Stats>, rows: seq<Row>, columns: seq<string>) {
    && (forall c :: c in columns ==>
          Summarises(if c in index then Some(index[c]) else None, CellsOf(rows, c)))
    && (forall c :: c in index ==> c in columns)
  }

  method BuildMinMaxIndex(p: Pruner, rows: seq<Row>, columns: seq<string>) returns (r: Result<map<string, Stats>>)
    ensures r.Err? ==> r.error == TypeError
    ensures r.Err? <==> exists c :: c in columns && Unindexable(CellsOf(rows, c))
    ensures r.Ok? ==> IndexOf(r.value, rows, columns)
  {
    var out: map<string, Stats> := map[];
    hide Summarises, Unindexable;
    for n := 0 to |columns|
      invariant IndexOf(out, rows, columns[..n])
      invariant forall c :: c in columns[..n] ==> !Unindexable(CellsOf(rows, c))
    {
      var column := columns[n];
      var stats := SummariseColumn(p, rows, column);
      assert columns[..n + 1] == columns[..n] + [column];
      if stats.Err? {
        assert column in columns;
        return Err(TypeError);
      }
      if stats.value.Some? {
        out := out[column := stats.value.value];
      }
    }
    assert columns[..|columns|] == columns;
    return Ok(out);
  }

  // ----- Pruning -----

  function FileMayMatch(p: Pruner, file: SidecarFile, e: Expr): bool
    decreases e, 1
  {
    match e
    case Call(fn, args) => p.callMayMatch(file, fn, args)
    case Logical(op, operands) =>
      if op == And then EveryMayMatch(p, file, operands) else SomeMayMatch(p, file, operands)
    case Compare(op, left, right) => CompareMayMatch(p, file, op, left, right)
    case Between(target, low, high) => BetweenMayMatch(p, file, target, low, high)
    case In(negated, target, values) => InMayMatch(p, file, negated, target, values)
    case _ => true
  }

  function EveryMayMatch(p: Pruner, file: SidecarFile, es: seq<Expr>): bool
    decreases es, 0
  {
    es == [] || (FileMayMatch(p, file, es[0]) && EveryMayMatch(p, file, es[1..]))
  }

  function SomeMayMatch(p: Pruner, file: SidecarFile, es: seq<Expr>): bool
    decreases es, 0
  {
    es != [] && (FileMayMatch(p, file, es[0]) || SomeMayMatch(p, file, es[1..]))
  }

  function StatsOf(file: SidecarFile, column: string): Option<Stats> {
    if file.columns.Some? && column in file.columns.value then Some(file.columns.value[column]) else None
  }

  /** The column and the literal of a comparison, in either order. */
  function ColumnLiteralPair(left: Expr, right: Expr): Option<(string, Scalar)> {
    if left.Column? && right.Literal? && IsIndexValue(right.value) then Some((left.name, right.value))
    else if right.Column? && left.Literal? && IsIndexValue(left.value) then Some((right.name, left.value))
    else None
  }

  function CompareMayMatch(p: Pruner, file: SidecarFile, op: CompareOp, left: Expr, right: Expr): bool {
    match ColumnLiteralPair(left, right)
    case None => true
    case Some((column, value)) =>
      match StatsOf(file, column)
      case None => true
      case Some(stats) => StatsMayMatch(p, stats, op, value)
  }

  function StatsMayMatch(p: Pruner, stats: Stats, op: CompareOp, value: Scalar): bool {
    if !SameComparableType(stats.min, value) || !SameComparableType(stats.max, value) then true
    else
      match op
      case Eq => CompareIndexValues(p, value, stats.min) >= 0 && CompareIndexValues(p, value, stats.max) <= 0
      case Ne => !(CompareIndexValues(p, stats.min, value) == 0 && CompareIndexValues(p, stats.max, value) == 0)
      case Lt => CompareIndexValues(p, stats.min, value) < 0
      case Lte => CompareIndexValues(p, stats.min, value) <= 0
      case Gt => CompareIndexValues(p, stats.max, value) > 0
      case Gte => CompareIndexValues(p, stats.max, value) >= 0
  }

  function BetweenMayMatch(p: Pruner, file: SidecarFile, target: Expr, low: Expr, high: Expr): bool {
    if !target.Column? || !low.Literal? || !high.Literal? || !IsIndexValue(low.value) || !IsIndexValue(high.value)
    then true
    else
      match StatsOf(file, target.name)
      case None => true
      case Some(stats) =>
        if !SameComparableType(stats.min, low.value) || !SameComparableType(stats.max, high.value) then true
        else CompareIndexValues(p, stats.max, low.value) >= 0 && CompareIndexValues(p, stats.min, high.value) <= 0
  }

  function InMayMatch(p: Pruner, file: SidecarFile, negated: bool, target: Expr, values: seq<Expr>): bool {
    if negated || !target.Column? then true
    else
      match StatsOf(file, target.name)
      case None => true
      case Some(stats) => SomeValueWithin(p, stats, values)
  }

  function ValueWithin(p: Pruner, stats: Stats, e: Expr): bool {
    if !e.Literal? || !IsIndexValue(e.value) then true
    else StatsMayMatch(p, stats, Eq, e.value)
  }

  function SomeValueWithin(p: Pruner, stats: Stats, values: seq<Expr>): bool {
    values != [] && (ValueWithin(p, stats, values[0]) || SomeValueWithin(p, stats, values[1..]))
  }

  function MayMatch(p: Pruner, file: SidecarFile, where: Option<Expr>): bool {
    where.None? || FileMayMatch(p, file, where.value)
  }

  function ByPath(p: Pruner): (SidecarFile, SidecarFile) -> int {
    (a: SidecarFile, b: SidecarFile) => p.comparePaths(a.path, b.path)
  }

  /** The files of `part` come from `all`, in order, and pass or fail the check. */
  ghost predicate Part(p: Pruner, where: Option<Expr>, keep: bool, part: seq<SidecarFile>, all: seq<SidecarFile>) {
    && (forall f :: f in part ==> f in all && MayMatch(p, f, where) == keep)
    && (Sorted(ByPath(p), all) ==> Sorted(ByPath(p), part))
  }

  lemma PartGrows(p: Pruner, where: Option<Expr>, keep: bool, part: seq<SidecarFile>, all: seq<SidecarFile>,
                  f: SidecarFile)
    requires Part(p, where, keep, part, all)
    ensures Part(p, where, keep, part, all + [f])
    ensures MayMatch(p, f, where) == keep ==> Part(p, where, keep, part + [f], all + [f])
  {
    hide MayMatch, ByPath;
    var more := all + [f];
    assert more[|all|] == f && forall i :: 0 <= i < |all| ==> more[i] == all[i];
    if Sorted(ByPath(p), more) {
      assert Sorted(ByPath(p), all);
      forall i | 0 <= i < |part| ensures ByPath(p)(part[i], f) <= 0 {
        assert part[i] in all;
      }
    }
  }

  /** Splits the files, in path order, into those to read and those to skip. */
  method PruneFilesWithIndex(p: Pruner, files: seq<SidecarFile>, where: Option<Expr>)
    returns (planned: seq<SidecarFile>, skipped: seq<SidecarFile>)
    ensures multiset(planned) + multiset(skipped) == multiset(files)
    ensures forall f :: f in planned ==> where.None? || FileMayMatch(p, f, where.value)
    ensures forall f :: f in skipped ==> where.Some? && !FileMayMatch(p, f, where.value)
    ensures TotalPreorder(ByPath(p)) ==> Sorted(ByPath(p), planned) && Sorted(ByPath(p), skipped)
  {
    hide *;
    var sorted := Sort(ByPath(p), files);
    SortedFiles(p, files);
    planned, skipped := [], [];
    NoParts(p, where);
    assert sorted[..0] == [];
    for n := 0 to |sorted|
      invariant multiset(planned) + multiset(skipped) == multiset(sorted[..n])
      invariant Part(p, where, true, planned, sorted[..n]) && Part(p, where, false, skipped, sorted[..n])
    {
      assert sorted[..n + 1] == sorted[..n] + [sorted[n]];
      PartGrows(p, where, true, planned, sorted[..n], sorted[n]);
      PartGrows(p, where, false, skipped, sorted[..n], sorted[n]);
      if MayMatch(p, sorted[n], where) {
        planned := planned + [sorted[n]];
      } else {
        skipped := skipped + [sorted[n]];
      }
    }
    assert sorted[..|sorted|] == sorted;
    PartMeans(p, where, true, planned, sorted);
    PartMeans(p, where, false, skipped, sorted);
    MayMatchMeans(p, where);
  }

  lemma MayMatchMeans(p: Pruner, where: Option<Expr>)
    ensures forall f :: MayMatch(p, f, where) <==> where.None? || FileMayMatch(p, f, where.value)
  {
    hide FileMayMatch;
  }

  lemma SortedFiles(p: Pruner, files: seq<SidecarFile>)
    ensures multiset(Sort(ByPath(p), files)) == multiset(files)
    ensures TotalPreorder(ByPath(p)) ==> Sorted(ByPath(p), Sort(ByPath(p), files))
  {
    SortContents(ByPath(p), files);
    if TotalPreorder(ByPath(p)) {
      SortSorted(ByPath(p), files);
    }
  }

  lemma NoParts(p: Pruner, where: Option<Expr>)
    ensures Part(p, where, true, [], []) && Part(p, where, false, [], [])
  {
  }

  lemma PartMeans(p: Pruner, where: Option<Expr>, keep: bool, part: seq<SidecarFile>, all: seq<SidecarFile>)
    requires Part(p, where, keep, part, all)
    ensures forall f :: f in part ==> MayMatch(p, f, where) == keep
    ensures Sorted(ByPath(p), all) ==> Sorted(ByPath(p), part)
  {
  }
}
