/** The expression language and its row-at-a-time evaluator, the reference
    semantics that every vectorised or pruning path must agree with. */
module Expressions {
  import opened Scalars

  datatype ArithOp = Add | Sub | Mul | Div | Mod

  datatype LogicalOp = And | Or

  datatype Expr =
    | Literal(value: Scalar)
    | Column(name: string)
    | Compare(op: CompareOp, left: Expr, right: Expr)
    | In(negated: bool, target: Expr, values: seq<Expr>)
    | Between(target: Expr, low: Expr, high: Expr)
    | NullCheck(negated: bool, target: Expr)
    | Logical(logic: LogicalOp, operands: seq<Expr>)
    | Not(operand: Expr)
    | Like(caseInsensitive: bool, target: Expr, pattern: string)
    | Call(fn: string, args: seq<Expr>)
    | Arithmetic(arith: ArithOp, left: Expr, right: Expr)
    | Case(whens: seq<Branch>, otherwise: Option<Expr>)

  datatype Branch = Branch(when: Expr, then_: Expr)

  type Row = map<string, Scalar>

  /** The operations the engine borrows: IEEE arithmetic, the scalar function
      library, LIKE matching and ISO timestamp parsing. */
  datatype Env = Env(
    arithmetic: (ArithOp, Num, Num) -> Num,
    call: (string, seq<Scalar>) -> Result<Scalar>,
    like: (string, string, bool) -> bool,
    iso: string -> Option<Timestamp>)

  /** Three-valued logic. */
  datatype SqlBool = True | False | Unknown

  function SqlOf(b: bool): SqlBool {
    if b then True else False
  }

  function ToScalar(b: SqlBool): Scalar {
    match b
    case True => Bool(true)
    case False => Bool(false)
    case Unknown => Null
  }

  function ToSqlBool(v: Scalar): Result<SqlBool> {
    match v
    case Null => Ok(Unknown)
    case Bool(b) => Ok(SqlOf(b))
    case _ => Err(TypeError)
  }

  function SqlAnd(l: SqlBool, r: SqlBool): SqlBool {
    if l == False || r == False then False
    else if l == Unknown || r == Unknown then Unknown
    else True
  }

  function SqlOr(l: SqlBool, r: SqlBool): SqlBool {
    if l == True || r == True then True
    else if l == Unknown || r == Unknown then Unknown
    else False
  }

  function SqlNot(v: SqlBool): SqlBool {
    match v
    case True => False
    case False => True
    case Unknown => Unknown
  }

  function SqlLogic(op: LogicalOp, l: SqlBool, r: SqlBool): SqlBool {
    if op == And then SqlAnd(l, r) else SqlOr(l, r)
  }

  function TimestampLiteral(env: Env, v: Scalar): Option<Timestamp> {
    match v
    case Time(t) => Some(t)
    case Str(s) => env.iso(s)
    case _ => None
  }

  /** Row-path comparison: null first, then the type rules, then the order. */
  function CompareValues(env: Env, op: CompareOp, l: Scalar, r: Scalar): Result<SqlBool> {
    if l.Null? || r.Null? then Ok(Unknown)
    else if l.Bytes? || r.Bytes? then Err(TypeError)
    else if l.Time? || r.Time? then
      match (TimestampLiteral(env, l), TimestampLiteral(env, r))
      case (Some(a), Some(b)) => Ok(SqlOf(CompareOrder(op, IntOrder(a.nanos, b.nanos))))
      case _ => Err(TypeError)
    else if l.Span? || r.Span? then Err(TypeError)
    else if TypeOfScalar(l) != TypeOfScalar(r) && !(IsNumberLike(l) && IsNumberLike(r)) then Err(TypeError)
    else Ok(SqlOf(CompareOrder(op, LooseOrder(l, r))))
  }

  function ArithmeticValue(env: Env, op: ArithOp, l: Scalar, r: Scalar): Result<Scalar> {
    if l.Null? || r.Null? then Ok(Null)
    else if !l.Number? || !r.Number? then Err(TypeError)
    else Ok(Number(env.arithmetic(op, l.n, r.n)))
  }

  /** SQL IN: an early match wins; a null on the way makes a miss unknown. */
  function InList(env: Env, target: Scalar, values: seq<Scalar>): Result<SqlBool> {
    if target.Null? then Ok(Unknown) else InListFrom(env, target, values, false)
  }

  function InListFrom(env: Env, target: Scalar, values: seq<Scalar>, sawNull: bool): Result<SqlBool> {
    if values == [] then Ok(if sawNull then Unknown else False)
    else
      var c :- CompareValues(env, Eq, target, values[0]);
      if c == True then Ok(True)
      else InListFrom(env, target, values[1..], sawNull || c == Unknown)
  }

  function LikeMatch(env: Env, v: Scalar, pattern: string, caseInsensitive: bool): Result<SqlBool> {
    match v
    case Null => Ok(Unknown)
    case Str(s) => Ok(SqlOf(env.like(s, pattern, caseInsensitive)))
    case _ => Err(TypeError)
  }

  function BetweenValues(env: Env, target: Scalar, low: Scalar, high: Scalar): Result<SqlBool> {
    var above :- CompareValues(env, Gte, target, low);
    var below :- CompareValues(env, Lte, target, high);
    Ok(SqlAnd(above, below))
  }

  function Evaluate(env: Env, e: Expr, row: Row): Result<Scalar>
    decreases e, 1
  {
    match e
    case Literal(v) => Ok(v)
    case Column(name) => if name in row then Ok(row[name]) else Err(UnknownColumn)
    case Compare(op, left, right) =>
      var l :- Evaluate(env, left, row);
      var r :- Evaluate(env, right, row);
      var c :- CompareValues(env, op, l, r);
      Ok(ToScalar(c))
    case In(negated, target, values) =>
      var t :- Evaluate(env, target, row);
      var vs :- EvaluateAll(env, values, row);
      var c :- InList(env, t, vs);
      Ok(ToScalar(if negated then SqlNot(c) else c))
    case Between(target, low, high) =>
      var t :- Evaluate(env, target, row);
      var l :- Evaluate(env, low, row);
      var h :- Evaluate(env, high, row);
      var c :- BetweenValues(env, t, l, h);
      Ok(ToScalar(c))
    case NullCheck(negated, target) =>
      var t :- Evaluate(env, target, row);
      Ok(Bool(t.Null? != negated))
    case Logical(op, operands) =>
      var c :- EvaluateLogical(env, op, operands, if op == And then True else False, row);
      Ok(ToScalar(c))
    case Not(operand) =>
      var v :- Evaluate(env, operand, row);
      var c :- ToSqlBool(v);
      Ok(ToScalar(SqlNot(c)))
    case Like(caseInsensitive, target, pattern) =>
      var t :- Evaluate(env, target, row);
      var c :- LikeMatch(env, t, pattern, caseInsensitive);
      Ok(ToScalar(c))
    case Call(fn, args) =>
      var vs :- EvaluateAll(env, args, row);
      env.call(fn, vs)
    case Arithmetic(op, left, right) =>
      var l :- Evaluate(env, left, row);
      var r :- Evaluate(env, right, row);
      ArithmeticValue(env, op, l, r)
    case Case(whens, otherwise) =>
      var taken :- EvaluateWhens(env, whens, row);
      match taken
      case Some(v) => Ok(v)
      case None => if otherwise.None? then Ok(Null) else Evaluate(env, otherwise.value, row)
  }

  function EvaluateAll(env: Env, es: seq<Expr>, row: Row): (r: Result<seq<Scalar>>)
    ensures r.Ok? ==> |r.value| == |es|
    decreases es, 0
  {
    if es == [] then Ok([])
    else
      var v :- Evaluate(env, es[0], row);
      var vs :- EvaluateAll(env, es[1..], row);
      Ok([v] + vs)
  }

  function EvaluateLogical(env: Env, op: LogicalOp, es: seq<Expr>, acc: SqlBool, row: Row): Result<SqlBool>
    decreases es, 0
  {
    if es == [] then Ok(acc)
    else
      var v :- Evaluate(env, es[0], row);
      var b :- ToSqlBool(v);
      EvaluateLogical(env, op, es[1..], SqlLogic(op, acc, b), row)
  }

  /** The value of the first branch whose condition is true, if any. */
  function EvaluateWhens(env: Env, whens: seq<Branch>, row: Row): Result<Option<Scalar>>
    decreases whens, 0
  {
    if whens == [] then Ok(None)
    else
      var taken :- EvaluateBranch(env, whens[0], row);
      if taken.Some? then Ok(taken) else EvaluateWhens(env, whens[1..], row)
  }

  function EvaluateBranch(env: Env, branch: Branch, row: Row): Result<Option<Scalar>>
    decreases branch, 2
  {
    var v :- Evaluate(env, branch.when, row);
    var b :- ToSqlBool(v);
    if b == True then
      var t :- Evaluate(env, branch.then_, row);
      Ok(Some(t))
    else Ok(None)
  }

  function Matches(env: Env, where: Option<Expr>, row: Row): Result<bool> {
    if where.None? then Ok(true)
    else
      var v :- Evaluate(env, where.value, row);
      var b :- ToSqlBool(v);
      Ok(b == True)
  }

  // ----- Columns an expression reads -----

  function Columns(e: Expr): set<string>
    decreases e, 1
  {
    match e
    case Literal(_) => {}
    case Column(name) => {name}
    case Compare(_, left, right) => Columns(left) + Columns(right)
    case In(_, target, values) => Columns(target) + ColumnsOfAll(values)
    case Between(target, low, high) => Columns(target) + Columns(low) + Columns(high)
    case NullCheck(_, target) => Columns(target)
    case Logical(_, operands) => ColumnsOfAll(operands)
    case Not(operand) => Columns(operand)
    case Like(_, target, _) => Columns(target)
    case Call(_, args) => ColumnsOfAll(args)
    case Arithmetic(_, left, right) => Columns(left) + Columns(right)
    case Case(whens, otherwise) =>
      ColumnsOfWhens(whens) + (if otherwise.None? then {} else Columns(otherwise.value))
  }

  function ColumnsOfAll(es: seq<Expr>): set<string>
    decreases es, 0
  {
    if es == [] then {} else Columns(es[0]) + ColumnsOfAll(es[1..])
  }

  function ColumnsOfWhens(whens: seq<Branch>): set<string>
    decreases whens, 0
  {
    if whens == [] then {}
    else ColumnsOfBranch(whens[0]) + ColumnsOfWhens(whens[1..])
  }

  function ColumnsOfBranch(branch: Branch): set<string>
    decreases branch, 2
  {
    Columns(branch.when) + Columns(branch.then_)
  }

  class ColumnSet {
    var names: set<string>

    constructor ()
      ensures names == {}
    {
      names := {};
    }
  }

  /** Adds the columns of an expression to a set owned by the caller. */
  method CollectExprColumns(expr: Expr, columns: ColumnSet)
    modifies columns
    ensures columns.names == old(columns.names) + Columns(expr)
    decreases expr, 1
  {
    match expr {
      case Literal(_) =>
      case Column(name) =>
        columns.names := columns.names + {name};
      case Compare(_, left, right) =>
        CollectExprColumns(left, columns);
        CollectExprColumns(right, columns);
      case In(_, target, values) =>
        CollectExprColumns(target, columns);
        CollectAll(values, columns);
      case Between(target, low, high) =>
        CollectExprColumns(target, columns);
        CollectExprColumns(low, columns);
        CollectExprColumns(high, columns);
      case NullCheck(_, target) =>
        CollectExprColumns(target, columns);
      case Logical(_, operands) =>
        CollectAll(operands, columns);
      case Not(operand) =>
        CollectExprColumns(operand, columns);
      case Like(_, target, _) =>
        CollectExprColumns(target, columns);
      case Call(_, args) =>
        CollectAll(args, columns);
      case Arithmetic(_, left, right) =>
        CollectExprColumns(left, columns);
        CollectExprColumns(right, columns);
      case Case(whens, otherwise) =>
        ghost var before := columns.names;
        for i := 0 to |whens|
          invariant columns.names + ColumnsOfWhens(whens[i..]) == before + ColumnsOfWhens(whens)
        {
          var branch := whens[i];
          CollectExprColumns(branch.when, columns);
          CollectExprColumns(branch.then_, columns);
        }
        if otherwise.Some? {
          CollectExprColumns(otherwise.value, columns);
        }
    }
  }

  method CollectAll(es: seq<Expr>, columns: ColumnSet)
    modifies columns
    ensures columns.names == old(columns.names) + ColumnsOfAll(es)
    decreases es, 0
  {
    for i := 0 to |es|
      invariant columns.names + ColumnsOfAll(es[i..]) == old(columns.names) + ColumnsOfAll(es)
    {
      CollectExprColumns(es[i], columns);
    }
  }

  /** Both rows give a column the same value, or both lack it. */
  ghost predicate AgreeOn(r: Row, s: Row, columns: set<string>) {
    forall c :: c in columns ==> (c in r <==> c in s) && (c in r ==> r[c] == s[c])
  }

  /** An expression's value, or its error, depends only on the columns it reads. */
  lemma {:induction false} EvaluateReadsOnlyColumns(env: Env, e: Expr, r: Row, s: Row, columns: set<string>)
    requires AgreeOn(r, s, columns) && Columns(e) <= columns
    ensures Evaluate(env, e, r) == Evaluate(env, e, s)
    decreases e, 1
  {
    hide EvaluateLogical, EvaluateAll, EvaluateWhens, CompareValues, InList, BetweenValues, ArithmeticValue, LikeMatch;
    match e {
      case Literal(_) =>
      case Column(_) =>
      case Compare(_, left, right) =>
        EvaluateReadsOnlyColumns(env, left, r, s, columns);
        EvaluateReadsOnlyColumns(env, right, r, s, columns);
      case In(_, target, values) =>
        EvaluateReadsOnlyColumns(env, target, r, s, columns);
        AllReadOnlyColumns(env, values, r, s, columns);
      case Between(target, low, high) =>
        EvaluateReadsOnlyColumns(env, target, r, s, columns);
        EvaluateReadsOnlyColumns(env, low, r, s, columns);
        EvaluateReadsOnlyColumns(env, high, r, s, columns);
      case NullCheck(_, target) =>
        EvaluateReadsOnlyColumns(env, target, r, s, columns);
      case Logical(op, operands) =>
        LogicalReadsOnlyColumns(env, op, operands, if op == And then True else False, r, s, columns);
      case Not(operand) =>
        EvaluateReadsOnlyColumns(env, operand, r, s, columns);
      case Like(_, target, _) =>
        EvaluateReadsOnlyColumns(env, target, r, s, columns);
      case Call(_, args) =>
        AllReadOnlyColumns(env, args, r, s, columns);
      case Arithmetic(_, left, right) =>
        EvaluateReadsOnlyColumns(env, left, r, s, columns);
        EvaluateReadsOnlyColumns(env, right, r, s, columns);
      case Case(whens, otherwise) =>
        WhensReadOnlyColumns(env, whens, r, s, columns);
        if otherwise.Some? {
          EvaluateReadsOnlyColumns(env, otherwise.value, r, s, columns);
        }
    }
  }

  lemma {:induction false} AllReadOnlyColumns(env: Env, es: seq<Expr>, r: Row, s: Row, columns: set<string>)
    requires AgreeOn(r, s, columns) && ColumnsOfAll(es) <= columns
    ensures EvaluateAll(env, es, r) == EvaluateAll(env, es, s)
    decreases es, 0
  {
    if es != [] {
      EvaluateReadsOnlyColumns(env, es[0], r, s, columns);
      AllReadOnlyColumns(env, es[1..], r, s, columns);
    }
  }

  lemma {:induction false} LogicalReadsOnlyColumns(
    env: Env, op: LogicalOp, es: seq<Expr>, acc: SqlBool, r: Row, s: Row, columns: set<string>)
    requires AgreeOn(r, s, columns) && ColumnsOfAll(es) <= columns
    ensures EvaluateLogical(env, op, es, acc, r) == EvaluateLogical(env, op, es, acc, s)
    decreases es, 0
  {
    if es != [] {
      EvaluateReadsOnlyColumns(env, es[0], r, s, columns);
      var v := Evaluate(env, es[0], r);
      if v.Ok? && ToSqlBool(v.value).Ok? {
        LogicalReadsOnlyColumns(env, op, es[1..], SqlLogic(op, acc, ToSqlBool(v.value).value), r, s, columns);
      }
    }
  }

  lemma {:induction false} WhensReadOnlyColumns(env: Env, whens: seq<Branch>, r: Row, s: Row, columns: set<string>)
    requires AgreeOn(r, s, columns) && ColumnsOfWhens(whens) <= columns
    ensures EvaluateWhens(env, whens, r) == EvaluateWhens(env, whens, s)
    decreases whens, 0
  {
    if whens != [] {
      BranchReadsOnlyColumns(env, whens[0], r, s, columns);
      WhensReadOnlyColumns(env, whens[1..], r, s, columns);
    }
  }

  lemma {:induction false} BranchReadsOnlyColumns(env: Env, branch: Branch, r: Row, s: Row, columns: set<string>)
    requires AgreeOn(r, s, columns) && ColumnsOfBranch(branch) <= columns
    ensures EvaluateBranch(env, branch, r) == EvaluateBranch(env, branch, s)
    decreases branch, 2
  {
    EvaluateReadsOnlyColumns(env, branch.when, r, s, columns);
    EvaluateReadsOnlyColumns(env, branch.then_, r, s, columns);
  }
}
