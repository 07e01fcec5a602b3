/** What the row evaluator's operators return, said of the values of their
    operands alone: SQL's logic of true, false and null. */
module ExpressionMeanings {
  import opened Scalars
  import opened Expressions
  import opened ValueOrders

  // ----- And, or, not -----

  predicate IsTruth(v: Result<Scalar>) {
    v.Ok? && (v.value.Bool? || v.value.Null?)
  }

  /** Folding `or` from a value already reached. */
  lemma {:induction false} OrFolds(env: Env, es: seq<Expr>, acc: SqlBool, row: Row)
    requires forall i :: 0 <= i < |es| ==> IsTruth(Evaluate(env, es[i], row))
    ensures var folded := EvaluateLogical(env, Or, es, acc, row);
      && folded.Ok?
      && (folded == Ok(True) <==>
        acc == True || exists i :: 0 <= i < |es| && Evaluate(env, es[i], row) == Ok(Bool(true)))
      && (folded == Ok(False) <==>
            acc == False && forall i :: 0 <= i < |es| ==> Evaluate(env, es[i], row) == Ok(Bool(false)))
    decreases es
  {
    hide Evaluate;
    if es != [] {
      assert forall i :: 1 <= i < |es| ==> es[i] == es[1..][i - 1];
      OrFolds(env, es[1..], SqlLogic(Or, acc, ToSqlBool(Evaluate(env, es[0], row).value).value), row);
    }
  }

  lemma {:induction false} AndFolds(env: Env, es: seq<Expr>, acc: SqlBool, row: Row)
    requires forall i :: 0 <= i < |es| ==> IsTruth(Evaluate(env, es[i], row))
    ensures var folded := EvaluateLogical(env, And, es, acc, row);
      && folded.Ok?
      && (folded == Ok(False) <==>
            acc == False || exists i :: 0 <= i < |es| && Evaluate(env, es[i], row) == Ok(Bool(false)))
      && (folded == Ok(True) <==>
            acc == True && forall i :: 0 <= i < |es| ==> Evaluate(env, es[i], row) == Ok(Bool(true)))
    decreases es
  {
    hide Evaluate;
    if es != [] {
      assert forall i :: 1 <= i < |es| ==> es[i] == es[1..][i - 1];
      AndFolds(env, es[1..], SqlLogic(And, acc, ToSqlBool(Evaluate(env, es[0], row).value).value), row);
    }
  }

  /** `or` of any number of operands: true if one is true, false if all are false,
      and null otherwise. */
  lemma OrMeans(env: Env, es: seq<Expr>, row: Row)
    requires forall i :: 0 <= i < |es| ==> IsTruth(Evaluate(env, es[i], row))
    ensures Evaluate(env, Logical(Or, es), row) == Ok(Bool(true)) <==>
      exists i :: 0 <= i < |es| && Evaluate(env, es[i], row) == Ok(Bool(true))
    ensures Evaluate(env, Logical(Or, es), row) == Ok(Bool(false)) <==>
      forall i :: 0 <= i < |es| ==> Evaluate(env, es[i], row) == Ok(Bool(false))
    ensures Evaluate(env, Logical(Or, es), row) in {Ok(Bool(true)), Ok(Bool(false)), Ok(Null)}
  {
    OrFolds(env, es, False, row);
    hide EvaluateLogical;
  }

  /** `and`: false if one operand is false, true if all are true, null otherwise. */
  lemma AndMeans(env: Env, es: seq<Expr>, row: Row)
    requires forall i :: 0 <= i < |es| ==> IsTruth(Evaluate(env, es[i], row))
    ensures Evaluate(env, Logical(And, es), row) == Ok(Bool(false)) <==>
      exists i :: 0 <= i < |es| && Evaluate(env, es[i], row) == Ok(Bool(false))
    ensures Evaluate(env, Logical(And, es), row) == Ok(Bool(true)) <==>
      forall i :: 0 <= i < |es| ==> Evaluate(env, es[i], row) == Ok(Bool(true))
    ensures Evaluate(env, Logical(And, es), row) in {Ok(Bool(true)), Ok(Bool(false)), Ok(Null)}
  {
    AndFolds(env, es, True, row);
    hide EvaluateLogical;
  }

  /** What the first operand without a truth value makes of the whole. */
  function Refusal(v: Result<Scalar>): Error {
    if v.Err? then v.error else TypeError
  }

  lemma {:induction false} FoldFails(env: Env, op: LogicalOp, es: seq<Expr>, acc: SqlBool, row: Row, i: nat)
    requires i < |es| && !IsTruth(Evaluate(env, es[i], row))
    requires forall j :: 0 <= j < i ==> IsTruth(Evaluate(env, es[j], row))
    ensures EvaluateLogical(env, op, es, acc, row) == Err(Refusal(Evaluate(env, es[i], row)))
    decreases es
  {
    hide Evaluate;
    if i > 0 {
      var b := ToSqlBool(Evaluate(env, es[0], row).value).value;
      FoldFails(env, op, es[1..], SqlLogic(op, acc, b), row, i - 1);
    }
  }

  /** Every operand is evaluated: the first that is neither boolean nor null
      makes the whole fail, whatever was decided before it. */
  lemma LogicalFails(env: Env, op: LogicalOp, es: seq<Expr>, row: Row, i: nat)
    requires i < |es| && !IsTruth(Evaluate(env, es[i], row))
    requires forall j :: 0 <= j < i ==> IsTruth(Evaluate(env, es[j], row))
    ensures Evaluate(env, Logical(op, es), row) == Err(Refusal(Evaluate(env, es[i], row)))
  {
    FoldFails(env, op, es, if op == And then True else False, row, i);
    hide EvaluateLogical;
  }

  /** `not` swaps true and false and keeps null; anything else is refused. */
  lemma NotMeans(env: Env, operand: Expr, row: Row)
    ensures Evaluate(env, Not(operand), row) == Ok(Bool(true)) <==> Evaluate(env, operand, row) == Ok(Bool(false))
    ensures Evaluate(env, Not(operand), row) == Ok(Bool(false)) <==> Evaluate(env, operand, row) == Ok(Bool(true))
    ensures Evaluate(env, Not(operand), row) == Ok(Null) <==> Evaluate(env, operand, row) == Ok(Null)
    ensures !IsTruth(Evaluate(env, operand, row)) ==>
      Evaluate(env, Not(operand), row) == Err(Refusal(Evaluate(env, operand, row)))
  {
  }

  /** A row matches exactly when there is no filter or it is true of the row. */
  lemma MatchesMeans(env: Env, where: Option<Expr>, row: Row)
    ensures Matches(env, where, row) == Ok(true) <==>
      where.None? || Evaluate(env, where.value, row) == Ok(Bool(true))
    ensures Matches(env, where, row) == Ok(false) <==>
      where.Some? && Evaluate(env, where.value, row) in {Ok(Bool(false)), Ok(Null)}
  {
  }

  // ----- Comparisons -----

  /** The instant a value stands for beside a timestamp. */
  function InstantOf(env: Env, v: Scalar): Option<int> {
    if v.Time? then Some(v.t.nanos)
    else if v.Str? && env.iso(v.s).Some? then Some(env.iso(v.s).value.nanos)
    else None
  }

  /** Values that can be compared: beside a timestamp instants, otherwise two
      numbers of any types, two texts or two booleans. */
  predicate Comparable(env: Env, l: Scalar, r: Scalar) {
    if l.Time? || r.Time? then InstantOf(env, l).Some? && InstantOf(env, r).Some?
    else (l.Bool? && r.Bool?) || (l.Str? && r.Str?) || ((l.Number? || l.BigInt?) && (r.Number? || r.BigInt?))
  }

  predicate Before(env: Env, l: Scalar, r: Scalar)
    requires Comparable(env, l, r)
  {
    if l.Time? || r.Time? then InstantOf(env, l).value < InstantOf(env, r).value else Precedes(l, r)
  }

  predicate Holds(env: Env, op: CompareOp, l: Scalar, r: Scalar)
    requires Comparable(env, l, r)
  {
    match op
    case Eq => !Before(env, l, r) && !Before(env, r, l)
    case Ne => Before(env, l, r) || Before(env, r, l)
    case Lt => Before(env, l, r)
    case Lte => !Before(env, r, l)
    case Gt => Before(env, r, l)
    case Gte => !Before(env, l, r)
  }

  /** Null beside anything is unknown, values that cannot be compared are an error. */
  function Verdict(env: Env, op: CompareOp, l: Scalar, r: Scalar): Result<Scalar> {
    if l.Null? || r.Null? then Ok(Null)
    else if Comparable(env, l, r) then Ok(Bool(Holds(env, op, l, r)))
    else Err(TypeError)
  }

  lemma CompareValuesMeans(env: Env, op: CompareOp, l: Scalar, r: Scalar)
    ensures match CompareValues(env, op, l, r)
            case Ok(True) => Verdict(env, op, l, r) == Ok(Bool(true))
            case Ok(False) => Verdict(env, op, l, r) == Ok(Bool(false))
            case Ok(Unknown) => Verdict(env, op, l, r) == Ok(Null)
            case Err(error) => Verdict(env, op, l, r) == Err(error)
  {
    if !l.Time? && !r.Time? {
      LooseOrderMeans(l, r);
      hide LooseOrder, Precedes;
    }
  }

  /** A comparison is decided by which of its operands' values precedes the other. */
  lemma CompareMeans(env: Env, op: CompareOp, left: Expr, right: Expr, row: Row, l: Scalar, r: Scalar)
    requires Evaluate(env, left, row) == Ok(l) && Evaluate(env, right, row) == Ok(r)
    ensures Evaluate(env, Expr.Compare(op, left, right), row) == Verdict(env, op, l, r)
  {
    CompareValuesMeans(env, op, l, r);
    hide Verdict, CompareValues;
  }

  /** `between`: true if neither limit excludes the value, false if one does, null
      if only a null limit could. */
  lemma BetweenMeans(env: Env, target: Expr, low: Expr, high: Expr, row: Row, t: Scalar, l: Scalar, h: Scalar)
    requires Evaluate(env, target, row) == Ok(t) && Evaluate(env, low, row) == Ok(l)
    requires Evaluate(env, high, row) == Ok(h)
    requires Verdict(env, Gte, t, l).Ok? && Verdict(env, Lte, t, h).Ok?
    ensures var r, above, below := Evaluate(env, Expr.Between(target, low, high), row), Verdict(env, Gte, t, l),
                                   Verdict(env, Lte, t, h);
      && (r == Ok(Bool(false)) <==> above == Ok(Bool(false)) || below == Ok(Bool(false)))
      && (r == Ok(Bool(true)) <==> above == Ok(Bool(true)) && below == Ok(Bool(true)))
      && r in {Ok(Bool(true)), Ok(Bool(false)), Ok(Null)}
  {
    CompareValuesMeans(env, Gte, t, l);
    CompareValuesMeans(env, Lte, t, h);
    hide Verdict, CompareValues;
  }

  // ----- In -----

  ghost predicate FoundAt(env: Env, t: Scalar, vs: seq<Scalar>, i: nat)
    requires i < |vs|
  {
    && Verdict(env, Eq, t, vs[i]) == Ok(Bool(true))
    && forall j :: 0 <= j < i ==> Verdict(env, Eq, t, vs[j]).Ok?
  }

  /** The list holds an equal value that is reached before any value the target
      cannot be compared with. */
  ghost predicate Found(env: Env, t: Scalar, vs: seq<Scalar>) {
    exists i :: 0 <= i < |vs| && FoundAt(env, t, vs, i)
  }

  lemma FoundStep(env: Env, t: Scalar, vs: seq<Scalar>)
    requires vs != []
    ensures Found(env, t, vs) <==>
      Verdict(env, Eq, t, vs[0]) == Ok(Bool(true)) || (Verdict(env, Eq, t, vs[0]).Ok? && Found(env, t, vs[1..]))
  {
    hide Verdict;
    assert forall j :: 1 <= j < |vs| ==> vs[j] == vs[1..][j - 1];
    if Verdict(env, Eq, t, vs[0]) == Ok(Bool(true)) {
      assert FoundAt(env, t, vs, 0);
    }
    if Verdict(env, Eq, t, vs[0]).Ok? && Found(env, t, vs[1..]) {
      var i :| 0 <= i < |vs[1..]| && FoundAt(env, t, vs[1..], i);
      assert FoundAt(env, t, vs, i + 1);
    }
    if Found(env, t, vs) && Verdict(env, Eq, t, vs[0]) != Ok(Bool(true)) {
      var i :| 0 <= i < |vs| && FoundAt(env, t, vs, i);
      assert FoundAt(env, t, vs[1..], i - 1);
    }
  }

  lemma {:induction false} SearchMeans(env: Env, t: Scalar, vs: seq<Scalar>, sawNull: bool)
    requires !t.Null?
    ensures var r := InListFrom(env, t, vs, sawNull);
      && (r == Ok(True) <==> Found(env, t, vs))
      && (r == Ok(False) <==> !sawNull && forall i :: 0 <= i < |vs| ==> Verdict(env, Eq, t, vs[i]) == Ok(Bool(false)))
      && (r.Err? <==> !Found(env, t, vs) && exists i :: 0 <= i < |vs| && Verdict(env, Eq, t, vs[i]).Err?)
      && (r.Err? ==> r.error == TypeError)
  {
    hide Verdict, CompareValues, Found;
    if vs == [] {
      assert !Found(env, t, vs) by { NothingFound(env, t, vs); }
    } else {
      CompareValuesMeans(env, Eq, t, vs[0]);
      VerdictError(env, Eq, t, vs[0]);
      FoundStep(env, t, vs);
      assert forall j :: 1 <= j < |vs| ==> vs[j] == vs[1..][j - 1];
      var c := CompareValues(env, Eq, t, vs[0]);
      if c.Ok? && c.value != True {
        SearchMeans(env, t, vs[1..], sawNull || c.value == Unknown);
      }
    }
  }

  lemma NothingFound(env: Env, t: Scalar, vs: seq<Scalar>)
    requires vs == []
    ensures !Found(env, t, vs)
  {
  }

  lemma VerdictError(env: Env, op: CompareOp, l: Scalar, r: Scalar)
    ensures Verdict(env, op, l, r).Err? ==> Verdict(env, op, l, r).error == TypeError
    ensures Verdict(env, op, l, r).Ok? ==> Verdict(env, op, l, r) in {Ok(Bool(true)), Ok(Bool(false)), Ok(Null)}
  {
  }

  /** `in`: true if an equal value is found, false if every value differs, null if
      only a null could have been equal; `not in` swaps true and false. */
  lemma InMeans(env: Env, negated: bool, target: Expr, values: seq<Expr>, row: Row, t: Scalar, vs: seq<Scalar>)
    requires Evaluate(env, target, row) == Ok(t) && EvaluateAll(env, values, row) == Ok(vs)
    ensures var r := Evaluate(env, Expr.In(negated, target, values), row);
      && (t.Null? ==> r == Ok(Null))
      && (!t.Null? ==>
            && (r == Ok(Bool(!negated)) <==> Found(env, t, vs))
            && (r == Ok(Bool(negated)) <==>
                  forall i :: 0 <= i < |vs| ==> Verdict(env, Eq, t, vs[i]) == Ok(Bool(false)))
            && (r.Err? <==> !Found(env, t, vs) && exists i :: 0 <= i < |vs| && Verdict(env, Eq, t, vs[i]).Err?)
            && r in {Ok(Bool(true)), Ok(Bool(false)), Ok(Null), Err(TypeError)})
  {
    if !t.Null? {
      SearchMeans(env, t, vs, false);
    }
    hide InListFrom, EvaluateAll, Found, Verdict;
  }

  lemma {:induction false} EvaluateAllMeans(env: Env, es: seq<Expr>, row: Row, vs: seq<Scalar>)
    requires |es| == |vs| && forall i :: 0 <= i < |es| ==> Evaluate(env, es[i], row) == Ok(vs[i])
    ensures EvaluateAll(env, es, row) == Ok(vs)
    decreases es
  {
    hide Evaluate;
    if es != [] {
      EvaluateAllMeans(env, es[1..], row, vs[1..]);
      assert vs == [vs[0]] + vs[1..];
    }
  }

  // ----- The rest -----

  /** `is null` and `is not null` are never null themselves. */
  lemma NullCheckMeans(env: Env, target: Expr, row: Row, v: Scalar)
    requires Evaluate(env, target, row) == Ok(v)
    ensures Evaluate(env, NullCheck(false, target), row) == Ok(Bool(true)) <==> v == Null
    ensures Evaluate(env, NullCheck(true, target), row) == Ok(Bool(true)) <==> v != Null
    ensures Evaluate(env, NullCheck(false, target), row) in {Ok(Bool(true)), Ok(Bool(false))}
    ensures Evaluate(env, NullCheck(true, target), row) in {Ok(Bool(true)), Ok(Bool(false))}
  {
  }

  /** Arithmetic takes two numbers, the left one first; null beside anything is null. */
  lemma ArithmeticMeans(env: Env, op: ArithOp, left: Expr, right: Expr, row: Row, l: Scalar, r: Scalar)
    requires Evaluate(env, left, row) == Ok(l) && Evaluate(env, right, row) == Ok(r)
    ensures var result := Evaluate(env, Arithmetic(op, left, right), row);
      && (result == Ok(Null) <==> l == Null || r == Null)
      && (forall a, b :: l == Number(a) && r == Number(b) ==> result == Ok(Number(env.arithmetic(op, a, b))))
      && (result.Err? <==> l != Null && r != Null && !(l.Number? && r.Number?))
  {
  }

  /** `case` takes the first branch whose condition is true. */
  lemma {:induction false} BranchesMean(env: Env, whens: seq<Branch>, row: Row, i: nat)
    requires i <= |whens|
    requires forall j :: 0 <= j < i ==> Evaluate(env, whens[j].when, row) in {Ok(Bool(false)), Ok(Null)}
    requires i < |whens| ==> Evaluate(env, whens[i].when, row) == Ok(Bool(true))
    ensures i == |whens| ==> EvaluateWhens(env, whens, row) == Ok(None)
    ensures i < |whens| ==>
      EvaluateWhens(env, whens, row)
      == match Evaluate(env, whens[i].then_, row)
         case Ok(v) => Ok(Some(v))
         case Err(error) => Err(error)
    decreases whens
  {
    hide Evaluate;
    if i > 0 {
      assert forall j :: 1 <= j < |whens| ==> whens[j] == whens[1..][j - 1];
      BranchesMean(env, whens[1..], row, i - 1);
    }
  }

  lemma CaseMeans(env: Env, whens: seq<Branch>, otherwise: Option<Expr>, row: Row, i: nat)
    requires i <= |whens|
    requires forall j :: 0 <= j < i ==> Evaluate(env, whens[j].when, row) in {Ok(Bool(false)), Ok(Null)}
    requires i < |whens| ==> Evaluate(env, whens[i].when, row) == Ok(Bool(true))
    ensures Evaluate(env, Case(whens, otherwise), row)
         == if i < |whens| then Evaluate(env, whens[i].then_, row)
            else if otherwise.Some? then Evaluate(env, otherwise.value, row)
            else Ok(Null)
  {
    BranchesMean(env, whens, row, i);
    hide EvaluateWhens;
  }
}
