/** Scalar values, their comparisons and the error results shared by every
    component. A string is a sequence of `char`, which has no lone surrogates;
    a number is an exact real or NaN. */
module Scalars {

  datatype Option<+T> = None | Some(value: T)

  datatype Error =
    | TypeError
    | UnknownColumn
    | UnsupportedPushdown
    | GroupLimitExceeded
    | BudgetExceeded
    | ValidationError
    | ObjectNotFound

  datatype Result<+T> = Ok(value: T) | Err(error: Error) {
    predicate IsFailure() {
      Err?
    }
    function PropagateFailure<U>(): Result<U>
      requires Err?
    {
      Err(error)
    }
    function Extract(): T
      requires Ok?
    {
      value
    }
  }

  datatype Num = NaN | Fin(v: real)

  datatype TimestampUnit = Millis | Micros | Nanos

  datatype Timestamp = Timestamp(nanos: int, unit: TimestampUnit, utc: bool)

  datatype Interval = Interval(months: int, days: int, nanos: int)

  datatype Scalar =
    | Null
    | Bool(b: bool)
    | Number(n: Num)
    | BigInt(i: int)
    | Str(s: string)
    | Bytes(bytes: seq<bv8>)
    | Time(t: Timestamp)
    | Span(interval: Interval)

  datatype CompareOp = Eq | Ne | Lt | Lte | Gt | Gte

  function NanosPerUnit(unit: TimestampUnit): (n: int)
    ensures n >= 1
  {
    match unit
    case Millis => 1000000
    case Micros => 1000
    case Nanos => 1
  }

  /** The runtime's bigint division, which truncates toward zero. */
  function TruncatedDiv(a: int, b: int): int
    requires b > 0
  {
    if a >= 0 then a / b else -((-a) / b)
  }

  function TimestampEpochForUnit(t: Timestamp, unit: TimestampUnit): int {
    TruncatedDiv(t.nanos, NanosPerUnit(unit))
  }

  predicate IsNumberLike(s: Scalar) {
    s.Number? || s.BigInt?
  }

  predicate IsNaN(s: Scalar) {
    s.Number? && s.n.NaN?
  }

  /** `typeof` as the runtime reports it, with all object values in one class. */
  datatype TypeOf = TNull | TBoolean | TNumber | TBigint | TString | TObject

  function TypeOfScalar(s: Scalar): TypeOf {
    match s
    case Null => TObject
    case Bool(_) => TBoolean
    case Number(_) => TNumber
    case BigInt(_) => TBigint
    case Str(_) => TString
    case Bytes(_) => TObject
    case Time(_) => TObject
    case Span(_) => TObject
  }

  const MAX_SAFE_INTEGER: int := 9007199254740991

  predicate IsSafeInteger(n: Num) {
    n.Fin? && n.v == n.v.Floor as real && -MAX_SAFE_INTEGER <= n.v.Floor <= MAX_SAFE_INTEGER
  }

  // ----- Comparisons -----

  function IntOrder(a: int, b: int): int {
    if a < b then -1 else if a > b then 1 else 0
  }

  function RealOrder(a: real, b: real): int {
    if a < b then -1 else if a > b then 1 else 0
  }

  /** String comparison by code unit. */
  function LexOrder(a: string, b: string): int {
    if a == [] then (if b == [] then 0 else -1)
    else if b == [] then 1
    else if a[0] < b[0] then -1
    else if a[0] > b[0] then 1
    else LexOrder(a[1..], b[1..])
  }

  /** `a < b ? -1 : a > b ? 1 : 0` on numbers: any comparison with NaN is false. */
  function NumOrder(a: Num, b: Num): int {
    if a.Fin? && b.Fin? then RealOrder(a.v, b.v) else 0
  }

  function AsNum(s: Scalar): Num
    requires IsNumberLike(s)
  {
    if s.Number? then s.n else Fin(s.i as real)
  }

  /** `left < right ? -1 : left > right ? 1 : 0` for values of one type or two
      numeric types. Plain objects compare as equal. */
  function LooseOrder(l: Scalar, r: Scalar): int {
    match (l, r)
    case (Bool(a), Bool(b)) => if a == b then 0 else if b then -1 else 1
    case (Str(a), Str(b)) => LexOrder(a, b)
    case (BigInt(a), BigInt(b)) => IntOrder(a, b)
    case _ => if IsNumberLike(l) && IsNumberLike(r) then NumOrder(AsNum(l), AsNum(r)) else 0
  }

  function CompareOrder(op: CompareOp, order: int): bool {
    match op
    case Eq => order == 0
    case Ne => order != 0
    case Lt => order < 0
    case Lte => order <= 0
    case Gt => order > 0
    case Gte => order >= 0
  }

  // ----- LexOrder is a total order -----

  lemma {:induction false} LexAntisymmetric(a: string, b: string)
    ensures LexOrder(b, a) == -LexOrder(a, b)
    ensures LexOrder(a, b) == 0 <==> a == b
  {
    if a != [] && b != [] && a[0] == b[0] {
      LexAntisymmetric(a[1..], b[1..]);
      assert a == [a[0]] + a[1..] && b == [b[0]] + b[1..];
    }
  }

  lemma {:induction false} LexTransitive(a: string, b: string, c: string)
    requires LexOrder(a, b) <= 0 && LexOrder(b, c) <= 0
    ensures LexOrder(a, c) <= 0
  {
    if a != [] && b != [] && c != [] && a[0] == b[0] && b[0] == c[0] {
      LexTransitive(a[1..], b[1..], c[1..]);
    }
  }
}
