/** Vectorised predicate evaluation: one mask per batch, with fast kernels for
    column-against-literal comparisons, and its refinement of the row evaluator. */
module Predicates {
  import opened Scalars
  import opened Expressions
  import opened Vectors

  /** 1 is true, 0 is false, 2 is null. */
  type MaskValue = m: nat | m <= 2

  function SqlMaskValue(b: SqlBool): MaskValue {
    match b
    case True => 1
    case False => 0
    case Unknown => 2
  }

  function MaskSql(m: MaskValue): SqlBool {
    if m == 1 then True else if m == 0 then False else Unknown
  }

  function MaskOfBool(b: bool): MaskValue {
    if b then 1 else 0
  }

  /** Native number comparison: every comparison with NaN is false but `!==`. */
  function CompareNumberMaskValue(op: CompareOp, l: Num, r: Num): MaskValue {
    if l.NaN? || r.NaN? then MaskOfBool(op == Ne)
    else MaskOfBool(CompareOrder(op, RealOrder(l.v, r.v)))
  }

  function CompareIntMaskValue(op: CompareOp, l: int, r: int): MaskValue {
    MaskOfBool(CompareOrder(op, IntOrder(l, r)))
  }

  function FlipCompareOp(op: CompareOp): CompareOp {
    match op
    case Lt => Gt
    case Lte => Gte
    case Gt => Lt
    case Gte => Lte
    case Eq => Eq
    case Ne => Ne
  }

  /** The slow comparison of the batch path. Unlike the row path it has no
      check for intervals, which compare as plain objects. */
  function CompareValue(env: Env, op: CompareOp, l: Scalar, r: Scalar): Result<SqlBool> {
    if l.Null? || r.Null? then Ok(Unknown)
    else if l.Bytes? || r.Bytes? then Err(TypeError)
    else if l.Time? || r.Time? then
      match (TimestampLiteral(env, l), TimestampLiteral(env, r))
      case (Some(a), Some(b)) => Ok(SqlOf(CompareOrder(op, IntOrder(a.nanos, b.nanos))))
      case _ => Err(TypeError)
    else if TypeOfScalar(l) != TypeOfScalar(r) && !(IsNumberLike(l) && IsNumberLike(r)) then Err(TypeError)
    else Ok(SqlOf(CompareOrder(op, LooseOrder(l, r))))
  }

  // ----- Column-against-literal kernels: specifications -----

  ghost function NumberLiteralMask(op: CompareOp, numbers: seq<Num>, valid: Validity, literal: Num): seq<MaskValue>
    requires valid.Some? ==> |valid.value| == |numbers|
  {
    seq(|numbers|, i requires 0 <= i < |numbers| =>
      if Present(valid, i) then CompareNumberMaskValue(op, numbers[i], literal) else 2)
  }

  ghost function IntLiteralMask(op: CompareOp, ints: seq<int>, valid: Validity, literal: int): seq<MaskValue>
    requires valid.Some? ==> |valid.value| == |ints|
  {
    seq(|ints|, i requires 0 <= i < |ints| =>
      if Present(valid, i) then CompareIntMaskValue(op, ints[i], literal) else 2)
  }

  ghost function DictLiteralMask(indices: seq<nat>, valid: Validity, dictionaryMask: seq<MaskValue>): seq<MaskValue>
    requires valid.Some? ==> |valid.value| == |indices|
  {
    seq(|indices|, i requires 0 <= i < |indices| =>
      if !Present(valid, i) then 2
      else if indices[i] < |dictionaryMask| then dictionaryMask[indices[i]] else 2)
  }

  /** The mask of a fast kernel, or none when no kernel applies. */
  ghost function VectorLiteralMask(env: Env, op: CompareOp, v: Vector, literal: Scalar): (r: Option<seq<MaskValue>>)
    requires WellFormed(v)
    decreases v
  {
    if literal.Null? then Some(seq(Length(v), _ => 2))
    else if v.DictVector? then
      match VectorLiteralMask(env, op, v.dictionary, literal)
      case None => None
      case Some(dictionaryMask) => Some(DictLiteralMask(v.indices, v.valid, dictionaryMask))
    else if v.NumberVector? && literal.Number? then Some(NumberLiteralMask(op, v.numbers, v.valid, literal.n))
    else if v.BigIntVector? && literal.BigInt? then Some(IntLiteralMask(op, v.bigints, v.valid, literal.i))
    else if v.BigIntVector? && literal.Number? && IsSafeInteger(literal.n) then
      Some(IntLiteralMask(op, v.bigints, v.valid, literal.n.v.Floor))
    else if v.TimestampVector? && TimestampLiteral(env, literal).Some? then
      Some(IntLiteralMask(op, v.epochs, v.valid,
                          TimestampEpochForUnit(TimestampLiteral(env, literal).value, v.unit)))
    else None
  }

  // ----- Column-against-literal kernels: loops -----

  method CompareNumberLiteralMasks(op: CompareOp, numbers: seq<Num>, valid: Validity, literal: Num)
    returns (mask: array<MaskValue>)
    requires valid.Some? ==> |valid.value| == |numbers|
    ensures mask[..] == NumberLiteralMask(op, numbers, valid, literal)
  {
    mask := new MaskValue[|numbers|];
    ghost var spec := NumberLiteralMask(op, numbers, valid, literal);
    for i := 0 to |numbers|
      invariant forall j :: 0 <= j < i ==> mask[j] == spec[j]
    {
      mask[i] := if valid.Some? && !valid.value[i] then 2 else CompareNumberMaskValue(op, numbers[i], literal);
    }
  }

  method CompareIntLiteralMasks(op: CompareOp, ints: seq<int>, valid: Validity, literal: int)
    returns (mask: array<MaskValue>)
    requires valid.Some? ==> |valid.value| == |ints|
    ensures mask[..] == IntLiteralMask(op, ints, valid, literal)
  {
    mask := new MaskValue[|ints|];
    ghost var spec := IntLiteralMask(op, ints, valid, literal);
    for i := 0 to |ints|
      invariant forall j :: 0 <= j < i ==> mask[j] == spec[j]
    {
      mask[i] := if valid.Some? && !valid.value[i] then 2 else CompareIntMaskValue(op, ints[i], literal);
    }
  }

  method CompareDictLiteralMasks(indices: seq<nat>, valid: Validity, dictionaryMask: array<MaskValue>)
    returns (mask: array<MaskValue>)
    requires valid.Some? ==> |valid.value| == |indices|
    ensures mask[..] == DictLiteralMask(indices, valid, dictionaryMask[..])
  {
    mask := new MaskValue[|indices|];
    ghost var spec := DictLiteralMask(indices, valid, dictionaryMask[..]);
    for i := 0 to |indices|
      invariant forall j :: 0 <= j < i ==> mask[j] == spec[j]
    {
      if valid.Some? && !valid.value[i] {
        mask[i] := 2;
        continue;
      }
      mask[i] := if indices[i] < dictionaryMask.Length then dictionaryMask[indices[i]] else 2;
    }
  }

  method CompareVectorLiteralMasks(env: Env, op: CompareOp, v: Vector, literal: Scalar)
    returns (mask: array?<MaskValue>)
    requires WellFormed(v)
    ensures (mask == null) == VectorLiteralMask(env, op, v, literal).None?
    ensures mask != null ==> Some(mask[..]) == VectorLiteralMask(env, op, v, literal)
    decreases v
  {
    if literal.Null? {
      mask := new MaskValue[Length(v)](_ => 2);
      assert mask[..] == seq(Length(v), _ => 2);
    } else if v.DictVector? {
      var dictionaryMask := CompareVectorLiteralMasks(env, op, v.dictionary, literal);
      if dictionaryMask == null {
        return null;
      }
      mask := CompareDictLiteralMasks(v.indices, v.valid, dictionaryMask);
    } else if v.NumberVector? && literal.Number? {
      mask := CompareNumberLiteralMasks(op, v.numbers, v.valid, literal.n);
    } else if v.BigIntVector? && literal.BigInt? {
      mask := CompareIntLiteralMasks(op, v.bigints, v.valid, literal.i);
    } else if v.BigIntVector? && literal.Number? && IsSafeInteger(literal.n) {
      mask := CompareIntLiteralMasks(op, v.bigints, v.valid, literal.n.v.Floor);
    } else if v.TimestampVector? && TimestampLiteral(env, literal).Some? {
      var target := TimestampEpochForUnit(TimestampLiteral(env, literal).value, v.unit);
      mask := CompareIntLiteralMasks(op, v.epochs, v.valid, target);
    } else {
      mask := null;
    }
  }

  // ----- Exactly when a kernel's entry is the row evaluator's answer -----

  /** A comparison with NaN differs unless the operator is strict. */
  predicate NaNAgrees(op: CompareOp, l: Num, r: Num) {
    (l.Fin? && r.Fin?) || op == Lt || op == Gt
  }

  /** The column holds `epoch` units; the literal is `nanos` and is truncated to
      the unit. Only an epoch equal to the truncated literal can be misjudged,
      and then only if the literal was inexact and the operator notices. */
  predicate TruncationAgrees(op: CompareOp, epoch: int, nanos: int, scale: int)
    requires scale > 0
  {
    || TruncatedDiv(nanos, scale) * scale == nanos
    || epoch != TruncatedDiv(nanos, scale)
    || (if nanos > 0 then op == Lte || op == Gt else op == Gte || op == Lt)
  }

  predicate EntryAgrees(env: Env, op: CompareOp, value: Scalar, literal: Scalar) {
    match (value, literal)
    case (Number(a), Number(b)) => NaNAgrees(op, a, b)
    case (Time(t), _) =>
      var target := TimestampLiteral(env, literal);
      target.None? ||
      TruncationAgrees(op, TruncatedDiv(t.nanos, NanosPerUnit(t.unit)), target.value.nanos, NanosPerUnit(t.unit))
    case _ => true
  }

  lemma NumberKernelExact(op: CompareOp, l: Num, r: Num)
    ensures CompareNumberMaskValue(op, l, r) == MaskOfBool(CompareOrder(op, NumOrder(l, r))) <==> NaNAgrees(op, l, r)
  {
  }

  lemma ScaledOrder(epoch: int, quotient: int, remainder: int, scale: int)
    requires scale > 0 && -scale < remainder < scale
    ensures epoch < quotient ==> epoch * scale < quotient * scale + remainder
    ensures epoch > quotient ==> epoch * scale > quotient * scale + remainder
  {
    if epoch < quotient {
      assert (epoch + 1) * scale <= quotient * scale;
      assert (epoch + 1) * scale == epoch * scale + scale;
    } else if epoch > quotient {
      assert (quotient + 1) * scale <= epoch * scale;
      assert (quotient + 1) * scale == quotient * scale + scale;
    }
  }

  lemma TruncationOrder(epoch: int, nanos: int, scale: int)
    requires scale > 0
    ensures var q := TruncatedDiv(nanos, scale);
      && (epoch < q ==> epoch * scale < nanos)
      && (epoch > q ==> epoch * scale > nanos)
      && (nanos >= 0 ==> q * scale <= nanos)
      && (nanos <= 0 ==> q * scale >= nanos)
  {
    var q := TruncatedDiv(nanos, scale);
    ScaledOrder(epoch, q, nanos - q * scale, scale);
  }

  /** Truncating the literal is harmless exactly where `TruncationAgrees` says. */
  lemma TimestampKernelExact(op: CompareOp, epoch: int, nanos: int, scale: int)
    requires scale > 0
    ensures CompareIntMaskValue(op, epoch, TruncatedDiv(nanos, scale))
         == MaskOfBool(CompareOrder(op, IntOrder(epoch * scale, nanos)))
       <==> TruncationAgrees(op, epoch, nanos, scale)
  {
    TruncationOrder(epoch, nanos, scale);
  }

  lemma MultipleTruncates(epoch: int, scale: int)
    requires scale > 0
    ensures TruncatedDiv(epoch * scale, scale) == epoch
  {
    TruncationOrder(epoch, epoch * scale, scale);
  }

  ghost predicate EntryExact(env: Env, op: CompareOp, v: Vector, literal: Scalar, i: nat, mask: seq<MaskValue>)
    requires WellFormed(v) && IsScalarVector(v) && i < Length(v)
  {
    var slow := CompareValue(env, op, ScalarAt(v, i), literal);
    && |mask| == Length(v)
    && slow.Ok?
    && (mask[i] == SqlMaskValue(slow.value) <==> EntryAgrees(env, op, ScalarAt(v, i), literal))
  }

  lemma NumberEntryExact(env: Env, op: CompareOp, v: Vector, literal: Num, i: nat)
    requires WellFormed(v) && v.NumberVector? && i < Length(v)
    ensures EntryExact(env, op, v, Number(literal), i, NumberLiteralMask(op, v.numbers, v.valid, literal))
  {
    NumberKernelExact(op, v.numbers[i], literal);
  }

  lemma TimestampEntryExact(env: Env, op: CompareOp, v: Vector, literal: Scalar, i: nat)
    requires WellFormed(v) && v.TimestampVector? && i < Length(v) && TimestampLiteral(env, literal).Some?
    ensures EntryExact(env, op, v, literal, i,
                       IntLiteralMask(op, v.epochs, v.valid,
                                      TimestampEpochForUnit(TimestampLiteral(env, literal).value, v.unit)))
  {
    var target := TimestampLiteral(env, literal).value;
    MultipleTruncates(v.epochs[i], NanosPerUnit(v.unit));
    TimestampKernelExact(op, v.epochs[i], target.nanos, NanosPerUnit(v.unit));
  }

  /** A dictionary's entry is that of the value its code stands for. */
  lemma DictEntryExact(env: Env, op: CompareOp, v: Vector, literal: Scalar, i: nat)
    requires WellFormed(v) && v.DictVector? && IsScalarVector(v) && i < Length(v) && !literal.Null?
    requires VectorLiteralMask(env, op, v.dictionary, literal).Some?
    requires Present(v.valid, i) ==>
      EntryExact(env, op, v.dictionary, literal, v.indices[i], VectorLiteralMask(env, op, v.dictionary, literal).value)
    ensures EntryExact(env, op, v, literal, i,
                       DictLiteralMask(v.indices, v.valid, VectorLiteralMask(env, op, v.dictionary, literal).value))
  {
    hide VectorLiteralMask;
  }

  /** A kernel's entry is the slow comparison's answer if and only if `EntryAgrees`. */
  lemma {:induction false} KernelEntryExact(env: Env, op: CompareOp, v: Vector, literal: Scalar, i: nat)
    requires WellFormed(v) && IsScalarVector(v) && i < Length(v)
    requires VectorLiteralMask(env, op, v, literal).Some?
    ensures EntryExact(env, op, v, literal, i, VectorLiteralMask(env, op, v, literal).value)
    decreases v
  {
    if v.DictVector? && !literal.Null? {
      if Present(v.valid, i) {
        KernelEntryExact(env, op, v.dictionary, literal, v.indices[i]);
      }
      hide EntryExact;
      DictEntryExact(env, op, v, literal, i);
    } else if v.NumberVector? && !literal.Null? {
      NumberEntryExact(env, op, v, literal.n, i);
    } else if v.TimestampVector? && !literal.Null? {
      TimestampEntryExact(env, op, v, literal, i);
    }
  }

  /** Swapping the operands of a comparison swaps the operator. */
  lemma FlippedCompare(env: Env, op: CompareOp, l: Scalar, r: Scalar)
    ensures CompareValue(env, FlipCompareOp(op), r, l) == CompareValue(env, op, l, r)
  {
    if l.Str? && r.Str? {
      LexAntisymmetric(l.s, r.s);
    }
  }

  /** The two slow paths differ on a pair of intervals and nowhere else. */
  lemma SlowPathsAgree(env: Env, op: CompareOp, l: Scalar, r: Scalar)
    ensures CompareValue(env, op, l, r) == CompareValues(env, op, l, r) <==> !(l.Span? && r.Span?)
  {
  }
}
