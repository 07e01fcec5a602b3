/** Which columns of values can be encoded, and as what, said of the values alone. */
module ColumnarMeanings {
  import opened Scalars
  import opened Vectors
  import opened Columnar

  predicate IsNull(v: Value) {
    v.Atom? && v.scalar.Null?
  }

  predicate SameKind(a: Value, b: Value) {
    match (a, b)
    case (Items(_), Items(_)) => true
    case (Atom(Bool(_)), Atom(Bool(_))) => true
    case (Atom(Number(_)), Atom(Number(_))) => true
    case (Atom(BigInt(_)), Atom(BigInt(_))) => true
    case (Atom(Str(_)), Atom(Str(_))) => true
    case (Atom(Bytes(_)), Atom(Bytes(_))) => true
    case (Atom(Time(_)), Atom(Time(_))) => true
    case _ => false
  }

  predicate IntegerWithin(v: Value, low: int, high: int) {
    v.Atom? && v.scalar.BigInt? ==> low <= v.scalar.i <= high
  }

  /** Big integers that fit 64 bits, all signed or all unsigned. */
  predicate IntegersFit(vs: seq<Value>) {
    || (forall i :: 0 <= i < |vs| ==> IntegerWithin(vs[i], -9223372036854775808, 9223372036854775807))
    || (forall i :: 0 <= i < |vs| ==> IntegerWithin(vs[i], 0, 18446744073709551615))
  }

  predicate OneKind(vs: seq<Value>) {
    forall i, j :: 0 <= i < |vs| && 0 <= j < |vs| && !IsNull(vs[i]) && !IsNull(vs[j]) ==> SameKind(vs[i], vs[j])
  }

  predicate HasList(vs: seq<Value>) {
    exists i :: 0 <= i < |vs| && vs[i].Items?
  }

  lemma {:induction false} CommonShapeExact(vs: seq<Value>)
    ensures CommonShape(vs).Ok? <==>
      forall i, j :: 0 <= i < |vs| && 0 <= j < |vs| && !IsNull(vs[i]) && !IsNull(vs[j]) ==>
        ShapeForValue(vs[i]) == ShapeForValue(vs[j])
    ensures CommonShape(vs).Err? ==> CommonShape(vs).error == TypeError
    decreases |vs|
  {
    if vs != [] {
      var front, last := vs[..|vs| - 1], vs[|vs| - 1];
      CommonShapeExact(front);
      assert forall i :: 0 <= i < |front| ==> front[i] == vs[i];
      if CommonShape(front).Ok? {
        ShapeMeans(front);
      }
    }
  }

  lemma KindIsShape(a: Value, b: Value)
    requires !IsNull(a) && !IsNull(b)
    ensures SameKind(a, b) <==> ShapeForValue(a) == ShapeForValue(b) != StructShape
  {
  }

  /** A column has a shape that can be stored exactly when its values are of one kind
      and its big integers fit. */
  lemma ShapeExact(vs: seq<Value>)
    ensures ShapeOf(vs).Ok? && ShapeOf(vs).value != StructShape <==> OneKind(vs) && IntegersFit(vs)
    ensures ShapeOf(vs).Err? ==> ShapeOf(vs).error == TypeError
  {
    CommonShapeExact(vs);
    forall i, j | 0 <= i < |vs| && 0 <= j < |vs| && !IsNull(vs[i]) && !IsNull(vs[j])
      ensures SameKind(vs[i], vs[j]) <==> ShapeForValue(vs[i]) == ShapeForValue(vs[j]) != StructShape
    {
      KindIsShape(vs[i], vs[j]);
    }
    hide SameKind;
    if CommonShape(vs).Ok? {
      ShapeMeans(vs);
      StructExact(vs);
      hide ShapeForValue;
      IntegersExact(vs);
      hide IntegersFit, OutOfRange, NeedsUnsigned, HasNegative;
    }
  }

  lemma StructExact(vs: seq<Value>)
    requires CommonShape(vs).Ok?
    ensures CommonShape(vs).value != StructShape ==>
      forall i :: 0 <= i < |vs| && !IsNull(vs[i]) ==> ShapeForValue(vs[i]) != StructShape
    ensures CommonShape(vs).value == StructShape ==>
      exists i :: 0 <= i < |vs| && !IsNull(vs[i]) && ShapeForValue(vs[i]) == StructShape
  {
    ShapeMeans(vs);
    hide ShapeForValue;
  }

  lemma IntegersExact(vs: seq<Value>)
    requires CommonShape(vs).Ok?
    ensures CommonShape(vs).value == BigIntShape ==>
      (IntegersFit(vs) <==> !OutOfRange(vs) && !(NeedsUnsigned(vs) && HasNegative(vs)))
    ensures CommonShape(vs).value != BigIntShape ==> IntegersFit(vs)
  {
    ShapeMeans(vs);
    if CommonShape(vs).value == BigIntShape {
      if !OutOfRange(vs) && !NeedsUnsigned(vs) {
        assert forall i :: 0 <= i < |vs| ==> IntegerWithin(vs[i], -9223372036854775808, 9223372036854775807);
      }
      if !OutOfRange(vs) && !HasNegative(vs) {
        assert forall i :: 0 <= i < |vs| ==> IntegerWithin(vs[i], 0, 18446744073709551615);
      }
      if IntegersFit(vs) && NeedsUnsigned(vs) {
        var i :| 0 <= i < |vs| && BigIntAt(vs[i]) && vs[i].scalar.i > MAX_I64;
        assert !IntegerWithin(vs[i], -9223372036854775808, 9223372036854775807);
      }
    } else {
      forall i | 0 <= i < |vs| ensures !BigIntAt(vs[i]) {
        assert !IsNullValue(vs[i]) ==> ShapeForValue(vs[i]) == CommonShape(vs).value;
      }
    }
  }

  lemma ListsExact(vs: seq<Value>)
    requires ShapeOf(vs).Ok?
    ensures ShapeOf(vs).value == ListShape <==> HasList(vs)
  {
    ShapeMeans(vs);
    hide CommonShape;
  }

  /** Values of one kind whose big integers fit, at every depth of lists. */
  ghost predicate Encodable(vs: seq<Value>)
    decreases DepthAll(vs)
  {
    && OneKind(vs) && IntegersFit(vs)
    && (HasList(vs) ==> assert DepthAll(Flatten(vs)) < DepthAll(vs) by { ItemsShrink(vs); } Encodable(Flatten(vs)))
  }

  lemma ItemsShrink(vs: seq<Value>)
    requires HasList(vs) && OneKind(vs) && IntegersFit(vs)
    ensures ShapeOf(vs) == Ok(ListShape) && DepthAll(Flatten(vs)) < DepthAll(vs)
  {
    ShapeExact(vs);
    ListsExact(vs);
    ListColumnShrinks(vs);
  }

  /** Encoding succeeds exactly on such values. */
  lemma {:induction false} EncodesExactly(vs: seq<Value>)
    ensures FromValues(vs).Ok? <==> Encodable(vs)
    ensures FromValues(vs).Err? ==> FromValues(vs).error == TypeError
    decreases DepthAll(vs)
  {
    ShapeExact(vs);
    if ShapeOf(vs).Ok? {
      ListsExact(vs);
    }
    if ShapeOf(vs) == Ok(ListShape) {
      ListColumnShrinks(vs);
      EncodesExactly(Flatten(vs));
      ListEncodes(vs);
      hide *;
    } else {
      hide OneKind, IntegersFit, HasList, ShapeOf, ValidityOfValues, FirstTimestamp, MapAll;
    }
  }

  lemma ListEncodes(vs: seq<Value>)
    requires ShapeOf(vs) == Ok(ListShape) && HasList(vs) && OneKind(vs) && IntegersFit(vs)
    ensures FromValues(vs).Ok? <==> FromValues(Flatten(vs)).Ok?
    ensures FromValues(vs).Err? ==> FromValues(vs).error == FromValues(Flatten(vs)).error
    ensures Encodable(vs) <==> Encodable(Flatten(vs))
  {
    ListColumnShrinks(vs);
    hide OneKind, IntegersFit, HasList, ShapeOf, ValidityOfValues, FirstTimestamp, MapAll;
  }

  predicate FirstTime(vs: seq<Value>, k: nat)
    requires k < |vs|
  {
    vs[k].Atom? && vs[k].scalar.Time? && forall j :: 0 <= j < k ==> !(vs[j].Atom? && vs[j].scalar.Time?)
  }

  lemma {:induction false} FirstTimestampAt(vs: seq<Value>, i: nat) returns (k: nat)
    requires i < |vs| && TimeAt(vs[i])
    ensures k < |vs| && FirstTime(vs, k) && FirstTimestamp(vs) == vs[k].scalar.t
  {
    if TimeAt(vs[0]) {
      k := 0;
    } else {
      k := FirstTimestampAt(vs[1..], i - 1);
      assert forall j :: 1 <= j < |vs| ==> vs[j] == vs[1..][j - 1];
      k := k + 1;
    }
  }

  /** A big integer beyond the signed range makes its column unsigned. */
  predicate NeedsWide(vs: seq<Value>) {
    exists k :: 0 <= k < |vs| && !IntegerWithin(vs[k], -9223372036854775808, 9223372036854775807)
  }

  predicate TimedBy(v: Vector, vs: seq<Value>, k: nat)
    requires k < |vs|
  {
    && FirstTime(vs, k)
    && v.TimestampVector? && v.unit == vs[k].scalar.t.unit && v.utc == vs[k].scalar.t.utc
  }

  /** The vector a column is stored in: by the kind of any value that is not null,
      big integers unsigned when one needs it, timestamps in the unit and zone flag
      of the first one. */
  lemma StoredAs(vs: seq<Value>, i: nat)
    requires FromValues(vs).Ok? && i < |vs| && !IsNull(vs[i])
    ensures var v := FromValues(vs).value;
      match vs[i]
      case Items(_) => v.ListVector?
      case Atom(Number(_)) => v.NumberVector? && v.kind == F64
      case Atom(BigInt(_)) => v.BigIntVector? && (v.unsigned <==> NeedsWide(vs))
      case Atom(Time(_)) => exists k :: 0 <= k < |vs| && TimedBy(v, vs, k)
      case Atom(Bool(_)) => v.BoolVector?
      case Atom(Str(_)) => v.Utf8Vector?
      case Atom(Bytes(_)) => v.BinaryVector?
      case _ => false
  {
    ValueShape(vs, i);
    if BigIntAt(vs[i]) {
      UnsignedExact(vs);
    }
    if TimeAt(vs[i]) {
      var k := FirstTimestampAt(vs, i);
      hide CommonShape, ValidityOfValues, FirstTimestamp;
      assert TimedBy(FromValues(vs).value, vs, k);
    }
    hide CommonShape, ValidityOfValues, FirstTimestamp, NeedsWide, NeedsUnsigned;
  }

  lemma UnsignedExact(vs: seq<Value>)
    requires ShapeOf(vs).Ok? && (ShapeOf(vs).value == BigIntShape || ShapeOf(vs).value == UnsignedShape)
    ensures ShapeOf(vs).value == UnsignedShape <==> NeedsWide(vs)
  {
    ShapeMeans(vs);
    hide CommonShape;
    if NeedsWide(vs) {
      var k :| 0 <= k < |vs| && !IntegerWithin(vs[k], -9223372036854775808, 9223372036854775807);
      assert BigIntAt(vs[k]);
    }
    if NeedsUnsigned(vs) {
      var k :| 0 <= k < |vs| && BigIntAt(vs[k]) && vs[k].scalar.i > MAX_I64;
      assert !IntegerWithin(vs[k], -9223372036854775808, 9223372036854775807);
    }
  }

  /** Only timestamps are lost, and kept are those that are whole units of the first
      one's unit within 64 bits, with its zone flag. */
  lemma KeptMeans(t: Timestamp, first: Timestamp)
    ensures TimestampKept(t, first) <==>
      t.unit == first.unit && t.utc == first.utc
      && exists epoch :: -9223372036854775808 <= epoch <= 9223372036854775807 && InUnits(t, epoch)
  {
    var epoch := TimestampEpochForUnit(t, t.unit);
    WholeUnits(t, epoch);
    if t.nanos % NanosPerUnit(t.unit) == 0 {
      assert InUnits(t, epoch);
    }
    forall e | InUnits(t, e) ensures t.nanos % NanosPerUnit(t.unit) == 0 && e == epoch {
      WholeUnits(t, e);
    }
    hide NanosPerUnit, TimestampEpochForUnit, InUnits;
  }

  lemma WholeUnits(t: Timestamp, epoch: int)
    ensures InUnits(t, epoch) <==> t.nanos % NanosPerUnit(t.unit) == 0 && epoch == TimestampEpochForUnit(t, t.unit)
  {
    var scale := NanosPerUnit(t.unit);
    UnitIs(t, epoch);
    TruncatedExact(t.nanos, scale);
    hide *;
    if epoch * scale == t.nanos {
      MultipleDivides(epoch, scale, t.nanos);
    }
    EpochIs(t);
  }

  lemma UnitIs(t: Timestamp, epoch: int)
    ensures InUnits(t, epoch) <==> epoch * NanosPerUnit(t.unit) == t.nanos
  {
  }

  lemma EpochIs(t: Timestamp)
    ensures TimestampEpochForUnit(t, t.unit) == TruncatedDiv(t.nanos, NanosPerUnit(t.unit))
  {
    hide TruncatedDiv, NanosPerUnit;
  }

  predicate InUnits(t: Timestamp, epoch: int) {
    match t.unit
    case Millis => t.nanos == epoch * 1000000
    case Micros => t.nanos == epoch * 1000
    case Nanos => t.nanos == epoch
  }
}
