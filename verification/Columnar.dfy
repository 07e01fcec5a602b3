/** Encoding a column of values as a vector, and reading the values back. */
module Columnar {
  import opened Scalars
  import opened Vectors

  datatype Shape = NullShape | NumberShape | BigIntShape | UnsignedShape | TimestampShape | BoolShape | Utf8Shape
                 | BinaryShape | ListShape | StructShape

  const MIN_I64: int := -0x8000_0000_0000_0000
  const MAX_I64: int := 0x7fff_ffff_ffff_ffff
  const MAX_U64: int := 0xffff_ffff_ffff_ffff

  /** What a signed 64-bit array cell keeps of an integer. */
  function WrapI64(i: int): int {
    (i - MIN_I64) % (MAX_U64 + 1) + MIN_I64
  }

  predicate IsNullValue(v: Value) {
    v == Atom(Null)
  }

  function ShapeForValue(v: Value): Shape
    requires !IsNullValue(v)
  {
    match v
    case Items(_) => ListShape
    case Atom(Bytes(_)) => BinaryShape
    case Atom(Number(_)) => NumberShape
    case Atom(BigInt(_)) => BigIntShape
    case Atom(Time(_)) => TimestampShape
    case Atom(Bool(_)) => BoolShape
    case Atom(Str(_)) => Utf8Shape
    case Atom(Span(_)) => StructShape
    case Atom(Null) => assert false; NullShape
  }

  // ----- The shape of a column -----

  /** The common shape of the non-null values; `NullShape` when there are none. */
  function CommonShape(vs: seq<Value>): Result<Shape>
    decreases |vs|
  {
    if vs == [] then Ok(NullShape)
    else
      var before :- CommonShape(vs[..|vs| - 1]);
      var last := vs[|vs| - 1];
      if IsNullValue(last) then Ok(before)
      else if before == NullShape then Ok(ShapeForValue(last))
      else if before != ShapeForValue(last) then Err(TypeError)
      else Ok(before)
  }

  /** One bit a value, absent when no value is null. */
  function ValidityOfValues(vs: seq<Value>): Validity {
    if exists i :: 0 <= i < |vs| && IsNullValue(vs[i])
    then Some(seq(|vs|, i requires 0 <= i < |vs| => !IsNullValue(vs[i])))
    else None
  }

  predicate BigIntAt(v: Value) {
    v.Atom? && v.scalar.BigInt?
  }

  predicate OutOfRange(vs: seq<Value>) {
    exists i :: 0 <= i < |vs| && BigIntAt(vs[i]) && (vs[i].scalar.i < MIN_I64 || vs[i].scalar.i > MAX_U64)
  }

  predicate NeedsUnsigned(vs: seq<Value>) {
    exists i :: 0 <= i < |vs| && BigIntAt(vs[i]) && vs[i].scalar.i > MAX_I64
  }

  predicate HasNegative(vs: seq<Value>) {
    exists i :: 0 <= i < |vs| && BigIntAt(vs[i]) && vs[i].scalar.i < 0
  }

  /** The shape, with big integers promoted to unsigned where they need it. */
  function ShapeOf(vs: seq<Value>): Result<Shape> {
    var shape :- CommonShape(vs);
    if shape != BigIntShape then Ok(shape)
    else if OutOfRange(vs) then Err(TypeError)
    else if NeedsUnsigned(vs) && HasNegative(vs) then Err(TypeError)
    else Ok(if NeedsUnsigned(vs) then UnsignedShape else BigIntShape)
  }

  /** One pass for shape and validity, a second over big integers. */
  method VectorShape(vs: seq<Value>) returns (r: Result<(Shape, Validity)>)
    ensures match ShapeOf(vs)
            case Ok(shape) => r == Ok((shape, ValidityOfValues(vs)))
            case Err(e) => r == Err(e)
  {
    hide OutOfRange, NeedsUnsigned, HasNegative;
    var shape: Option<Shape> := None;
    var valid: Validity := None;
    for n := 0 to |vs|
      invariant valid.Some? ==> |valid.value| == |vs|
      invariant valid.Some? <==> exists i :: 0 <= i < n && IsNullValue(vs[i])
      invariant valid.Some? ==> forall i :: 0 <= i < n ==> valid.value[i] == !IsNullValue(vs[i])
      invariant CommonShape(vs[..n]) == Ok(if shape.None? then NullShape else shape.value)
      invariant shape.Some? ==> shape.value != NullShape
    {
      var value := vs[n];
      assert vs[..n + 1][..n] == vs[..n] && vs[..n + 1][n] == value;
      if IsNullValue(value) {
        if valid.None? {
          valid := Some(seq(|vs|, i => i < n));
        }
        valid := Some(valid.value[n := false]);
        continue;
      }
      if valid.Some? {
        valid := Some(valid.value[n := true]);
      }
      var next := ShapeForValue(value);
      if shape.None? {
        shape := Some(next);
      } else if shape.value != next {
        CommonShapeFails(vs, n + 1, |vs|);
        assert vs[..|vs|] == vs;
        return Err(TypeError);
      }
    }
    assert vs[..|vs|] == vs;
    assert valid.Some? ==> valid.value == ValidityOfValues(vs).value;
    if shape == Some(BigIntShape) {
      r := BigIntRange(vs, valid);
    } else {
      r := Ok((if shape.None? then NullShape else shape.value, valid));
    }
  }

  lemma {:induction false} CommonShapeFails(vs: seq<Value>, n: nat, m: nat)
    requires n <= m <= |vs| && CommonShape(vs[..n]) == Err(TypeError)
    ensures CommonShape(vs[..m]) == Err(TypeError)
  {
    if n < m {
      CommonShapeFails(vs, n, m - 1);
      assert vs[..m][..m - 1] == vs[..m - 1];
    }
  }

  method BigIntRange(vs: seq<Value>, valid: Validity) returns (r: Result<(Shape, Validity)>)
    ensures r == if OutOfRange(vs) || (NeedsUnsigned(vs) && HasNegative(vs)) then Err(TypeError)
                 else Ok((if NeedsUnsigned(vs) then UnsignedShape else BigIntShape, valid))
  {
    var requiresUnsigned, hasNegative := false, false;
    for n := 0 to |vs|
      invariant requiresUnsigned <==> NeedsUnsigned(vs[..n])
      invariant hasNegative <==> HasNegative(vs[..n])
      invariant !OutOfRange(vs[..n])
    {
      var value := vs[n];
      assert vs[..n + 1] == vs[..n] + [value];
      if BigIntAt(value) {
        if value.scalar.i < 0 {
          hasNegative := true;
        }
        if value.scalar.i > MAX_I64 {
          requiresUnsigned := true;
        }
        if value.scalar.i < MIN_I64 || value.scalar.i > MAX_U64 {
          return Err(TypeError);
        }
      }
    }
    assert vs[..|vs|] == vs;
    if requiresUnsigned && hasNegative {
      return Err(TypeError);
    }
    r := Ok((if requiresUnsigned then UnsignedShape else BigIntShape, valid));
  }

  // ----- Lists -----

  function ItemsOf(v: Value): seq<Value> {
    if v.Items? then v.items else []
  }

  /** The items of all lists, one after another. */
  function Flatten(vs: seq<Value>): seq<Value>
    decreases |vs|
  {
    if vs == [] then [] else Flatten(vs[..|vs| - 1]) + ItemsOf(vs[|vs| - 1])
  }

  /** Where each list's items start among all items; one entry more than lists. */
  function Offsets(vs: seq<Value>): (offsets: seq<nat>)
    ensures |offsets| == |vs| + 1 && forall i :: 0 <= i <= |vs| ==> offsets[i] == |Flatten(vs[..i])|
  {
    seq(|vs| + 1, i requires 0 <= i <= |vs| => |Flatten(vs[..i])|)
  }

  function Depth(v: Value): nat {
    match v
    case Atom(_) => 0
    case Items(items) => 1 + DepthAll(items)
  }

  function DepthAll(vs: seq<Value>): nat
    decreases vs
  {
    if vs == [] then 0
    else
      var rest := DepthAll(vs[1..]);
      if Depth(vs[0]) > rest then Depth(vs[0]) else rest
  }

  lemma {:induction false} DepthBound(vs: seq<Value>, bound: nat)
    ensures DepthAll(vs) <= bound <==> forall i :: 0 <= i < |vs| ==> Depth(vs[i]) <= bound
  {
    if vs != [] {
      DepthBound(vs[1..], bound);
      assert forall i :: 1 <= i < |vs| ==> vs[i] == vs[1..][i - 1];
      if forall i :: 0 <= i < |vs| ==> Depth(vs[i]) <= bound {
        forall i | 0 <= i < |vs[1..]| ensures Depth(vs[1..][i]) <= bound {
          assert vs[1..][i] == vs[i + 1];
        }
      }
    }
  }

  lemma {:induction false} FlattenDepth(vs: seq<Value>, bound: nat)
    requires forall i :: 0 <= i < |vs| ==> Depth(vs[i]) <= bound + 1
    ensures DepthAll(Flatten(vs)) <= bound
    decreases |vs|
  {
    if vs != [] {
      var front, last := vs[..|vs| - 1], vs[|vs| - 1];
      FlattenDepth(front, bound);
      DepthBound(Flatten(front), bound);
      DepthBound(ItemsOf(last), bound);
      DepthBound(Flatten(vs), bound);
      assert Depth(last) <= bound + 1;
    }
  }

  /** The items of a column of lists are nested less deeply. */
  lemma FlattenShrinks(vs: seq<Value>, i: nat)
    requires i < |vs| && vs[i].Items?
    ensures DepthAll(Flatten(vs)) < DepthAll(vs)
  {
    DepthBound(vs, DepthAll(vs));
    assert 1 <= Depth(vs[i]) <= DepthAll(vs);
    FlattenDepth(vs, DepthAll(vs) - 1);
  }

  /** A column of a given shape has a value of that shape, and only such values. */
  lemma {:induction false} ShapeMeans(vs: seq<Value>)
    requires CommonShape(vs).Ok?
    ensures forall i :: 0 <= i < |vs| && !IsNullValue(vs[i]) ==> ShapeForValue(vs[i]) == CommonShape(vs).value
    ensures CommonShape(vs).value != NullShape ==> exists i :: 0 <= i < |vs| && !IsNullValue(vs[i])
    decreases |vs|
  {
    if vs != [] {
      var front := vs[..|vs| - 1];
      ShapeMeans(front);
      forall i | 0 <= i < |vs| && !IsNullValue(vs[i]) ensures ShapeForValue(vs[i]) == CommonShape(vs).value {
        if i < |vs| - 1 {
          assert !IsNullValue(front[i]);
        }
      }
      if CommonShape(vs).value != NullShape && IsNullValue(vs[|vs| - 1]) {
        var i :| 0 <= i < |front| && !IsNullValue(front[i]);
        assert !IsNullValue(vs[i]);
      }
    }
  }

  lemma ListShapeIsCommon(vs: seq<Value>)
    requires ShapeOf(vs) == Ok(ListShape)
    ensures CommonShape(vs) == Ok(ListShape)
  {
    hide CommonShape;
  }

  lemma ListShapeMeans(v: Value)
    requires !IsNullValue(v) && ShapeForValue(v) == ListShape
    ensures v.Items?
  {
  }

  lemma ListColumnShrinks(vs: seq<Value>)
    requires ShapeOf(vs) == Ok(ListShape)
    ensures DepthAll(Flatten(vs)) < DepthAll(vs)
    ensures forall i :: 0 <= i < |vs| && !IsNullValue(vs[i]) ==> vs[i].Items?
  {
    hide *;
    ListShapeIsCommon(vs);
    ShapeMeans(vs);
    forall i | 0 <= i < |vs| && !IsNullValue(vs[i]) ensures vs[i].Items? {
      ListShapeMeans(vs[i]);
    }
    var i :| 0 <= i < |vs| && !IsNullValue(vs[i]);
    FlattenShrinks(vs, i);
  }

  // ----- Encoding -----

  function NumberOf(v: Value): Num {
    if v.Atom? && v.scalar.Number? then v.scalar.n else Fin(0.0)
  }

  function BigIntOf(v: Value): int {
    if BigIntAt(v) then v.scalar.i else 0
  }

  function BoolOf(v: Value): bool {
    v == Atom(Bool(true))
  }

  function TextOf(v: Value): string {
    if v.Atom? && v.scalar.Str? then v.scalar.s else ""
  }

  function BlobOf(v: Value): seq<bv8> {
    if v.Atom? && v.scalar.Bytes? then v.scalar.bytes else []
  }

  predicate TimeAt(v: Value) {
    v.Atom? && v.scalar.Time?
  }

  /** The first timestamp sets the unit and zone flag of its column. */
  function FirstTimestamp(vs: seq<Value>): Timestamp {
    if vs == [] then Timestamp(0, Millis, true)
    else if TimeAt(vs[0]) then vs[0].scalar.t
    else FirstTimestamp(vs[1..])
  }

  function EpochOf(v: Value, unit: TimestampUnit): int {
    if TimeAt(v) then WrapI64(TimestampEpochForUnit(v.scalar.t, unit)) else 0
  }

  function MapAll<T>(vs: seq<Value>, f: Value -> T): (s: seq<T>)
    ensures |s| == |vs| && forall i :: 0 <= i < |vs| ==> s[i] == f(vs[i])
  {
    seq(|vs|, i requires 0 <= i < |vs| => f(vs[i]))
  }

  function FromValues(vs: seq<Value>): Result<Vector>
    decreases DepthAll(vs)
  {
    var shape :- ShapeOf(vs);
    var valid := ValidityOfValues(vs);
    match shape
    case NullShape => Ok(NullVector(|vs|))
    case NumberShape => Ok(NumberVector(F64, MapAll(vs, v => NumberOf(v)), valid))
    case BigIntShape => Ok(BigIntVector(false, MapAll(vs, v => BigIntOf(v)), valid))
    case UnsignedShape => Ok(BigIntVector(true, MapAll(vs, v => BigIntOf(v)), valid))
    case TimestampShape =>
      var first := FirstTimestamp(vs);
      Ok(TimestampVector(MapAll(vs, v => EpochOf(v, first.unit)), first.unit, first.utc, valid))
    case BoolShape => Ok(BoolVector(MapAll(vs, v => BoolOf(v)), valid))
    case Utf8Shape => Ok(Utf8Vector(MapAll(vs, v => TextOf(v)), valid))
    case BinaryShape => Ok(BinaryVector(MapAll(vs, v => BlobOf(v)), valid))
    case StructShape => Err(TypeError)
    case ListShape =>
      ListColumnShrinks(vs);
      var child :- FromValues(Flatten(vs));
      Ok(ListVectorOf(vs, child))
  }

  /** Appends the items of every list and notes where each ends. */
  method ListValues(vs: seq<Value>) returns (offsets: seq<nat>, childValues: seq<Value>)
    ensures offsets == Offsets(vs) && childValues == Flatten(vs)
  {
    offsets, childValues := [0], [];
    for n := 0 to |vs|
      invariant |offsets| == n + 1 && forall i :: 0 <= i <= n ==> offsets[i] == |Flatten(vs[..i])|
      invariant childValues == Flatten(vs[..n])
    {
      assert vs[..n + 1][..n] == vs[..n];
      childValues := childValues + ItemsOf(vs[n]);
      offsets := offsets + [|childValues|];
    }
    assert vs[..|vs|] == vs;
    assert offsets == Offsets(vs);
  }

  method TimestampValues(vs: seq<Value>) returns (epochs: seq<int>, unit: TimestampUnit, utc: bool)
    ensures unit == FirstTimestamp(vs).unit && utc == FirstTimestamp(vs).utc
    ensures epochs == MapAll(vs, v => EpochOf(v, FirstTimestamp(vs).unit))
  {
    var first: Option<Timestamp> := None;
    epochs := [];
    for n := 0 to |vs|
      invariant |epochs| == n
      invariant first.None? <==> forall i :: 0 <= i < n ==> !TimeAt(vs[i])
      invariant first.None? ==> FirstTimestamp(vs) == FirstTimestamp(vs[n..])
      invariant first.Some? ==> first.value == FirstTimestamp(vs)
      invariant forall i :: 0 <= i < n ==>
        epochs[i] == if first.None? then 0 else EpochOf(vs[i], first.value.unit)
    {
      if TimeAt(vs[n]) && first.None? {
        first := Some(vs[n].scalar.t);
      }
      epochs := epochs + [if first.None? then 0 else EpochOf(vs[n], first.value.unit)];
    }
    if first.None? {
      unit, utc := Millis, true;
    } else {
      unit, utc := first.value.unit, first.value.utc;
    }
    assert epochs == MapAll(vs, v => EpochOf(v, FirstTimestamp(vs).unit));
  }

  /** The encoder: shape first, then the values, recursively for lists. */
  method VectorFromValues(vs: seq<Value>) returns (r: Result<Vector>)
    ensures r == FromValues(vs)
    decreases DepthAll(vs)
  {
    var shaped := VectorShape(vs);
    if shaped.Err? {
      return Err(shaped.error);
    }
    var (shape, valid) := shaped.value;
    match shape {
      case ListShape =>
        ListColumnShrinks(vs);
        var offsets, childValues := ListValues(vs);
        var child := VectorFromValues(childValues);
        if child.Err? {
          return Err(child.error);
        }
        r := Ok(ListVector(offsets, child.value, valid));
      case TimestampShape =>
        var epochs, unit, utc := TimestampValues(vs);
        r := Ok(TimestampVector(epochs, unit, utc, valid));
      case _ =>
        r := FromValues(vs);
    }
  }

  // ----- Reading back -----

  ghost predicate TimestampsKept(vs: seq<Value>) {
    var first := FirstTimestamp(vs);
    forall i :: 0 <= i < |vs| && TimeAt(vs[i]) ==> TimestampKept(vs[i].scalar.t, first)
  }

  /** The timestamp is of the column's unit and zone flag, a whole number of
      units, and within 64 bits. */
  predicate TimestampKept(t: Timestamp, first: Timestamp) {
    && t.unit == first.unit && t.utc == first.utc
    && t.nanos % NanosPerUnit(t.unit) == 0
    && MIN_I64 <= TimestampEpochForUnit(t, t.unit) <= MAX_I64
  }

  /** Nothing is lost at any depth: only timestamps can be. */
  ghost predicate Lossless(vs: seq<Value>)
    decreases DepthAll(vs)
  {
    match ShapeOf(vs)
    case Ok(TimestampShape) => TimestampsKept(vs)
    case Ok(ListShape) =>
      ListColumnShrinks(vs);
      Lossless(Flatten(vs))
    case _ => true
  }

  lemma ValidityMeans(vs: seq<Value>, i: nat)
    requires i < |vs|
    ensures ValidityOfValues(vs).Some? ==> |ValidityOfValues(vs).value| == |vs|
    ensures Present(ValidityOfValues(vs), i) <==> !IsNullValue(vs[i])
  {
  }

  /** A non-null value of a column is of the column's shape. */
  lemma ValueShape(vs: seq<Value>, i: nat)
    requires ShapeOf(vs).Ok? && i < |vs| && !IsNullValue(vs[i])
    ensures ShapeOf(vs).value != NullShape
    ensures ShapeForValue(vs[i]) == if ShapeOf(vs).value == UnsignedShape then BigIntShape else ShapeOf(vs).value
  {
    assert CommonShape(vs).Ok?;
    ShapeMeans(vs);
  }

  lemma EpochRoundTrip(t: Timestamp, unit: TimestampUnit, utc: bool)
    ensures Timestamp(WrapI64(TimestampEpochForUnit(t, unit)) * NanosPerUnit(unit), unit, utc) == t
       <==> TimestampKept(t, Timestamp(0, unit, utc))
  {
    var n := NanosPerUnit(unit);
    var e := TimestampEpochForUnit(t, unit);
    if t.unit == unit && t.utc == utc {
      WrapExact(e);
      TruncatedExact(t.nanos, n);
      if WrapI64(e) * n == t.nanos {
        MultipleDivides(WrapI64(e), n, t.nanos);
      }
    }
  }

  lemma WrapExact(e: int)
    ensures MIN_I64 <= WrapI64(e) <= MAX_I64
    ensures MIN_I64 <= e <= MAX_I64 ==> WrapI64(e) == e
  {
  }

  lemma TruncatedExact(a: int, n: int)
    requires n > 0
    ensures a % n == 0 ==> TruncatedDiv(a, n) * n == a
  {
    if a % n == 0 && a < 0 {
      assert (-a) % n == 0 by {
        assert a == (a / n) * n;
        MultipleDivides(-(a / n), n, -a);
      }
    }
  }

  lemma MultipleDivides(k: int, n: int, a: int)
    requires n > 0 && k * n == a
    ensures a % n == 0 && TruncatedDiv(a, n) == k
  {
    QuotientUnique(a, n, k);
    NegatedProduct(k, n);
    QuotientUnique(-a, n, -k);
  }

  lemma NegatedProduct(k: int, n: int)
    ensures (-k) * n == -(k * n)
  {
  }

  lemma QuotientUnique(a: int, n: int, k: int)
    requires n > 0 && k * n == a
    ensures a / n == k && a % n == 0
  {
    var q := a / n;
    assert a == q * n + a % n;
    if q < k {
      Gap(q, k, n);
    } else if q > k {
      Gap(k, q, n);
    }
  }

  lemma Gap(q: int, k: int, n: int)
    requires q < k && n > 0
    ensures k * n - q * n >= n
  {
    assert k * n - q * n == (k - q) * n;
    ProductAtLeast(k - q, n);
  }

  lemma ProductAtLeast(k: int, n: int)
    requires k >= 1 && n >= 0
    ensures k * n >= n
  {
  }

  // ----- Where a list's items lie -----

  lemma {:induction false} FlattenPrefix(vs: seq<Value>, n: nat)
    requires n <= |vs|
    ensures |Flatten(vs[..n])| <= |Flatten(vs)| && Flatten(vs)[..|Flatten(vs[..n])|] == Flatten(vs[..n])
    decreases |vs|
  {
    if n == |vs| {
      assert vs[..n] == vs;
    } else {
      var front := vs[..|vs| - 1];
      FlattenPrefix(front, n);
      assert front[..n] == vs[..n];
    }
  }

  lemma FlattenSnoc(vs: seq<Value>, i: nat)
    requires i < |vs|
    ensures Flatten(vs[..i + 1]) == Flatten(vs[..i]) + ItemsOf(vs[i])
  {
    assert vs[..i + 1][..i] == vs[..i];
  }

  /** Item `k` of list `i` is found at its offset. */
  lemma FlattenAt(vs: seq<Value>, i: nat, k: nat)
    requires i < |vs| && k < |ItemsOf(vs[i])|
    ensures |Flatten(vs[..i])| + k < |Flatten(vs[..i + 1])| <= |Flatten(vs)|
    ensures Flatten(vs)[|Flatten(vs[..i])| + k] == ItemsOf(vs[i])[k]
  {
    FlattenSnoc(vs, i);
    FlattenPrefix(vs, i + 1);
    var at, upTo := |Flatten(vs[..i])| + k, Flatten(vs[..i + 1]);
    assert upTo[at] == ItemsOf(vs[i])[k];
    assert Flatten(vs)[..|upTo|][at] == Flatten(vs)[at];
  }

  /** Every item belongs to some list. */
  lemma {:induction false} FlattenOwner(vs: seq<Value>, c: nat) returns (i: nat, k: nat)
    requires c < |Flatten(vs)|
    ensures i < |vs| && k < |ItemsOf(vs[i])| && c == |Flatten(vs[..i])| + k
    decreases |vs|
  {
    var front := vs[..|vs| - 1];
    if c < |Flatten(front)| {
      i, k := FlattenOwner(front, c);
      assert front[..i] == vs[..i];
    } else {
      i, k := |vs| - 1, c - |Flatten(front)|;
    }
  }

  lemma OffsetsAscend(vs: seq<Value>, i: nat, j: nat)
    requires i <= j <= |vs|
    ensures Offsets(vs)[i] <= Offsets(vs)[j] <= |Flatten(vs)|
  {
    FlattenPrefix(vs[..j], i);
    assert vs[..j][..i] == vs[..i];
    FlattenPrefix(vs, j);
  }

  // ----- Round trips -----

  ghost predicate ReadsBack(v: Vector, vs: seq<Value>)
    requires WellFormed(v) && Length(v) == |vs|
  {
    forall i :: 0 <= i < |vs| ==> ValueAt(v, i) == vs[i]
  }

  lemma ListWellFormed(vs: seq<Value>, child: Vector)
    requires WellFormed(child) && Length(child) == |Flatten(vs)|
    ensures WellFormed(ListVectorOf(vs, child)) && Length(ListVectorOf(vs, child)) == |vs|
  {
    forall i, j | 0 <= i <= j < |vs| + 1 ensures Offsets(vs)[i] <= Offsets(vs)[j] <= Length(child) {
      OffsetsAscend(vs, i, j);
    }
  }

  /** Item `k` of list `i` reads back from the child column. */
  ghost predicate ItemRead(child: Vector, vs: seq<Value>, i: nat, k: nat)
    requires WellFormed(child) && Length(child) == |Flatten(vs)| && i < |vs| && k < |ItemsOf(vs[i])|
  {
    |Flatten(vs[..i])| + k < |Flatten(vs)| && ValueAt(child, |Flatten(vs[..i])| + k) == ItemsOf(vs[i])[k]
  }

  ghost predicate ItemsRead(child: Vector, vs: seq<Value>, i: nat)
    requires WellFormed(child) && Length(child) == |Flatten(vs)| && i < |vs|
  {
    forall k :: 0 <= k < |ItemsOf(vs[i])| ==> ItemRead(child, vs, i, k)
  }

  function ListVectorOf(vs: seq<Value>, child: Vector): Vector {
    ListVector(Offsets(vs), child, ValidityOfValues(vs))
  }

  lemma ItemsReadMeans(child: Vector, vs: seq<Value>, i: nat, read: seq<Value>, start: nat)
    requires WellFormed(child) && Length(child) == |Flatten(vs)| && i < |vs|
    requires start == |Flatten(vs[..i])| && |read| == |ItemsOf(vs[i])| && start + |read| <= Length(child)
    requires forall k :: 0 <= k < |read| ==> read[k] == ValueAt(child, start + k)
    ensures read == ItemsOf(vs[i]) <==> ItemsRead(child, vs, i)
  {
    hide Flatten, ValueAt, WellFormed;
    forall k | 0 <= k < |read| ensures ItemRead(child, vs, i, k) <==> read[k] == ItemsOf(vs[i])[k] {
    }
  }

  /** A list reads back exactly when its items do. */
  lemma ListReads(vs: seq<Value>, child: Vector, i: nat)
    requires WellFormed(child) && Length(child) == |Flatten(vs)| && i < |vs|
    requires IsNullValue(vs[i]) || vs[i].Items?
    ensures WellFormed(ListVectorOf(vs, child)) && Length(ListVectorOf(vs, child)) == |vs|
    ensures ValueAt(ListVectorOf(vs, child), i) == vs[i] <==> ItemsRead(child, vs, i)
  {
    hide *;
    ListWellFormed(vs, child);
    ListVectorMeans(vs, child);
    ValidityMeans(vs, i);
    var v, offsets := ListVectorOf(vs, child), Offsets(vs);
    OffsetsAscend(vs, i, i + 1);
    FlattenSnoc(vs, i);
    if IsNullValue(vs[i]) {
      NullReads(v, vs, child, i);
    } else {
      ItemsOfList(vs[i]);
      ListValueAt(v, offsets, child, ValidityOfValues(vs), i);
      var n := offsets[i + 1] - offsets[i];
      var read := seq(n, k requires 0 <= k < n => ValueAt(child, offsets[i] + k));
      ItemsReadMeans(child, vs, i, read, offsets[i]);
    }
  }

  lemma ListVectorMeans(vs: seq<Value>, child: Vector)
    ensures ListVectorOf(vs, child) == ListVector(Offsets(vs), child, ValidityOfValues(vs))
  {
  }

  lemma ItemsOfList(v: Value)
    requires v.Items?
    ensures ItemsOf(v) == v.items
  {
  }

  lemma ItemsReadAt(child: Vector, vs: seq<Value>, i: nat, k: nat)
    requires WellFormed(child) && Length(child) == |Flatten(vs)| && i < |vs|
    requires ItemsRead(child, vs, i) && k < |ItemsOf(vs[i])| && |Flatten(vs[..i])| + k < |Flatten(vs)|
    ensures ValueAt(child, |Flatten(vs[..i])| + k) == ItemsOf(vs[i])[k]
  {
    hide Flatten, ValueAt, WellFormed, ItemsOf;
    assert ItemRead(child, vs, i, k);
  }

  lemma ReadAt(v: Vector, vs: seq<Value>, i: nat)
    requires WellFormed(v) && Length(v) == |vs| && ReadsBack(v, vs) && i < |vs|
    ensures ValueAt(v, i) == vs[i]
  {
    hide ValueAt, WellFormed;
  }

  lemma AllItemsRead(child: Vector, vs: seq<Value>, i: nat)
    requires WellFormed(child) && Length(child) == |Flatten(vs)| && i < |vs| && ReadsBack(child, Flatten(vs))
    ensures ItemsRead(child, vs, i)
  {
    hide Flatten, ValueAt, WellFormed, ItemsOf, ReadsBack;
    forall k | 0 <= k < |ItemsOf(vs[i])| ensures ItemRead(child, vs, i, k) {
      FlattenAt(vs, i, k);
      ReadAt(child, Flatten(vs), |Flatten(vs[..i])| + k);
    }
  }

  lemma ReadsBackWhen(v: Vector, vs: seq<Value>)
    requires WellFormed(v) && Length(v) == |vs| && forall i :: 0 <= i < |vs| ==> ValueAt(v, i) == vs[i]
    ensures ReadsBack(v, vs)
  {
    hide ValueAt, WellFormed;
  }

  lemma NullReads(v: Vector, vs: seq<Value>, child: Vector, i: nat)
    requires WellFormed(v) && v == ListVectorOf(vs, child) && i < |vs| == Length(v) && IsNullValue(vs[i])
    requires WellFormed(child) && Length(child) == |Flatten(vs)|
    ensures ValueAt(v, i) == vs[i] && ItemsRead(child, vs, i)
  {
    ValidityMeans(vs, i);
  }

  lemma ListValueAt(v: Vector, offsets: seq<nat>, child: Vector, valid: Validity, i: nat)
    requires v == ListVector(offsets, child, valid) && WellFormed(v) && i < Length(v) && Present(valid, i)
    ensures offsets[i] <= offsets[i + 1] <= Length(child)
    ensures var n := offsets[i + 1] - offsets[i];
            ValueAt(v, i) == Items(seq(n, k requires 0 <= k < n => ValueAt(child, offsets[i] + k)))
  {
  }

  lemma ListRoundTrip(vs: seq<Value>, child: Vector)
    requires WellFormed(child) && Length(child) == |Flatten(vs)|
    requires forall i :: 0 <= i < |vs| && !IsNullValue(vs[i]) ==> vs[i].Items?
    ensures WellFormed(ListVectorOf(vs, child)) && Length(ListVectorOf(vs, child)) == |vs|
    ensures ReadsBack(ListVectorOf(vs, child), vs) <==> ReadsBack(child, Flatten(vs))
  {
    hide *;
    ListWellFormed(vs, child);
    var v := ListVectorOf(vs, child);
    if ReadsBack(v, vs) {
      forall c | 0 <= c < |Flatten(vs)| ensures ValueAt(child, c) == Flatten(vs)[c] {
        var i, k := FlattenOwner(vs, c);
        ListReads(vs, child, i);
        ReadAt(v, vs, i);
        FlattenAt(vs, i, k);
        ItemsReadAt(child, vs, i, k);
      }
      ReadsBackWhen(child, Flatten(vs));
    }
    if ReadsBack(child, Flatten(vs)) {
      forall i | 0 <= i < |vs| ensures ValueAt(v, i) == vs[i] {
        ListReads(vs, child, i);
        AllItemsRead(child, vs, i);
      }
      ReadsBackWhen(v, vs);
    }
  }

  lemma ValidityFits(vs: seq<Value>)
    ensures ValidityOfValues(vs).Some? ==> |ValidityOfValues(vs).value| == |vs|
  {
  }

  lemma FlatWellFormed(vs: seq<Value>)
    requires FromValues(vs).Ok? && ShapeOf(vs) != Ok(ListShape)
    ensures WellFormed(FromValues(vs).value) && Length(FromValues(vs).value) == |vs|
  {
    ValidityFits(vs);
    hide ShapeOf, ValidityOfValues, FirstTimestamp, EpochOf, BigIntOf, NumberOf, BoolOf, TextOf, BlobOf;
  }

  /** What a present cell of a flat column holds. */
  lemma FlatValueAt(vs: seq<Value>, i: nat)
    requires FromValues(vs).Ok? && ShapeOf(vs) != Ok(ListShape) && i < |vs| && !IsNullValue(vs[i])
    requires WellFormed(FromValues(vs).value) && Length(FromValues(vs).value) == |vs|
    requires Present(ValidityOfValues(vs), i) && ShapeOf(vs) != Ok(NullShape)
    ensures ValueAt(FromValues(vs).value, i) == Atom(
      match ShapeOf(vs).value
      case NumberShape => Number(NumberOf(vs[i]))
      case BigIntShape => BigInt(BigIntOf(vs[i]))
      case UnsignedShape => BigInt(BigIntOf(vs[i]))
      case TimestampShape =>
        var first := FirstTimestamp(vs);
        Time(Timestamp(EpochOf(vs[i], first.unit) * NanosPerUnit(first.unit), first.unit, first.utc))
      case BoolShape => Bool(BoolOf(vs[i]))
      case Utf8Shape => Str(TextOf(vs[i]))
      case BinaryShape => Bytes(BlobOf(vs[i]))
      case _ => Null)
  {
    hide ShapeOf, ValidityOfValues, FirstTimestamp, EpochOf, BigIntOf, NumberOf, BoolOf, TextOf, BlobOf, NanosPerUnit;
  }

  /** One value of a column that holds no lists. */
  lemma FlatRoundTrip(vs: seq<Value>, i: nat)
    requires FromValues(vs).Ok? && ShapeOf(vs) != Ok(ListShape) && i < |vs|
    ensures WellFormed(FromValues(vs).value) && Length(FromValues(vs).value) == |vs|
    ensures ValueAt(FromValues(vs).value, i) == vs[i] <==>
      (ShapeOf(vs) == Ok(TimestampShape) && TimeAt(vs[i]) ==> TimestampKept(vs[i].scalar.t, FirstTimestamp(vs)))
  {
    FlatWellFormed(vs);
    ValidityMeans(vs, i);
    if IsNullValue(vs[i]) {
      FlatNullAt(vs, i);
    } else {
      ValueShape(vs, i);
      FlatValueAt(vs, i);
      hide FromValues, ShapeOf, ValidityOfValues, FirstTimestamp, WrapI64, TimestampEpochForUnit, TimestampKept,
           NanosPerUnit, ValueAt, WellFormed;
      if TimeAt(vs[i]) {
        var first := FirstTimestamp(vs);
        EpochRoundTrip(vs[i].scalar.t, first.unit, first.utc);
        KeptByUnit(vs[i].scalar.t, first);
      }
    }
  }

  lemma FlatNullAt(vs: seq<Value>, i: nat)
    requires FromValues(vs).Ok? && ShapeOf(vs) != Ok(ListShape) && i < |vs| && IsNullValue(vs[i])
    requires WellFormed(FromValues(vs).value) && Length(FromValues(vs).value) == |vs|
    requires !Present(ValidityOfValues(vs), i)
    ensures ValueAt(FromValues(vs).value, i) == Atom(Null)
  {
    hide ShapeOf, ValidityOfValues, FirstTimestamp, EpochOf, BigIntOf, NumberOf, BoolOf, TextOf, BlobOf, NanosPerUnit;
  }

  lemma KeptByUnit(t: Timestamp, first: Timestamp)
    ensures TimestampKept(t, first) <==> TimestampKept(t, Timestamp(0, first.unit, first.utc))
  {
  }

  lemma LosslessList(vs: seq<Value>)
    requires ShapeOf(vs) == Ok(ListShape)
    ensures Lossless(vs) <==> Lossless(Flatten(vs))
  {
  }

  /** Values read back from their vector if and only if nothing is lost, at any
      depth of lists and with nulls anywhere; only timestamps that are not whole
      64-bit units of their column's first one are. */
  lemma {:induction false} RoundTrip(vs: seq<Value>)
    requires FromValues(vs).Ok?
    ensures WellFormed(FromValues(vs).value) && Length(FromValues(vs).value) == |vs|
    ensures ReadsBack(FromValues(vs).value, vs) <==> Lossless(vs)
    decreases DepthAll(vs)
  {
    var v := FromValues(vs).value;
    if ShapeOf(vs) == Ok(ListShape) {
      ListColumnShrinks(vs);
      RoundTrip(Flatten(vs));
      hide WellFormed, Lossless, ReadsBack;
      ListRoundTrip(vs, FromValues(Flatten(vs)).value);
      LosslessList(vs);
    } else {
      FlatWellFormed(vs);
      hide FromValues, WellFormed, TimestampKept, ValueAt, TimeAt;
      forall i | 0 <= i < |vs|
        ensures ValueAt(v, i) == vs[i] <==>
          (ShapeOf(vs) == Ok(TimestampShape) && TimeAt(vs[i]) ==> TimestampKept(vs[i].scalar.t, FirstTimestamp(vs)))
      {
        FlatRoundTrip(vs, i);
      }
    }
  }
}
