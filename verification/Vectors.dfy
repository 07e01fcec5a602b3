/** Column vectors: the columnar representation and the values it denotes. */
module Vectors {
  import opened Scalars
  import opened Expressions

  datatype NumberKind = F32 | F64 | I32 | U32 | U8

  /** One bit a row; absent when every row is present. */
  type Validity = Option<seq<bool>>

  datatype Vector =
    | NullVector(length: nat)
    | NumberVector(kind: NumberKind, numbers: seq<Num>, valid: Validity)
    | BigIntVector(unsigned: bool, bigints: seq<int>, valid: Validity)
    | TimestampVector(epochs: seq<int>, unit: TimestampUnit, utc: bool, valid: Validity)
    | BoolVector(bools: seq<bool>, valid: Validity)
    | Utf8Vector(strings: seq<string>, valid: Validity)
    | BinaryVector(blobs: seq<seq<bv8>>, valid: Validity)
    | DictVector(indices: seq<nat>, dictionary: Vector, valid: Validity)
    | ListVector(offsets: seq<nat>, child: Vector, valid: Validity)

  /** A nested value; nulls inside a list are `Atom(Null)`. */
  datatype Value = Atom(scalar: Scalar) | Items(items: seq<Value>)

  function Length(v: Vector): nat {
    match v
    case NullVector(length) => length
    case NumberVector(_, numbers, _) => |numbers|
    case BigIntVector(_, bigints, _) => |bigints|
    case TimestampVector(epochs, _, _, _) => |epochs|
    case BoolVector(bools, _) => |bools|
    case Utf8Vector(strings, _) => |strings|
    case BinaryVector(blobs, _) => |blobs|
    case DictVector(indices, _, _) => |indices|
    case ListVector(offsets, _, _) => if |offsets| == 0 then 0 else |offsets| - 1
  }

  function ValidityOf(v: Vector): Validity {
    if v.NullVector? then None else v.valid
  }

  predicate Present(valid: Validity, index: nat)
    requires valid.Some? ==> index < |valid.value|
  {
    valid.None? || valid.value[index]
  }

  ghost predicate WellFormed(v: Vector) {
    && (ValidityOf(v).Some? ==> |ValidityOf(v).value| == Length(v))
    && (v.DictVector? ==>
          && WellFormed(v.dictionary)
          && forall i :: 0 <= i < |v.indices| && Present(v.valid, i) ==> v.indices[i] < Length(v.dictionary))
    && (v.ListVector? ==>
          && WellFormed(v.child)
          && |v.offsets| >= 1
          && (forall i :: 0 <= i < |v.offsets| ==> v.offsets[i] <= Length(v.child))
          && (forall i, j :: 0 <= i <= j < |v.offsets| ==> v.offsets[i] <= v.offsets[j]))
  }

  predicate IsScalarVector(v: Vector) {
    match v
    case ListVector(_, _, _) => false
    case DictVector(_, dictionary, _) => IsScalarVector(dictionary)
    case _ => true
  }

  /** The scalar a vector denotes at a row. */
  function ScalarAt(v: Vector, index: nat): Scalar
    requires WellFormed(v) && IsScalarVector(v) && index < Length(v)
  {
    if !v.NullVector? && !Present(v.valid, index) then Null
    else
      match v
      case NullVector(_) => Null
      case NumberVector(_, numbers, _) => Number(numbers[index])
      case BigIntVector(_, bigints, _) => BigInt(bigints[index])
      case TimestampVector(epochs, unit, utc, _) => Time(Timestamp(epochs[index] * NanosPerUnit(unit), unit, utc))
      case BoolVector(bools, _) => Bool(bools[index])
      case Utf8Vector(strings, _) => Str(strings[index])
      case BinaryVector(blobs, _) => Bytes(blobs[index])
      case DictVector(indices, dictionary, _) => ScalarAt(dictionary, indices[index])
  }

  /** The value, possibly nested, that a vector denotes at a row. */
  function ValueAt(v: Vector, index: nat): Value
    requires WellFormed(v) && index < Length(v)
    decreases v
  {
    if !v.NullVector? && !Present(v.valid, index) then Atom(Null)
    else
      match v
      case DictVector(indices, dictionary, _) => ValueAt(dictionary, indices[index])
      case ListVector(offsets, child, _) =>
        Items(seq(offsets[index + 1] - offsets[index],
                  i requires 0 <= i < offsets[index + 1] - offsets[index] => ValueAt(child, offsets[index] + i)))
      case _ => Atom(ScalarAt(v, index))
  }

  datatype Batch = Batch(rowCount: nat, columns: map<string, Vector>)

  /** Every column is a well-formed scalar vector of the batch's length. */
  ghost predicate ScalarBatch(batch: Batch) {
    forall c :: c in batch.columns ==>
      && WellFormed(batch.columns[c])
      && IsScalarVector(batch.columns[c])
      && Length(batch.columns[c]) == batch.rowCount
  }

  function MaterializeRow(batch: Batch, index: nat): Row
    requires ScalarBatch(batch) && index < batch.rowCount
  {
    map c | c in batch.columns :: ScalarAt(batch.columns[c], index)
  }

  /** Vectors never hold intervals. */
  lemma {:induction false} NoSpanInVector(v: Vector, index: nat)
    requires WellFormed(v) && IsScalarVector(v) && index < Length(v)
    ensures !ScalarAt(v, index).Span?
  {
    if v.DictVector? && Present(v.valid, index) {
      NoSpanInVector(v.dictionary, v.indices[index]);
    }
  }
}
