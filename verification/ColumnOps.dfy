/** Gathering rows from a batch and concatenating batches, column by column:
    on the values the vectors denote these are indexing and concatenation. */
module ColumnOps {
  import opened Scalars
  import opened Vectors
  import opened Columnar

  ghost predicate Scalarish(v: Vector) {
    WellFormed(v) && IsScalarVector(v)
  }

  /** The scalars a vector denotes. */
  function Denotes(v: Vector): (s: seq<Scalar>)
    requires Scalarish(v)
    ensures |s| == Length(v) && forall i :: 0 <= i < |s| ==> s[i] == ScalarAt(v, i)
  {
    seq(Length(v), i requires 0 <= i < Length(v) => ScalarAt(v, i))
  }

  predicate InRange(indices: seq<nat>, length: nat) {
    forall i :: 0 <= i < |indices| ==> indices[i] < length
  }

  // ----- Gathering -----

  function Pick<T>(s: seq<T>, indices: seq<nat>): (r: seq<T>)
    requires InRange(indices, |s|)
    ensures |r| == |indices| && forall i :: 0 <= i < |r| ==> r[i] == s[indices[i]]
  {
    seq(|indices|, i requires 0 <= i < |indices| => s[indices[i]])
  }

  predicate HasNull(bits: seq<bool>) {
    exists i :: 0 <= i < |bits| && !bits[i]
  }

  function PickValid(valid: Validity, indices: seq<nat>, length: nat): Validity
    requires (valid.Some? ==> |valid.value| == length) && InRange(indices, length)
  {
    if valid.Some? && HasNull(Pick(valid.value, indices)) then Some(Pick(valid.value, indices)) else None
  }

  /** Copies the validity bits of the gathered rows; all present becomes absent. */
  method GatherValid(valid: seq<bool>, indices: seq<nat>) returns (r: Validity)
    requires InRange(indices, |valid|)
    ensures r == PickValid(Some(valid), indices, |valid|)
  {
    var hasNull := false;
    var out := new bool[|indices|];
    for n := 0 to |indices|
      invariant hasNull <==> exists i :: 0 <= i < n && !valid[indices[i]]
      invariant forall i :: 0 <= i < n ==> out[i] == valid[indices[i]]
    {
      var present := valid[indices[n]];
      if !present {
        hasNull := true;
      }
      out[n] := present;
    }
    var picked := Pick(valid, indices);
    assert out[..] == picked;
    assert hasNull <==> HasNull(picked) by {
      assert forall i :: 0 <= i < |indices| ==> picked[i] == valid[indices[i]];
    }
    r := if hasNull then Some(out[..]) else None;
  }

  /** Gathered dictionary vectors keep their dictionary. */
  function GatherVector(v: Vector, indices: seq<nat>): Vector
    requires Scalarish(v) && InRange(indices, Length(v))
  {
    var valid := PickValid(ValidityOf(v), indices, Length(v));
    match v
    case NullVector(_) => NullVector(|indices|)
    case NumberVector(kind, numbers, _) => NumberVector(kind, Pick(numbers, indices), valid)
    case BigIntVector(unsigned, bigints, _) => BigIntVector(unsigned, Pick(bigints, indices), valid)
    case TimestampVector(epochs, unit, utc, _) => TimestampVector(Pick(epochs, indices), unit, utc, valid)
    case BoolVector(bools, _) => BoolVector(Pick(bools, indices), valid)
    case Utf8Vector(strings, _) => Utf8Vector(Pick(strings, indices), valid)
    case BinaryVector(blobs, _) => BinaryVector(Pick(blobs, indices), valid)
    case DictVector(codes, dictionary, _) => DictVector(Pick(codes, indices), dictionary, valid)
  }

  lemma PickedPresent(valid: Validity, indices: seq<nat>, length: nat, i: nat)
    requires (valid.Some? ==> |valid.value| == length) && InRange(indices, length) && i < |indices|
    ensures var picked := PickValid(valid, indices, length);
            && (picked.Some? ==> |picked.value| == |indices|)
            && (Present(picked, i) <==> Present(valid, indices[i]))
  {
    if valid.Some? && !HasNull(Pick(valid.value, indices)) {
      assert Pick(valid.value, indices)[i];
    }
  }

  lemma GatherWellFormed(v: Vector, indices: seq<nat>)
    requires Scalarish(v) && InRange(indices, Length(v))
    ensures Scalarish(GatherVector(v, indices)) && Length(GatherVector(v, indices)) == |indices|
  {
    forall i | 0 <= i < |indices|
      ensures Present(PickValid(ValidityOf(v), indices, Length(v)), i) <==> Present(ValidityOf(v), indices[i])
    {
      PickedPresent(ValidityOf(v), indices, Length(v), i);
    }
    if |indices| > 0 {
      PickedPresent(ValidityOf(v), indices, Length(v), 0);
    } else {
      assert PickValid(ValidityOf(v), indices, Length(v)).None?;
    }
    hide PickValid, HasNull;
  }

  /** Row `i` of the gathered vector is the row it was gathered from. */
  lemma GatherAt(v: Vector, indices: seq<nat>, i: nat)
    requires Scalarish(v) && InRange(indices, Length(v)) && i < |indices|
    ensures Scalarish(GatherVector(v, indices)) && Length(GatherVector(v, indices)) == |indices|
    ensures ScalarAt(GatherVector(v, indices), i) == ScalarAt(v, indices[i])
  {
    GatherWellFormed(v, indices);
    PickedPresent(ValidityOf(v), indices, Length(v), i);
    hide PickValid, WellFormed;
  }

  /** Gathering is indexing on the denoted values. */
  lemma GatherDenotes(v: Vector, indices: seq<nat>)
    requires Scalarish(v) && InRange(indices, Length(v))
    ensures Scalarish(GatherVector(v, indices))
    ensures Denotes(GatherVector(v, indices)) == Pick(Denotes(v), indices)
  {
    GatherWellFormed(v, indices);
    forall i | 0 <= i < |indices|
      ensures Denotes(GatherVector(v, indices))[i] == Pick(Denotes(v), indices)[i]
    {
      GatherAt(v, indices, i);
    }
  }

  function GatherBatch(batch: Batch, indices: seq<nat>): Batch
    requires ScalarBatch(batch) && InRange(indices, batch.rowCount)
  {
    Batch(|indices|, map c | c in batch.columns :: GatherVector(batch.columns[c], indices))
  }

  /** Every gathered row is the row it was gathered from, in all its columns. */
  lemma GatherBatchRows(batch: Batch, indices: seq<nat>, i: nat)
    requires ScalarBatch(batch) && InRange(indices, batch.rowCount) && i < |indices|
    ensures ScalarBatch(GatherBatch(batch, indices))
    ensures MaterializeRow(GatherBatch(batch, indices), i) == MaterializeRow(batch, indices[i])
  {
    forall c | c in batch.columns
      ensures Scalarish(GatherVector(batch.columns[c], indices))
      ensures Length(GatherVector(batch.columns[c], indices)) == |indices|
      ensures ScalarAt(GatherVector(batch.columns[c], indices), i) == ScalarAt(batch.columns[c], indices[i])
    {
      GatherAt(batch.columns[c], indices, i);
    }
  }

  // ----- Concatenation -----

  function JoinAll<T>(parts: seq<seq<T>>): seq<T> {
    if parts == [] then [] else JoinAll(parts[..|parts| - 1]) + parts[|parts| - 1]
  }

  /** Copies one part into the array; what is before it stays. */
  method CopyPart<T>(out: array<T>, offset: nat, part: seq<T>)
    requires offset + |part| <= out.Length
    modifies out
    ensures out[..offset + |part|] == old(out[..offset]) + part
  {
    for i := 0 to |part|
      invariant out[..offset] == old(out[..offset])
      invariant forall k :: 0 <= k < i ==> out[offset + k] == part[k]
    {
      out[offset + i] := part[i];
    }
    assert out[offset..offset + |part|] == part;
    assert out[..offset + |part|] == out[..offset] + out[offset..offset + |part|];
  }

  /** Copies every part into one array, each after the one before. */
  method ConcatTypedArrays<T(0)>(parts: seq<seq<T>>) returns (out: array<T>)
    ensures fresh(out) && out[..] == JoinAll(parts)
  {
    var length := 0;
    for n := 0 to |parts|
      invariant length == |JoinAll(parts[..n])|
    {
      assert parts[..n + 1][..n] == parts[..n];
      length := length + |parts[n]|;
    }
    assert parts[..|parts|] == parts;
    out := new T[length];
    var offset := 0;
    for n := 0 to |parts|
      invariant offset == |JoinAll(parts[..n])| <= length
      invariant out[..offset] == JoinAll(parts[..n])
    {
      JoinPrefix(parts, n + 1);
      assert parts[..n + 1][..n] == parts[..n];
      CopyPart(out, offset, parts[n]);
      offset := offset + |parts[n]|;
    }
    assert out[..] == out[..offset];
  }

  lemma {:induction false} JoinPrefix<T>(parts: seq<seq<T>>, n: nat)
    requires n <= |parts|
    ensures |JoinAll(parts[..n])| <= |JoinAll(parts)|
    decreases |parts|
  {
    if n == |parts| {
      assert parts[..n] == parts;
    } else {
      JoinPrefix(parts[..|parts| - 1], n);
      assert parts[..|parts| - 1][..n] == parts[..n];
    }
  }

  predicate SameType(a: Vector, b: Vector) {
    match a
    case NullVector(_) => b.NullVector?
    case NumberVector(kind, _, _) => b.NumberVector? && b.kind == kind
    case BigIntVector(unsigned, _, _) => b.BigIntVector? && b.unsigned == unsigned
    case TimestampVector(_, _, _, _) => b.TimestampVector?
    case BoolVector(_, _) => b.BoolVector?
    case Utf8Vector(_, _) => b.Utf8Vector?
    case BinaryVector(_, _) => b.BinaryVector?
    case DictVector(_, _, _) => b.DictVector?
    case ListVector(_, _, _) => b.ListVector?
  }

  /** Validity as one bit a row. */
  function Bits(v: Vector): (bits: seq<bool>)
    requires WellFormed(v)
    ensures |bits| == Length(v) && forall i :: 0 <= i < |bits| ==> bits[i] == Present(ValidityOf(v), i)
  {
    if ValidityOf(v).Some? then ValidityOf(v).value else seq(Length(v), _ => true)
  }

  /** Absent only when absent in both. */
  function JoinValid(a: Vector, b: Vector): Validity
    requires WellFormed(a) && WellFormed(b)
  {
    if ValidityOf(a).None? && ValidityOf(b).None? then None else Some(Bits(a) + Bits(b))
  }

  /** The arrays of two vectors of one type, end to end. */
  function AppendVector(a: Vector, b: Vector): Vector
    requires Scalarish(a) && Scalarish(b) && SameType(a, b)
  {
    var valid := JoinValid(a, b);
    match a
    case NullVector(length) => NullVector(length + b.length)
    case NumberVector(kind, numbers, _) => NumberVector(kind, numbers + b.numbers, valid)
    case BigIntVector(unsigned, bigints, _) => BigIntVector(unsigned, bigints + b.bigints, valid)
    case TimestampVector(epochs, unit, utc, _) => TimestampVector(epochs + b.epochs, unit, utc, valid)
    case BoolVector(bools, _) => BoolVector(bools + b.bools, valid)
    case Utf8Vector(strings, _) => Utf8Vector(strings + b.strings, valid)
    case BinaryVector(blobs, _) => BinaryVector(blobs + b.blobs, valid)
    case DictVector(codes, dictionary, _) => DictVector(codes + b.indices, dictionary, valid)
  }

  /** Vectors whose arrays can be joined as they are. */
  predicate Joinable(a: Vector, b: Vector) {
    && SameType(a, b)
    && (a.TimestampVector? ==> a.unit == b.unit && a.utc == b.utc)
    && (a.DictVector? ==> a.dictionary == b.dictionary)
  }

  lemma JoinedPresent(a: Vector, b: Vector, i: nat)
    requires WellFormed(a) && WellFormed(b) && i < Length(a) + Length(b)
    ensures JoinValid(a, b).Some? ==> |JoinValid(a, b).value| == Length(a) + Length(b)
    ensures Present(JoinValid(a, b), i) <==>
      if i < Length(a) then Present(ValidityOf(a), i) else Present(ValidityOf(b), i - Length(a))
  {
  }

  lemma AppendAt(a: Vector, b: Vector, i: nat)
    requires Scalarish(a) && Scalarish(b) && Joinable(a, b) && i < Length(a) + Length(b)
    requires Scalarish(AppendVector(a, b)) && Length(AppendVector(a, b)) == Length(a) + Length(b)
    ensures ScalarAt(AppendVector(a, b), i) == if i < Length(a) then ScalarAt(a, i) else ScalarAt(b, i - Length(a))
  {
    JoinedPresent(a, b, i);
    hide JoinValid, WellFormed;
  }

  lemma AppendWellFormed(a: Vector, b: Vector)
    requires Scalarish(a) && Scalarish(b) && Joinable(a, b)
    ensures Scalarish(AppendVector(a, b)) && Length(AppendVector(a, b)) == Length(a) + Length(b)
  {
    hide Bits;
    forall i | 0 <= i < Length(a) + Length(b)
      ensures JoinValid(a, b).Some? ==> |JoinValid(a, b).value| == Length(a) + Length(b)
      ensures Present(JoinValid(a, b), i) <==>
        if i < Length(a) then Present(ValidityOf(a), i) else Present(ValidityOf(b), i - Length(a))
    {
      JoinedPresent(a, b, i);
    }
    assert JoinValid(a, b).Some? ==> |JoinValid(a, b).value| == Length(a) + Length(b);
    hide JoinValid;
  }

  lemma AppendDenotes(a: Vector, b: Vector)
    requires Scalarish(a) && Scalarish(b) && Joinable(a, b)
    ensures Scalarish(AppendVector(a, b)) && Length(AppendVector(a, b)) == Length(a) + Length(b)
    ensures Denotes(AppendVector(a, b)) == Denotes(a) + Denotes(b)
  {
    AppendWellFormed(a, b);
    hide AppendVector, WellFormed, IsScalarVector, ScalarAt, Joinable;
    forall i | 0 <= i < Length(a) + Length(b)
      ensures Denotes(AppendVector(a, b))[i] == (Denotes(a) + Denotes(b))[i]
    {
      AppendAt(a, b, i);
    }
  }

  ghost predicate AllScalarish(vs: seq<Vector>) {
    forall i :: 0 <= i < |vs| ==> Scalarish(vs[i])
  }

  ghost predicate AllJoinable(vs: seq<Vector>) {
    forall i :: 0 <= i < |vs| ==> Joinable(vs[0], vs[i])
  }

  /** The values of all vectors, one after another. */
  function DenotesAll(vs: seq<Vector>): seq<Scalar>
    requires AllScalarish(vs)
    decreases |vs|
  {
    if vs == [] then [] else DenotesAll(vs[..|vs| - 1]) + Denotes(vs[|vs| - 1])
  }

  function JoinVectors(vs: seq<Vector>): (v: Vector)
    requires vs != [] && AllScalarish(vs) && AllJoinable(vs)
    ensures Scalarish(v) && Joinable(v, vs[0])
    decreases |vs|
  {
    if |vs| == 1 then vs[0]
    else
      var front := JoinVectors(vs[..|vs| - 1]);
      AppendDenotes(front, vs[|vs| - 1]);
      AppendVector(front, vs[|vs| - 1])
  }

  lemma DenotesAllStep(vs: seq<Vector>)
    requires vs != [] && AllScalarish(vs)
    ensures AllScalarish(vs[..|vs| - 1]) && Scalarish(vs[|vs| - 1])
    ensures DenotesAll(vs) == DenotesAll(vs[..|vs| - 1]) + Denotes(vs[|vs| - 1])
    ensures |vs| == 1 ==> DenotesAll(vs) == Denotes(vs[0])
  {
    hide WellFormed, IsScalarVector;
  }

  lemma JoinStep(vs: seq<Vector>)
    requires |vs| > 1 && AllScalarish(vs) && AllJoinable(vs)
    ensures AllScalarish(vs[..|vs| - 1]) && AllJoinable(vs[..|vs| - 1])
    ensures Scalarish(JoinVectors(vs[..|vs| - 1])) && Scalarish(vs[|vs| - 1])
    ensures Joinable(JoinVectors(vs[..|vs| - 1]), vs[|vs| - 1])
    ensures JoinVectors(vs) == AppendVector(JoinVectors(vs[..|vs| - 1]), vs[|vs| - 1])
  {
    hide WellFormed, IsScalarVector;
  }

  lemma {:induction false} JoinDenotes(vs: seq<Vector>)
    requires vs != [] && AllScalarish(vs) && AllJoinable(vs)
    ensures Denotes(JoinVectors(vs)) == DenotesAll(vs)
    decreases |vs|
  {
    if |vs| == 1 {
      JoinOne(vs);
    } else {
      hide *;
      var front := vs[..|vs| - 1];
      JoinStep(vs);
      DenotesAllStep(vs);
      JoinDenotes(front);
      AppendDenotes(JoinVectors(front), vs[|vs| - 1]);
    }
  }

  lemma JoinOne(vs: seq<Vector>)
    requires |vs| == 1 && AllScalarish(vs) && AllJoinable(vs)
    ensures Denotes(JoinVectors(vs)) == DenotesAll(vs)
  {
    DenotesAllStep(vs);
    hide DenotesAll, WellFormed, IsScalarVector, Denotes;
  }

  // ----- Columns whose arrays cannot be joined -----

  function Atoms(scalars: seq<Scalar>): (vs: seq<Value>)
    ensures |vs| == |scalars| && forall i :: 0 <= i < |vs| ==> vs[i] == Atom(scalars[i])
  {
    seq(|scalars|, i requires 0 <= i < |scalars| => Atom(scalars[i]))
  }

  /** Timestamps of different units or zone flags, and dictionaries that are not
      one and the same, are read out and encoded afresh. */
  predicate Reencoded(vs: seq<Vector>, shared: bool)
    requires vs != []
  {
    || (vs[0].TimestampVector? && exists i :: 0 <= i < |vs| && vs[i].TimestampVector?
                                   && (vs[i].unit != vs[0].unit || vs[i].utc != vs[0].utc))
    || (vs[0].DictVector? && !shared)
  }

  /** `shared` says that the dictionaries are one object, hence equal. */
  ghost predicate SharedMeans(vs: seq<Vector>, shared: bool) {
    shared ==> forall i :: 0 <= i < |vs| && vs[i].DictVector? && vs[0].DictVector? ==>
      vs[i].dictionary == vs[0].dictionary
  }

  predicate OneType(vs: seq<Vector>) {
    forall i :: 0 <= i < |vs| ==> SameType(vs[0], vs[i])
  }

  lemma OneTypeJoins(vs: seq<Vector>, shared: bool)
    requires vs != [] && OneType(vs) && !Reencoded(vs, shared) && SharedMeans(vs, shared)
    ensures AllJoinable(vs)
  {
  }

  function ConcatVectors(vs: seq<Vector>, shared: bool): Result<Vector>
    requires AllScalarish(vs) && SharedMeans(vs, shared)
  {
    if vs == [] || !OneType(vs) then Err(TypeError)
    else if Reencoded(vs, shared) then FromValues(Atoms(DenotesAll(vs)))
    else
      OneTypeJoins(vs, shared);
      Ok(JoinVectors(vs))
  }

  lemma {:induction false} ScalarIsValue(v: Vector, i: nat)
    requires Scalarish(v) && i < Length(v)
    ensures ValueAt(v, i) == Atom(ScalarAt(v, i))
  {
    if v.DictVector? && Present(v.valid, i) {
      ScalarIsValue(v.dictionary, v.indices[i]);
    }
  }

  lemma AtomsAreFlat(scalars: seq<Scalar>)
    requires FromValues(Atoms(scalars)).Ok?
    ensures ShapeOf(Atoms(scalars)) != Ok(ListShape) && IsScalarVector(FromValues(Atoms(scalars)).value)
  {
    if ShapeOf(Atoms(scalars)) == Ok(ListShape) {
      ListColumnShrinks(Atoms(scalars));
      ListShapeIsCommon(Atoms(scalars));
      ShapeMeans(Atoms(scalars));
      hide ShapeOf, CommonShape, FromValues;
    }
  }

  /** Encoding scalars afresh gives them back exactly when nothing is lost. */
  lemma ReencodingExact(scalars: seq<Scalar>)
    requires FromValues(Atoms(scalars)).Ok?
    ensures Scalarish(FromValues(Atoms(scalars)).value)
    ensures Denotes(FromValues(Atoms(scalars)).value) == scalars <==> Lossless(Atoms(scalars))
  {
    var vs := Atoms(scalars);
    var v := FromValues(vs).value;
    AtomsAreFlat(scalars);
    RoundTrip(vs);
    hide FromValues, Lossless, WellFormed;
    forall i | 0 <= i < |scalars| ensures ValueAt(v, i) == vs[i] <==> Denotes(v)[i] == scalars[i] {
      ScalarIsValue(v, i);
    }
    if Denotes(v) == scalars {
      assert ReadsBack(v, vs);
    }
    if ReadsBack(v, vs) {
      assert forall i :: 0 <= i < |scalars| ==> ValueAt(v, i) == vs[i];
      assert Denotes(v) == scalars;
    }
  }

  /** Concatenation is concatenation on the denoted values if and only if the
      columns are joined as they are, or lose nothing in being encoded afresh. */
  lemma ConcatDenotes(vs: seq<Vector>, shared: bool)
    requires AllScalarish(vs) && SharedMeans(vs, shared) && ConcatVectors(vs, shared).Ok?
    ensures Scalarish(ConcatVectors(vs, shared).value)
    ensures Denotes(ConcatVectors(vs, shared).value) == DenotesAll(vs)
       <==> (Reencoded(vs, shared) ==> Lossless(Atoms(DenotesAll(vs))))
  {
    if Reencoded(vs, shared) {
      ReencodingExact(DenotesAll(vs));
    } else {
      OneTypeJoins(vs, shared);
      JoinDenotes(vs);
    }
  }

  /** Concatenation keeps every row, whatever it does to the values. */
  lemma ConcatLength(vs: seq<Vector>, shared: bool)
    requires AllScalarish(vs) && SharedMeans(vs, shared) && ConcatVectors(vs, shared).Ok?
    ensures Scalarish(ConcatVectors(vs, shared).value)
    ensures Length(ConcatVectors(vs, shared).value) == |DenotesAll(vs)|
  {
    if Reencoded(vs, shared) {
      ReencodingExact(DenotesAll(vs));
      RoundTrip(Atoms(DenotesAll(vs)));
    } else {
      OneTypeJoins(vs, shared);
      JoinDenotes(vs);
      assert |Denotes(JoinVectors(vs))| == |DenotesAll(vs)|;
    }
  }

  lemma TwoTimestampsShape(s: Timestamp, t: Timestamp)
    ensures ShapeOf([Atom(Time(s)), Atom(Time(t))]) == Ok(TimestampShape)
  {
    var vs := [Atom(Time(s)), Atom(Time(t))];
    assert vs[..1] == [vs[0]] && [vs[0]][..0] == [];
    assert CommonShape([vs[0]]) == Ok(TimestampShape);
  }

  /** Two timestamps encoded afresh: both in the unit of the first. */
  lemma TwoTimestamps(s: Timestamp, t: Timestamp)
    ensures FromValues([Atom(Time(s)), Atom(Time(t))])
         == Ok(TimestampVector([WrapI64(TimestampEpochForUnit(s, s.unit)), WrapI64(TimestampEpochForUnit(t, s.unit))],
                               s.unit, s.utc, None))
  {
    var vs := [Atom(Time(s)), Atom(Time(t))];
    TwoTimestampsShape(s, t);
    assert ValidityOfValues(vs) == None;
    assert FirstTimestamp(vs) == s;
    hide ShapeOf, WrapI64, TimestampEpochForUnit, ValidityOfValues;
    assert MapAll(vs, v => EpochOf(v, s.unit)) == [EpochOf(vs[0], s.unit), EpochOf(vs[1], s.unit)];
  }

  lemma TwoBlocks(a: Vector, b: Vector)
    requires Scalarish(a) && Scalarish(b)
    ensures AllScalarish([a, b]) && DenotesAll([a, b]) == Denotes(a) + Denotes(b)
  {
    assert [a, b][..1] == [a] && [a][..0] == [];
    assert DenotesAll([]) == [];
    assert DenotesAll([a]) == Denotes(a);
  }

  lemma OneTimestampDenotes(epoch: int, unit: TimestampUnit)
    ensures var v := TimestampVector([epoch], unit, true, None);
            Scalarish(v) && Denotes(v) == [Time(Timestamp(epoch * NanosPerUnit(unit), unit, true))]
  {
    hide NanosPerUnit;
  }

  lemma DifferentUnits(a: Vector, b: Vector)
    requires a.TimestampVector? && b.TimestampVector? && a.unit != b.unit
    requires AllScalarish([a, b])
    ensures SharedMeans([a, b], false) && ConcatVectors([a, b], false) == FromValues(Atoms(DenotesAll([a, b])))
  {
    assert [a, b][1].unit != [a, b][0].unit;
    hide FromValues, DenotesAll, Atoms, WellFormed, IsScalarVector;
  }

  /** One millisecond, then one microsecond: the second comes back as zero. */
  lemma FinerUnitIsLost()
    ensures var a, b := TimestampVector([1], Millis, true, None), TimestampVector([1], Micros, true, None);
            && Scalarish(a) && Scalarish(b) && AllScalarish([a, b]) && SharedMeans([a, b], false)
            && Denotes(a) + Denotes(b) == [Time(Timestamp(1000000, Millis, true)), Time(Timestamp(1000, Micros, true))]
            && ConcatVectors([a, b], false) == Ok(TimestampVector([1, 0], Millis, true, None))
  {
    hide *;
    var a, b := TimestampVector([1], Millis, true, None), TimestampVector([1], Micros, true, None);
    var s, t := Timestamp(1000000, Millis, true), Timestamp(1000, Micros, true);
    OneTimestampDenotes(1, Millis);
    OneTimestampDenotes(1, Micros);
    UnitSizes();
    TwoBlocks(a, b);
    DifferentUnits(a, b);
    assert Atoms([Time(s), Time(t)]) == [Atom(Time(s)), Atom(Time(t))];
    assert Denotes(a) + Denotes(b) == [Time(s), Time(t)];
    TwoTimestamps(s, t);
  }

  lemma UnitSizes()
    ensures 1 * NanosPerUnit(Millis) == 1000000 && 1 * NanosPerUnit(Micros) == 1000
    ensures WrapI64(TimestampEpochForUnit(Timestamp(1000000, Millis, true), Millis)) == 1
    ensures WrapI64(TimestampEpochForUnit(Timestamp(1000, Micros, true), Millis)) == 0
  {
  }

  // ----- Batches -----

  ghost predicate ScalarBatches(batches: seq<Batch>) {
    forall b :: 0 <= b < |batches| ==> ScalarBatch(batches[b])
  }

  predicate SameColumns(batches: seq<Batch>) {
    forall b :: 0 <= b < |batches| ==> batches[b].columns.Keys == batches[0].columns.Keys
  }

  function ColumnOf(batches: seq<Batch>, c: string): (vs: seq<Vector>)
    requires forall b :: 0 <= b < |batches| ==> c in batches[b].columns
    ensures |vs| == |batches| && forall b :: 0 <= b < |vs| ==> vs[b] == batches[b].columns[c]
  {
    seq(|batches|, b requires 0 <= b < |batches| => batches[b].columns[c])
  }

  function RowCounts(batches: seq<Batch>): nat
    decreases |batches|
  {
    if batches == [] then 0 else RowCounts(batches[..|batches| - 1]) + batches[|batches| - 1].rowCount
  }

  lemma ColumnScalarish(batches: seq<Batch>, c: string)
    requires ScalarBatches(batches) && forall b :: 0 <= b < |batches| ==> c in batches[b].columns
    ensures AllScalarish(ColumnOf(batches, c))
    ensures forall b :: 0 <= b < |batches| ==> Length(ColumnOf(batches, c)[b]) == batches[b].rowCount
  {
    forall b | 0 <= b < |batches|
      ensures Scalarish(ColumnOf(batches, c)[b]) && Length(ColumnOf(batches, c)[b]) == batches[b].rowCount
    {
      assert ScalarBatch(batches[b]);
    }
  }

  /** Row `i` of block `b` is found after the rows of the blocks before it. */
  lemma {:induction false} DenotesBlock(vs: seq<Vector>, b: nat, i: nat)
    requires AllScalarish(vs) && b < |vs| && i < Length(vs[b])
    ensures AllScalarish(vs[..b]) && |DenotesAll(vs[..b])| + i < |DenotesAll(vs)|
    ensures DenotesAll(vs)[|DenotesAll(vs[..b])| + i] == ScalarAt(vs[b], i)
    decreases |vs|
  {
    var front := vs[..|vs| - 1];
    if b < |vs| - 1 {
      DenotesBlock(front, b, i);
      assert front[..b] == vs[..b];
    }
  }

  lemma {:induction false} RowsBefore(batches: seq<Batch>, c: string, n: nat)
    requires ScalarBatches(batches) && n <= |batches|
    requires forall b :: 0 <= b < |batches| ==> c in batches[b].columns
    ensures AllScalarish(ColumnOf(batches, c)[..n])
    ensures |DenotesAll(ColumnOf(batches, c)[..n])| == RowCounts(batches[..n])
  {
    hide Denotes;
    ColumnScalarish(batches, c);
    if n > 0 {
      RowsBefore(batches, c, n - 1);
      var column := ColumnOf(batches, c);
      assert column[..n][..n - 1] == column[..n - 1] && batches[..n][..n - 1] == batches[..n - 1];
    }
  }

  /** A batch whose columns are the concatenated columns. */
  ghost predicate Concatenates(batch: Batch, batches: seq<Batch>) {
    && batches != [] && ScalarBatches(batches) && SameColumns(batches)
    && batch.rowCount == RowCounts(batches) && batch.columns.Keys == batches[0].columns.Keys
    && forall c :: c in batch.columns ==>
         && (forall b :: 0 <= b < |batches| ==> c in batches[b].columns)
         && AllScalarish(ColumnOf(batches, c)) && Scalarish(batch.columns[c])
         && Denotes(batch.columns[c]) == DenotesAll(ColumnOf(batches, c))
  }

  lemma ConcatenatesMeans(batch: Batch, batches: seq<Batch>, c: string)
    requires Concatenates(batch, batches) && c in batch.columns
    ensures ScalarBatches(batches) && batch.rowCount == RowCounts(batches)
    ensures forall b :: 0 <= b < |batches| ==> c in batches[b].columns
    ensures AllScalarish(ColumnOf(batches, c)) && Scalarish(batch.columns[c])
    ensures Denotes(batch.columns[c]) == DenotesAll(ColumnOf(batches, c))
  {
    hide WellFormed, IsScalarVector, DenotesAll, Denotes, RowCounts, ScalarBatches;
  }

  lemma DenotesAt(v: Vector, values: seq<Scalar>, at: nat)
    requires Scalarish(v) && Denotes(v) == values && at < |values|
    ensures Length(v) == |values| && ScalarAt(v, at) == values[at]
  {
    hide WellFormed, IsScalarVector, ScalarAt;
  }

  lemma ConcatenatedCell(batch: Batch, batches: seq<Batch>, b: nat, i: nat, c: string)
    requires Concatenates(batch, batches) && b < |batches| && i < batches[b].rowCount && c in batch.columns
    ensures c in batches[b].columns && Scalarish(batches[b].columns[c]) && i < Length(batches[b].columns[c])
    ensures Scalarish(batch.columns[c]) && Length(batch.columns[c]) == batch.rowCount
    ensures RowCounts(batches[..b]) + i < batch.rowCount
    ensures ScalarAt(batch.columns[c], RowCounts(batches[..b]) + i) == ScalarAt(batches[b].columns[c], i)
  {
    hide *;
    var at := RowCounts(batches[..b]) + i;
    ConcatenatesMeans(batch, batches, c);
    var column := ColumnOf(batches, c);
    RowCountsBound(batches, b);
    ColumnScalarish(batches, c);
    AllOf(column, b);
    RowsBefore(batches, c, |batches|);
    RowsBefore(batches, c, b);
    assert column[..|batches|] == column && batches[..|batches|] == batches;
    DenotesBlock(column, b, i);
    DenotesAt(batch.columns[c], DenotesAll(column), at);
  }

  lemma AllOf(vs: seq<Vector>, b: nat)
    requires AllScalarish(vs) && b < |vs|
    ensures Scalarish(vs[b])
  {
    hide WellFormed, IsScalarVector;
  }

  lemma ConcatenatesBatch(batch: Batch, batches: seq<Batch>, b: nat)
    requires Concatenates(batch, batches) && b < |batches|
    ensures ScalarBatch(batches[b]) && batches[b].columns.Keys == batch.columns.Keys
    ensures batch.rowCount == RowCounts(batches)
  {
    hide WellFormed, IsScalarVector, DenotesAll, Denotes, RowCounts, ScalarBatch;
  }

  lemma ScalarBatchWhen(batch: Batch)
    requires forall c :: c in batch.columns ==>
      Scalarish(batch.columns[c]) && Length(batch.columns[c]) == batch.rowCount
    ensures ScalarBatch(batch)
  {
    hide WellFormed, IsScalarVector;
  }

  lemma RowsEqual(a: Batch, i: nat, b: Batch, j: nat)
    requires ScalarBatch(a) && ScalarBatch(b) && i < a.rowCount && j < b.rowCount && a.columns.Keys == b.columns.Keys
    requires forall c :: c in a.columns ==> c in b.columns && ScalarAt(a.columns[c], i) == ScalarAt(b.columns[c], j)
    ensures MaterializeRow(a, i) == MaterializeRow(b, j)
  {
    hide WellFormed, IsScalarVector, ScalarAt;
  }

  /** Every row of every block is found in the concatenated batch, in order. */
  lemma ConcatenatedRow(batch: Batch, batches: seq<Batch>, b: nat, i: nat)
    requires Concatenates(batch, batches) && b < |batches| && i < batches[b].rowCount
    ensures ScalarBatch(batch) && ScalarBatch(batches[b]) && RowCounts(batches[..b]) + i < batch.rowCount
    ensures MaterializeRow(batch, RowCounts(batches[..b]) + i) == MaterializeRow(batches[b], i)
  {
    hide *;
    var at := RowCounts(batches[..b]) + i;
    RowCountsBound(batches, b);
    ConcatenatesBatch(batch, batches, b);
    forall c | c in batch.columns
      ensures Scalarish(batch.columns[c]) && Length(batch.columns[c]) == batch.rowCount
    {
      ConcatenatedCell(batch, batches, b, i, c);
    }
    ScalarBatchWhen(batch);
    ConcatenatedCells(batch, batches, b, i);
    RowsEqual(batch, at, batches[b], i);
  }

  lemma ConcatenatedCells(batch: Batch, batches: seq<Batch>, b: nat, i: nat)
    requires Concatenates(batch, batches) && b < |batches| && i < batches[b].rowCount
    requires ScalarBatch(batch) && ScalarBatch(batches[b]) && RowCounts(batches[..b]) + i < batch.rowCount
    ensures forall c :: c in batch.columns ==>
      c in batches[b].columns
      && ScalarAt(batch.columns[c], RowCounts(batches[..b]) + i) == ScalarAt(batches[b].columns[c], i)
  {
    hide Concatenates, RowCounts, ScalarAt, WellFormed, IsScalarVector;
    forall c | c in batch.columns
      ensures c in batches[b].columns
              && ScalarAt(batch.columns[c], RowCounts(batches[..b]) + i) == ScalarAt(batches[b].columns[c], i)
    {
      ConcatenatedCell(batch, batches, b, i, c);
    }
  }

  lemma {:induction false} RowCountsBound(batches: seq<Batch>, b: nat)
    requires b < |batches|
    ensures RowCounts(batches[..b]) + batches[b].rowCount <= RowCounts(batches)
    decreases |batches|
  {
    var front := batches[..|batches| - 1];
    if b < |batches| - 1 {
      RowCountsBound(front, b);
      assert front[..b] == batches[..b];
    } else {
      assert batches[..b] == front;
    }
  }

  /** Concatenates column by column; `shared(c)` says whether the dictionaries of
      column `c` are one object. */
  function ConcatBatches(batches: seq<Batch>, shared: string -> bool): Result<Batch>
    requires ScalarBatches(batches)
    requires SameColumns(batches) && batches != [] ==>
      forall c :: c in batches[0].columns ==> SharedMeans(ColumnOf(batches, c), shared(c))
  {
    if batches == [] then Ok(Batch(0, map[]))
    else if !SameColumns(batches) then Err(TypeError)
    else
      BatchColumns(batches);
      if exists c :: c in batches[0].columns && ConcatVectors(ColumnOf(batches, c), shared(c)).Err? then Err(TypeError)
      else Ok(Batch(RowCounts(batches),
                    map c | c in batches[0].columns :: ConcatVectors(ColumnOf(batches, c), shared(c)).value))
  }

  lemma BatchColumns(batches: seq<Batch>)
    requires ScalarBatches(batches) && SameColumns(batches) && batches != []
    ensures forall c :: c in batches[0].columns ==>
      (forall b :: 0 <= b < |batches| ==> c in batches[b].columns) && AllScalarish(ColumnOf(batches, c))
  {
    forall c | c in batches[0].columns
      ensures (forall b :: 0 <= b < |batches| ==> c in batches[b].columns) && AllScalarish(ColumnOf(batches, c))
    {
      assert forall b :: 0 <= b < |batches| ==> batches[b].columns.Keys == batches[0].columns.Keys;
      ColumnScalarish(batches, c);
    }
  }

  /** The result's columns denote the concatenated columns when every column that
      is encoded afresh loses nothing. */
  lemma ConcatBatchesDenotes(batches: seq<Batch>, shared: string -> bool)
    requires ScalarBatches(batches) && batches != [] && SameColumns(batches)
    requires forall c :: c in batches[0].columns ==> SharedMeans(ColumnOf(batches, c), shared(c))
    requires forall c ::
      c in batches[0].columns && AllScalarish(ColumnOf(batches, c)) && Reencoded(ColumnOf(batches, c), shared(c)) ==>
      Lossless(Atoms(DenotesAll(ColumnOf(batches, c))))
    requires ConcatBatches(batches, shared).Ok?
    ensures Concatenates(ConcatBatches(batches, shared).value, batches)
  {
    var batch := ConcatBatches(batches, shared).value;
    BatchColumns(batches);
    forall c | c in batch.columns
      ensures Scalarish(batch.columns[c]) && Denotes(batch.columns[c]) == DenotesAll(ColumnOf(batches, c))
    {
      ConcatDenotes(ColumnOf(batches, c), shared(c));
    }
  }

  /** Whatever happens to timestamps, the result has every row. */
  lemma ConcatBatchesScalar(batches: seq<Batch>, shared: string -> bool)
    requires ScalarBatches(batches)
    requires SameColumns(batches) && batches != [] ==>
      forall c :: c in batches[0].columns ==> SharedMeans(ColumnOf(batches, c), shared(c))
    requires ConcatBatches(batches, shared).Ok?
    ensures ScalarBatch(ConcatBatches(batches, shared).value)
    ensures ConcatBatches(batches, shared).value.rowCount == RowCounts(batches)
  {
    if batches != [] {
      var batch := ConcatBatches(batches, shared).value;
      BatchColumns(batches);
      forall c | c in batch.columns
        ensures Scalarish(batch.columns[c]) && Length(batch.columns[c]) == RowCounts(batches)
      {
        ConcatColumnLength(batches, c, shared(c));
      }
      hide WellFormed, IsScalarVector, ScalarBatch;
      ScalarBatchWhen(batch);
    }
  }

  lemma ConcatColumnLength(batches: seq<Batch>, c: string, shared: bool)
    requires ScalarBatches(batches) && forall b :: 0 <= b < |batches| ==> c in batches[b].columns
    requires AllScalarish(ColumnOf(batches, c)) && SharedMeans(ColumnOf(batches, c), shared)
    requires ConcatVectors(ColumnOf(batches, c), shared).Ok?
    ensures Scalarish(ConcatVectors(ColumnOf(batches, c), shared).value)
    ensures Length(ConcatVectors(ColumnOf(batches, c), shared).value) == RowCounts(batches)
  {
    hide *;
    var column := ColumnOf(batches, c);
    ConcatLength(column, shared);
    RowsBefore(batches, c, |batches|);
    assert column[..|batches|] == column && batches[..|batches|] == batches;
  }
}
