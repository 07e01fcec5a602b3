/** Group keys: one string per tuple of key values, framed by part lengths. */
module GroupKeys {
  import opened Scalars
  import opened Decimals
  import opened Expressions
  import opened Vectors

  /** The text of one key value. `num` is the runtime's rendering of numbers. */
  function KeyPart(num: Num -> string, v: Scalar): Result<string> {
    match v
    case Null => Ok("null:")
    case BigInt(i) => Ok("bigint:" + IntText(i))
    case Bytes(_) => Err(TypeError)
    case Span(_) => Err(TypeError)
    case Time(t) => Ok("timestamp:" + IntText(t.nanos))
    case Bool(b) => Ok("boolean:" + if b then "true" else "false")
    case Number(n) => Ok("number:" + num(n))
    case Str(s) => Ok("string:" + s)
  }

  function Framed(part: string): string {
    NatText(|part|) + [':'] + part
  }

  function FrameAll(num: Num -> string, values: seq<Scalar>): Result<string> {
    if values == [] then Ok("")
    else
      var first :- KeyPart(num, values[0]);
      var rest :- FrameAll(num, values[1..]);
      Ok(Framed(first) + rest)
  }

  /** A single value is its own key; several are framed one after another. */
  function GroupKey(num: Num -> string, values: seq<Scalar>): Result<string> {
    if |values| == 1 then KeyPart(num, values[0]) else FrameAll(num, values)
  }

  predicate IsKeyValue(v: Scalar) {
    !v.Bytes? && !v.Span?
  }

  /** Equal as a key: instants are told apart by their nanoseconds alone. */
  predicate SameKeyValue(a: Scalar, b: Scalar) {
    a == b || (a.Time? && b.Time? && a.t.nanos == b.t.nanos)
  }

  ghost predicate Injective(num: Num -> string) {
    forall a, b :: num(a) == num(b) ==> a == b
  }

  ghost function Tag(v: Scalar): string
    requires IsKeyValue(v)
  {
    match v
    case Null => "null"
    case BigInt(_) => "bigint"
    case Time(_) => "timestamp"
    case Bool(_) => "boolean"
    case Number(_) => "number"
    case Str(_) => "string"
  }

  ghost function Body(num: Num -> string, v: Scalar): string
    requires IsKeyValue(v)
  {
    match v
    case Null => ""
    case BigInt(i) => IntText(i)
    case Time(t) => IntText(t.nanos)
    case Bool(b) => if b then "true" else "false"
    case Number(n) => num(n)
    case Str(s) => s
  }

  lemma PartIsTagged(num: Num -> string, v: Scalar)
    requires IsKeyValue(v)
    ensures KeyPart(num, v) == Ok(Tag(v) + [':'] + Body(num, v)) && ':' !in Tag(v)
  {
    match v
    case Null => assert "null:" == "null" + [':'] + "";
    case BigInt(_) => assert "bigint:" == "bigint" + [':'];
    case Time(_) => assert "timestamp:" == "timestamp" + [':'];
    case Bool(_) => assert "boolean:" == "boolean" + [':'];
    case Number(_) => assert "number:" == "number" + [':'];
    case Str(_) => assert "string:" == "string" + [':'];
  }

  /** Two values share a part exactly when they are equal as keys. */
  lemma PartInjective(num: Num -> string, a: Scalar, b: Scalar)
    requires Injective(num) && IsKeyValue(a) && IsKeyValue(b)
    ensures KeyPart(num, a) == KeyPart(num, b) <==> SameKeyValue(a, b)
  {
    if KeyPart(num, a) == KeyPart(num, b) {
      PartIsTagged(num, a);
      PartIsTagged(num, b);
      SplitAtFirst(Tag(a), Tag(b), Body(num, a), Body(num, b), ':');
      BodyInjective(num, a, b);
    }
  }

  lemma BodyInjective(num: Num -> string, a: Scalar, b: Scalar)
    requires Injective(num) && IsKeyValue(a) && IsKeyValue(b)
    requires TypeOfScalar(a) == TypeOfScalar(b) && (a.Null? <==> b.Null?) && Body(num, a) == Body(num, b)
    ensures SameKeyValue(a, b)
  {
    match a
    case BigInt(i) => IntTextInjective(i, b.i);
    case Time(t) => IntTextInjective(t.nanos, b.t.nanos);
    case Bool(_) => assert "true"[0] == 't' && "false"[0] == 'f';
    case _ =>
  }

  /** A framed part can be read off the front of any text. */
  lemma FramedInjective(p: string, q: string, x: string, y: string)
    requires Framed(p) + x == Framed(q) + y
    ensures p == q && x == y
  {
    Refold(NatText(|p|), p, x);
    Refold(NatText(|q|), q, y);
    SplitAtFirst(NatText(|p|), NatText(|q|), p + x, q + y, ':');
    NatRoundTrip(|p|);
    NatRoundTrip(|q|);
    assert (p + x)[..|p|] == p && (q + y)[..|q|] == q;
    assert (p + x)[|p|..] == x && (q + y)[|q|..] == y;
  }

  lemma Refold(len: string, part: string, rest: string)
    ensures len + [':'] + part + rest == len + [':'] + (part + rest)
  {
  }

  ghost predicate SameKeyValues(a: seq<Scalar>, b: seq<Scalar>) {
    |a| == |b| && forall i :: 0 <= i < |a| ==> SameKeyValue(a[i], b[i])
  }

  ghost predicate AllKeyValues(values: seq<Scalar>) {
    forall i :: 0 <= i < |values| ==> IsKeyValue(values[i])
  }

  /** A key exists exactly when no value is binary or an interval. */
  lemma {:induction false} FrameAllSucceeds(num: Num -> string, values: seq<Scalar>)
    ensures FrameAll(num, values).Ok? <==> AllKeyValues(values)
    ensures FrameAll(num, values).Err? ==> FrameAll(num, values).error == TypeError
  {
    if values != [] {
      FrameAllSucceeds(num, values[1..]);
      assert forall i :: 1 <= i < |values| ==> values[i] == values[1..][i - 1];
      assert AllKeyValues(values) <==> IsKeyValue(values[0]) && AllKeyValues(values[1..]) by {
        if IsKeyValue(values[0]) && AllKeyValues(values[1..]) {
          forall i | 0 <= i < |values| ensures IsKeyValue(values[i]) {
            assert i > 0 ==> IsKeyValue(values[1..][i - 1]);
          }
        }
      }
    }
  }

  lemma GroupKeySucceeds(num: Num -> string, values: seq<Scalar>)
    ensures GroupKey(num, values).Ok? <==> AllKeyValues(values)
    ensures GroupKey(num, values).Err? ==> GroupKey(num, values).error == TypeError
  {
    FrameAllSucceeds(num, values);
  }

  lemma {:induction false} FrameAllInjective(num: Num -> string, a: seq<Scalar>, b: seq<Scalar>)
    requires Injective(num) && AllKeyValues(a) && AllKeyValues(b) && |a| == |b|
    ensures FrameAll(num, a) == FrameAll(num, b) <==> SameKeyValues(a, b)
  {
    if a != [] {
      var x, y := a[1..], b[1..];
      FrameAllInjective(num, x, y);
      FrameAllSucceeds(num, x);
      FrameAllSucceeds(num, y);
      PartInjective(num, a[0], b[0]);
      var p, q := KeyPart(num, a[0]).value, KeyPart(num, b[0]).value;
      var r, s := FrameAll(num, x).value, FrameAll(num, y).value;
      if FrameAll(num, a) == FrameAll(num, b) {
        FramedInjective(p, q, r, s);
        assert forall i :: 1 <= i < |a| ==> a[i] == x[i - 1] && b[i] == y[i - 1];
      }
      if SameKeyValues(a, b) {
        assert SameKeyValues(x, y);
      }
    }
  }

  /** Keys of tuples of one arity are equal exactly when the tuples are equal,
      value by value, as keys. */
  lemma GroupKeyInjective(num: Num -> string, a: seq<Scalar>, b: seq<Scalar>)
    requires Injective(num) && AllKeyValues(a) && AllKeyValues(b) && |a| == |b|
    ensures GroupKey(num, a) == GroupKey(num, b) <==> SameKeyValues(a, b)
  {
    if |a| == 1 {
      PartInjective(num, a[0], b[0]);
    } else {
      FrameAllInjective(num, a, b);
    }
  }

  // ----- Keys read from vectors -----

  /** The part of one row, read from a column without building its scalar. */
  function VectorKeyPart(num: Num -> string, v: Vector, index: nat): Result<string>
    requires WellFormed(v) && IsScalarVector(v) && index < Length(v)
  {
    if !v.NullVector? && !Present(v.valid, index) then KeyPart(num, Null)
    else
      match v
      case NullVector(_) => KeyPart(num, Null)
      case NumberVector(_, numbers, _) => KeyPart(num, Number(numbers[index]))
      case BigIntVector(_, bigints, _) => KeyPart(num, BigInt(bigints[index]))
      case TimestampVector(_, _, _, _) => KeyPart(num, ScalarAt(v, index))
      case BoolVector(bools, _) => KeyPart(num, Bool(bools[index]))
      case Utf8Vector(strings, _) => KeyPart(num, Str(strings[index]))
      case BinaryVector(_, _) => Err(TypeError)
      case DictVector(indices, dictionary, _) => VectorKeyPart(num, dictionary, indices[index])
  }

  lemma {:induction false} VectorKeyPartIsScalarPart(num: Num -> string, v: Vector, index: nat)
    requires WellFormed(v) && IsScalarVector(v) && index < Length(v)
    ensures VectorKeyPart(num, v, index) == KeyPart(num, ScalarAt(v, index))
  {
    if v.DictVector? && Present(v.valid, index) {
      VectorKeyPartIsScalarPart(num, v.dictionary, v.indices[index]);
    }
  }

  ghost predicate KeyColumns(vectors: seq<Vector>, rowCount: nat) {
    forall c :: 0 <= c < |vectors| ==>
      WellFormed(vectors[c]) && IsScalarVector(vectors[c]) && Length(vectors[c]) == rowCount
  }

  function ValuesAt(vectors: seq<Vector>, rowCount: nat, index: nat): (values: seq<Scalar>)
    requires KeyColumns(vectors, rowCount) && index < rowCount
    ensures |values| == |vectors| && forall c :: 0 <= c < |vectors| ==> values[c] == ScalarAt(vectors[c], index)
  {
    seq(|vectors|, c requires 0 <= c < |vectors| => ScalarAt(vectors[c], index))
  }

  /** The reader's key of a row, appended part by part. */
  method KeyAt(num: Num -> string, vectors: seq<Vector>, rowCount: nat, index: nat) returns (r: Result<string>)
    requires KeyColumns(vectors, rowCount) && index < rowCount
    ensures r == GroupKey(num, ValuesAt(vectors, rowCount, index))
  {
    var values := ValuesAt(vectors, rowCount, index);
    if |vectors| == 1 {
      VectorKeyPartIsScalarPart(num, vectors[0], index);
      return VectorKeyPart(num, vectors[0], index);
    }
    var key := "";
    for c := 0 to |vectors|
      invariant FrameAll(num, values[..c]) == Ok(key)
    {
      VectorKeyPartIsScalarPart(num, vectors[c], index);
      FrameAllSnoc(num, values, c);
      var part := VectorKeyPart(num, vectors[c], index);
      if part.Err? {
        FrameAllSucceeds(num, values);
        return Err(TypeError);
      }
      key := key + (NatText(|part.value|) + [':'] + part.value);
    }
    assert values[..|vectors|] == values;
    return Ok(key);
  }

  lemma {:induction false} FrameAllSnoc(num: Num -> string, values: seq<Scalar>, c: nat)
    requires c < |values|
    requires FrameAll(num, values[..c]).Ok?
    ensures KeyPart(num, values[c]).Ok? ==>
      FrameAll(num, values[..c + 1]) == Ok(FrameAll(num, values[..c]).value + Framed(KeyPart(num, values[c]).value))
    ensures KeyPart(num, values[c]).Err? ==> KeyPart(num, values[c]).error == TypeError && !AllKeyValues(values)
    decreases c
  {
    hide Framed;
    if c == 0 {
      assert values[..1][1..] == [];
      assert FrameAll(num, values[..0]) == Ok("");
      if KeyPart(num, values[0]).Ok? {
        assert Framed(KeyPart(num, values[0]).value) + "" == "" + Framed(KeyPart(num, values[0]).value);
      }
    } else {
      assert values[1..][..c - 1] == values[..c][1..];
      assert values[1..][..c] == values[..c + 1][1..];
      FrameAllSnoc(num, values[1..], c - 1);
      if KeyPart(num, values[c]).Ok? {
        var first := Framed(KeyPart(num, values[0]).value);
        var middle := FrameAll(num, values[1..][..c - 1]).value;
        var last := Framed(KeyPart(num, values[c]).value);
        assert first + (middle + last) == (first + middle) + last;
      }
    }
  }
}
