/** Late values: what one aggregate makes of a column whose timestamps and other
    objects are read as null. */
module LateColumns {
  import opened Scalars
  import opened Aggregates
  import opened AggregateRuns

  /** A late value: timestamps and other objects read as null. */
  function LateValue(v: Scalar): Scalar {
    if v.Time? || v.Bytes? || v.Span? then Null else v
  }

  // ----- What feeding the value null instead changes -----

  /** Reading a timestamp as null leaves this state as the timestamp would. */
  predicate Unaffected(key: Scalar -> string, s: State, v: Scalar) {
    v.Time?
    && ((s.FirstState? && s.seen) || (s.AnyState? && s.seen)
        || (s.DistinctState? && key(v) in s.keys)
        || (s.ExtremeState? && s.value.Time? && !Better(s.isMin, v, s.value)))
  }

  /** One late value has the effect of the direct one if and only if it is no
      object, or a timestamp the state would ignore anyway. */
  lemma LateValueExact(key: Scalar -> string, s: State, v: Scalar)
    requires s.ExtremeState? ==> IsAggregateValue(s.value)
    ensures Update(key, s, LateValue(v)) == Update(key, s, v) <==>
      (!v.Time? && !v.Bytes? && !v.Span?) || Unaffected(key, s, v)
  {
    if v.Time? {
      match s
      case DistinctState(_, keys) =>
        if key(v) in keys {
          assert keys + {key(v)} == keys;
        } else {
          assert key(v) in keys + {key(v)};
        }
      case ModeState(entries) => AddEntryChanges(entries, Entry(key(v), v, 1));
      case _ =>
    }
  }

  lemma {:induction false} AddEntryChanges(entries: seq<Entry>, e: Entry)
    requires e.count > 0
    ensures AddEntry(entries, e) != entries
  {
    if entries != [] && entries[0].key != e.key {
      AddEntryChanges(entries[1..], e);
      assert AddEntry(entries, e)[1..] == AddEntry(entries[1..], e);
    }
  }

  // ----- A whole column -----

  predicate PlainValue(v: Scalar) {
    !v.Time? && !v.Bytes? && !v.Span?
  }

  predicate AllPlain(xs: seq<Scalar>) {
    forall i :: 0 <= i < |xs| ==> PlainValue(xs[i])
  }

  function LateValues(xs: seq<Scalar>): (ys: seq<Scalar>)
    ensures |ys| == |xs| && forall i :: 0 <= i < |ys| ==> ys[i] == LateValue(xs[i])
  {
    seq(|xs|, i requires 0 <= i < |xs| => LateValue(xs[i]))
  }

  // ----- When the late column is as good -----

  /** A late column gives the direct result: nothing is an object; or both are
      refused; or the only objects are timestamps the operation does not need. */
  ghost predicate LateAgrees(key: Scalar -> string, op: Op, xs: seq<Scalar>) {
    || AllPlain(xs)
    || Refuses(op, LateValues(xs))
    || ((forall i :: 0 <= i < |xs| ==> IsAggregateValue(xs[i]))
        && match op
           case Distinct(_) =>
             forall i :: 0 <= i < |xs| && xs[i].Time? ==>
               exists j :: 0 <= j < |xs| && PlainValue(xs[j]) && !xs[j].Null? && key(xs[j]) == key(xs[i])
           case First => !xs[0].Time?
           case AnyValue => !xs[0].Time?
           case Last => !xs[|xs| - 1].Time?
           case _ => false)
  }

  /** The late run is the direct run if and only if `LateAgrees`: with a timestamp
      fed, never for count, sum, avg, variance, median, quantile, minimum,
      maximum and mode, unless other values are refused anyway. */
  lemma LateColumnExactly(key: Scalar -> string, op: Op, xs: seq<Scalar>)
    ensures Run(key, op, LateValues(xs)) == Run(key, op, xs) <==> LateAgrees(key, op, xs)
  {
    var late := LateValues(xs);
    RunMeans(key, op, xs);
    RunMeans(key, op, late);
    LateRefuses(op, xs);
    if AllPlain(xs) {
      assert late == xs;
    } else if !Refuses(op, xs) && !Refuses(op, late) {
      BothRun(key, op, xs, Run(key, op, xs).value, Run(key, op, late).value);
    }
  }

  lemma LateRefuses(op: Op, xs: seq<Scalar>)
    ensures Refuses(op, LateValues(xs)) ==> Refuses(op, xs)
  {
    var late := LateValues(xs);
    assert forall i :: 0 <= i < |xs| && !late[i].Null? ==> late[i] == xs[i];
  }

  lemma {:induction false} LateCount(xs: seq<Scalar>)
    ensures NonNull(LateValues(xs)) <= NonNull(xs)
    ensures NonNull(LateValues(xs)) == NonNull(xs) <==> AllPlain(xs)
  {
    if xs != [] {
      var front := xs[..|xs| - 1];
      LateCount(front);
      assert LateValues(xs)[..|xs| - 1] == LateValues(front);
    }
  }

  lemma BothRun(key: Scalar -> string, op: Op, xs: seq<Scalar>, s: State, t: State)
    requires !AllPlain(xs) && !Refuses(op, xs) && !Refuses(op, LateValues(xs))
    requires RunIs(key, op, xs, s) && RunIs(key, op, LateValues(xs), t)
    ensures t == s <==> LateAgrees(key, op, xs)
  {
    LateCount(xs);
    TimestampTaken(op, xs);
    hide Best, TotalOf, PresentOf, TotalCount, NonNull, KeySet, Refuses, AllPlain, LateValue;
    match op {
      case Extreme(isMin) => BothExtremes(isMin, xs, s.value, t.value);
      case Distinct(_) => LateKeys(key, xs);
      case First => LateEnd(xs, 0);
      case AnyValue => LateEnd(xs, 0);
      case Last => LateEnd(xs, |xs| - 1);
      case _ =>
    }
  }

  lemma TimestampTaken(op: Op, xs: seq<Scalar>)
    requires !AllPlain(xs) && !Refuses(op, xs)
    ensures xs != [] && (forall i :: 0 <= i < |xs| ==> IsAggregateValue(xs[i]))
    ensures !op.Sum? && !op.Avg? && !op.Variance? && !op.Quantile? && !op.Median?
  {
    var i :| 0 <= i < |xs| && !PlainValue(xs[i]);
    assert xs[i].Time?;
  }

  lemma LateEnd(xs: seq<Scalar>, i: nat)
    requires i < |xs| && IsAggregateValue(xs[i])
    ensures LateValues(xs)[i] == xs[i] <==> !xs[i].Time?
  {
  }

  /** Timestamps are compared among themselves, so the direct extreme is one. */
  lemma BothExtremes(isMin: bool, xs: seq<Scalar>, value: Scalar, late: Scalar)
    requires !AllPlain(xs) && !Refuses(Extreme(isMin), xs)
    requires (value.Null? <==> NonNull(xs) == 0) && (!value.Null? ==> Best(isMin, value, xs))
    requires !late.Null? ==> Best(isMin, late, LateValues(xs))
    ensures late != value
  {
    NoneNonNull(xs);
    hide Beats;
    var i :| 0 <= i < |xs| && !PlainValue(xs[i]);
    assert xs[i].Time?;
    var k :| 0 <= k < |xs| && BestAt(isMin, value, xs, k);
    assert !TwoTypes(xs[i], xs[k]);
    if !late.Null? {
      var j :| 0 <= j < |xs| && BestAt(isMin, late, LateValues(xs), j);
    }
  }

  lemma LateKeys(key: Scalar -> string, xs: seq<Scalar>)
    requires forall i :: 0 <= i < |xs| ==> IsAggregateValue(xs[i])
    ensures KeySet(key, LateValues(xs)) == KeySet(key, xs) <==>
      forall i :: 0 <= i < |xs| && xs[i].Time? ==>
        exists j :: 0 <= j < |xs| && PlainValue(xs[j]) && !xs[j].Null? && key(xs[j]) == key(xs[i])
  {
    var late := LateValues(xs);
    forall k | k in KeySet(key, late) ensures k in KeySet(key, xs) {
      var j :| 0 <= j < |late| && !late[j].Null? && key(late[j]) == k;
      assert late[j] == xs[j];
    }
    if KeySet(key, late) == KeySet(key, xs) {
      forall i | 0 <= i < |xs| && xs[i].Time?
        ensures exists j :: 0 <= j < |xs| && PlainValue(xs[j]) && !xs[j].Null? && key(xs[j]) == key(xs[i])
      {
        assert key(xs[i]) in KeySet(key, late);
        var j :| 0 <= j < |late| && !late[j].Null? && key(late[j]) == key(xs[i]);
        assert late[j] == xs[j];
      }
    } else {
      var k :| k in KeySet(key, xs) && k !in KeySet(key, late);
      var i :| 0 <= i < |xs| && !xs[i].Null? && key(xs[i]) == k;
      assert late[i] == LateValue(xs[i]) && xs[i].Time?;
      forall j | 0 <= j < |xs| && PlainValue(xs[j]) && !xs[j].Null? ensures key(xs[j]) != key(xs[i]) {
        assert late[j] == xs[j];
      }
    }
  }
}
