/** What the state of an aggregate is after a run over any values, and which
    values it refuses. */
module AggregateRuns {
  import opened Scalars
  import opened ValueOrders
  import opened Aggregates
  import opened AggregateMerges

  /** The type an operation asks of every value that is not null. */
  predicate Takes(op: Op, x: Scalar) {
    match op
    case Sum | Avg | Variance(_) | Quantile(_) => x.Number?
    case Median => x.Number? || x.Str?
    case _ => true
  }

  /** The values an aggregate refuses: binary and interval values, values of a
      type it does not take, and for an extreme values of two types. */
  ghost predicate Refuses(op: Op, xs: seq<Scalar>) {
    || (exists i :: 0 <= i < |xs| && !IsAggregateValue(xs[i]))
    || (exists i :: 0 <= i < |xs| && !xs[i].Null? && !Takes(op, xs[i]))
    || (op.Extreme? && exists i, j :: 0 <= i < |xs| && 0 <= j < |xs| && TwoTypes(xs[i], xs[j]))
  }

  predicate TwoTypes(x: Scalar, y: Scalar) {
    !x.Null? && !y.Null? && TypeOfScalar(x) != TypeOfScalar(y)
  }

  function NonNull(xs: seq<Scalar>): nat {
    if xs == [] then 0 else NonNull(xs[..|xs| - 1]) + if xs[|xs| - 1].Null? then 0 else 1
  }

  function KeySet(key: Scalar -> string, xs: seq<Scalar>): set<string> {
    set i | 0 <= i < |xs| && !xs[i].Null? :: key(xs[i])
  }

  function TotalCount(entries: seq<Entry>): nat {
    if entries == [] then 0 else entries[0].count + TotalCount(entries[1..])
  }

  lemma {:induction false} AddEntryTotal(entries: seq<Entry>, e: Entry)
    ensures TotalCount(AddEntry(entries, e)) == TotalCount(entries) + e.count
  {
    if entries != [] && entries[0].key != e.key {
      AddEntryTotal(entries[1..], e);
      assert AddEntry(entries, e)[1..] == AddEntry(entries[1..], e);
    }
  }

  /** The sum of the numbers, which is NaN once one of them is. */
  function TotalOf(ns: seq<Num>): Num
    decreases |ns|
  {
    if ns == [] then Fin(0.0)
    else
      match (TotalOf(ns[..|ns| - 1]), ns[|ns| - 1])
      case (Fin(a), Fin(b)) => Fin(a + b)
      case _ => NaN
  }

  /** The values that are not null, in order. */
  function PresentOf(xs: seq<Scalar>): seq<Scalar>
    decreases |xs|
  {
    if xs == [] then []
    else PresentOf(xs[..|xs| - 1]) + if xs[|xs| - 1].Null? then [] else [xs[|xs| - 1]]
  }

  /** What the state of a run that returned holds, aggregate by aggregate. */
  ghost predicate RunIs(key: Scalar -> string, op: Op, xs: seq<Scalar>, s: State) {
    && OpOf(s) == op
    && match s
       case CountState(count) => count == NonNull(xs)
       case SumState(sum) => sum == TotalOf(NumbersOf(xs))
       case AvgState(sum, count) => sum == TotalOf(NumbersOf(xs)) && count == |NumbersOf(xs)|
       case VarianceState(_, count, _, _) => count == |NumbersOf(xs)|
       case MedianState(values) => values == PresentOf(xs)
       case QuantileState(_, numbers) => numbers == NumbersOf(xs)
       case ExtremeState(isMin, value) =>
         (value.Null? <==> NonNull(xs) == 0) && (!value.Null? ==> Best(isMin, value, xs))
       case DistinctState(_, keys) => keys == KeySet(key, xs)
       case ModeState(entries) => TotalCount(entries) == NonNull(xs)
       case FirstState(seen, value) => (seen <==> xs != []) && (value == if xs == [] then Null else xs[0])
       case AnyState(seen, value) => (seen <==> xs != []) && (value == if xs == [] then Null else xs[0])
       case LastState(seen, value) => (seen <==> xs != []) && (value == if xs == [] then Null else xs[|xs| - 1])
  }

  predicate Beats(isMin: bool, x: Scalar, y: Scalar) {
    if isMin then Precedes(x, y) else Precedes(y, x)
  }

  /** The value occurs at `k`, nothing beats it, and it beats every number, text
      or instant before it; a NaN that comes first stays. */
  ghost predicate BestAt(isMin: bool, value: Scalar, xs: seq<Scalar>, k: nat) {
    && k < |xs| && xs[k] == value
    && (forall i :: 0 <= i < |xs| ==> !Beats(isMin, xs[i], value))
    && (forall j :: 0 <= j < k && !xs[j].Null? ==> !IsNaN(value) && (IsNaN(xs[j]) || Beats(isMin, value, xs[j])))
    && (!IsNaN(value) ==> forall j :: 0 <= j < k && IsNaN(xs[j]) ==> exists i :: 0 <= i < j && !xs[i].Null?)
  }

  /** The first of the least, or greatest, values. */
  ghost predicate Best(isMin: bool, value: Scalar, xs: seq<Scalar>) {
    exists k :: 0 <= k < |xs| && BestAt(isMin, value, xs, k)
  }

  /** A run fails exactly on values its aggregate refuses. */
  lemma {:induction false} RunMeans(key: Scalar -> string, op: Op, xs: seq<Scalar>)
    ensures Run(key, op, xs).Err? <==> Refuses(op, xs)
    ensures Run(key, op, xs).Err? ==> Run(key, op, xs).error == TypeError
    ensures Run(key, op, xs).Ok? ==> RunIs(key, op, xs, Run(key, op, xs).value)
    decreases |xs|
  {
    if xs == [] {
      assert KeySet(key, xs) == {};
    } else {
      var front, x := xs[..|xs| - 1], xs[|xs| - 1];
      assert xs == front + [x];
      RunMeans(key, op, front);
      RefusesSnoc(op, front, x);
      if Run(key, op, front).Ok? {
        UpdateMeans(key, op, front, x, Run(key, op, front).value);
      }
    }
  }

  lemma RefusesSnoc(op: Op, xs: seq<Scalar>, x: Scalar)
    ensures Refuses(op, xs + [x]) <==>
      || Refuses(op, xs) || !IsAggregateValue(x) || (!x.Null? && !Takes(op, x))
      || (op.Extreme? && exists i :: 0 <= i < |xs| && TwoTypes(xs[i], x))
  {
    var all := xs + [x];
    assert all[|xs|] == x && forall i :: 0 <= i < |xs| ==> all[i] == xs[i];
  }

  lemma UpdateMeans(key: Scalar -> string, op: Op, xs: seq<Scalar>, x: Scalar, s: State)
    requires RunIs(key, op, xs, s) && !Refuses(op, xs)
    ensures Update(key, s, x).Err? <==>
      || !IsAggregateValue(x) || (!x.Null? && !Takes(op, x))
      || (op.Extreme? && exists i :: 0 <= i < |xs| && TwoTypes(xs[i], x))
    ensures Update(key, s, x).Err? ==> Update(key, s, x).error == TypeError
    ensures Update(key, s, x).Ok? ==> RunIs(key, op, xs + [x], Update(key, s, x).value)
  {
    hide TotalCount, Best, Precedes;
    var all := xs + [x];
    assert all[..|all| - 1] == xs && all[|xs|] == x;
    match s {
      case ExtremeState(isMin, value) =>
        ExtremeMeans(isMin, xs, x, value);
        if IsAggregateValue(x) && ExtremeStep(isMin, value, x).Ok? {
          ExtremeBest(isMin, xs, x, value);
        }
        hide KeySet, PresentOf, NumbersOf, Better;
      case DistinctState(_, _) =>
        assert KeySet(key, all) == if x.Null? then KeySet(key, xs) else KeySet(key, xs) + {key(x)};
      case ModeState(entries) => AddEntryTotal(entries, Entry(key(x), x, 1));
      case _ =>
    }
  }

  /** The current extreme has the type of every value so far. */
  lemma ExtremeMeans(isMin: bool, xs: seq<Scalar>, x: Scalar, value: Scalar)
    requires (value.Null? <==> NonNull(xs) == 0) && (!value.Null? ==> Best(isMin, value, xs))
    requires forall i, j :: 0 <= i < |xs| && 0 <= j < |xs| ==> !TwoTypes(xs[i], xs[j])
    ensures TwoTypes(value, x) <==> exists i :: 0 <= i < |xs| && TwoTypes(xs[i], x)
  {
    if value.Null? {
      NoneNonNull(xs);
    }
  }

  lemma BetterBeats(isMin: bool, x: Scalar, current: Scalar)
    requires TypeOfScalar(x) == TypeOfScalar(current) && IsAggregateValue(x) && IsAggregateValue(current)
    requires !x.Null? && !current.Null?
    ensures Better(isMin, x, current) <==> Beats(isMin, x, current)
    ensures !Beats(isMin, x, x) && !(Beats(isMin, x, current) && Beats(isMin, current, x))
    ensures IsNaN(x) || IsNaN(current) ==> !Beats(isMin, x, current)
  {
    if !x.Time? {
      LooseOrderMeans(x, current);
      LooseOrderMeans(current, x);
      LooseOrderMeans(x, x);
    }
  }

  /** One more value keeps the first of the best. */
  lemma ExtremeBest(isMin: bool, xs: seq<Scalar>, x: Scalar, value: Scalar)
    requires (value.Null? <==> NonNull(xs) == 0) && (!value.Null? ==> Best(isMin, value, xs))
    requires forall i, j :: 0 <= i < |xs| && 0 <= j < |xs| ==> !TwoTypes(xs[i], xs[j])
    requires forall i :: 0 <= i < |xs| ==> IsAggregateValue(xs[i])
    requires IsAggregateValue(x) && ExtremeStep(isMin, value, x).Ok?
    ensures var next := ExtremeStep(isMin, value, x).value;
            !next.Null? ==> Best(isMin, next, xs + [x])
  {
    if value.Null? {
      NoneNonNull(xs);
      if !x.Null? {
        FirstIsBest(isMin, xs, x);
      }
    } else {
      var k :| 0 <= k < |xs| && BestAt(isMin, value, xs, k);
      if !x.Null? {
        BetterBeats(isMin, x, value);
      }
      hide *;
      if !x.Null? && Better(isMin, x, value) {
        BetterIsBest(isMin, xs, x, value, k);
        BestSomewhere(isMin, x, xs + [x], |xs|);
      } else {
        NullNeverBeats(isMin, value);
        BestStays(isMin, xs, x, value, k);
        BestSomewhere(isMin, value, xs + [x], k);
      }
      ExtremeStepIs(isMin, value, x);
    }
  }

  lemma ExtremeStepIs(isMin: bool, value: Scalar, x: Scalar)
    requires !value.Null? && ExtremeStep(isMin, value, x).Ok?
    ensures ExtremeStep(isMin, value, x).value == if !x.Null? && Better(isMin, x, value) then x else value
  {
  }

  lemma BestSomewhere(isMin: bool, value: Scalar, xs: seq<Scalar>, k: nat)
    requires BestAt(isMin, value, xs, k)
    ensures Best(isMin, value, xs)
  {
  }

  lemma FirstIsBest(isMin: bool, xs: seq<Scalar>, x: Scalar)
    requires (forall i :: 0 <= i < |xs| ==> xs[i].Null?) && !x.Null? && IsAggregateValue(x)
    ensures Best(isMin, x, xs + [x])
  {
    BetterBeats(isMin, x, x);
    NullNeverBeats(isMin, x);
    hide Beats;
    assert BestAt(isMin, x, xs + [x], |xs|);
  }

  lemma BestStays(isMin: bool, xs: seq<Scalar>, x: Scalar, value: Scalar, k: nat)
    requires BestAt(isMin, value, xs, k) && !Beats(isMin, x, value)
    ensures BestAt(isMin, value, xs + [x], k)
  {
    hide Beats;
    assert forall i :: 0 <= i < |xs| ==> (xs + [x])[i] == xs[i];
  }

  lemma NullNeverBeats(isMin: bool, x: Scalar)
    ensures !Beats(isMin, Null, x) && !Beats(isMin, x, Null)
  {
  }

  /** What beats the best beats everything the best was better than or tied with. */
  lemma BetterIsBest(isMin: bool, xs: seq<Scalar>, x: Scalar, value: Scalar, k: nat)
    requires BestAt(isMin, value, xs, k) && Beats(isMin, x, value) && !value.Null? && !x.Null?
    requires TypeOfScalar(x) == TypeOfScalar(value) && IsAggregateValue(x)
    requires forall i, j :: 0 <= i < |xs| && 0 <= j < |xs| ==> !TwoTypes(xs[i], xs[j])
    requires forall i :: 0 <= i < |xs| ==> IsAggregateValue(xs[i])
    ensures BestAt(isMin, x, xs + [x], |xs|)
  {
    BetterBeats(isMin, x, x);
    BetterBeats(isMin, x, value);
    forall i | 0 <= i < |xs|
      ensures !Beats(isMin, xs[i], x)
      ensures !xs[i].Null? ==> IsNaN(xs[i]) || Beats(isMin, x, xs[i])
    {
      assert !TwoTypes(xs[i], xs[k]);
      if xs[i].Null? {
        NullNeverBeats(isMin, x);
      } else {
        BetterBeats(isMin, xs[i], x);
        BeatsTied(isMin, x, value, xs[i]);
      }
    }
    hide Beats, TwoTypes;
    var all := xs + [x];
    assert forall i :: 0 <= i < |xs| ==> all[i] == xs[i];
    forall j | 0 <= j < |xs| && IsNaN(all[j]) ensures exists i :: 0 <= i < j && !all[i].Null? {
      if j >= k {
        assert !all[k].Null? && k < j;
      } else {
        var i :| 0 <= i < j && !xs[i].Null?;
        assert !all[i].Null?;
      }
    }
  }

  lemma BeatsTied(isMin: bool, x: Scalar, y: Scalar, z: Scalar)
    requires TypeOfScalar(x) == TypeOfScalar(y) == TypeOfScalar(z) && Beats(isMin, x, y) && !Beats(isMin, z, y)
    requires !x.Null? && !y.Null? && !z.Null? && IsAggregateValue(x) && IsAggregateValue(y) && IsAggregateValue(z)
    ensures IsNaN(z) || Beats(isMin, x, z)
  {
    if x.Str? {
      LexOrderMeans(x.s, y.s);
      LexOrderMeans(y.s, z.s);
      LexOrderMeans(x.s, z.s);
      LexAntisymmetric(x.s, y.s);
      LexAntisymmetric(y.s, z.s);
      LexAntisymmetric(x.s, z.s);
      if isMin {
        LexTransitive(x.s, y.s, z.s);
      } else {
        LexTransitive(z.s, y.s, x.s);
      }
    }
  }
  lemma {:induction false} NoneNonNull(xs: seq<Scalar>)
    ensures NonNull(xs) == 0 <==> forall i :: 0 <= i < |xs| ==> xs[i].Null?
  {
    if xs != [] {
      NoneNonNull(xs[..|xs| - 1]);
    }
  }

  /** The same of parts merged, as long as no better value is hidden behind NaN. */
  lemma MergedPartsMean(key: Scalar -> string, op: Op, a: seq<Scalar>, b: seq<Scalar>)
    requires op.Extreme? ==> !Loses(key, op.isMin, a, b)
    ensures MergeRuns(Run(key, op, a), Run(key, op, b)).Err? <==> Refuses(op, a + b)
    ensures MergeRuns(Run(key, op, a), Run(key, op, b)).Ok? ==>
      RunIs(key, op, a + b, MergeRuns(Run(key, op, a), Run(key, op, b)).value)
  {
    PartsMergeToWhole(key, op, a, b);
    RunMeans(key, op, a + b);
    hide MergeRuns, Run, Refuses, RunIs;
  }
}
