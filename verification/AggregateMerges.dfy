/** Partial aggregation is a homomorphism: merging the states of two parts
    gives exactly the state of the whole, for every operation. */
module AggregateMerges {
  import opened Scalars
  import opened Aggregates

  // ----- Variance -----

  /** The number of values, their sum and the sum of their squares. */
  datatype Moments = Moments(count: nat, sum: Num, squares: Num)

  function MomentsOf(xs: seq<Num>): Moments
    decreases |xs|
  {
    if xs == [] then Moments(0, Fin(0.0), Fin(0.0))
    else AddMoments(MomentsOf(xs[..|xs| - 1]), Moments(1, xs[|xs| - 1], Mul(xs[|xs| - 1], xs[|xs| - 1])))
  }

  function AddMoments(a: Moments, b: Moments): Moments {
    Moments(a.count + b.count, Add(a.sum, b.sum), Add(a.squares, b.squares))
  }

  /** The state these moments stand for: mean `S1 / n` and `S2 - S1 * S1 / n`. */
  ghost predicate Stands(s: State, m: Moments) {
    && s.VarianceState?
    && s.count == m.count
    && (m.sum.NaN? <==> m.squares.NaN?)
    && (m.count == 0 ==> s.mean == Fin(0.0) && s.m2 == Fin(0.0) && m.sum == Fin(0.0) && m.squares == Fin(0.0))
    && (m.sum.NaN? ==> s.mean.NaN? && s.m2.NaN?)
    && (m.sum.Fin? ==>
          && s.mean.Fin? && s.m2.Fin?
          && Product(s.mean.v, m.count as real) == m.sum.v
          && s.m2.v == m.squares.v - Product(s.mean.v, m.sum.v))
  }

  lemma VarianceStepStands(s: State, m: Moments, x: Num)
    requires Stands(s, m)
    ensures Stands(VarianceStep(s, x), AddMoments(m, Moments(1, x, Mul(x, x))))
  {
  }

  lemma ChanMoments(n: real, p: real, a: real, b: real, c: real, s1: real, t1: real)
    requires n > 0.0 && p > 0.0 && Product(a, n) == s1 && Product(b, p) == t1
    requires c == Quotient(s1 + t1, n + p)
    ensures Product(c, n + p) == s1 + t1
    ensures Quotient(Product(Product(b - a, b - a), Product(n, p)), n + p)
         == Product(a, s1) + Product(b, t1) - Product(c, s1 + t1)
  {
  }

  lemma {:induction false} ProductAsReal(n: nat, p: nat)
    ensures (n * p) as real == Product(n as real, p as real)
  {
    if n > 0 {
      ProductAsReal(n - 1, p);
      assert n * p == (n - 1) * p + p;
    }
  }

  /** The merge of two non-empty finite states, in real arithmetic. */
  lemma MergeVarianceFinite(s: State, t: State)
    requires s.VarianceState? && t.VarianceState? && s.count > 0 && t.count > 0
    requires s.mean.Fin? && t.mean.Fin? && s.m2.Fin? && t.m2.Fin?
    ensures var n, p := s.count as real, t.count as real;
            var delta := t.mean.v - s.mean.v;
            && MergeVariance(s, t).count == s.count + t.count
            && MergeVariance(s, t).mean == Fin(Quotient(Product(s.mean.v, n) + Product(t.mean.v, p), n + p))
            && MergeVariance(s, t).m2
            == Fin(s.m2.v + (t.m2.v + Quotient(Product(Product(delta, delta), Product(n, p)), n + p)))
  {
    ProductAsReal(s.count, t.count);
    hide Product, Quotient;
  }

  lemma MergeVarianceStands(s: State, t: State, m: Moments, k: Moments)
    requires Stands(s, m) && Stands(t, k)
    ensures Stands(MergeVariance(s, t), AddMoments(m, k))
  {
    if m.count > 0 && k.count > 0 && m.sum.Fin? && k.sum.Fin? {
      FiniteMergeStands(s, t, m, k);
    }
  }

  lemma FiniteMergeStands(s: State, t: State, m: Moments, k: Moments)
    requires Stands(s, m) && Stands(t, k)
    requires m.count > 0 && k.count > 0 && m.sum.Fin? && k.sum.Fin?
    ensures Stands(MergeVariance(s, t), AddMoments(m, k))
  {
    MergeVarianceFinite(s, t);
    hide MergeVariance, Product, Quotient;
    ChanMoments(m.count as real, k.count as real, s.mean.v, t.mean.v, MergeVariance(s, t).mean.v,
                m.sum.v, k.sum.v);
  }

  /** The moments determine the state. */
  lemma StandsUnique(s: State, t: State, m: Moments)
    requires Stands(s, m) && Stands(t, m) && s.kind == t.kind
    ensures s == t
  {
    if m.count > 0 && m.sum.Fin? {
      var n := m.count as real;
      assert n > 0.0;
    }
  }

  /** The numbers among the values, in order. */
  function NumbersOf(xs: seq<Scalar>): seq<Num>
    decreases |xs|
  {
    if xs == [] then []
    else if xs[|xs| - 1].Number? then NumbersOf(xs[..|xs| - 1]) + [xs[|xs| - 1].n]
    else NumbersOf(xs[..|xs| - 1])
  }

  lemma {:induction false} NumbersAppend(a: seq<Scalar>, b: seq<Scalar>)
    ensures NumbersOf(a + b) == NumbersOf(a) + NumbersOf(b)
    decreases |b|
  {
    if b == [] {
      assert a + b == a;
    } else {
      var front := b[..|b| - 1];
      NumbersAppend(a, front);
      assert (a + b)[..|a + b| - 1] == a + front;
    }
  }

  lemma MomentsSnoc(ns: seq<Num>, x: Num)
    ensures MomentsOf(ns + [x]) == AddMoments(MomentsOf(ns), Moments(1, x, Mul(x, x)))
  {
    assert (ns + [x])[..|ns|] == ns;
  }

  lemma AddMomentsAssociative(a: Moments, b: Moments, c: Moments)
    ensures AddMoments(AddMoments(a, b), c) == AddMoments(a, AddMoments(b, c))
  {
  }

  lemma NoMoments(m: Moments)
    ensures AddMoments(m, MomentsOf([])) == m
  {
  }

  lemma {:induction false} MomentsAppend(a: seq<Num>, b: seq<Num>)
    ensures MomentsOf(a + b) == AddMoments(MomentsOf(a), MomentsOf(b))
    decreases |b|
  {
    hide *;
    if b == [] {
      assert a + b == a;
      NoMoments(MomentsOf(a));
    } else {
      var front, x := b[..|b| - 1], b[|b| - 1];
      MomentsAppend(a, front);
      assert a + b == (a + front) + [x] && b == front + [x];
      MomentsSnoc(a + front, x);
      MomentsSnoc(front, x);
      AddMomentsAssociative(MomentsOf(a), MomentsOf(front), Moments(1, x, Mul(x, x)));
    }
  }

  lemma VarianceUpdateStands(key: Scalar -> string, s: State, xs: seq<Scalar>, x: Scalar)
    requires Stands(s, MomentsOf(NumbersOf(xs))) && Update(key, s, x).Ok?
    ensures Stands(Update(key, s, x).value, MomentsOf(NumbersOf(xs + [x])))
    ensures s.VarianceState? && Update(key, s, x).value.VarianceState?
    ensures Update(key, s, x).value.kind == s.kind
  {
    assert Update(key, s, x).value == if x.Null? then s else VarianceStep(s, x.n);
    assert x.Null? || x.Number?;
    if x.Number? {
      hide Update, NumbersOf;
      VarianceStepStands(s, MomentsOf(NumbersOf(xs)), x.n);
      MomentsSnoc(NumbersOf(xs), x.n);
      hide Stands, MomentsOf;
    }
  }

  lemma RunOfNone(key: Scalar -> string, op: Op)
    ensures Run(key, op, []) == Ok(Create(op))
  {
  }

  lemma RunStep(key: Scalar -> string, op: Op, xs: seq<Scalar>)
    requires xs != []
    ensures Run(key, op, xs) == Then(key, Run(key, op, xs[..|xs| - 1]), xs[|xs| - 1])
    ensures Run(key, op, xs).Ok? ==>
              && Run(key, op, xs[..|xs| - 1]).Ok?
              && Run(key, op, xs) == Update(key, Run(key, op, xs[..|xs| - 1]).value, xs[|xs| - 1])
  {
  }

  lemma ProductOfZero()
    ensures Product(0.0, 0.0) == 0.0
  {
  }

  lemma VarianceStart(kind: VarianceKind)
    ensures Stands(Create(Variance(kind)), MomentsOf([])) && NumbersOf([]) == []
    ensures Create(Variance(kind)).VarianceState? && Create(Variance(kind)).kind == kind
  {
    hide Product;
    assert Product(0.0, 0.0) == 0.0 by {
      ProductOfZero();
    }
  }

  /** Welford's state stands for the moments of the numbers fed to it. */
  lemma {:induction false} VarianceRun(key: Scalar -> string, kind: VarianceKind, xs: seq<Scalar>)
    requires Run(key, Variance(kind), xs).Ok?
    ensures Stands(Run(key, Variance(kind), xs).value, MomentsOf(NumbersOf(xs)))
    ensures Run(key, Variance(kind), xs).value.VarianceState?
    ensures Run(key, Variance(kind), xs).value.kind == kind
    decreases |xs|
  {
    hide *;
    if xs == [] {
      RunOfNone(key, Variance(kind));
      VarianceStart(kind);
    } else {
      var front, x := xs[..|xs| - 1], xs[|xs| - 1];
      RunStep(key, Variance(kind), xs);
      VarianceRun(key, kind, front);
      VarianceUpdateStands(key, Run(key, Variance(kind), front).value, front, x);
      assert xs == front + [x];
    }
  }

  /** The sum of squared deviations from `c`. */
  function Deviations(ns: seq<Num>, c: real): real
    requires forall i :: 0 <= i < |ns| ==> ns[i].Fin?
    decreases |ns|
  {
    if ns == [] then 0.0
    else Deviations(ns[..|ns| - 1], c) + Product(ns[|ns| - 1].v - c, ns[|ns| - 1].v - c)
  }

  lemma {:induction false} FiniteMoments(ns: seq<Num>)
    requires forall i :: 0 <= i < |ns| ==> ns[i].Fin?
    ensures MomentsOf(ns).sum.Fin? && MomentsOf(ns).squares.Fin? && MomentsOf(ns).count == |ns|
    decreases |ns|
  {
    if ns != [] {
      FiniteMoments(ns[..|ns| - 1]);
    }
  }

  lemma ExpandDeviation(c: real, n: real, sum: real, squares: real, x: real)
    ensures (squares - 2.0 * Product(c, sum) + Product(Product(c, c), n)) + Product(x - c, x - c)
         == (squares + Product(x, x)) - 2.0 * Product(c, sum + x) + Product(Product(c, c), n + 1.0)
  {
  }

  lemma {:induction false} DeviationsFromMoments(ns: seq<Num>, c: real)
    requires forall i :: 0 <= i < |ns| ==> ns[i].Fin?
    ensures var m := MomentsOf(ns);
            && m.sum.Fin? && m.squares.Fin?
            && Deviations(ns, c) == m.squares.v - 2.0 * Product(c, m.sum.v) + Product(Product(c, c), |ns| as real)
    decreases |ns|
  {
    FiniteMoments(ns);
    if ns != [] {
      var front, x := ns[..|ns| - 1], ns[|ns| - 1].v;
      FiniteMoments(front);
      DeviationsFromMoments(front, c);
      var m := MomentsOf(front);
      ExpandDeviation(c, |front| as real, m.sum.v, m.squares.v, x);
      assert MomentsOf(ns) == AddMoments(m, Moments(1, Fin(x), Mul(Fin(x), Fin(x))));
    }
  }

  lemma CentredSquares(c: real, n: real, sum: real)
    requires Product(c, n) == sum
    ensures Product(Product(c, c), n) == Product(c, sum)
  {
    assert c * c * n == c * (c * n);
  }

  lemma StandsMeaning(s: State, ns: seq<Num>)
    requires Stands(s, MomentsOf(ns)) && forall i :: 0 <= i < |ns| ==> ns[i].Fin?
    ensures && s.VarianceState? && s.count == |ns|
            && s.mean.Fin? && s.m2.Fin? && MomentsOf(ns).sum.Fin?
            && Product(s.mean.v, |ns| as real) == MomentsOf(ns).sum.v
            && s.m2.v == Deviations(ns, s.mean.v)
  {
    FiniteMoments(ns);
    DeviationsFromMoments(ns, s.mean.v);
    CentredSquares(s.mean.v, |ns| as real, MomentsOf(ns).sum.v);
    hide Product, MomentsOf, Deviations;
  }

  /** Over finite numbers the state holds their count, their mean and the sum of
      the squared deviations from that mean. */
  lemma VarianceMeaning(key: Scalar -> string, kind: VarianceKind, xs: seq<Scalar>)
    requires Run(key, Variance(kind), xs).Ok?
    requires forall i :: 0 <= i < |NumbersOf(xs)| ==> NumbersOf(xs)[i].Fin?
    ensures var s := Run(key, Variance(kind), xs).value;
            var ns := NumbersOf(xs);
            && s.VarianceState? && s.count == |ns|
            && s.mean.Fin? && s.m2.Fin? && MomentsOf(ns).sum.Fin?
            && Product(s.mean.v, |ns| as real) == MomentsOf(ns).sum.v
            && s.m2.v == Deviations(ns, s.mean.v)
  {
    hide *;
    VarianceRun(key, kind, xs);
    StandsMeaning(Run(key, Variance(kind), xs).value, NumbersOf(xs));
  }

  lemma VarianceMerges(key: Scalar -> string, kind: VarianceKind, a: seq<Scalar>, b: seq<Scalar>)
    requires Run(key, Variance(kind), a).Ok? && Run(key, Variance(kind), b).Ok?
    requires Run(key, Variance(kind), a + b).Ok?
    ensures Merge(Run(key, Variance(kind), a).value, Run(key, Variance(kind), b).value)
         == Run(key, Variance(kind), a + b)
  {
    VarianceRun(key, kind, a);
    VarianceRun(key, kind, b);
    VarianceRun(key, kind, a + b);
    NumbersAppend(a, b);
    MomentsAppend(NumbersOf(a), NumbersOf(b));
    var s, t := Run(key, Variance(kind), a).value, Run(key, Variance(kind), b).value;
    var m, k := MomentsOf(NumbersOf(a)), MomentsOf(NumbersOf(b));
    assert s.VarianceState? && t.VarianceState?;
    hide *;
    MergeVarianceStands(s, t, m, k);
    StandsUnique(MergeVariance(s, t), Run(key, Variance(kind), a + b).value, AddMoments(m, k));
  }

  // ----- Minimum and maximum -----

  predicate Numeric(v: Scalar) {
    v.Number? && v.n.Fin?
  }

  /** Merging here would lose `x`: the source state is stuck on NaN. */
  predicate Stuck(isMin: bool, s: Scalar, t: Scalar, x: Scalar) {
    IsNaN(t) && Numeric(s) && Numeric(x) && Better(isMin, x, s)
  }

  lemma BetterTransitive(isMin: bool, a: Scalar, b: Scalar, c: Scalar)
    requires TypeOfScalar(a) == TypeOfScalar(b) == TypeOfScalar(c)
    requires IsAggregateValue(a) && IsAggregateValue(b) && IsAggregateValue(c)
    requires !a.Null? && !b.Null? && !c.Null? && !IsNaN(a) && !IsNaN(b) && !IsNaN(c)
    ensures Better(isMin, a, b) && !Better(isMin, c, b) ==> Better(isMin, a, c)
    ensures Better(isMin, a, b) ==> !Better(isMin, b, a)
  {
    if a.Str? {
      LexAntisymmetric(a.s, b.s);
      LexAntisymmetric(b.s, c.s);
      LexAntisymmetric(a.s, c.s);
      StrictLex(a.s, b.s, c.s);
      StrictLex(c.s, b.s, a.s);
    }
  }

  /** If `a` does not come after `b` nor `b` after `c`, and one step is strict, so is the whole. */
  lemma StrictLex(a: string, b: string, c: string)
    ensures LexOrder(a, b) <= 0 && LexOrder(b, c) < 0 ==> LexOrder(a, c) < 0
    ensures LexOrder(a, b) < 0 && LexOrder(b, c) <= 0 ==> LexOrder(a, c) < 0
  {
    LexAntisymmetric(a, b);
    LexAntisymmetric(b, c);
    LexAntisymmetric(a, c);
    if LexOrder(a, b) <= 0 && LexOrder(b, c) <= 0 {
      LexTransitive(a, b, c);
    }
  }

  function ThenExtreme(isMin: bool, r: Result<Scalar>, x: Scalar): Result<Scalar> {
    var v :- r;
    ExtremeStep(isMin, v, x)
  }

  function MergeExtreme(isMin: bool, s: Scalar, r: Result<Scalar>): Result<Scalar> {
    var v :- r;
    ExtremeStep(isMin, s, v)
  }

  /** One more value into the source, or into the merge: the same, unless stuck. */
  lemma ExtremeAssociates(isMin: bool, s: Scalar, t: Scalar, x: Scalar)
    requires IsAggregateValue(s) && IsAggregateValue(t) && IsAggregateValue(x)
    requires !Stuck(isMin, s, t, x)
    ensures ThenExtreme(isMin, ExtremeStep(isMin, s, t), x) == MergeExtreme(isMin, s, ExtremeStep(isMin, t, x))
  {
    if !s.Null? && !t.Null? && !x.Null? && TypeOfScalar(s) == TypeOfScalar(t) == TypeOfScalar(x) {
      if !IsNaN(s) && !IsNaN(t) && !IsNaN(x) {
        BetterTransitive(isMin, t, s, x);
        BetterTransitive(isMin, x, t, s);
        BetterTransitive(isMin, x, s, t);
      }
    }
  }

  lemma {:induction false} ExtremeRunValue(key: Scalar -> string, s: State, xs: seq<Scalar>)
    requires s.ExtremeState? && IsAggregateValue(s.value) && RunFrom(key, s, xs).Ok?
    ensures RunFrom(key, s, xs).value.ExtremeState? && RunFrom(key, s, xs).value.isMin == s.isMin
    ensures IsAggregateValue(RunFrom(key, s, xs).value.value)
    decreases |xs|
  {
    if xs != [] {
      ExtremeRunValue(key, s, xs[..|xs| - 1]);
    }
  }

  /** Values that fail on their own also fail after any other values. */
  lemma {:induction false} ExtremeFailureSpreads(key: Scalar -> string, s: State, xs: seq<Scalar>)
    requires s.ExtremeState? && IsAggregateValue(s.value) && RunFrom(key, s, xs).Ok?
    ensures RunFrom(key, s, xs).value.ExtremeState?
    ensures Run(key, Extreme(s.isMin), xs).Ok? && Run(key, Extreme(s.isMin), xs).value.ExtremeState?
    ensures var r, t := RunFrom(key, s, xs).value.value, Run(key, Extreme(s.isMin), xs).value.value;
            t.Null? || (!r.Null? && TypeOfScalar(r) == TypeOfScalar(t))
    decreases |xs|
  {
    if xs != [] {
      var front := xs[..|xs| - 1];
      ExtremeRunValue(key, s, front);
      ExtremeFailureSpreads(key, s, front);
    }
  }

  /** Some value of `b` beats the extreme of `a`, but `b`'s own state is stuck on NaN. */
  ghost predicate Loses(key: Scalar -> string, isMin: bool, a: seq<Scalar>, b: seq<Scalar>) {
    var ra, rb := Run(key, Extreme(isMin), a), Run(key, Extreme(isMin), b);
    && ra.Ok? && rb.Ok? && ra.value.ExtremeState? && rb.value.ExtremeState?
    && IsNaN(rb.value.value) && Numeric(ra.value.value)
    && exists i :: 0 <= i < |b| && Numeric(b[i]) && Better(isMin, b[i], ra.value.value)
  }

  /** One more value into the source, or into the merge. */
  lemma MergeThenUpdate(key: Scalar -> string, s: State, t: State, x: Scalar)
    requires OpOf(s) == OpOf(t) && !s.VarianceState?
    requires s.ExtremeState? ==>
               && IsAggregateValue(s.value) && IsAggregateValue(t.value)
               && !Stuck(s.isMin, s.value, t.value, x)
    ensures Then(key, Merge(s, t), x) == MergeRuns(Ok(s), Update(key, t, x))
  {
    if IsAggregateValue(x) {
      match s
      case ExtremeState(isMin, value) => ExtremeAssociates(isMin, value, t.value, x);
      case ModeState(entries) =>
        if !x.Null? {
          AddEntriesThenAdd(entries, t.entries, Entry(key(x), x, 1));
        }
      case MedianState(values) => assert values + t.values + [x] == values + (t.values + [x]);
      case QuantileState(q, numbers) =>
        if x.Number? {
          assert numbers + t.numbers + [x.n] == numbers + (t.numbers + [x.n]);
        }
      case DistinctState(approx, keys) => assert keys + t.keys + {key(x)} == keys + (t.keys + {key(x)});
      case _ =>
    } else if s.ExtremeState? {
      assert Update(key, t, x) == Err(TypeError);
    }
  }

  lemma RunSnoc(key: Scalar -> string, op: Op, xs: seq<Scalar>, x: Scalar)
    ensures Run(key, op, xs + [x]) == Then(key, Run(key, op, xs), x)
  {
    RunFromSnoc(key, Create(op), xs, x);
  }

  /** What `MergeThenUpdate` asks of the states of `a` and of all but the last value of `b`. */
  lemma ReadyToMerge(key: Scalar -> string, op: Op, a: seq<Scalar>, b: seq<Scalar>)
    requires b != [] && !op.Variance?
    requires Run(key, op, a).Ok? && Run(key, op, b[..|b| - 1]).Ok?
    requires op.Extreme? ==> !Loses(key, op.isMin, a, b)
    ensures var s, t := Run(key, op, a).value, Run(key, op, b[..|b| - 1]).value;
            && OpOf(s) == OpOf(t) && !s.VarianceState?
            && (s.ExtremeState? ==>
                  && t.ExtremeState? && IsAggregateValue(s.value) && IsAggregateValue(t.value)
                  && !Stuck(s.isMin, s.value, t.value, b[|b| - 1]))
  {
    var front := b[..|b| - 1];
    RunFromKeepsOp(key, Create(op), a);
    RunFromKeepsOp(key, Create(op), front);
    if op.Extreme? {
      ExtremeRunValue(key, Create(op), a);
      ExtremeRunValue(key, Create(op), front);
    }
  }

  /** The inductive step: given the theorem for all but the last value of `b`. */
  lemma HomomorphismStep(key: Scalar -> string, op: Op, a: seq<Scalar>, b: seq<Scalar>)
    requires b != [] && !op.Variance?
    requires MergeRuns(Run(key, op, a), Run(key, op, b[..|b| - 1])) == Run(key, op, a + b[..|b| - 1])
    requires op.Extreme? ==> !Loses(key, op.isMin, a, b)
    ensures MergeRuns(Run(key, op, a), Run(key, op, b)) == Run(key, op, a + b)
  {
    var front, x := b[..|b| - 1], b[|b| - 1];
    assert a + b == (a + front) + [x];
    hide Run, RunFrom, Update, Merge, Loses, Stuck, Create, OpOf, IsAggregateValue;
    RunSnoc(key, op, a + front, x);
    RunStep(key, op, b);
    if Run(key, op, a).Ok? && Run(key, op, front).Ok? {
      ReadyToMerge(key, op, a, b);
      MergeThenUpdate(key, Run(key, op, a).value, Run(key, op, front).value, x);
    }
  }

  lemma MergeEmpty(s: State)
    ensures Merge(s, Create(OpOf(s))) == Ok(s)
  {
    match s
    case MedianState(values) => assert values + [] == values;
    case QuantileState(q, numbers) => assert numbers + [] == numbers;
    case DistinctState(approx, keys) => assert keys + {} == keys;
    case _ =>
  }

  /** When every operation but variance runs into an error in `b`, so does the whole. */
  lemma {:induction false} FailureSpreads(key: Scalar -> string, op: Op, a: seq<Scalar>, b: seq<Scalar>)
    requires op.Extreme? && Run(key, op, a).Ok? && Run(key, op, b).Err?
    ensures Run(key, op, a + b) == Err(TypeError)
  {
    RunFromAppend(key, Create(op), a, b);
    ExtremeRunValue(key, Create(op), a);
    var s := Run(key, op, a).value;
    if RunFrom(key, s, b).Ok? {
      ExtremeFailureSpreads(key, s, b);
      assert false;
    }
    RunFromKeepsOp(key, s, b);
  }

  /** Splitting the input does not change the answer: the state of the whole is
      the merge of the states of its parts, and an error in either part is an
      error of the whole. For minimum and maximum the second part must not have
      hidden a better value behind a leading NaN. */
  lemma {:induction false} PartsMergeToWhole(key: Scalar -> string, op: Op, a: seq<Scalar>, b: seq<Scalar>)
    requires op.Extreme? ==> !Loses(key, op.isMin, a, b)
    ensures MergeRuns(Run(key, op, a), Run(key, op, b)) == Run(key, op, a + b)
    decreases |b|
  {
    hide Merge;
    RunFromKeepsOp(key, Create(op), a);
    RunFromKeepsOp(key, Create(op), b);
    if b == [] {
      assert a + b == a;
      if Run(key, op, a).Ok? {
        MergeEmpty(Run(key, op, a).value);
      }
    } else if op.Variance? {
      VariancePartsMerge(key, op.kind, a, b);
    } else if op.Extreme? && Run(key, op, b).Err? {
      if Run(key, op, a).Ok? {
        FailureSpreads(key, op, a, b);
      } else {
        RunFromAppend(key, Create(op), a, b);
      }
    } else {
      PartsMergeToWhole(key, op, a, b[..|b| - 1]);
      HomomorphismStep(key, op, a, b);
    }
  }

  /** Variance fails exactly on a value that is neither null nor a number. */
  lemma {:induction false} VarianceFails(key: Scalar -> string, s: State, xs: seq<Scalar>)
    requires s.VarianceState?
    ensures RunFrom(key, s, xs).Ok? <==> forall i :: 0 <= i < |xs| ==> xs[i].Null? || xs[i].Number?
    ensures RunFrom(key, s, xs).Ok? ==> RunFrom(key, s, xs).value.VarianceState?
    decreases |xs|
  {
    if xs != [] {
      var front := xs[..|xs| - 1];
      VarianceFails(key, s, front);
      assert forall i :: 0 <= i < |front| ==> xs[i] == front[i];
    }
  }

  lemma VariancePartsMerge(key: Scalar -> string, kind: VarianceKind, a: seq<Scalar>, b: seq<Scalar>)
    ensures MergeRuns(Run(key, Variance(kind), a), Run(key, Variance(kind), b)) == Run(key, Variance(kind), a + b)
  {
    var zero := Create(Variance(kind));
    VarianceFails(key, zero, a);
    VarianceFails(key, zero, b);
    VarianceFails(key, zero, a + b);
    RunFromKeepsOp(key, zero, a);
    RunFromKeepsOp(key, zero, b);
    RunFromKeepsOp(key, zero, a + b);
    assert forall i :: 0 <= i < |a| ==> (a + b)[i] == a[i];
    assert forall i :: 0 <= i < |b| ==> (a + b)[|a| + i] == b[i];
    if Run(key, Variance(kind), a).Ok? && Run(key, Variance(kind), b).Ok? {
      VarianceMerges(key, kind, a, b);
    }
  }

  /** Continuing from a finite extreme ends on a value nothing seen beats. */
  lemma {:induction false} ExtremeBeatsAll(key: Scalar -> string, s: State, xs: seq<Scalar>)
    requires s.ExtremeState? && Numeric(s.value) && RunFrom(key, s, xs).Ok?
    ensures RunFrom(key, s, xs).value.ExtremeState? && Numeric(RunFrom(key, s, xs).value.value)
    ensures forall i :: 0 <= i < |xs| && Numeric(xs[i]) ==> !Better(s.isMin, xs[i], RunFrom(key, s, xs).value.value)
    decreases |xs|
  {
    if xs != [] {
      var front := xs[..|xs| - 1];
      ExtremeRunValue(key, s, front);
      ExtremeBeatsAll(key, s, front);
      assert forall i :: 0 <= i < |front| ==> xs[i] == front[i];
    }
  }

  /** Minimum and maximum merge correctly if and only if the source state is not
      stuck on NaN in front of a value better than the target's. */
  lemma ExtremeMergesExactly(key: Scalar -> string, isMin: bool, a: seq<Scalar>, b: seq<Scalar>)
    ensures MergeRuns(Run(key, Extreme(isMin), a), Run(key, Extreme(isMin), b)) == Run(key, Extreme(isMin), a + b)
       <==> !Loses(key, isMin, a, b)
  {
    var op := Extreme(isMin);
    if Loses(key, isMin, a, b) {
      var s, t := Run(key, op, a).value, Run(key, op, b).value;
      RunFromKeepsOp(key, Create(op), a);
      RunFromKeepsOp(key, Create(op), b);
      RunFromAppend(key, Create(op), a, b);
      assert Merge(s, t) == Ok(s);
      if Run(key, op, a + b).Ok? {
        ExtremeBeatsAll(key, s, b);
        var i :| 0 <= i < |b| && Numeric(b[i]) && Better(isMin, b[i], s.value);
        assert RunFrom(key, s, b).value.value != s.value;
      }
    } else {
      PartsMergeToWhole(key, op, a, b);
    }
  }

  /** A minimum that merging gets wrong: 1 against a part that holds NaN, then 0. */
  lemma NaNHidesMinimum(key: Scalar -> string)
    ensures var one, zero := Number(Fin(1.0)), Number(Fin(0.0));
            && Run(key, Extreme(true), [one, Number(NaN), zero]) == Ok(ExtremeState(true, zero))
            && MergeRuns(Run(key, Extreme(true), [one]), Run(key, Extreme(true), [Number(NaN), zero]))
            == Ok(ExtremeState(true, one))
  {
    var one, nan, zero := Number(Fin(1.0)), Number(NaN), Number(Fin(0.0));
    assert [one, nan, zero][..2] == [one, nan] && [one, nan][..1] == [one] && [one][..0] == [];
    assert [nan, zero][..1] == [nan] && [nan][..0] == [];
    RunStep(key, Extreme(true), [one]);
    RunStep(key, Extreme(true), [one, nan]);
    RunStep(key, Extreme(true), [one, nan, zero]);
    RunStep(key, Extreme(true), [nan]);
    RunStep(key, Extreme(true), [nan, zero]);
  }
}
