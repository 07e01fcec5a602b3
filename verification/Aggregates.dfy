/** Mergeable aggregate states as values: what one update, one merge, a
    snapshot and a final read do to each kind of state. Splitting the input
    and merging the parts must give the state of the whole. */
module Aggregates {
  import opened Scalars
  import opened Decimals

  datatype VarianceKind = VarSamp | VarPop | StddevSamp | StddevPop

  datatype Op =
    | Count
    | Sum
    | Avg
    | Variance(kind: VarianceKind)
    | Median
    | Quantile(q: real)
    | Extreme(isMin: bool)
    | Distinct(approx: bool)
    | Mode
    | First
    | Last
    | AnyValue

  /** One bucket of a mode state, in insertion order. */
  datatype Entry = Entry(key: string, value: Scalar, count: nat)

  datatype State =
    | CountState(count: nat)
    | SumState(sum: Num)
    | AvgState(sum: Num, count: nat)
    | VarianceState(kind: VarianceKind, count: nat, mean: Num, m2: Num)
    | MedianState(values: seq<Scalar>)
    | QuantileState(q: real, numbers: seq<Num>)
    | ExtremeState(isMin: bool, value: Scalar)
    | DistinctState(approx: bool, keys: set<string>)
    | ModeState(entries: seq<Entry>)
    | FirstState(seen: bool, value: Scalar)
    | LastState(seen: bool, value: Scalar)
    | AnyState(seen: bool, value: Scalar)

  function OpOf(s: State): Op {
    match s
    case CountState(_) => Count
    case SumState(_) => Sum
    case AvgState(_, _) => Avg
    case VarianceState(kind, _, _, _) => Variance(kind)
    case MedianState(_) => Median
    case QuantileState(q, _) => Quantile(q)
    case ExtremeState(isMin, _) => Extreme(isMin)
    case DistinctState(approx, _) => Distinct(approx)
    case ModeState(_) => Mode
    case FirstState(_, _) => First
    case LastState(_, _) => Last
    case AnyState(_, _) => AnyValue
  }

  function Create(op: Op): State {
    match op
    case Count => CountState(0)
    case Sum => SumState(Fin(0.0))
    case Avg => AvgState(Fin(0.0), 0)
    case Variance(kind) => VarianceState(kind, 0, Fin(0.0), Fin(0.0))
    case Median => MedianState([])
    case Quantile(q) => QuantileState(q, [])
    case Extreme(isMin) => ExtremeState(isMin, Null)
    case Distinct(approx) => DistinctState(approx, {})
    case Mode => ModeState([])
    case First => FirstState(false, Null)
    case Last => LastState(false, Null)
    case AnyValue => AnyState(false, Null)
  }

  // ----- Numbers, where NaN absorbs -----

  function Add(a: Num, b: Num): Num {
    if a.Fin? && b.Fin? then Fin(a.v + b.v) else NaN
  }

  function Sub(a: Num, b: Num): Num {
    if a.Fin? && b.Fin? then Fin(a.v - b.v) else NaN
  }

  function Product(a: real, b: real): real {
    a * b
  }

  function Quotient(a: real, b: real): real
    requires b != 0.0
  {
    a / b
  }

  /** The two names keep products and quotients out of the solver's arithmetic. */
  lemma RealArithmetic(a: real, b: real)
    ensures Product(a, b) == a * b
    ensures b != 0.0 ==> Quotient(a, b) * b == a
  {
  }

  function Mul(a: Num, b: Num): Num {
    if a.Fin? && b.Fin? then Fin(Product(a.v, b.v)) else NaN
  }

  function Div(a: Num, n: nat): Num
    requires n > 0
  {
    if a.Fin? then Fin(Quotient(a.v, n as real)) else NaN
  }

  function Times(a: Num, n: nat): Num {
    if a.Fin? then Fin(Product(a.v, n as real)) else NaN
  }

  // ----- Updates -----

  /** Binary and interval values are refused before they reach a state. */
  predicate IsAggregateValue(x: Scalar) {
    !x.Bytes? && !x.Span?
  }

  /** Welford's step. */
  function VarianceStep(s: State, x: Num): State
    requires s.VarianceState?
  {
    var count := s.count + 1;
    var delta := Sub(x, s.mean);
    var mean := Add(s.mean, Div(delta, count));
    VarianceState(s.kind, count, mean, Add(s.m2, Mul(delta, Sub(x, mean))))
  }

  /** Is `x` strictly better than the current extreme? Timestamps compare by
      instant; no comparison with NaN holds. */
  predicate Better(isMin: bool, x: Scalar, current: Scalar) {
    var order := if x.Time? && current.Time? then IntOrder(x.t.nanos, current.t.nanos)
                 else LooseOrder(x, current);
    if isMin then order < 0 else order > 0
  }

  function ExtremeStep(isMin: bool, current: Scalar, x: Scalar): Result<Scalar> {
    if x.Null? then Ok(current)
    else if current.Null? then Ok(x)
    else if TypeOfScalar(current) != TypeOfScalar(x) then Err(TypeError)
    else Ok(if Better(isMin, x, current) then x else current)
  }

  /** A map insertion: a known key adds to its count in place, a new key goes last. */
  function AddEntry(entries: seq<Entry>, e: Entry): seq<Entry> {
    if entries == [] then [e]
    else if entries[0].key == e.key then [entries[0].(count := entries[0].count + e.count)] + entries[1..]
    else [entries[0]] + AddEntry(entries[1..], e)
  }

  /** One value into one state. `key` renders a value as `typeof:String(value)`. */
  function Update(key: Scalar -> string, s: State, x: Scalar): Result<State> {
    if !IsAggregateValue(x) then Err(TypeError)
    else
      match s
      case CountState(count) => Ok(if x.Null? then s else CountState(count + 1))
      case SumState(sum) =>
        if x.Null? then Ok(s) else if x.Number? then Ok(SumState(Add(sum, x.n))) else Err(TypeError)
      case AvgState(sum, count) =>
        if x.Null? then Ok(s)
        else if x.Number? then Ok(AvgState(Add(sum, x.n), count + 1))
        else Err(TypeError)
      case VarianceState(_, _, _, _) =>
        if x.Null? then Ok(s) else if x.Number? then Ok(VarianceStep(s, x.n)) else Err(TypeError)
      case MedianState(values) =>
        if x.Null? then Ok(s)
        else if x.Number? || x.Str? then Ok(MedianState(values + [x]))
        else Err(TypeError)
      case QuantileState(q, numbers) =>
        if x.Null? then Ok(s) else if x.Number? then Ok(QuantileState(q, numbers + [x.n])) else Err(TypeError)
      case ExtremeState(isMin, value) =>
        var next :- ExtremeStep(isMin, value, x);
        Ok(ExtremeState(isMin, next))
      case DistinctState(approx, keys) => Ok(if x.Null? then s else DistinctState(approx, keys + {key(x)}))
      case ModeState(entries) => Ok(if x.Null? then s else ModeState(AddEntry(entries, Entry(key(x), x, 1))))
      case FirstState(seen, _) => Ok(if seen then s else FirstState(true, x))
      case LastState(_, _) => Ok(LastState(true, x))
      case AnyState(seen, _) => Ok(if seen then s else AnyState(true, x))
  }

  /** A state fed a list of values, left to right, stopping at the first error. */
  function RunFrom(key: Scalar -> string, s: State, xs: seq<Scalar>): Result<State>
    decreases |xs|
  {
    if xs == [] then Ok(s)
    else
      var before :- RunFrom(key, s, xs[..|xs| - 1]);
      Update(key, before, xs[|xs| - 1])
  }

  function Run(key: Scalar -> string, op: Op, xs: seq<Scalar>): Result<State> {
    RunFrom(key, Create(op), xs)
  }

  // ----- Merging -----

  /** Chan's combination of two variance states. */
  function MergeVariance(s: State, t: State): State
    requires s.VarianceState? && t.VarianceState?
  {
    if t.count == 0 then s
    else if s.count == 0 then VarianceState(s.kind, t.count, t.mean, t.m2)
    else
      var count := s.count + t.count;
      var delta := Sub(t.mean, s.mean);
      VarianceState(
        s.kind, count,
        Div(Add(Times(s.mean, s.count), Times(t.mean, t.count)), count),
        Add(s.m2, Add(t.m2, Div(Times(Mul(delta, delta), s.count * t.count), count))))
  }

  function AddEntries(entries: seq<Entry>, more: seq<Entry>): seq<Entry>
    decreases |more|
  {
    if more == [] then entries
    else AddEntry(AddEntries(entries, more[..|more| - 1]), more[|more| - 1])
  }

  predicate SameOp(s: State, t: State) {
    || OpOf(s) == OpOf(t)
    || (s.QuantileState? && t.QuantileState?)
  }

  /** `t` folded into `s`; the two must hold the same operation. */
  function Merge(s: State, t: State): Result<State> {
    if !SameOp(s, t) then Err(TypeError)
    else
      match s
      case CountState(count) => Ok(CountState(count + t.count))
      case SumState(sum) => Ok(SumState(Add(sum, t.sum)))
      case AvgState(sum, count) => Ok(AvgState(Add(sum, t.sum), count + t.count))
      case VarianceState(_, _, _, _) => Ok(MergeVariance(s, t))
      case MedianState(values) => Ok(MedianState(values + t.values))
      case QuantileState(q, numbers) => Ok(QuantileState(q, numbers + t.numbers))
      case ExtremeState(isMin, value) =>
        var next :- ExtremeStep(isMin, value, t.value);
        Ok(ExtremeState(isMin, next))
      case DistinctState(approx, keys) => Ok(DistinctState(approx, keys + t.keys))
      case ModeState(entries) => Ok(ModeState(AddEntries(entries, t.entries)))
      case FirstState(seen, _) => Ok(if !seen && t.seen then FirstState(true, t.value) else s)
      case LastState(_, _) => Ok(if t.seen then LastState(true, t.value) else s)
      case AnyState(seen, _) => Ok(if !seen && t.seen then AnyState(true, t.value) else s)
  }

  /** Merging the states of two parts, each of which may have failed. */
  function MergeRuns(a: Result<State>, b: Result<State>): Result<State> {
    var s :- a;
    var t :- b;
    Merge(s, t)
  }

  function Then(key: Scalar -> string, r: Result<State>, x: Scalar): Result<State> {
    var s :- r;
    Update(key, s, x)
  }

  // ----- Runs -----

  lemma RunFromSnoc(key: Scalar -> string, s: State, xs: seq<Scalar>, x: Scalar)
    ensures RunFrom(key, s, xs + [x]) == Then(key, RunFrom(key, s, xs), x)
  {
    assert (xs + [x])[..|xs|] == xs;
  }

  lemma UpdateKeepsOp(key: Scalar -> string, s: State, x: Scalar)
    ensures Update(key, s, x).Ok? ==> OpOf(Update(key, s, x).value) == OpOf(s)
    ensures Update(key, s, x).Err? ==> Update(key, s, x).error == TypeError
  {
  }

  /** Errors are all type errors, and the operation never changes. */
  lemma {:induction false} RunFromKeepsOp(key: Scalar -> string, s: State, xs: seq<Scalar>)
    ensures RunFrom(key, s, xs).Ok? ==> OpOf(RunFrom(key, s, xs).value) == OpOf(s)
    ensures RunFrom(key, s, xs).Err? ==> RunFrom(key, s, xs).error == TypeError
    decreases |xs|
  {
    if xs != [] {
      var before := RunFrom(key, s, xs[..|xs| - 1]);
      RunFromKeepsOp(key, s, xs[..|xs| - 1]);
      if before.Ok? {
        UpdateKeepsOp(key, before.value, xs[|xs| - 1]);
      }
    }
  }

  /** Running over a concatenation continues from where the first part stopped. */
  lemma {:induction false} RunFromAppend(key: Scalar -> string, s: State, a: seq<Scalar>, b: seq<Scalar>)
    ensures RunFrom(key, s, a + b)
         == (if RunFrom(key, s, a).Err? then RunFrom(key, s, a) else RunFrom(key, RunFrom(key, s, a).value, b))
    decreases |b|
  {
    if b == [] {
      assert a + b == a;
    } else {
      var front, x := b[..|b| - 1], b[|b| - 1];
      RunFromAppend(key, s, a, front);
      assert a + b == (a + front) + [x];
      RunFromSnoc(key, s, a + front, x);
    }
  }

  // ----- Mode entries -----

  predicate HasKey(entries: seq<Entry>, k: string) {
    exists i :: 0 <= i < |entries| && entries[i].key == k
  }

  lemma {:induction false} AddEntryHasKey(entries: seq<Entry>, e: Entry, k: string)
    ensures HasKey(AddEntry(entries, e), k) <==> HasKey(entries, k) || k == e.key
  {
    if entries == [] {
      assert AddEntry(entries, e)[0] == e;
    } else {
      var rest := entries[1..];
      var added := AddEntry(entries, e);
      HasKeySplit(entries, k);
      HasKeySplit(added, k);
      if entries[0].key == e.key {
        assert added[1..] == rest;
      } else {
        assert added[1..] == AddEntry(rest, e);
        AddEntryHasKey(rest, e, k);
      }
    }
  }

  lemma HasKeySplit(entries: seq<Entry>, k: string)
    requires entries != []
    ensures HasKey(entries, k) <==> entries[0].key == k || HasKey(entries[1..], k)
  {
    if HasKey(entries[1..], k) {
      var i :| 0 <= i < |entries[1..]| && entries[1..][i].key == k;
      assert entries[i + 1].key == k;
    }
    if HasKey(entries, k) && entries[0].key != k {
      var i :| 0 <= i < |entries| && entries[i].key == k;
      assert entries[1..][i - 1].key == k;
    }
  }

  /** A new key goes last. */
  lemma {:induction false} AddNewEntry(entries: seq<Entry>, e: Entry)
    requires !HasKey(entries, e.key)
    ensures AddEntry(entries, e) == entries + [e]
  {
    if entries != [] {
      HasKeySplit(entries, e.key);
      AddNewEntry(entries[1..], e);
    }
  }

  lemma AddEntryBeyond(entries: seq<Entry>, e: Entry)
    requires entries != [] && entries[0].key != e.key
    ensures AddEntry(entries, e) == [entries[0]] + AddEntry(entries[1..], e)
  {
  }

  /** Adding to a key already present commutes with any other addition. */
  lemma {:induction false} AddEntryCommutes(entries: seq<Entry>, e: Entry, f: Entry)
    requires HasKey(entries, e.key) && f.key != e.key
    ensures AddEntry(AddEntry(entries, f), e) == AddEntry(AddEntry(entries, e), f)
    decreases |entries|
  {
    HasKeySplit(entries, e.key);
    var head, rest := entries[0], entries[1..];
    assert [head] + rest == entries;
    hide *;
    if head.key == e.key {
      var bumped := head.(count := head.count + e.count);
      AddEntryAtHead(head, rest, e);
      AddEntryBehind(head, rest, f);
      AddEntryAtHead(head, AddEntry(rest, f), e);
      AddEntryBehind(bumped, rest, f);
    } else if head.key == f.key {
      var bumped := head.(count := head.count + f.count);
      AddEntryAtHead(head, rest, f);
      AddEntryBehind(head, rest, e);
      AddEntryAtHead(head, AddEntry(rest, e), f);
      AddEntryBehind(bumped, rest, e);
    } else {
      AddEntryCommutes(rest, e, f);
      AddEntryBehind(head, rest, f);
      AddEntryBehind(head, rest, e);
      AddEntryBehind(head, AddEntry(rest, f), e);
      AddEntryBehind(head, AddEntry(rest, e), f);
    }
  }

  lemma AddEntryAtHead(head: Entry, rest: seq<Entry>, e: Entry)
    requires head.key == e.key
    ensures AddEntry([head] + rest, e) == [head.(count := head.count + e.count)] + rest
  {
  }

  lemma AddEntryBehind(head: Entry, rest: seq<Entry>, e: Entry)
    requires head.key != e.key
    ensures AddEntry([head] + rest, e) == [head] + AddEntry(rest, e)
  {
    assert ([head] + rest)[1..] == rest;
  }

  /** Two additions of one key are one addition of both counts. */
  lemma {:induction false} AddEntryTwice(entries: seq<Entry>, e: Entry, value: Scalar, n: nat)
    ensures AddEntry(AddEntry(entries, e), Entry(e.key, value, n)) == AddEntry(entries, e.(count := e.count + n))
    decreases |entries|
  {
    if entries == [] {
      assert [e] + [] == [e];
    } else {
      var head, rest := entries[0], entries[1..];
      hide *;
      if head.key == e.key {
        var bumped := head.(count := head.count + e.count);
      } else {
        AddEntryTwice(rest, e, value, n);
        AddEntryBeyond(entries, e);
        AddEntryBeyond([head] + AddEntry(rest, e), Entry(e.key, value, n));
        AddEntryBeyond(entries, e.(count := e.count + n));
      }
    }
  }

  lemma Reassociate<T>(a: seq<T>, b: seq<T>, c: seq<T>)
    ensures (a + b) + c == a + (b + c)
  {
  }

  lemma {:induction false} AddEntryInFront(entries: seq<Entry>, last: Entry, e: Entry)
    requires HasKey(entries, e.key)
    ensures AddEntry(entries + [last], e) == AddEntry(entries, e) + [last]
    decreases |entries|
  {
    var rest, all := entries[1..], entries + [last];
    assert all[0] == entries[0] && all[1..] == rest + [last];
    HasKeySplit(entries, e.key);
    hide *;
    if entries[0].key == e.key {
      Reassociate([entries[0].(count := entries[0].count + e.count)], rest, [last]);
    } else {
      AddEntryInFront(rest, last, e);
      AddEntryBeyond(all, e);
      AddEntryBeyond(entries, e);
      Reassociate([entries[0]], AddEntry(rest, e), [last]);
    }
  }

  lemma {:induction false} AddEntryAtLast(entries: seq<Entry>, last: Entry, e: Entry)
    requires !HasKey(entries, e.key) && last.key == e.key
    ensures AddEntry(entries + [last], e) == entries + [last.(count := last.count + e.count)]
    decreases |entries|
  {
    var all := entries + [last];
    if entries == [] {
      assert all[1..] == [];
    } else {
      HasKeySplit(entries, e.key);
      assert all[0] == entries[0] && all[1..] == entries[1..] + [last];
      AddEntryAtLast(entries[1..], last, e);
      var bumped := last.(count := last.count + e.count);
      assert [entries[0]] + (entries[1..] + [bumped]) == entries + [bumped];
    }
  }

  lemma AddEntriesSnoc(entries: seq<Entry>, more: seq<Entry>, e: Entry)
    ensures AddEntries(entries, more + [e]) == AddEntry(AddEntries(entries, more), e)
  {
    assert (more + [e])[..|more|] == more;
  }

  lemma {:induction false} AddEntriesHasKey(entries: seq<Entry>, more: seq<Entry>, k: string)
    requires HasKey(more, k)
    ensures HasKey(AddEntries(entries, more), k)
    decreases |more|
  {
    var front, last := more[..|more| - 1], more[|more| - 1];
    AddEntryHasKey(AddEntries(entries, front), last, k);
    if last.key != k {
      var i :| 0 <= i < |more| && more[i].key == k;
      assert front[i].key == k;
      AddEntriesHasKey(entries, front, k);
    }
  }

  /** Adding to the merged-in part first, or to the merge, is the same. */
  lemma {:induction false} AddEntriesThenAdd(entries: seq<Entry>, more: seq<Entry>, e: Entry)
    ensures AddEntries(entries, AddEntry(more, e)) == AddEntry(AddEntries(entries, more), e)
    decreases |more|, 0
  {
    if !HasKey(more, e.key) {
      AddNewEntry(more, e);
      AddEntriesSnoc(entries, more, e);
    } else {
      var front, last := more[..|more| - 1], more[|more| - 1];
      assert more == front + [last];
      if HasKey(front, e.key) {
        AddEntriesInFront(entries, front, last, e);
      } else {
        assert last.key == e.key;
        AddEntryAtLast(front, last, e);
        AddEntriesSnoc(entries, front, last.(count := last.count + e.count));
        AddEntryTwice(AddEntries(entries, front), last, e.value, e.count);
      }
    }
  }

  lemma {:induction false} AddEntriesInFront(entries: seq<Entry>, front: seq<Entry>, last: Entry, e: Entry)
    requires HasKey(front, e.key)
    ensures AddEntries(entries, AddEntry(front + [last], e)) == AddEntry(AddEntries(entries, front + [last]), e)
    decreases |front|, 1
  {
    hide *;
    AddEntryInFront(front, last, e);
    AddEntriesSnoc(entries, AddEntry(front, e), last);
    AddEntriesSnoc(entries, front, last);
    AddEntriesThenAdd(entries, front, e);
    var merged := AddEntries(entries, front);
    AddEntriesHasKey(entries, front, e.key);
    if last.key != e.key {
      AddEntryCommutes(merged, e, last);
    } else {
      AddEntryTwice(merged, e, last.value, last.count);
      AddEntryTwice(merged, last, e.value, e.count);
      SameKeyAdds(merged, e, last);
    }
  }

  /** With a key present, only the amount added to it matters. */
  lemma {:induction false} SameKeyAdds(entries: seq<Entry>, e: Entry, f: Entry)
    requires HasKey(entries, e.key) && e.key == f.key
    ensures AddEntry(entries, e.(count := e.count + f.count)) == AddEntry(entries, f.(count := f.count + e.count))
  {
    HasKeySplit(entries, e.key);
    if entries[0].key != e.key {
      SameKeyAdds(entries[1..], e, f);
    }
  }
}
