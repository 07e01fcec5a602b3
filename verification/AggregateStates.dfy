/** Aggregate states updated in place under a budget; `View` is the state as a
    value, and every method is proved against it. */
module AggregateStates {
  import opened Scalars
  import opened Aggregates

  /** An absent limit is `None`. */
  datatype Budget = Budget(maxBufferedRows: Option<nat>, maxMemoryBytes: Option<nat>)

  const UNMEASURED: nat := 0

  // ----- The size of a buffered list -----

  function ItemBytes<T>(size: T -> nat, items: seq<T>): nat {
    if items == [] then 0 else ItemBytes(size, items[..|items| - 1]) + size(items[|items| - 1])
  }

  /** UTF-8 bytes of the list as JSON: brackets, items, and commas between items. */
  function ListBytes<T>(size: T -> nat, items: seq<T>): nat {
    2 + ItemBytes(size, items) + if items == [] then 0 else |items| - 1
  }

  function BytesAfterAppend(listBytes: nat, itemsBefore: nat, itemBytes: nat): nat {
    if itemsBefore == 0 then 2 + itemBytes else listBytes + 1 + itemBytes
  }

  method MeasureList<T>(size: T -> nat, items: seq<T>) returns (bytes: nat)
    ensures bytes == ListBytes(size, items)
  {
    bytes := 2;
    for n := 0 to |items|
      invariant bytes == 2 + ItemBytes(size, items[..n])
    {
      assert items[..n + 1][..n] == items[..n];
      bytes := bytes + size(items[n]);
    }
    assert items[..|items|] == items;
    if |items| > 0 {
      bytes := bytes + |items| - 1;
    }
  }

  /** Adding one item to a measured size gives the size of the longer list. */
  lemma AppendIsExact<T>(size: T -> nat, items: seq<T>, item: T)
    ensures BytesAfterAppend(ListBytes(size, items), |items|, size(item)) == ListBytes(size, items + [item])
  {
    assert (items + [item])[..|items|] == items;
  }

  /** Even the empty list is longer than the unmeasured mark. */
  predicate Exact<T>(size: T -> nat, items: seq<T>, memoryBytes: nat) {
    memoryBytes == UNMEASURED || memoryBytes == ListBytes(size, items)
  }

  lemma ExactWhen<T>(size: T -> nat, items: seq<T>, memoryBytes: nat)
    requires memoryBytes == UNMEASURED || memoryBytes == ListBytes(size, items)
    ensures Exact(size, items, memoryBytes)
  {
  }

  predicate Within<T>(size: T -> nat, items: seq<T>, budget: Budget) {
    && (budget.maxBufferedRows.Some? ==> |items| <= budget.maxBufferedRows.value)
    && (budget.maxMemoryBytes.Some? ==> ListBytes(size, items) <= budget.maxMemoryBytes.value)
  }

  function Numbers(ns: seq<Num>): (s: seq<Scalar>)
    ensures |s| == |ns| && forall i :: 0 <= i < |s| ==> s[i] == Number(ns[i])
  {
    seq(|ns|, i requires 0 <= i < |ns| => Number(ns[i]))
  }

  function Keys(entries: seq<Entry>): (s: seq<Scalar>)
    ensures |s| == |entries| && forall i :: 0 <= i < |s| ==> s[i] == Str(entries[i].key)
  {
    seq(|entries|, i requires 0 <= i < |entries| => Str(entries[i].key))
  }

  lemma {:induction false} AddEntryKeys(entries: seq<Entry>, e: Entry)
    ensures HasKey(entries, e.key) ==> Keys(AddEntry(entries, e)) == Keys(entries)
    ensures !HasKey(entries, e.key) ==> Keys(AddEntry(entries, e)) == Keys(entries) + [Str(e.key)]
    ensures |AddEntry(entries, e)| == |entries| + if HasKey(entries, e.key) then 0 else 1
    decreases |entries|
  {
    if !HasKey(entries, e.key) {
      AddNewEntry(entries, e);
    } else {
      HasKeySplit(entries, e.key);
      if entries[0].key != e.key {
        AddEntryKeys(entries[1..], e);
        var added := AddEntry(entries, e);
        forall i | 0 <= i < |entries| ensures added[i].key == entries[i].key {
          if i > 0 {
            assert Keys(AddEntry(entries[1..], e))[i - 1] == Keys(entries[1..])[i - 1];
          }
        }
      }
    }
  }

  /** What the state buffers: median values, quantile numbers, mode keys. */
  function Buffered(s: State): seq<Scalar> {
    match s
    case MedianState(values) => values
    case QuantileState(_, numbers) => Numbers(numbers)
    case ModeState(entries) => Keys(entries)
    case _ => []
  }

  predicate Buffers(op: Op) {
    op.Median? || op.Quantile? || op.Mode?
  }

  class AggregateState {
    const op: Op
    const key: Scalar -> string
    const size: Scalar -> nat
    var count: nat
    var sum: Num
    var mean: Num
    var m2: Num
    var values: seq<Scalar>
    var numbers: seq<Num>
    var value: Scalar
    var seen: bool
    var entries: seq<Entry>
    var memoryBytes: nat

    function View(): (s: State)
      reads this
      requires !op.Distinct?
      ensures OpOf(s) == op
    {
      match op
      case Count => CountState(count)
      case Sum => SumState(sum)
      case Avg => AvgState(sum, count)
      case Variance(kind) => VarianceState(kind, count, mean, m2)
      case Median => MedianState(values)
      case Quantile(q) => QuantileState(q, numbers)
      case Extreme(isMin) => ExtremeState(isMin, value)
      case Mode => ModeState(entries)
      case First => FirstState(seen, value)
      case Last => LastState(seen, value)
      case AnyValue => AnyState(seen, value)
    }

    /** The carried size is unmeasured or exactly the size of the buffered list. */
    ghost predicate Valid()
      reads this
      ensures Valid() ==> !op.Distinct?
    {
      !op.Distinct? && (Buffers(op) ==> Exact(size, Buffered(View()), memoryBytes))
    }

    constructor (op: Op, key: Scalar -> string, size: Scalar -> nat)
      requires !op.Distinct?
      ensures Valid() && View() == Create(op)
      ensures this.op == op && this.key == key && this.size == size
    {
      this.op, this.key, this.size := op, key, size;
      count, sum, mean, m2 := 0, Fin(0.0), Fin(0.0), Fin(0.0);
      values, numbers, value, seen, entries := [], [], Null, false, [];
      memoryBytes := 0;
    }

    /** Measures the list if a memory limit is set and it has not been measured. */
    method MeasureBuffered(budget: Budget)
      requires Valid() && Buffers(op)
      modifies this`memoryBytes
      ensures Valid() && View() == old(View())
      ensures budget.maxMemoryBytes.Some? ==> memoryBytes == ListBytes(size, Buffered(View()))
      ensures budget.maxMemoryBytes.None? ==> memoryBytes == old(memoryBytes)
    {
      if budget.maxMemoryBytes.Some? && memoryBytes == UNMEASURED {
        memoryBytes := MeasureList(size, Buffered(View()));
      }
    }

    /** Throws exactly when the true length or size is over its limit. */
    method EnforceBudget(budget: Budget) returns (r: Result<()>)
      requires Valid() && Buffers(op)
      modifies this`memoryBytes
      ensures Valid() && View() == old(View())
      ensures r == if Within(size, Buffered(View()), budget) then Ok(()) else Err(BudgetExceeded)
    {
      MeasureBuffered(budget);
      if budget.maxBufferedRows.Some? && |Buffered(View())| > budget.maxBufferedRows.value {
        return Err(BudgetExceeded);
      }
      if budget.maxMemoryBytes.Some? && memoryBytes > budget.maxMemoryBytes.value {
        return Err(BudgetExceeded);
      }
      return Ok(());
    }

    method AddMedianValue(x: Scalar, budget: Budget) returns (r: Result<()>)
      requires Valid() && op.Median?
      modifies this
      ensures Valid() && View() == MedianState(old(values) + [x])
      ensures r == if Within(size, Buffered(View()), budget) then Ok(()) else Err(BudgetExceeded)
    {
      MeasureBuffered(budget);
      AppendIsExact(size, values, x);
      memoryBytes := if budget.maxMemoryBytes.None? then UNMEASURED
                     else BytesAfterAppend(memoryBytes, |values|, size(x));
      values := values + [x];
      r := EnforceBudget(budget);
    }

    method AddQuantileValue(n: Num, budget: Budget) returns (r: Result<()>)
      requires Valid() && op.Quantile?
      modifies this
      ensures Valid() && View() == QuantileState(op.q, old(numbers) + [n])
      ensures r == if Within(size, Buffered(View()), budget) then Ok(()) else Err(BudgetExceeded)
    {
      MeasureBuffered(budget);
      AppendIsExact(size, Numbers(numbers), Number(n));
      assert Numbers(numbers + [n]) == Numbers(numbers) + [Number(n)];
      memoryBytes := if budget.maxMemoryBytes.None? then UNMEASURED
                     else BytesAfterAppend(memoryBytes, |numbers|, size(Number(n)));
      numbers := numbers + [n];
      r := EnforceBudget(budget);
    }

    lemma ModeFacts()
      requires op.Mode?
      ensures Buffers(op) && View() == ModeState(entries) && Buffered(View()) == Keys(entries)
      ensures Valid() <==> Exact(size, Keys(entries), memoryBytes)
    {
    }

    method AddModeEntry(e: Entry, budget: Budget) returns (r: Result<()>)
      requires Valid() && op.Mode?
      modifies this
      ensures Valid() && View() == ModeState(AddEntry(old(entries), e))
      ensures r == if Within(size, Buffered(View()), budget) then Ok(()) else Err(BudgetExceeded)
    {
      hide *;
      ModeFacts();
      MeasureBuffered(budget);
      ModeFacts();
      var before := |entries|;
      AddEntryKeys(entries, e);
      AppendIsExact(size, Keys(entries), Str(e.key));
      entries := AddEntry(entries, e);
      if |entries| > before {
        memoryBytes := if budget.maxMemoryBytes.None? then UNMEASURED
                       else BytesAfterAppend(memoryBytes, before, size(Str(e.key)));
        ExactWhen(size, Keys(entries), memoryBytes);
      }
      ModeFacts();
      r := EnforceBudget(budget);
    }

    method UpdateExtreme(x: Scalar) returns (r: Result<()>)
      requires Valid() && op.Extreme?
      modifies this`value
      ensures Valid()
      ensures match ExtremeStep(op.isMin, old(value), x)
              case Ok(next) => r == Ok(()) && value == next
              case Err(e) => r == Err(e) && value == old(value)
    {
      if x.Null? {
        return Ok(());
      }
      if value.Null? {
        value := x;
        return Ok(());
      }
      if TypeOfScalar(value) != TypeOfScalar(x) {
        return Err(TypeError);
      }
      if Better(op.isMin, x, value) {
        value := x;
      }
      return Ok(());
    }

    method UpdateVariance(n: Num)
      requires Valid() && op.Variance?
      modifies this`count, this`mean, this`m2
      ensures Valid() && View() == VarianceStep(old(View()), n)
    {
      count := count + 1;
      var delta := Sub(n, mean);
      mean := Add(mean, Div(delta, count));
      m2 := Add(m2, Mul(delta, Sub(n, mean)));
    }

    method MergeVarianceFrom(source: AggregateState)
      requires Valid() && op.Variance? && source.Valid() && source.op == op && source != this
      modifies this`count, this`mean, this`m2
      ensures Valid() && View() == MergeVariance(old(View()), source.View())
    {
      if source.count == 0 {
        return;
      }
      if count == 0 {
        count, mean, m2 := source.count, source.mean, source.m2;
        return;
      }
      var total := count + source.count;
      var delta := Sub(source.mean, mean);
      mean := Div(Add(Times(mean, count), Times(source.mean, source.count)), total);
      m2 := Add(m2, Add(source.m2, Div(Times(Mul(delta, delta), count * source.count), total)));
      count := total;
    }

    /** One value: the state becomes what `Update` says; a budget error is thrown
        after the value has been taken in, exactly when the buffered list is over
        a limit. A type error leaves everything as it was. */
    method UpdateValue(x: Scalar, budget: Budget) returns (r: Result<()>)
      requires Valid()
      modifies this
      ensures Valid()
      ensures match Update(key, old(View()), x)
              case Err(e) => r == Err(e) && View() == old(View())
              case Ok(s) =>
                && View() == s
                && r == if !Buffers(op) || x.Null? || Within(size, Buffered(s), budget) then Ok(())
                        else Err(BudgetExceeded)
    {
      hide ListBytes;
      if !IsAggregateValue(x) {
        return Err(TypeError);
      }
      r := Ok(());
      match op {
        case Count =>
          if !x.Null? { count := count + 1; }
        case Sum =>
          if x.Null? { return; }
          if !x.Number? { return Err(TypeError); }
          sum := Add(sum, x.n);
        case Avg =>
          if x.Null? { return; }
          if !x.Number? { return Err(TypeError); }
          sum, count := Add(sum, x.n), count + 1;
        case Variance(_) =>
          if x.Null? { return; }
          if !x.Number? { return Err(TypeError); }
          UpdateVariance(x.n);
        case Median =>
          if x.Null? { return; }
          if !x.Number? && !x.Str? { return Err(TypeError); }
          r := AddMedianValue(x, budget);
        case Quantile(_) =>
          if x.Null? { return; }
          if !x.Number? { return Err(TypeError); }
          r := AddQuantileValue(x.n, budget);
        case Extreme(_) =>
          r := UpdateExtreme(x);
        case Mode =>
          if x.Null? { return; }
          r := AddModeEntry(Entry(key(x), x, 1), budget);
        case First =>
          if !seen { value, seen := x, true; }
        case Last =>
          value, seen := x, true;
        case AnyValue =>
          if !seen { value, seen := x, true; }
      }
    }

    /** Feeds the source's buffered values one by one; a budget error stops part way. */
    method MergeMedian(more: seq<Scalar>, budget: Budget) returns (r: Result<()>)
      requires Valid() && op.Median?
      modifies this
      ensures Valid()
      ensures r.Ok? ==> View() == MedianState(old(values) + more)
      ensures r.Err? ==> r == Err(BudgetExceeded) && !Within(size, Buffered(View()), budget)
      ensures more != [] && r.Ok? ==> Within(size, Buffered(View()), budget)
    {
      hide Within, Exact, Buffered;
      for n := 0 to |more|
        invariant Valid() && View() == MedianState(old(values) + more[..n])
        invariant n > 0 ==> Within(size, Buffered(View()), budget)
      {
        r := AddMedianValue(more[n], budget);
        assert old(values) + more[..n + 1] == (old(values) + more[..n]) + [more[n]];
        if r.Err? {
          return;
        }
      }
      assert more[..|more|] == more;
      r := Ok(());
    }

    method MergeQuantile(more: seq<Num>, budget: Budget) returns (r: Result<()>)
      requires Valid() && op.Quantile?
      modifies this
      ensures Valid()
      ensures r.Ok? ==> View() == QuantileState(op.q, old(numbers) + more)
      ensures r.Err? ==> r == Err(BudgetExceeded) && !Within(size, Buffered(View()), budget)
      ensures more != [] && r.Ok? ==> Within(size, Buffered(View()), budget)
    {
      hide Within, Exact, Buffered;
      for n := 0 to |more|
        invariant Valid() && View() == QuantileState(op.q, old(numbers) + more[..n])
        invariant n > 0 ==> Within(size, Buffered(View()), budget)
      {
        r := AddQuantileValue(more[n], budget);
        assert old(numbers) + more[..n + 1] == (old(numbers) + more[..n]) + [more[n]];
        if r.Err? {
          return;
        }
      }
      assert more[..|more|] == more;
      r := Ok(());
    }

    method MergeMode(more: seq<Entry>, budget: Budget) returns (r: Result<()>)
      requires Valid() && op.Mode?
      modifies this
      ensures Valid()
      ensures r.Ok? ==> View() == ModeState(AddEntries(old(entries), more))
      ensures r.Err? ==> r == Err(BudgetExceeded) && !Within(size, Buffered(View()), budget)
      ensures more != [] && r.Ok? ==> Within(size, Buffered(View()), budget)
    {
      assert more[..0] == [] && AddEntries(entries, []) == entries;
      hide *;
      ModeFacts();
      for n := 0 to |more|
        invariant Valid() && View() == ModeState(AddEntries(old(entries), more[..n]))
        invariant n > 0 ==> Within(size, Buffered(View()), budget)
      {
        ModeFacts();
        r := AddModeEntry(more[n], budget);
        AddEntriesSnoc(old(entries), more[..n], more[n]);
        assert more[..n + 1] == more[..n] + [more[n]];
        if r.Err? {
          return;
        }
      }
      assert more[..|more|] == more;
      r := Ok(());
    }

    /** Folds `source` into this state: what `Merge` says, unless a limit is
        crossed on the way; the source is left alone. */
    method MergeFrom(source: AggregateState, budget: Budget) returns (r: Result<()>)
      requires Valid() && source.Valid() && source != this
      modifies this
      ensures Valid()
      ensures r.Ok? ==> Merge(old(View()), source.View()) == Ok(View())
      ensures r == Err(TypeError) <==> Merge(old(View()), source.View()).Err?
      ensures r == Err(TypeError) ==> View() == old(View())
      ensures r.Err? && r.error != TypeError ==>
                r == Err(BudgetExceeded) && Buffers(op) && !Within(size, Buffered(View()), budget)
      ensures r.Ok? && Buffered(source.View()) != [] ==> Within(size, Buffered(View()), budget)
    {
      if op != source.op && !(op.Quantile? && source.op.Quantile?) {
        return Err(TypeError);
      }
      r := Ok(());
      match op {
        case Count =>
          count := count + source.count;
        case Sum =>
          sum := Add(sum, source.sum);
        case Avg =>
          sum, count := Add(sum, source.sum), count + source.count;
        case Variance(_) =>
          MergeVarianceFrom(source);
        case Median =>
          r := MergeMedian(source.values, budget);
        case Quantile(_) =>
          r := MergeQuantile(source.numbers, budget);
        case Extreme(_) =>
          r := UpdateExtreme(source.value);
        case Mode =>
          r := MergeMode(source.entries, budget);
        case First =>
          if !seen && source.seen { value, seen := source.value, true; }
        case Last =>
          if source.seen { value, seen := source.value, true; }
        case AnyValue =>
          if !seen && source.seen { value, seen := source.value, true; }
      }
    }

    /** A copy that shares nothing with the original and carries its measured size. */
    method Clone() returns (copy: AggregateState)
      requires Valid()
      ensures fresh(copy) && copy.Valid() && copy.View() == View()
      ensures copy.op == op && copy.key == key && copy.size == size && copy.memoryBytes == memoryBytes
    {
      hide *;
      copy := new AggregateState(op, key, size);
      copy.count, copy.sum, copy.mean, copy.m2 := count, sum, mean, m2;
      copy.values, copy.numbers, copy.value, copy.seen, copy.entries := values, numbers, value, seen, entries;
      copy.memoryBytes := memoryBytes;
      SameFields(copy);
    }

    lemma SameFields(other: AggregateState)
      requires other.op == op && other.size == size && !op.Distinct?
      requires other.count == count && other.sum == sum && other.mean == mean && other.m2 == m2
      requires other.values == values && other.numbers == numbers && other.value == value
      requires other.seen == seen && other.entries == entries && other.memoryBytes == memoryBytes
      ensures other.View() == View() && (other.Valid() <==> Valid())
    {
      hide Buffered, Exact, Buffers;
    }

    /** The shortcut for `count(*)`: as if every selected row had contributed `true`. */
    method CountRows(rowCount: nat, selection: Option<seq<nat>>)
      requires Valid() && op.Count?
      requires selection.Some? ==> |selection.value| == rowCount
      modifies this
      ensures Valid()
      ensures RunFrom(key, old(View()), Selected(Trues(rowCount), selection)) == Ok(View())
    {
      var selected := SelectedRowCount(rowCount, selection);
      CountOfTrues(key, count, Trues(rowCount), selection, rowCount);
      count := count + selected;
    }

    /** The rows of one batch: `values[i]` is what row `i` contributes, and a row
        takes part when there is no selection or its entry is 1. An error leaves
        the state of the rows before it, with a budget error that row included.
        A batch that returns is within the budget, one that does not is over it. */
    method UpdateRows(values: seq<Scalar>, selection: Option<seq<nat>>, budget: Budget) returns (r: Result<()>)
      requires Valid()
      requires selection.Some? ==> |selection.value| == |values|
      modifies this
      ensures Valid()
      ensures r.Ok? ==> RunFrom(key, old(View()), Selected(values, selection)) == Ok(View())
      ensures r.Err? && r != Err(BudgetExceeded) ==>
        RunFrom(key, old(View()), Selected(values, selection)) == Err(r.error)
      ensures r.Err? ==>
        exists n: nat :: n <= |values| && RunFrom(key, old(View()), SelectedUpTo(values, selection, n)) == Ok(View())
      ensures r.Ok? ==> BudgetKept(size, View(), Selected(values, selection), budget)
      ensures r == Err(BudgetExceeded) ==> Buffers(op) && !Within(size, Buffered(View()), budget)
    {
      hide *;
      r := Ok(());
      var n := 0;
      NothingSelected(key, View(), values, selection);
      NothingBuffered(size, View(), values, selection, budget);
      while n < |values|
        invariant n <= |values| && Valid() && r == Ok(())
        invariant RunFrom(key, old(View()), SelectedUpTo(values, selection, n)) == Ok(View())
        invariant BudgetKept(size, View(), SelectedUpTo(values, selection, n), budget)
      {
        RowTaken(key, old(View()), values, selection, n);
        RowWithin(key, size, View(), values, selection, n, budget);
        if selection.None? || selection.value[n] == 1 {
          ghost var before := View();
          r := UpdateValue(values[n], budget);
          if r.Err? {
            if Update(key, before, values[n]).Err? {
              assert RunFrom(key, old(View()), SelectedUpTo(values, selection, n)) == Ok(View());
            } else {
              assert RunFrom(key, old(View()), SelectedUpTo(values, selection, n + 1)) == Ok(View());
            }
            if r != Err(BudgetExceeded) {
              FailureStops(key, old(View()), values, selection, n + 1);
            } else {
              NoBudgetError(key, before, values[n]);
            }
            return;
          }
        }
        n := n + 1;
      }
    }
  }

  /** Once a value that is not null was buffered, the list is within the budget. */
  ghost predicate BudgetKept(size: Scalar -> nat, s: State, xs: seq<Scalar>, budget: Budget) {
    Buffers(OpOf(s)) && (exists x :: x in xs && !x.Null?) ==> Within(size, Buffered(s), budget)
  }

  lemma NothingBuffered(
    size: Scalar -> nat, s: State, values: seq<Scalar>, selection: Option<seq<nat>>, budget: Budget)
    requires selection.Some? ==> |selection.value| == |values|
    ensures BudgetKept(size, s, SelectedUpTo(values, selection, 0), budget)
  {
  }

  /** Nulls buffer nothing, and any other value is checked. */
  lemma RowWithin(
    key: Scalar -> string, size: Scalar -> nat, s: State, values: seq<Scalar>, selection: Option<seq<nat>>, n: nat,
    budget: Budget)
    requires n < |values|
    requires selection.Some? ==> |selection.value| == |values|
    requires BudgetKept(size, s, SelectedUpTo(values, selection, n), budget)
    ensures selection.Some? && selection.value[n] != 1 ==>
      BudgetKept(size, s, SelectedUpTo(values, selection, n + 1), budget)
    ensures selection.None? || selection.value[n] == 1 ==>
      match Update(key, s, values[n])
      case Err(_) => true
      case Ok(next) =>
        !Buffers(OpOf(s)) || values[n].Null? || Within(size, Buffered(next), budget) ==>
          BudgetKept(size, next, SelectedUpTo(values, selection, n + 1), budget)
  {
    if (selection.None? || selection.value[n] == 1) && Update(key, s, values[n]).Ok? {
      NullBuffersNothing(key, s, values[n]);
    }
    hide Within, Update, Buffers, Buffered, OpOf;
  }

  lemma NullBuffersNothing(key: Scalar -> string, s: State, x: Scalar)
    requires Update(key, s, x).Ok?
    ensures OpOf(Update(key, s, x).value) == OpOf(s)
    ensures Buffers(OpOf(s)) && x.Null? ==> Update(key, s, x) == Ok(s)
  {
  }

  lemma NoBudgetError(key: Scalar -> string, s: State, x: Scalar)
    ensures Update(key, s, x) != Err(BudgetExceeded)
  {
  }

  function Trues(n: nat): (s: seq<Scalar>)
    ensures |s| == n && forall i :: 0 <= i < n ==> s[i] == Bool(true)
  {
    seq(n, _ => Bool(true))
  }

  method SelectedRowCount(rowCount: nat, selection: Option<seq<nat>>) returns (n: nat)
    requires selection.Some? ==> |selection.value| == rowCount
    ensures n == |Selected(Trues(rowCount), selection)|
  {
    if selection.None? {
      AllSelected(Trues(rowCount), rowCount);
      return rowCount;
    }
    n := 0;
    for i := 0 to rowCount
      invariant n == |SelectedUpTo(Trues(rowCount), selection, i)|
    {
      if selection.value[i] == 1 {
        n := n + 1;
      }
    }
  }

  lemma {:induction false} AllSelected(values: seq<Scalar>, n: nat)
    requires n <= |values|
    ensures |SelectedUpTo(values, None, n)| == n
  {
    if n > 0 {
      AllSelected(values, n - 1);
    }
  }

  lemma {:induction false} CountOfTrues(
    key: Scalar -> string, count: nat, values: seq<Scalar>, selection: Option<seq<nat>>, n: nat)
    requires n <= |values| && forall i :: 0 <= i < |values| ==> values[i] == Bool(true)
    requires selection.Some? ==> |selection.value| == |values|
    ensures RunFrom(key, CountState(count), SelectedUpTo(values, selection, n))
         == Ok(CountState(count + |SelectedUpTo(values, selection, n)|))
  {
    hide RunFrom;
    if n == 0 {
      NothingSelected(key, CountState(count), values, selection);
    } else {
      CountOfTrues(key, count, values, selection, n - 1);
      RowTaken(key, CountState(count), values, selection, n - 1);
    }
  }

  function SelectedUpTo(values: seq<Scalar>, selection: Option<seq<nat>>, n: nat): seq<Scalar>
    requires n <= |values|
    requires selection.Some? ==> |selection.value| == |values|
  {
    if n == 0 then []
    else if selection.None? || selection.value[n - 1] == 1 then SelectedUpTo(values, selection, n - 1) + [values[n - 1]]
    else SelectedUpTo(values, selection, n - 1)
  }

  function SelectedFrom(values: seq<Scalar>, selection: Option<seq<nat>>, n: nat): seq<Scalar>
    requires n <= |values|
    requires selection.Some? ==> |selection.value| == |values|
    decreases |values| - n
  {
    if n == |values| then []
    else if selection.None? || selection.value[n] == 1 then [values[n]] + SelectedFrom(values, selection, n + 1)
    else SelectedFrom(values, selection, n + 1)
  }

  /** The values of the selected rows, in row order. */
  function Selected(values: seq<Scalar>, selection: Option<seq<nat>>): seq<Scalar>
    requires selection.Some? ==> |selection.value| == |values|
  {
    SelectedUpTo(values, selection, |values|)
  }

  lemma {:induction false} SelectedSplit(values: seq<Scalar>, selection: Option<seq<nat>>, n: nat)
    requires n <= |values|
    requires selection.Some? ==> |selection.value| == |values|
    ensures Selected(values, selection) == SelectedUpTo(values, selection, n) + SelectedFrom(values, selection, n)
    decreases |values| - n
  {
    if n < |values| {
      SelectedSplit(values, selection, n + 1);
    }
  }

  lemma NothingSelected(key: Scalar -> string, s: State, values: seq<Scalar>, selection: Option<seq<nat>>)
    requires selection.Some? ==> |selection.value| == |values|
    ensures RunFrom(key, s, SelectedUpTo(values, selection, 0)) == Ok(s)
    ensures Selected(values, selection) == SelectedUpTo(values, selection, |values|)
  {
  }

  lemma RowTaken(key: Scalar -> string, s: State, values: seq<Scalar>, selection: Option<seq<nat>>, n: nat)
    requires n < |values|
    requires selection.Some? ==> |selection.value| == |values|
    requires RunFrom(key, s, SelectedUpTo(values, selection, n)).Ok?
    ensures RunFrom(key, s, SelectedUpTo(values, selection, n + 1))
         == (var before := RunFrom(key, s, SelectedUpTo(values, selection, n));
             if selection.None? || selection.value[n] == 1 then Update(key, before.value, values[n]) else before)
  {
    RunFromSnoc(key, s, SelectedUpTo(values, selection, n), values[n]);
  }

  lemma FailureStops(key: Scalar -> string, s: State, values: seq<Scalar>, selection: Option<seq<nat>>, n: nat)
    requires n <= |values|
    requires selection.Some? ==> |selection.value| == |values|
    requires RunFrom(key, s, SelectedUpTo(values, selection, n)).Err?
    ensures RunFrom(key, s, Selected(values, selection)) == RunFrom(key, s, SelectedUpTo(values, selection, n))
  {
    SelectedSplit(values, selection, n);
    RunFromAppend(key, s, SelectedUpTo(values, selection, n), SelectedFrom(values, selection, n));
  }
}
