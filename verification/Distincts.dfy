/** The distinct-count state: one set of keys held as an insertion-ordered set,
    as a sorted list or as sorted runs, whichever the sampling thresholds pick.
    Every operation is proved against the set it denotes. */
module Distincts {
  import opened Scalars
  import opened Orders
  import opened SortedRuns
  import opened Aggregates
  import opened AggregateStates

  const SORTED_RUN_MERGE_MIN_VALUES: nat := 1024
  const SORTED_RUN_SAMPLE_VALUES: nat := 1024

  const STRING_PREFIX: string := "string:"

  lemma KnownKey(values: seq<string>, key: string)
    requires key in values
    ensures key in SetOf(values) && SetOf(values) + {key} == SetOf(values)
  {
  }

  lemma NewKey(values: seq<string>, key: string)
    requires key !in values
    ensures key !in SetOf(values) && AddKey(values, key) == values + [key]
  {
  }

  function Prefixed(values: seq<string>): (s: seq<string>)
    ensures |s| == |values| && forall i :: 0 <= i < |s| ==> s[i] == STRING_PREFIX + values[i]
  {
    seq(|values|, i requires 0 <= i < |values| => STRING_PREFIX + values[i])
  }

  lemma {:induction false} PrefixKeepsOrder(prefix: string, a: string, b: string)
    ensures LexOrder(prefix + a, prefix + b) == LexOrder(a, b)
  {
    if prefix == [] {
      assert prefix + a == a && prefix + b == b;
    } else {
      PrefixKeepsOrder(prefix[1..], a, b);
      assert (prefix + a)[1..] == prefix[1..] + a && (prefix + b)[1..] == prefix[1..] + b;
    }
  }

  /** Does at least half of the sampled prefix consist of different strings? */
  method HasHighCardinalitySample(values: seq<string>) returns (high: bool)
    requires values != []
    ensures var n := if |values| < SORTED_RUN_SAMPLE_VALUES then |values| else SORTED_RUN_SAMPLE_VALUES;
            high <==> 2 * |SetOf(values[..n])| >= n
  {
    var n := if |values| < SORTED_RUN_SAMPLE_VALUES then |values| else SORTED_RUN_SAMPLE_VALUES;
    var sample: set<string> := {};
    for i := 0 to n
      invariant sample == SetOf(values[..i])
    {
      assert values[..i + 1] == values[..i] + [values[i]];
      SetOfSnoc(values[..i], values[i]);
      sample := sample + {values[i]};
    }
    high := 2 * |sample| >= n;
  }

  /** The strings sorted, without repetitions, each with its type prefix. */
  method PrefixedSortedUnique(values: seq<string>) returns (run: seq<string>)
    ensures run == Listing(SetOf(Prefixed(values)))
  {
    hide *;
    var sorted := Sort(KeyCmp(), values);
    SortedStrings(values);
    run := [];
    var previous: Option<string> := None;
    PrefixedNone();
    for n := 0 to |sorted|
      invariant PrefixedRun(run, sorted, n, previous)
    {
      PrefixedStep(run, sorted, n, previous);
      if previous != Some(sorted[n]) {
        run := run + [STRING_PREFIX + sorted[n]];
        previous := Some(sorted[n]);
      }
    }
    PrefixedDone(run, sorted, previous);
    ListingIs(run);
  }

  lemma SortedStrings(values: seq<string>)
    ensures Sorted(KeyCmp(), Sort(KeyCmp(), values))
    ensures SetOf(Prefixed(Sort(KeyCmp(), values))) == SetOf(Prefixed(values))
  {
    KeyCmpPreorder();
    SortSorted(KeyCmp(), values);
    SortContents(KeyCmp(), values);
    SamePrefixedSet(values, Sort(KeyCmp(), values));
  }

  ghost predicate PrefixedRun(run: seq<string>, sorted: seq<string>, n: nat, previous: Option<string>) {
    && n <= |sorted|
    && StrictlyAscending(run) && SetOf(run) == SetOf(Prefixed(sorted[..n]))
    && (n == 0 ==> run == [] && previous.None?)
    && (n > 0 ==> previous == Some(sorted[n - 1]) && run != [] && run[|run| - 1] == STRING_PREFIX + sorted[n - 1])
  }

  lemma PrefixedNone()
    ensures forall sorted :: PrefixedRun([], sorted, 0, None)
  {
  }

  lemma PrefixedSnoc(values: seq<string>, x: string)
    ensures Prefixed(values + [x]) == Prefixed(values) + [STRING_PREFIX + x]
  {
  }

  lemma PrefixedStep(run: seq<string>, sorted: seq<string>, n: nat, previous: Option<string>)
    requires Sorted(KeyCmp(), sorted) && PrefixedRun(run, sorted, n, previous) && n < |sorted|
    ensures PrefixedRun(if previous == Some(sorted[n]) then run else run + [STRING_PREFIX + sorted[n]],
                        sorted, n + 1, Some(sorted[n]))
  {
    var x := STRING_PREFIX + sorted[n];
    assert sorted[..n + 1] == sorted[..n] + [sorted[n]];
    PrefixedSnoc(sorted[..n], sorted[n]);
    SetOfSnoc(Prefixed(sorted[..n]), x);
    SetOfSnoc(run, x);
    if n > 0 {
      assert KeyCmp()(sorted[n - 1], sorted[n]) <= 0;
      PrefixKeepsOrder(STRING_PREFIX, sorted[n - 1], sorted[n]);
      LexAntisymmetric(sorted[n - 1], sorted[n]);
    }
    AppendAscending(run, x);
    hide Sorted, StrictlyAscending, LexOrder, SetOf;
    if previous == Some(sorted[n]) {
      LastInSet(run);
    }
  }

  lemma PrefixedDone(run: seq<string>, sorted: seq<string>, previous: Option<string>)
    requires PrefixedRun(run, sorted, |sorted|, previous)
    ensures StrictlyAscending(run) && SetOf(run) == SetOf(Prefixed(sorted))
  {
    assert sorted[..|sorted|] == sorted;
  }

  lemma SamePrefixedSet(a: seq<string>, b: seq<string>)
    requires multiset(a) == multiset(b)
    ensures SetOf(Prefixed(a)) == SetOf(Prefixed(b))
  {
    PrefixedSubset(a, b);
    PrefixedSubset(b, a);
  }

  lemma PrefixedSubset(a: seq<string>, b: seq<string>)
    requires multiset(a) == multiset(b)
    ensures SetOf(Prefixed(a)) <= SetOf(Prefixed(b))
  {
    forall x | x in SetOf(Prefixed(a)) ensures x in SetOf(Prefixed(b)) {
      var i :| 0 <= i < |a| && Prefixed(a)[i] == x;
      assert a[i] in multiset(b);
      var j :| 0 <= j < |b| && b[j] == a[i];
      assert Prefixed(b)[j] == x;
    }
  }

  class DistinctAggregate {
    const approx: bool
    const size: string -> nat
    var values: seq<string>
    var sortedValues: Option<seq<string>>
    var sortedRuns: Option<seq<seq<string>>>
    var memoryBytes: nat

    /** At most one form holds keys; lists are strictly ascending; the carried
        size is unmeasured or exact. */
    ghost predicate Valid()
      reads this
    {
      && Unique(values)
      && (sortedValues.Some? ==> values == [] && sortedRuns.None? && StrictlyAscending(sortedValues.value))
      && (sortedRuns.Some? ==> values == [] && AllAscending(sortedRuns.value) && memoryBytes == UNMEASURED)
      && Exact(size, if sortedValues.Some? then sortedValues.value else values, memoryBytes)
    }

    /** The keys seen so far. */
    ghost function Denoted(): set<string>
      reads this
    {
      if sortedRuns.Some? then UnionOf(sortedRuns.value)
      else if sortedValues.Some? then SetOf(sortedValues.value)
      else SetOf(values)
    }

    ghost predicate InSetForm()
      reads this
    {
      sortedValues.None? && sortedRuns.None?
    }

    constructor (approx: bool, size: string -> nat)
      ensures Valid() && InSetForm() && Denoted() == {} && this.approx == approx && this.size == size
      ensures memoryBytes == ListBytes(size, [])
    {
      this.approx, this.size := approx, size;
      values, sortedValues, sortedRuns := [], None, None;
      memoryBytes := 2;
    }

    /** The keys in order, whatever the form. */
    method SnapshotValues() returns (keys: seq<string>)
      requires Valid()
      ensures keys == Listing(Denoted())
    {
      if sortedRuns.Some? {
        keys := MergeSortedRuns(sortedRuns.value);
      } else if sortedValues.None? {
        SortedUniqueAscends(values);
        keys := Sort(KeyCmp(), values);
        ListingIs(keys);
      } else {
        keys := sortedValues.value;
        ListingIs(keys);
      }
    }

    method Count() returns (n: nat)
      requires Valid()
      ensures n == |Denoted()|
    {
      if sortedRuns.Some? {
        n := CountSortedUniqueRuns(sortedRuns.value);
      } else if sortedValues.Some? {
        ListingIs(sortedValues.value);
        n := |sortedValues.value|;
      } else {
        UniqueCount(values);
        n := |values|;
      }
    }

    /** Switches to the set form, dropping the measured size if the form changes. */
    method MutableValues()
      requires Valid()
      modifies this
      ensures Valid() && InSetForm() && Denoted() == old(Denoted())
      ensures old(InSetForm()) ==> values == old(values) && memoryBytes == old(memoryBytes)
    {
      if sortedValues.Some? || sortedRuns.Some? {
        var keys := SnapshotValues();
        AscendingUnique(keys);
        values, sortedValues, sortedRuns := keys, None, None;
        memoryBytes := UNMEASURED;
      }
    }

    method MeasureBytes(budget: Budget)
      requires Valid()
      modifies this
      ensures Valid() && Denoted() == old(Denoted())
      ensures old(InSetForm()) ==> InSetForm() && values == old(values)
      ensures old(InSetForm()) && budget.maxMemoryBytes.Some? ==> memoryBytes == ListBytes(size, values)
      ensures budget.maxMemoryBytes.Some? ==>
                memoryBytes == ListBytes(size, if sortedValues.Some? then sortedValues.value else values)
      ensures budget.maxMemoryBytes.Some? ==> sortedRuns.None?
    {
      if budget.maxMemoryBytes.Some? && memoryBytes == UNMEASURED {
        MutableValues();
        memoryBytes := MeasureList(size, values);
      }
    }

    /** Throws exactly when the number of keys or the size of their list is over a limit. */
    method EnforceBudget(budget: Budget) returns (r: Result<()>)
      requires Valid()
      modifies this
      ensures Valid() && Denoted() == old(Denoted())
      ensures old(InSetForm()) ==> InSetForm() && values == old(values)
      ensures old(InSetForm()) ==> r == if Within(size, values, budget) then Ok(()) else Err(BudgetExceeded)
      ensures r.Err? ==> r == Err(BudgetExceeded)
      ensures r.Ok? <==>
        && (budget.maxBufferedRows.Some? ==> |Denoted()| <= budget.maxBufferedRows.value)
        && (budget.maxMemoryBytes.Some? ==> memoryBytes <= budget.maxMemoryBytes.value)
      ensures budget.maxMemoryBytes.Some? ==> sortedRuns.None?
      ensures budget.maxMemoryBytes.Some? ==>
                memoryBytes == ListBytes(size, if sortedValues.Some? then sortedValues.value else values)
    {
      MeasureBytes(budget);
      var n := Count();
      UniqueCount(values);
      hide SetOf, Unique, ListBytes, UnionOf, StrictlyAscending;
      if budget.maxBufferedRows.Some? && n > budget.maxBufferedRows.value {
        return Err(BudgetExceeded);
      }
      if budget.maxMemoryBytes.Some? && memoryBytes > budget.maxMemoryBytes.value {
        return Err(BudgetExceeded);
      }
      r := Ok(());
    }

    lemma SetForm()
      requires sortedValues.None? && sortedRuns.None?
      ensures InSetForm() && Denoted() == SetOf(values)
      ensures Valid() <==> Unique(values) && Exact(size, values, memoryBytes)
    {
    }

    /** Takes in one key; the limits are checked only when the key is new. */
    method AddValue(key: string, budget: Budget) returns (r: Result<()>)
      requires Valid()
      modifies this
      ensures Valid() && InSetForm() && Denoted() == old(Denoted()) + {key}
      ensures r == if key in old(Denoted()) || Within(size, values, budget) then Ok(()) else Err(BudgetExceeded)
    {
      hide *;
      MutableValues();
      MeasureBytes(budget);
      SetForm();
      AddKeyFacts(values, key);
      if key in values {
        KnownKey(values, key);
        return Ok(());
      }
      NewKey(values, key);
      AppendIsExact(size, values, key);
      memoryBytes := if budget.maxMemoryBytes.None? then UNMEASURED
                     else BytesAfterAppend(memoryBytes, |values|, size(key));
      values := values + [key];
      ExactWhen(size, values, memoryBytes);
      SetForm();
      r := EnforceBudget(budget);
    }

    method AddValues(keys: seq<string>, budget: Budget) returns (r: Result<()>)
      requires Valid()
      modifies this
      ensures Valid() && InSetForm()
      ensures r.Ok? ==> Denoted() == old(Denoted()) + SetOf(keys)
      ensures r.Err? ==> r == Err(BudgetExceeded) && !Within(size, values, budget)
      ensures budget.maxMemoryBytes.None? && budget.maxBufferedRows.None? ==> r.Ok?
    {
      hide Unique, StrictlyAscending, AllAscending, UnionOf, ListBytes, AddKey;
      MutableValues();
      assert keys[..0] == [];
      r := Ok(());
      for n := 0 to |keys|
        invariant Valid() && InSetForm() && r == Ok(())
        invariant Denoted() == old(Denoted()) + SetOf(keys[..n])
      {
        assert keys[..n + 1] == keys[..n] + [keys[n]];
        SetOfSnoc(keys[..n], keys[n]);
        if budget.maxMemoryBytes.None? && budget.maxBufferedRows.None? {
          AddKeyFacts(values, keys[n]);
          values, memoryBytes := AddKey(values, keys[n]), UNMEASURED;
        } else {
          r := AddValue(keys[n], budget);
          if r.Err? {
            return;
          }
        }
      }
      assert keys[..|keys|] == keys;
    }

    /** Keeps a long ascending list as one more run; a short one goes into the set. */
    method MergeSortedValues(keys: seq<string>, budget: Budget) returns (r: Result<()>)
      requires Valid()
      requires |keys| >= SORTED_RUN_MERGE_MIN_VALUES ==> StrictlyAscending(keys)
      modifies this
      ensures Valid()
      ensures r.Ok? ==> Denoted() == old(Denoted()) + SetOf(keys)
      ensures r.Err? ==> r == Err(BudgetExceeded) && InSetForm() && !Within(size, values, budget)
      ensures budget.maxMemoryBytes.None? && budget.maxBufferedRows.None? ==> r.Ok?
      ensures budget.maxMemoryBytes.None? && budget.maxBufferedRows.None? && |keys| >= SORTED_RUN_MERGE_MIN_VALUES
              ==> sortedRuns.Some? && values == []
    {
      if budget.maxMemoryBytes.Some? || budget.maxBufferedRows.Some? {
        r := AddValues(keys, budget);
        return;
      }
      r := Ok(());
      if |keys| == 0 {
        return;
      }
      if |keys| < SORTED_RUN_MERGE_MIN_VALUES {
        r := AddValues(keys, budget);
        return;
      }
      hide SetOf, StrictlyAscending;
      var runs := CollectRuns();
      sortedRuns, sortedValues := Some(runs + [keys]), None;
      values, memoryBytes := [], UNMEASURED;
    }

    /** Whatever form the keys are in, as a list of runs. */
    method CollectRuns() returns (runs: seq<seq<string>>)
      requires Valid()
      ensures AllAscending(runs) && UnionOf(runs) == Denoted()
    {
      runs := if sortedRuns.Some? then sortedRuns.value else [];
      if sortedValues.Some? {
        runs := runs + [sortedValues.value];
      }
      if |values| != 0 {
        SortedUniqueAscends(values);
        runs := runs + [Sort(KeyCmp(), values)];
      }
    }

    /** A batch of strings: sorted into a run when it is long and varied. */
    method AddSortedStringRun(strings: seq<string>, budget: Budget) returns (r: Result<()>)
      requires Valid()
      modifies this
      ensures Valid()
      ensures r.Ok? ==> Denoted() == old(Denoted()) + SetOf(Prefixed(strings))
      ensures r.Err? ==> r == Err(BudgetExceeded) && InSetForm() && !Within(size, values, budget)
      ensures budget.maxMemoryBytes.None? && budget.maxBufferedRows.None? ==> r.Ok?
    {
      if budget.maxMemoryBytes.Some? || budget.maxBufferedRows.Some? || |strings| < SORTED_RUN_MERGE_MIN_VALUES {
        r := AddValues(Prefixed(strings), budget);
        return;
      }
      var high := HasHighCardinalitySample(strings);
      if !high {
        r := AddValues(Prefixed(strings), budget);
        return;
      }
      var run := PrefixedSortedUnique(strings);
      r := MergeSortedValues(run, budget);
    }

    /** Merging reads only the source's `values`, so it takes in the source's keys
        exactly when the source is in set form or brings nothing new. */
    method MergeFrom(source: DistinctAggregate, budget: Budget) returns (r: Result<()>)
      requires Valid() && source.Valid() && source != this
      modifies this
      ensures Valid() && InSetForm()
      ensures r.Ok? ==> Denoted() == old(Denoted()) + SetOf(source.values)
      ensures r.Ok? ==> (Denoted() == old(Denoted()) + source.Denoted()
                         <==> source.InSetForm() || source.Denoted() <= old(Denoted()))
      ensures r.Err? ==> r == Err(BudgetExceeded) && !Within(size, values, budget)
      ensures budget.maxMemoryBytes.None? && budget.maxBufferedRows.None? ==> r.Ok?
    {
      r := AddValues(source.values, budget);
    }

    method Clone() returns (copy: DistinctAggregate)
      requires Valid()
      ensures fresh(copy) && copy.Valid() && copy.Denoted() == Denoted()
      ensures copy.approx == approx && copy.memoryBytes == memoryBytes && (copy.InSetForm() <==> InSetForm())
    {
      copy := new DistinctAggregate(approx, size);
      copy.values, copy.sortedValues, copy.sortedRuns, copy.memoryBytes :=
        values, sortedValues, sortedRuns, memoryBytes;
    }
  }

  // ----- String columns, without reading scalars -----

  /** The strings of the selected, non-null rows among the first `n`. */
  function PresentStrings(strings: seq<string>, valid: Option<seq<nat>>, selection: Option<seq<nat>>, n: nat)
    : seq<string>
    requires n <= |strings|
    requires (valid.Some? ==> |valid.value| == |strings|) && (selection.Some? ==> |selection.value| == |strings|)
  {
    if n == 0 then []
    else
      var before := PresentStrings(strings, valid, selection, n - 1);
      if (selection.None? || selection.value[n - 1] == 1) && (valid.None? || valid.value[n - 1] == 1)
      then before + [strings[n - 1]] else before
  }

  /** Feeds a string column straight into the state. */
  method UpdateDirectUtf8(state: DistinctAggregate, strings: seq<string>, valid: Option<seq<nat>>,
                          selection: Option<seq<nat>>, budget: Budget)
    returns (r: Result<()>)
    requires state.Valid()
    requires (valid.Some? ==> |valid.value| == |strings|) && (selection.Some? ==> |selection.value| == |strings|)
    modifies state
    ensures state.Valid()
    ensures r.Ok? ==>
      (state.Denoted() == old(state.Denoted()) + SetOf(Prefixed(PresentStrings(strings, valid, selection, |strings|))))
    ensures r.Err? ==> r == Err(BudgetExceeded) && !Within(state.size, state.values, budget)
  {
    if budget.maxMemoryBytes.None? && budget.maxBufferedRows.None? {
      var batch := CollectStrings(strings, valid, selection);
      r := state.AddSortedStringRun(batch, budget);
      return;
    }
    hide Within, UnionOf, StrictlyAscending, DistinctAggregate.Valid, DistinctAggregate.Denoted;
    r := Ok(());
    for n := 0 to |strings|
      invariant state.Valid() && r == Ok(())
      invariant state.Denoted()
             == old(state.Denoted()) + SetOf(Prefixed(PresentStrings(strings, valid, selection, n)))
    {
      if (selection.None? || selection.value[n] == 1) && (valid.None? || valid.value[n] == 1) {
        r := state.AddValue(STRING_PREFIX + strings[n], budget);
        PrefixedSnoc(PresentStrings(strings, valid, selection, n), strings[n]);
        SetOfSnoc(Prefixed(PresentStrings(strings, valid, selection, n)), STRING_PREFIX + strings[n]);
        if r.Err? {
          return;
        }
      }
    }
  }

  method CollectStrings(strings: seq<string>, valid: Option<seq<nat>>, selection: Option<seq<nat>>)
    returns (batch: seq<string>)
    requires (valid.Some? ==> |valid.value| == |strings|) && (selection.Some? ==> |selection.value| == |strings|)
    ensures batch == PresentStrings(strings, valid, selection, |strings|)
  {
    batch := [];
    for n := 0 to |strings|
      invariant batch == PresentStrings(strings, valid, selection, n)
    {
      if (selection.None? || selection.value[n] == 1) && (valid.None? || valid.value[n] == 1) {
        batch := batch + [strings[n]];
      }
    }
  }

  /** What row `i` of a string column contributes as a scalar. */
  function StringRows(strings: seq<string>, valid: Option<seq<nat>>): (rows: seq<Scalar>)
    requires valid.Some? ==> |valid.value| == |strings|
    ensures |rows| == |strings|
    ensures forall i :: 0 <= i < |strings| ==>
              rows[i] == if valid.None? || valid.value[i] == 1 then Str(strings[i]) else Null
  {
    seq(|strings|, i requires 0 <= i < |strings| =>
      if valid.None? || valid.value[i] == 1 then Str(strings[i]) else Null)
  }

  /** One row more: what feeding it does is what the direct path does with it. */
  lemma PathStep(
    key: Scalar -> string, approx: bool, keys: set<string>, strings: seq<string>, valid: Option<seq<nat>>,
    selection: Option<seq<nat>>, n: nat, before: set<string>)
    requires 0 < n <= |strings| && key(Str(strings[n - 1])) == STRING_PREFIX + strings[n - 1]
    requires (valid.Some? ==> |valid.value| == |strings|) && (selection.Some? ==> |selection.value| == |strings|)
    requires before == keys + SetOf(Prefixed(PresentStrings(strings, valid, selection, n - 1)))
    requires RunFrom(key, DistinctState(approx, keys), SelectedUpTo(StringRows(strings, valid), selection, n - 1))
          == Ok(DistinctState(approx, before))
    ensures RunFrom(key, DistinctState(approx, keys), SelectedUpTo(StringRows(strings, valid), selection, n))
         == Ok(DistinctState(approx, keys + SetOf(Prefixed(PresentStrings(strings, valid, selection, n)))))
  {
    hide *;
    RowTaken(key, DistinctState(approx, keys), StringRows(strings, valid), selection, n - 1);
    UpdateWithString(key, approx, before, strings[n - 1]);
    PresentStep(keys, strings, valid, selection, n);
  }

  /** The direct path takes in exactly what feeding the rows one by one would. */
  lemma {:induction false} DirectPathIsGeneral(
    key: Scalar -> string, approx: bool, keys: set<string>, strings: seq<string>, valid: Option<seq<nat>>,
    selection: Option<seq<nat>>, n: nat)
    requires n <= |strings| && forall s :: key(Str(s)) == STRING_PREFIX + s
    requires (valid.Some? ==> |valid.value| == |strings|) && (selection.Some? ==> |selection.value| == |strings|)
    ensures RunFrom(key, DistinctState(approx, keys), SelectedUpTo(StringRows(strings, valid), selection, n))
         == Ok(DistinctState(approx, keys + SetOf(Prefixed(PresentStrings(strings, valid, selection, n)))))
  {
    hide *;
    if n == 0 {
      NothingSelected(key, DistinctState(approx, keys), StringRows(strings, valid), selection);
      NothingPresent(keys, strings, valid, selection);
    } else {
      DirectPathIsGeneral(key, approx, keys, strings, valid, selection, n - 1);
      var before := keys + SetOf(Prefixed(PresentStrings(strings, valid, selection, n - 1)));
      PathStep(key, approx, keys, strings, valid, selection, n, before);
    }
  }

  lemma NothingPresent(
    keys: set<string>, strings: seq<string>, valid: Option<seq<nat>>, selection: Option<seq<nat>>)
    requires (valid.Some? ==> |valid.value| == |strings|) && (selection.Some? ==> |selection.value| == |strings|)
    ensures keys + SetOf(Prefixed(PresentStrings(strings, valid, selection, 0))) == keys
  {
    assert Prefixed(PresentStrings(strings, valid, selection, 0)) == [];
  }

  lemma UpdateWithString(key: Scalar -> string, approx: bool, keys: set<string>, text: string)
    requires key(Str(text)) == STRING_PREFIX + text
    ensures Update(key, DistinctState(approx, keys), Str(text))
      == Ok(DistinctState(approx, keys + {STRING_PREFIX + text}))
    ensures Update(key, DistinctState(approx, keys), Null) == Ok(DistinctState(approx, keys))
  {
  }

  lemma PresentStep(
    keys: set<string>, strings: seq<string>, valid: Option<seq<nat>>, selection: Option<seq<nat>>, n: nat)
    requires 0 < n <= |strings|
    requires (valid.Some? ==> |valid.value| == |strings|) && (selection.Some? ==> |selection.value| == |strings|)
    ensures var before := keys + SetOf(Prefixed(PresentStrings(strings, valid, selection, n - 1)));
            && (|StringRows(strings, valid)| == |strings|)
            && StringRows(strings, valid)[n - 1] in {Str(strings[n - 1]), Null}
            && keys + SetOf(Prefixed(PresentStrings(strings, valid, selection, n)))
            == if (selection.None? || selection.value[n - 1] == 1) && StringRows(strings, valid)[n - 1].Str?
               then before + {STRING_PREFIX + strings[n - 1]} else before
  {
    var before := PresentStrings(strings, valid, selection, n - 1);
    PrefixedSnoc(before, strings[n - 1]);
    SetOfSnoc(Prefixed(before), STRING_PREFIX + strings[n - 1]);
    var seen, x := SetOf(Prefixed(before)), STRING_PREFIX + strings[n - 1];
    assert keys + (seen + {x}) == (keys + seen) + {x};
  }

  /** Merging a state that holds sorted runs takes in none of its keys. */
  method RunsAreNotMerged(size: string -> nat, keys: seq<string>) returns (held: nat, merged: nat)
    requires StrictlyAscending(keys) && |keys| >= SORTED_RUN_MERGE_MIN_VALUES
    ensures held == |keys| && merged == 0
  {
    hide *;
    var unlimited := Budget(None, None);
    var source := new DistinctAggregate(false, size);
    var target := new DistinctAggregate(false, size);
    var r := source.MergeSortedValues(keys, unlimited);
    assert source.Denoted() == SetOf(keys);
    ListingIs(keys);
    held := source.Count();
    r := target.MergeFrom(source, unlimited);
    NoKeys(target.Denoted());
    merged := target.Count();
  }

  lemma NoKeys(keys: set<string>)
    ensures keys == {} + SetOf([]) ==> |keys| == 0
  {
  }
}
