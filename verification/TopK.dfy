/** Bounded top-k inside one batch: periodic sorting and trimming computes
    "sort, then take", unless a comparison throws. */
module TopK {
  import opened Scalars
  import opened Expressions
  import opened Vectors
  import opened Orders
  import opened RowOrders
  import opened ThrowingSorts

  function RowAt(batch: Batch, i: int): Row
    requires ScalarBatch(batch)
  {
    if 0 <= i < batch.rowCount then MaterializeRow(batch, i) else map[]
  }

  /** The vector path's comparator: row keys, then the row index. */
  function CompareBatchRows(batch: Batch, terms: seq<OrderTerm>, i: int, j: int): Result<int>
    requires ScalarBatch(batch)
  {
    if terms == [] then Ok(i - j)
    else if terms[0].column !in batch.columns then Err(UnknownColumn)
    else
      var c :- CompareSortValues(terms[0], KeyOf(RowAt(batch, i), terms[0].column),
                                 KeyOf(RowAt(batch, j), terms[0].column));
      if c != 0 then Ok(c) else CompareBatchRows(batch, terms[1..], i, j)
  }

  function RowsOf(batch: Batch): int -> Row
    requires ScalarBatch(batch)
  {
    (i: int) => RowAt(batch, i)
  }

  /** The order of row indices that comparator computes. */
  function ByIndex(batch: Batch, terms: seq<OrderTerm>): (int, int) -> int
    requires ScalarBatch(batch)
  {
    ByPosition(ByTerms(terms), RowsOf(batch))
  }

  /** No sort key of these rows is NaN. */
  ghost predicate NaNFree(batch: Batch, terms: seq<OrderTerm>, indices: seq<int>)
    requires ScalarBatch(batch)
  {
    forall i, t :: i in indices && t in terms ==> !IsNaN(KeyOf(RowAt(batch, i), t.column))
  }

  /** Two of these rows have sort keys that cannot be compared. */
  ghost predicate Incomparable(batch: Batch, terms: seq<OrderTerm>, indices: seq<int>)
    requires ScalarBatch(batch)
  {
    exists i, j, t :: i in indices && j in indices && t in terms
                      && CompareSortValues(t, KeyOf(RowAt(batch, i), t.column), KeyOf(RowAt(batch, j), t.column)).Err?
  }

  lemma {:induction false} CompareBatchRowsIsByIndex(batch: Batch, terms: seq<OrderTerm>, i: int, j: int)
    requires ScalarBatch(batch)
    requires CompareBatchRows(batch, terms, i, j).Ok?
    requires forall t :: t in terms ==>
      !IsNaN(KeyOf(RowAt(batch, i), t.column)) && !IsNaN(KeyOf(RowAt(batch, j), t.column))
    ensures CompareBatchRows(batch, terms, i, j) == Ok(ByIndex(batch, terms)(i, j))
  {
    if terms != [] {
      var l, r := KeyOf(RowAt(batch, i), terms[0].column), KeyOf(RowAt(batch, j), terms[0].column);
      ComparatorIsTermOrder(terms[0], l, r);
      if TermOrder(terms[0], l, r) == 0 {
        CompareBatchRowsIsByIndex(batch, terms[1..], i, j);
      }
    }
  }

  /** The vector path's comparator as a function value. */
  function Comparator(batch: Batch, terms: seq<OrderTerm>): (int, int) -> Result<int>
    requires ScalarBatch(batch)
  {
    (i: int, j: int) => CompareBatchRows(batch, terms, i, j)
  }

  lemma {:induction false} ComparatorThrows(batch: Batch, terms: seq<OrderTerm>, i: int, j: int)
    requires ScalarBatch(batch) && ColumnsExist(batch, terms) && CompareBatchRows(batch, terms, i, j).Err?
    ensures CompareBatchRows(batch, terms, i, j).error == TypeError
    ensures exists t :: (
      t in terms && CompareSortValues(t, KeyOf(RowAt(batch, i), t.column), KeyOf(RowAt(batch, j), t.column)).Err?)
  {
    var c := CompareSortValues(terms[0], KeyOf(RowAt(batch, i), terms[0].column),
                               KeyOf(RowAt(batch, j), terms[0].column));
    if c.Ok? {
      ComparatorThrows(batch, terms[1..], i, j);
    }
  }

  /** Among rows without NaN the comparator returns the order of indices or throws. */
  lemma ComparatorComputes(batch: Batch, terms: seq<OrderTerm>, indices: seq<int>)
    requires ScalarBatch(batch) && NaNFree(batch, terms, indices)
    ensures Computes(Comparator(batch, terms), ByIndex(batch, terms), indices)
  {
    forall i, j | i in indices && j in indices && CompareBatchRows(batch, terms, i, j).Ok?
      ensures CompareBatchRows(batch, terms, i, j) == Ok(ByIndex(batch, terms)(i, j))
    {
      CompareBatchRowsIsByIndex(batch, terms, i, j);
    }
  }

  lemma ByIndexIsPreorder(batch: Batch, terms: seq<OrderTerm>)
    requires ScalarBatch(batch)
    ensures TotalPreorder(ByIndex(batch, terms))
  {
    ByTermsIsPreorder(terms);
    ByPositionIsPreorder(ByTerms(terms), RowsOf(batch));
  }

  // ----- Selected rows -----

  predicate IsSelected(selection: Option<seq<nat>>, i: nat) {
    selection.None? || (i < |selection.value| && selection.value[i] == 1)
  }

  function Selected(rowCount: nat, selection: Option<seq<nat>>): seq<int> {
    if rowCount == 0 then []
    else Selected(rowCount - 1, selection) + (if IsSelected(selection, rowCount - 1) then [rowCount - 1] else [])
  }

  lemma {:induction false} SelectedAscending(rowCount: nat, selection: Option<seq<nat>>)
    ensures var s := Selected(rowCount, selection);
      && (forall k :: 0 <= k < |s| ==> 0 <= s[k] < rowCount)
      && (forall j, k :: 0 <= j < k < |s| ==> s[j] < s[k])
      && (forall i :: 0 <= i < rowCount ==> (IsSelected(selection, i) <==> i in s))
  {
    if rowCount > 0 {
      SelectedAscending(rowCount - 1, selection);
    }
  }

  // ----- Sorting with two equal comparators -----

  ghost predicate SameComparator<T(!new)>(f: (T, T) -> int, g: (T, T) -> int) {
    forall x, y :: f(x, y) == g(x, y)
  }

  lemma {:induction false} SameInsert<T(!new)>(f: (T, T) -> int, g: (T, T) -> int, x: T, s: seq<T>)
    requires SameComparator(f, g)
    ensures Insert(f, x, s) == Insert(g, x, s)
  {
    if s != [] {
      SameInsert(f, g, x, s[1..]);
    }
  }

  lemma {:induction false} SameSort<T(!new)>(f: (T, T) -> int, g: (T, T) -> int, s: seq<T>)
    requires SameComparator(f, g)
    ensures Sort(f, s) == Sort(g, s)
  {
    if s != [] {
      SameSort(f, g, s[..|s| - 1]);
      SameInsert(f, g, s[|s| - 1], Sort(f, s[..|s| - 1]));
    }
  }

  // ----- Inside one batch -----

  predicate ColumnsExist(batch: Batch, terms: seq<OrderTerm>) {
    forall t :: t in terms ==> t.column in batch.columns
  }

  /** `vectorSortIndices`: every selected row, fully sorted. */
  function SortIndices(batch: Batch, orderBy: seq<OrderByTerm>, selection: Option<seq<nat>>): Result<seq<int>>
    requires ScalarBatch(batch)
  {
    var terms :- NormalizeOrderBy(orderBy);
    if !ColumnsExist(batch, terms) then Err(UnknownColumn)
    else Ok(Sort(ByIndex(batch, terms), Selected(batch.rowCount, selection)))
  }

  /** Collects selected rows, sorting and trimming whenever `2 * topK + 64`
      candidates have piled up. `peak` is the most candidates ever held. The
      comparator may throw; where it returns it computes `cmp`. */
  method KeepFirst(compare: (int, int) -> Result<int>, ghost cmp: (int, int) -> int, rowCount: nat, topK: nat,
                   selection: Option<seq<nat>>)
    returns (r: Result<seq<int>>, ghost peak: nat)
    requires TotalPreorder(cmp) && topK > 0
    ensures r.Ok? && Computes(compare, cmp, Selected(rowCount, selection)) ==>
      r.value == Take(topK, Sort(cmp, Selected(rowCount, selection)))
    ensures r.Ok? ==> Within(r.value, Selected(rowCount, selection))
    ensures r.Err? ==> ThrowsOn(compare, Selected(rowCount, selection), r.error)
    ensures peak <= 2 * topK + 64
  {
    var kept: seq<int> := [];
    peak := 0;
    var trimAt := topK * 2 + 64;
    ghost var all := Selected(rowCount, selection);
    assert Within(kept, all);
    SelectedNone(cmp, topK, selection);
    hide Sort, Take, TrySort, Computes, ThrowsOn, TotalPreorder, Within, Selected;
    for index := 0 to rowCount
      invariant |kept| < trimAt && peak <= trimAt
      invariant Within(kept, all)
      invariant Computes(compare, cmp, all) ==>
        Take(topK, Sort(cmp, kept)) == Take(topK, Sort(cmp, Selected(index, selection)))
    {
      SelectedNext(rowCount, selection, index);
      if !IsSelected(selection, index) {
        continue;
      }
      if Computes(compare, cmp, all) {
        KeepOne(cmp, kept, Selected(index, selection), index, topK);
      }
      AppendWithin(kept, index, all);
      kept := kept + [index];
      peak := if |kept| > peak then |kept| else peak;
      if |kept| >= trimAt {
        var trimmed := Trim(compare, cmp, kept, topK, all);
        if trimmed.Err? {
          return Err(trimmed.error), peak;
        }
        kept := trimmed.value;
      }
    }
    r := Trim(compare, cmp, kept, topK, all);
  }

  lemma SelectedNone(cmp: (int, int) -> int, topK: nat, selection: Option<seq<nat>>)
    ensures Take(topK, Sort(cmp, [])) == Take(topK, Sort(cmp, Selected(0, selection)))
  {
  }

  lemma SelectedNext(rowCount: nat, selection: Option<seq<nat>>, index: nat)
    requires index < rowCount
    ensures Selected(index + 1, selection)
         == if IsSelected(selection, index) then Selected(index, selection) + [index] else Selected(index, selection)
    ensures IsSelected(selection, index) ==> index in Selected(rowCount, selection)
  {
    SelectedAscending(rowCount, selection);
  }

  /** Sorts and keeps the first `topK`. */
  method Trim(compare: (int, int) -> Result<int>, ghost cmp: (int, int) -> int, kept: seq<int>, topK: nat,
              ghost all: seq<int>)
    returns (r: Result<seq<int>>)
    requires TotalPreorder(cmp) && Within(kept, all)
    ensures r.Ok? ==> |r.value| <= topK && Within(r.value, all)
    ensures r.Ok? && Computes(compare, cmp, all) ==>
      r.value == Take(topK, Sort(cmp, kept)) && Take(topK, Sort(cmp, r.value)) == r.value
    ensures r.Err? ==> ThrowsOn(compare, all, r.error)
  {
    hide Sort, TrySort, Computes, ThrowsOn, TotalPreorder, Within;
    TrySortReturns(compare, cmp, kept, all);
    r := TrySort(compare, kept);
    if r.Ok? {
      SameWithin(r.value, kept, all);
      if |r.value| > topK {
        PrefixWithin(r.value, topK, all);
        r := Ok(r.value[..topK]);
      }
      TrimKeeps(cmp, kept, topK);
    }
  }

  /** The first `topK` selected rows of a batch, in order; an error exactly of the
      order's or the comparator's making. */
  method VectorTopKIndices(batch: Batch, orderBy: seq<OrderByTerm>, topK: nat, selection: Option<seq<nat>>)
    returns (r: Result<seq<int>>, ghost peak: nat)
    requires ScalarBatch(batch)
    ensures match SortIndices(batch, orderBy, selection)
            case Err(error) => r == Err(error)
            case Ok(sorted) =>
              var terms, rows := NormalizeOrderBy(orderBy).value, Selected(batch.rowCount, selection);
              && (r.Ok? ==> Within(r.value, rows))
              && (r.Ok? && NaNFree(batch, terms, rows) ==> r.value == Take(topK, sorted))
              && (r.Err? ==> r.error == TypeError && Incomparable(batch, terms, rows))
              && (topK == 0 ==> r == Ok([]))
    ensures peak <= 2 * topK + 64
  {
    peak := 0;
    var normalized := NormalizeVectorOrderBy(orderBy);
    if normalized.Err? {
      return Err(normalized.error), 0;
    }
    ghost var all := NormalizeOrderBy(orderBy).value;
    if !(forall t :: t in normalized.value ==> t.column in batch.columns) {
      assert !ColumnsExist(batch, all);
      return Err(UnknownColumn), 0;
    }
    assert ColumnsExist(batch, all);
    if topK == 0 {
      return Ok([]), 0;
    }
    var terms := normalized.value;
    ghost var rows := Selected(batch.rowCount, selection);
    SameSort(ByIndex(batch, terms), ByIndex(batch, all), rows);
    ByIndexIsPreorder(batch, terms);
    r, peak := KeepFirst(Comparator(batch, terms), ByIndex(batch, terms), batch.rowCount, topK, selection);
    if r.Err? {
      ghost var i, j :| i in rows && j in rows && CompareBatchRows(batch, terms, i, j) == Err(r.error);
      ComparatorThrows(batch, terms, i, j);
    }
    if NaNFree(batch, all, rows) {
      ComparatorComputes(batch, terms, rows);
    }
  }

  lemma KeepOne<T(!new)>(cmp: (T, T) -> int, kept: seq<T>, seen: seq<T>, x: T, k: nat)
    requires TotalPreorder(cmp) && Take(k, Sort(cmp, kept)) == Take(k, Sort(cmp, seen))
    ensures Take(k, Sort(cmp, kept + [x])) == Take(k, Sort(cmp, seen + [x]))
  {
    SortAppend(cmp, kept, x);
    SortAppend(cmp, seen, x);
    InsertTake(cmp, x, Sort(cmp, kept), k);
    InsertTake(cmp, x, Sort(cmp, seen), k);
  }

  lemma TrimKeeps<T(!new)>(cmp: (T, T) -> int, kept: seq<T>, k: nat)
    requires TotalPreorder(cmp)
    ensures Take(k, Sort(cmp, Take(k, Sort(cmp, kept)))) == Take(k, Sort(cmp, kept))
  {
    SortSorted(cmp, kept);
    SortOfSorted(cmp, Take(k, Sort(cmp, kept)));
  }

  /** The rows at the sorted indices are the stable sort of the selected rows. */
  lemma SortIndicesDenoteStableSort(batch: Batch, orderBy: seq<OrderByTerm>, selection: Option<seq<nat>>)
    requires ScalarBatch(batch) && SortIndices(batch, orderBy, selection).Ok?
    ensures Gather(RowsOf(batch), SortIndices(batch, orderBy, selection).value)
         == Sort(ByTerms(NormalizeOrderBy(orderBy).value), Gather(RowsOf(batch), Selected(batch.rowCount, selection)))
  {
    SelectedAscending(batch.rowCount, selection);
    PositionSortIsStableSort(
      ByTerms(NormalizeOrderBy(orderBy).value), RowsOf(batch), Selected(batch.rowCount, selection));
  }

  function Slice<T>(s: seq<T>, offset: nat, limit: nat): seq<T> {
    if offset >= |s| then [] else Take(limit, s[offset..])
  }

  /** Elements `offset`, `offset + 1` and so on of all, at most `limit` of them. */
  ghost predicate IsPage<T>(page: seq<T>, all: seq<T>, offset: nat, limit: nat) {
    && |page| == (if |all| <= offset then 0 else if |all| - offset <= limit then |all| - offset else limit)
    && forall i :: 0 <= i < |page| ==> page[i] == all[offset + i]
  }

  lemma SliceIsPage<T>(page: seq<T>, all: seq<T>, offset: nat, limit: nat)
    ensures page == Slice(all, offset, limit) <==> IsPage(page, all, offset, limit)
  {
  }

  lemma SliceOfTake<T>(s: seq<T>, offset: nat, limit: nat)
    ensures Slice(Take(offset + limit, s), offset, limit) == Slice(s, offset, limit)
  {
  }

  /** The winners of two parts, merged, are the winners of the whole. */
  lemma RetainStep<T(!new)>(cmp: (T, T) -> int, seen: seq<T>, batch: seq<T>, k: nat)
    requires TotalPreorder(cmp)
    ensures Take(k, Sort(cmp, Take(k, Sort(cmp, seen)) + Take(k, Sort(cmp, batch))))
         == Take(k, Sort(cmp, seen + batch))
  {
    TopKFold(cmp, seen, Take(k, Sort(cmp, batch)), k);
    TopKFoldBoth(cmp, seen, batch, k, k);
  }
}
