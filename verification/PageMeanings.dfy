/** What a page of ORDER BY with LIMIT and OFFSET holds, row by row, and how the
    pages of a query fit together. */
module PageMeanings {
  import opened Scalars
  import opened Expressions
  import opened Vectors
  import opened Predicates
  import opened BatchPredicates
  import opened MaskMeanings
  import opened Orders
  import opened FirstElements
  import opened RowOrders
  import opened SortMeanings
  import opened TopK
  import opened BatchStreams
  import opened DictionaryStreams

  // ----- Selected rows -----

  lemma SelectedMeans(rowCount: nat, selection: Option<seq<nat>>, i: int)
    ensures i in Selected(rowCount, selection) <==>
      0 <= i < rowCount && (selection.None? || (i < |selection.value| && selection.value[i] == 1))
  {
    SelectedAscending(rowCount, selection);
  }

  /** Filtering by a predicate's mask selects the rows the predicate is true of. */
  lemma FilteredMeans(env: Env, batch: Batch, where: Expr, i: int)
    requires ScalarBatch(batch) && Faithful(env, batch, where) && PredicateMask(env, batch, where).Ok?
    ensures i in Selected(batch.rowCount, Some(PredicateMask(env, batch, where).value)) <==>
      0 <= i < batch.rowCount && Evaluate(env, where, MaterializeRow(batch, i)) == Ok(Bool(true))
  {
    var mask: seq<nat> := PredicateMask(env, batch, where).value;
    SelectedMeans(batch.rowCount, Some(mask), i);
    hide Selected, Evaluate, PredicateMask, Faithful;
    if 0 <= i < batch.rowCount {
      MaskMeans(env, batch, where, i);
    }
  }

  // ----- One batch -----

  /** The indices a top-k of one batch keeps: their rows are the first in order. */
  lemma TopKIndicesInOrder(batch: Batch, orderBy: seq<OrderByTerm>, topK: nat, selection: Option<seq<nat>>)
    requires ScalarBatch(batch) && SortIndices(batch, orderBy, selection).Ok?
    requires AllComparable(orderBy, SelectedRows(Part(batch, selection)))
    ensures var kept := Take(topK, SortIndices(batch, orderBy, selection).value);
            FirstInOrder(orderBy, topK, SelectedRows(Part(batch, selection)), Gather(RowsOf(batch), kept))
  {
    var terms, rows := NormalizeOrderBy(orderBy).value, SelectedRows(Part(batch, selection));
    var sorted := SortIndices(batch, orderBy, selection).value;
    SortIndicesDenoteStableSort(batch, orderBy, selection);
    hide *;
    NormalizedAll(orderBy);
    RowsSelected(batch, selection);
    GatherTake(RowsOf(batch), sorted, topK);
    ByTermsIsPreorder(terms);
    TakeOfSort(ByTerms(terms), rows, topK);
    AnswerInOrder(orderBy, topK, rows, Gather(RowsOf(batch), Take(topK, sorted)));
  }

  lemma RowsSelected(batch: Batch, selection: Option<seq<nat>>)
    requires ScalarBatch(batch)
    ensures SelectedRows(Part(batch, selection)) == Gather(RowsOf(batch), Selected(batch.rowCount, selection))
  {
  }

  /** Rows told apart by no term are kept in row order. */
  lemma TiesInRowOrder(batch: Batch, orderBy: seq<OrderByTerm>, selection: Option<seq<nat>>, i: nat, j: nat)
    requires ScalarBatch(batch) && SortIndices(batch, orderBy, selection).Ok?
    requires AllComparable(orderBy, SelectedRows(Part(batch, selection)))
    requires i < j < |SortIndices(batch, orderBy, selection).value|
    ensures var sorted := SortIndices(batch, orderBy, selection).value;
            RowFirst(orderBy, RowAt(batch, sorted[i]), RowAt(batch, sorted[j])) || sorted[i] < sorted[j]
  {
    var terms, rows := NormalizeOrderBy(orderBy).value, SelectedRows(Part(batch, selection));
    var selected, sorted := Selected(batch.rowCount, selection), SortIndices(batch, orderBy, selection).value;
    NormalizedAll(orderBy);
    SelectedAscending(batch.rowCount, selection);
    SortedIndices(batch, orderBy, selection, i, j);
    RowsSelected(batch, selection);
    hide *;
    DistinctPlaces(selected, sorted, i, j);
    GatheredIn(RowsOf(batch), selected, sorted, i);
    GatheredIn(RowsOf(batch), selected, sorted, j);
    RowsAt(batch, sorted[i]);
    RowsAt(batch, sorted[j]);
    FirstMeans(orderBy, rows, RowAt(batch, sorted[i]), RowAt(batch, sorted[j]));
  }

  lemma RowsAt(batch: Batch, i: int)
    requires ScalarBatch(batch)
    ensures RowsOf(batch)(i) == RowAt(batch, i)
  {
  }

  lemma SortedIndices(batch: Batch, orderBy: seq<OrderByTerm>, selection: Option<seq<nat>>, i: nat, j: nat)
    requires ScalarBatch(batch) && SortIndices(batch, orderBy, selection).Ok?
    requires i < j < |SortIndices(batch, orderBy, selection).value|
    ensures var sorted, cmp := SortIndices(batch, orderBy, selection).value, ByTerms(NormalizeOrderBy(orderBy).value);
      && multiset(Selected(batch.rowCount, selection)) == multiset(sorted)
      && (cmp(RowAt(batch, sorted[i]), RowAt(batch, sorted[j])) < 0
          || (cmp(RowAt(batch, sorted[i]), RowAt(batch, sorted[j])) == 0 && sorted[i] <= sorted[j]))
  {
    var cmp, selected := ByIndex(batch, NormalizeOrderBy(orderBy).value), Selected(batch.rowCount, selection);
    ByIndexIsPreorder(batch, NormalizeOrderBy(orderBy).value);
    SortSorted(cmp, selected);
    SortContents(cmp, selected);
    hide Sort, TotalPreorder, ScalarBatch, Selected, NormalizeOrderBy, ByTerms;
    assert cmp(Sort(cmp, selected)[i], Sort(cmp, selected)[j]) <= 0;
  }

  lemma NormalizedAll(orderBy: seq<OrderByTerm>)
    requires NormalizeOrderBy(orderBy).Ok?
    ensures NormalizeAll(orderBy) == NormalizeOrderBy(orderBy)
  {
  }

  lemma GatherTake<T>(at: int -> T, s: seq<int>, k: nat)
    ensures Gather(at, Take(k, s)) == Take(k, Gather(at, s))
  {
  }

  lemma GatheredIn<T>(at: int -> T, selected: seq<int>, sorted: seq<int>, i: nat)
    requires multiset(selected) == multiset(sorted) && i < |sorted|
    ensures at(sorted[i]) in Gather(at, selected)
  {
    assert sorted[i] in multiset(sorted);
    var k :| 0 <= k < |selected| && selected[k] == sorted[i];
    assert Gather(at, selected)[k] == at(sorted[i]);
  }

  lemma DistinctPlaces(selected: seq<int>, sorted: seq<int>, i: nat, j: nat)
    requires multiset(selected) == multiset(sorted) && i < j < |sorted|
    requires forall a, b :: 0 <= a < b < |selected| ==> selected[a] < selected[b]
    ensures sorted[i] != sorted[j]
  {
    CountOnce(selected, sorted[j]);
    if sorted[i] == sorted[j] {
      CountedTwice(sorted, i, j);
    }
  }

  lemma {:induction false} CountOnce(s: seq<int>, x: int)
    requires forall a, b :: 0 <= a < b < |s| ==> s[a] < s[b]
    ensures multiset(s)[x] <= 1
  {
    if s != [] {
      var front, last := s[..|s| - 1], s[|s| - 1];
      CountOnce(front, x);
      assert s == front + [last];
      assert last !in front;
    }
  }

  // ----- Pages of a stream -----

  /** As many elements as asked for and available, from `offset` on. */
  ghost predicate PageOf<T>(page: seq<T>, all: seq<T>, offset: nat, limit: nat) {
    && |page| == Least(limit, if offset < |all| then |all| - offset else 0)
    && forall i :: 0 <= i < |page| ==> page[i] == all[offset + i]
  }

  lemma SliceIsPageOf<T>(all: seq<T>, offset: nat, limit: nat)
    ensures PageOf(Slice(all, offset, limit), all, offset, limit)
  {
    SliceIsPage(Slice(all, offset, limit), all, offset, limit);
  }

  /** The rows a query returns: as many as asked for and available, and row `i` of
      them is row `offset + i` of the stable sort of all selected rows. */
  lemma StreamPage(terms: seq<OrderTerm>, offset: nat, limit: nat, parts: seq<Part>, shared: (nat, string) -> bool)
    requires ScalarParts(parts) && SeamlessParts(parts, shared)
    requires StreamRows(terms, offset, limit, parts, shared).Ok?
    ensures |Sort(ByTerms(terms), AllRows(parts))| == |AllRows(parts)|
    ensures PageOf(StreamRows(terms, offset, limit, parts, shared).value, Sort(ByTerms(terms), AllRows(parts)),
                   offset, limit)
  {
    StreamExactly(terms, offset, limit, parts, shared);
    hide *;
    SortContents(ByTerms(terms), AllRows(parts));
    SliceIsPageOf(Sort(ByTerms(terms), AllRows(parts)), offset, limit);
  }

  /** The same with dictionaries of texts of which the last batch has its own. */
  lemma DictionaryPage(terms: seq<OrderTerm>, offset: nat, limit: nat, parts: seq<Part>, shared: (nat, string) -> bool)
    requires ScalarParts(parts) && parts != [] && AlikeParts(parts) && SharedAreEqual(parts, shared)
    requires StreamRows(terms, offset, limit, parts, shared).Ok?
    ensures |Sort(ByTerms(terms), AllRows(parts))| == |AllRows(parts)|
    ensures PageOf(StreamRows(terms, offset, limit, parts, shared).value, Sort(ByTerms(terms), AllRows(parts)),
                   offset, limit)
  {
    DictionaryStreamExactly(terms, offset, limit, parts, shared);
    hide *;
    SortContents(ByTerms(terms), AllRows(parts));
    SliceIsPageOf(Sort(ByTerms(terms), AllRows(parts)), offset, limit);
  }

  /** The rows of one batch's top-k are a page of its selected rows, sorted. */
  lemma BatchPage(batch: Batch, terms: seq<OrderTerm>, offset: nat, limit: nat, selection: Option<seq<nat>>)
    requires ScalarBatch(batch) && TopKBatch(batch, terms, offset, limit, selection).Ok?
    ensures ScalarBatch(TopKBatch(batch, terms, offset, limit, selection).value)
    ensures PageOf(BatchRows(TopKBatch(batch, terms, offset, limit, selection).value),
                   Sort(ByTerms(terms), SelectedRows(Part(batch, selection))), offset, limit)
  {
    TopKBatchRows(batch, terms, offset, limit, selection);
    hide *;
    SliceIsPageOf(Sort(ByTerms(terms), SelectedRows(Part(batch, selection))), offset, limit);
  }

  /** Rows of any page come in order, and the first page holds the first rows. */
  lemma PageInOrder(orderBy: seq<OrderByTerm>, offset: nat, limit: nat, rows: seq<Row>, page: seq<Row>)
    requires NormalizeAll(orderBy).Ok? && AllComparable(orderBy, rows)
    requires PageOf(page, Sort(ByTerms(NormalizeAll(orderBy).value), rows), offset, limit)
    ensures forall i, j :: 0 <= i < j < |page| ==> !RowFirst(orderBy, page[j], page[i])
    ensures offset == 0 ==> FirstInOrder(orderBy, limit, rows, page)
  {
    var terms := NormalizeAll(orderBy).value;
    var sorted := Sort(ByTerms(terms), rows);
    WholeInOrder(orderBy, rows);
    PlacesInPage(sorted, page, offset, limit);
    if offset == 0 {
      ByTermsIsPreorder(terms);
      TakeOfSort(ByTerms(terms), rows, limit);
      hide *;
      AnswerInOrder(orderBy, limit, rows, page);
    }
    hide *;
  }

  lemma WholeInOrder(orderBy: seq<OrderByTerm>, rows: seq<Row>)
    requires NormalizeAll(orderBy).Ok? && AllComparable(orderBy, rows)
    ensures var sorted := Sort(ByTerms(NormalizeAll(orderBy).value), rows);
            forall i, j :: 0 <= i < j < |sorted| ==> !RowFirst(orderBy, sorted[j], sorted[i])
  {
    var terms := NormalizeAll(orderBy).value;
    ByTermsIsPreorder(terms);
    TakeOfSort(ByTerms(terms), rows, |rows|);
    SortContents(ByTerms(terms), rows);
    assert Take(|rows|, Sort(ByTerms(terms), rows)) == Sort(ByTerms(terms), rows);
    AnswerInOrder(orderBy, |rows|, rows, Sort(ByTerms(terms), rows));
    hide Sort, RowFirst, TotalPreorder, ByTerms, NormalizeAll, SameKeys, Take;
  }

  lemma PlacesInPage<T>(all: seq<T>, page: seq<T>, offset: nat, limit: nat)
    requires PageOf(page, all, offset, limit)
    ensures offset + |page| <= |all| || page == []
    ensures forall i :: 0 <= i < |page| ==> page[i] == all[offset + i]
    ensures offset == 0 ==> page == Take(limit, all)
  {
  }

  /** The rows of a query come in the order its terms ask for. */
  lemma StreamInOrder(orderBy: seq<OrderByTerm>, offset: nat, limit: nat, parts: seq<Part>,
                      shared: (nat, string) -> bool)
    requires ScalarParts(parts) && SeamlessParts(parts, shared) && NormalizeAll(orderBy).Ok?
    requires StreamRows(NormalizeAll(orderBy).value, offset, limit, parts, shared).Ok?
    requires AllComparable(orderBy, AllRows(parts))
    ensures var page := StreamRows(NormalizeAll(orderBy).value, offset, limit, parts, shared).value;
      && (forall i, j :: 0 <= i < j < |page| ==> !RowFirst(orderBy, page[j], page[i]))
      && (offset == 0 ==> FirstInOrder(orderBy, limit, AllRows(parts), page))
  {
    hide *;
    var terms := NormalizeAll(orderBy).value;
    StreamPage(terms, offset, limit, parts, shared);
    PageInOrder(orderBy, offset, limit, AllRows(parts), StreamRows(terms, offset, limit, parts, shared).value);
  }

  // ----- Paging through a query -----

  function RowsOrNone(r: Result<seq<Row>>): seq<Row> {
    if r.Ok? then r.value else []
  }

  /** The pages at `offset`, `offset + k` and so on, put end to end. */
  function PagesFrom(terms: seq<OrderTerm>, k: nat, parts: seq<Part>, shared: (nat, string) -> bool, offset: nat)
    : seq<Row>
    requires ScalarParts(parts) && k > 0
    decreases |AllRows(parts)| - offset
  {
    if offset >= |AllRows(parts)| then []
    else RowsOrNone(StreamRows(terms, offset, k, parts, shared)) + PagesFrom(terms, k, parts, shared, offset + k)
  }

  lemma {:induction false} PagesAreTheRest(terms: seq<OrderTerm>, k: nat, parts: seq<Part>,
                                           shared: (nat, string) -> bool, offset: nat)
    requires ScalarParts(parts) && SeamlessParts(parts, shared) && k > 0 && offset <= |AllRows(parts)|
    requires StreamRows(terms, 0, k, parts, shared).Ok?
    ensures |Sort(ByTerms(terms), AllRows(parts))| == |AllRows(parts)|
    ensures PagesFrom(terms, k, parts, shared, offset) == Sort(ByTerms(terms), AllRows(parts))[offset..]
    decreases |AllRows(parts)| - offset
  {
    hide ScalarParts, SeamlessParts, StreamRows, AllRows, Sort, ByTerms, PageOf;
    var sorted := Sort(ByTerms(terms), AllRows(parts));
    SortContents(ByTerms(terms), AllRows(parts));
    if offset < |AllRows(parts)| {
      EveryPageReturns(terms, k, parts, shared, offset);
      StreamPage(terms, offset, k, parts, shared);
      var page, next := StreamRows(terms, offset, k, parts, shared).value, offset + k;
      NextPage(sorted, page, offset, k);
      if next < |AllRows(parts)| {
        PagesAreTheRest(terms, k, parts, shared, next);
      }
    }
  }

  lemma NextPage<T>(all: seq<T>, page: seq<T>, offset: nat, k: nat)
    requires offset < |all| && PageOf(page, all, offset, k)
    ensures page + (if offset + k < |all| then all[offset + k..] else []) == all[offset..]
  {
  }

  lemma EveryPageReturns(terms: seq<OrderTerm>, k: nat, parts: seq<Part>, shared: (nat, string) -> bool, offset: nat)
    requires ScalarParts(parts) && SeamlessParts(parts, shared) && k > 0
    requires StreamRows(terms, 0, k, parts, shared).Ok?
    ensures StreamRows(terms, offset, k, parts, shared).Ok?
  {
    StreamExactly(terms, 0, k, parts, shared);
    StreamExactly(terms, offset, k, parts, shared);
    hide *;
  }

  /** Paging through a query gives every row once, in order: the pages at offsets
      0, k, 2k and so on are the stable sort of all selected rows. */
  lemma PagesAreTheSort(terms: seq<OrderTerm>, k: nat, parts: seq<Part>, shared: (nat, string) -> bool)
    requires ScalarParts(parts) && SeamlessParts(parts, shared) && k > 0
    requires StreamRows(terms, 0, k, parts, shared).Ok?
    ensures PagesFrom(terms, k, parts, shared, 0) == Sort(ByTerms(terms), AllRows(parts))
  {
    PagesAreTheRest(terms, k, parts, shared, 0);
    hide *;
  }
}
