/** Top-k over a stream of scanned batches: the winners of each batch are
    gathered and concatenated, as vectors, with those retained so far. The fold
    is right exactly on batches of one layout; it fails on columns of different
    vector types, and on timestamps of different units it returns other values. */
module BatchStreams {
  import opened Scalars
  import opened Expressions
  import opened Vectors
  import opened Orders
  import opened RowOrders
  import opened ThrowingSorts
  import opened TopK
  import opened Columnar
  import opened ColumnOps

  /** A scanned batch and the rows its filter selected. */
  datatype Part = Part(batch: Batch, selection: Option<seq<nat>>)

  ghost predicate ScalarParts(parts: seq<Part>) {
    forall i :: 0 <= i < |parts| ==> ScalarBatch(parts[i].batch)
  }

  function BatchRows(batch: Batch): (rows: seq<Row>)
    requires ScalarBatch(batch)
    ensures |rows| == batch.rowCount && forall i :: 0 <= i < |rows| ==> rows[i] == MaterializeRow(batch, i)
  {
    seq(batch.rowCount, i requires 0 <= i < batch.rowCount => MaterializeRow(batch, i))
  }

  function SelectedRows(part: Part): seq<Row>
    requires ScalarBatch(part.batch)
  {
    Gather(RowsOf(part.batch), Selected(part.batch.rowCount, part.selection))
  }

  /** The selected rows of the whole stream, in scan order. */
  function AllRows(parts: seq<Part>): seq<Row>
    requires ScalarParts(parts)
    decreases |parts|
  {
    if parts == [] then [] else AllRows(parts[..|parts| - 1]) + SelectedRows(parts[|parts| - 1])
  }

  // ----- Top-k of one batch -----

  function TopKIndices(batch: Batch, terms: seq<OrderTerm>, offset: nat, limit: nat, selection: Option<seq<nat>>)
    : (s: seq<nat>)
    requires ScalarBatch(batch)
    ensures InRange(s, batch.rowCount)
  {
    var cmp, selected := ByIndex(batch, terms), Selected(batch.rowCount, selection);
    SelectedAscending(batch.rowCount, selection);
    SortedInRange(cmp, selected, batch.rowCount);
    Slice(Take(offset + limit, Sort(cmp, selected)), offset, limit)
  }

  lemma SortedInRange(cmp: (int, int) -> int, s: seq<int>, n: nat)
    requires forall k :: 0 <= k < |s| ==> 0 <= s[k] < n
    ensures forall k :: 0 <= k < |Sort(cmp, s)| ==> 0 <= Sort(cmp, s)[k] < n
  {
    SortContents(cmp, s);
    var sorted := Sort(cmp, s);
    forall k | 0 <= k < |sorted| ensures 0 <= sorted[k] < n {
      assert sorted[k] in multiset(sorted);
      assert sorted[k] in multiset(s);
    }
  }

  /** `vectorTopKBatch`, where no comparison throws. */
  function TopKBatch(batch: Batch, terms: seq<OrderTerm>, offset: nat, limit: nat, selection: Option<seq<nat>>)
    : Result<Batch>
    requires ScalarBatch(batch)
  {
    if offset + limit == 0 then Ok(GatherBatch(batch, []))
    else if !ColumnsExist(batch, terms) then Err(UnknownColumn)
    else Ok(GatherBatch(batch, TopKIndices(batch, terms, offset, limit, selection)))
  }

  lemma GatheredRows(batch: Batch, indices: seq<nat>)
    requires ScalarBatch(batch) && InRange(indices, batch.rowCount)
    ensures ScalarBatch(GatherBatch(batch, indices))
    ensures BatchRows(GatherBatch(batch, indices)) == Gather(RowsOf(batch), indices)
  {
    GatheredScalar(batch, indices);
    hide ScalarBatch, GatherBatch, MaterializeRow;
    forall i | 0 <= i < |indices| ensures BatchRows(GatherBatch(batch, indices))[i] == RowsOf(batch)(indices[i]) {
      GatherBatchRows(batch, indices, i);
    }
  }

  lemma GatheredScalar(batch: Batch, indices: seq<nat>)
    requires ScalarBatch(batch) && InRange(indices, batch.rowCount)
    ensures ScalarBatch(GatherBatch(batch, indices)) && GatherBatch(batch, indices).rowCount == |indices|
  {
    forall c | c in batch.columns
      ensures Scalarish(GatherVector(batch.columns[c], indices))
      ensures Length(GatherVector(batch.columns[c], indices)) == |indices|
    {
      GatherWellFormed(batch.columns[c], indices);
    }
  }

  /** The rows of a batch's top-k are the top-k of its selected rows. */
  lemma TopKBatchRows(batch: Batch, terms: seq<OrderTerm>, offset: nat, limit: nat, selection: Option<seq<nat>>)
    requires ScalarBatch(batch) && TopKBatch(batch, terms, offset, limit, selection).Ok?
    ensures ScalarBatch(TopKBatch(batch, terms, offset, limit, selection).value)
    ensures BatchRows(TopKBatch(batch, terms, offset, limit, selection).value)
         == Slice(Sort(ByTerms(terms), SelectedRows(Part(batch, selection))), offset, limit)
  {
    var selected := Selected(batch.rowCount, selection);
    var rows, sorted := SelectedRows(Part(batch, selection)), Sort(ByIndex(batch, terms), selected);
    if offset + limit == 0 {
      GatheredRows(batch, []);
      return;
    }
    SelectedAscending(batch.rowCount, selection);
    PositionSortIsStableSort(ByTerms(terms), RowsOf(batch), selected);
    assert Gather(RowsOf(batch), sorted) == Sort(ByTerms(terms), rows);
    GatheredRows(batch, TopKIndices(batch, terms, offset, limit, selection));
    SliceOfTake(sorted, offset, limit);
    GatherSlice(RowsOf(batch), sorted, offset, limit);
  }

  lemma GatherSlice<T>(at: int -> T, s: seq<int>, offset: nat, limit: nat)
    ensures Gather(at, Slice(s, offset, limit)) == Slice(Gather(at, s), offset, limit)
  {
  }

  // ----- Joining two batches -----

  /** Whether the dictionaries of a column are one object, and hence equal. */
  function OneDictionary(shared: string -> bool, a: Batch, b: Batch): string -> bool {
    (c: string) =>
      && shared(c)
      && (c in a.columns && c in b.columns && a.columns[c].DictVector? && b.columns[c].DictVector? ==>
            a.columns[c].dictionary == b.columns[c].dictionary)
  }

  lemma JoinRequires(a: Batch, b: Batch, shared: string -> bool)
    requires ScalarBatch(a) && ScalarBatch(b)
    ensures ScalarBatches([a, b]) && (SameColumns([a, b]) <==> a.columns.Keys == b.columns.Keys)
    ensures SameColumns([a, b]) ==>
      forall c :: c in [a, b][0].columns ==> SharedMeans(ColumnOf([a, b], c), OneDictionary(shared, a, b)(c))
  {
    assert [a, b][1] == b;
    assert SameColumns([a, b]) ==> forall c :: c in a.columns ==> c in b.columns;
    hide ScalarBatch;
  }

  /** `concatBatches` of two batches. */
  function JoinBatches(a: Batch, b: Batch, shared: string -> bool): Result<Batch>
    requires ScalarBatch(a) && ScalarBatch(b)
  {
    JoinRequires(a, b, shared);
    ConcatBatches([a, b], OneDictionary(shared, a, b))
  }

  lemma JoinedScalar(a: Batch, b: Batch, shared: string -> bool)
    requires ScalarBatch(a) && ScalarBatch(b) && JoinBatches(a, b, shared).Ok?
    ensures ScalarBatch(JoinBatches(a, b, shared).value)
  {
    JoinRequires(a, b, shared);
    ConcatBatchesScalar([a, b], OneDictionary(shared, a, b));
  }

  /** The same columns, of vectors whose arrays can be joined as they are. */
  predicate SameLayout(a: Batch, b: Batch) {
    a.columns.Keys == b.columns.Keys && forall c :: c in a.columns ==> Joinable(a.columns[c], b.columns[c])
  }

  /** No column of the two would be encoded afresh: timestamps agree on unit and
      zone flag, dictionaries are one object. */
  predicate Seamless(a: Batch, b: Batch, shared: string -> bool) {
    forall c :: c in a.columns && c in b.columns ==>
      && (a.columns[c].TimestampVector? && b.columns[c].TimestampVector? ==>
            a.columns[c].unit == b.columns[c].unit && a.columns[c].utc == b.columns[c].utc)
      && (a.columns[c].DictVector? && b.columns[c].DictVector? ==>
            shared(c) && a.columns[c].dictionary == b.columns[c].dictionary)
  }

  lemma ColumnJoins(a: Vector, b: Vector, shared: bool)
    requires Scalarish(a) && Scalarish(b) && SharedMeans([a, b], shared)
    requires a.TimestampVector? && b.TimestampVector? ==> a.unit == b.unit && a.utc == b.utc
    requires a.DictVector? && b.DictVector? ==> shared && a.dictionary == b.dictionary
    ensures AllScalarish([a, b])
    ensures ConcatVectors([a, b], shared).Ok? <==> Joinable(a, b)
    ensures ConcatVectors([a, b], shared).Ok? ==>
      ConcatVectors([a, b], shared) == Ok(JoinVectors([a, b])) && Joinable(a, ConcatVectors([a, b], shared).value)
  {
    hide WellFormed, IsScalarVector;
    var vs := [a, b];
    assert vs[1] == b;
    assert OneType(vs) <==> SameType(a, b);
    if SameType(a, b) {
      assert !Reencoded(vs, shared);
    }
  }

  lemma BatchColumnJoins(a: Batch, b: Batch, shared: string -> bool, c: string)
    requires ScalarBatch(a) && ScalarBatch(b) && Seamless(a, b, shared) && c in a.columns && c in b.columns
    requires SharedMeans(ColumnOf([a, b], c), OneDictionary(shared, a, b)(c))
    ensures AllScalarish(ColumnOf([a, b], c)) && !Reencoding(ColumnOf([a, b], c), OneDictionary(shared, a, b)(c))
    ensures ConcatVectors(ColumnOf([a, b], c), OneDictionary(shared, a, b)(c)).Ok? <==>
      Joinable(a.columns[c], b.columns[c])
    ensures ConcatVectors(ColumnOf([a, b], c), OneDictionary(shared, a, b)(c)).Ok? ==>
      Joinable(a.columns[c], ConcatVectors(ColumnOf([a, b], c), OneDictionary(shared, a, b)(c)).value)
  {
    assert ColumnOf([a, b], c) == [a.columns[c], b.columns[c]];
    ColumnJoins(a.columns[c], b.columns[c], OneDictionary(shared, a, b)(c));
    hide WellFormed, IsScalarVector, ConcatVectors;
  }

  /** A column of one type that is nevertheless encoded afresh. */
  ghost predicate Reencoding(vs: seq<Vector>, shared: bool) {
    vs != [] && OneType(vs) && Reencoded(vs, shared)
  }

  /** Where nothing would be encoded afresh, joining succeeds if and only if the
      layouts are the same, and then puts the rows end to end. */
  lemma JoinExactly(a: Batch, b: Batch, shared: string -> bool)
    requires ScalarBatch(a) && ScalarBatch(b) && Seamless(a, b, shared)
    ensures JoinBatches(a, b, shared).Ok? <==> SameLayout(a, b)
    ensures JoinBatches(a, b, shared).Err? ==> JoinBatches(a, b, shared).error == TypeError
    ensures JoinBatches(a, b, shared).Ok? ==>
      var joined := JoinBatches(a, b, shared).value;
      ScalarBatch(joined) && SameLayout(a, joined) && BatchRows(joined) == BatchRows(a) + BatchRows(b)
  {
    hide ScalarBatch, ConcatVectors, Joinable, Seamless, OneDictionary, BatchRows, Reencoding;
    var one := OneDictionary(shared, a, b);
    JoinRequires(a, b, shared);
    if a.columns.Keys == b.columns.Keys {
      BatchColumns([a, b]);
      forall c | c in a.columns
        ensures ConcatVectors(ColumnOf([a, b], c), one(c)).Ok? <==> Joinable(a.columns[c], b.columns[c])
        ensures ConcatVectors(ColumnOf([a, b], c), one(c)).Ok? ==>
          Joinable(a.columns[c], ConcatVectors(ColumnOf([a, b], c), one(c)).value)
        ensures !Reencoding(ColumnOf([a, b], c), one(c))
      {
        BatchColumnJoins(a, b, shared, c);
      }
      if JoinBatches(a, b, shared).Ok? {
        JoinedRows(a, b, shared);
      }
    }
  }

  lemma JoinedRows(a: Batch, b: Batch, shared: string -> bool)
    requires ScalarBatch(a) && ScalarBatch(b) && JoinBatches(a, b, shared).Ok? && a.columns.Keys == b.columns.Keys
    requires forall c :: c in a.columns ==> !Reencoding(ColumnOf([a, b], c), OneDictionary(shared, a, b)(c))
    ensures ScalarBatch(JoinBatches(a, b, shared).value)
    ensures BatchRows(JoinBatches(a, b, shared).value) == BatchRows(a) + BatchRows(b)
  {
    var one, joined := OneDictionary(shared, a, b), JoinBatches(a, b, shared).value;
    JoinRequires(a, b, shared);
    BatchColumns([a, b]);
    JoinedScalar(a, b, shared);
    forall c | c in a.columns ensures !Reencoded(ColumnOf([a, b], c), one(c)) {
      assert ConcatVectors(ColumnOf([a, b], c), one(c)).Ok?;
    }
    ConcatBatchesDenotes([a, b], one);
    hide *;
    ConcatenatedRows(joined, a, b);
  }

  lemma TwoCounts(a: Batch, b: Batch)
    ensures RowCounts([a, b][..0]) == 0 && RowCounts([a, b][..1]) == a.rowCount
    ensures RowCounts([a, b]) == a.rowCount + b.rowCount
  {
    assert [a, b][..1] == [a] && [a][..0] == [];
    assert RowCounts([a]) == RowCounts([]) + a.rowCount;
  }

  lemma ConcatenatesCount(joined: Batch, batches: seq<Batch>)
    requires Concatenates(joined, batches)
    ensures joined.rowCount == RowCounts(batches)
  {
  }

  lemma ConcatenatedRows(joined: Batch, a: Batch, b: Batch)
    requires Concatenates(joined, [a, b]) && ScalarBatch(joined) && ScalarBatch(a) && ScalarBatch(b)
    ensures BatchRows(joined) == BatchRows(a) + BatchRows(b)
  {
    hide Concatenates, ScalarBatch, MaterializeRow, RowCounts;
    TwoCounts(a, b);
    ConcatenatesCount(joined, [a, b]);
    forall i | 0 <= i < joined.rowCount ensures BatchRows(joined)[i] == (BatchRows(a) + BatchRows(b))[i] {
      if i < a.rowCount {
        ConcatenatedRow(joined, [a, b], 0, i);
      } else {
        ConcatenatedRow(joined, [a, b], 1, i - a.rowCount);
      }
    }
  }

  // ----- Layouts -----

  lemma LayoutFollows(a: Batch, b: Batch, c: Batch)
    requires SameLayout(a, b)
    ensures SameLayout(a, c) <==> SameLayout(b, c)
  {
  }

  lemma GatheredLayout(batch: Batch, indices: seq<nat>)
    requires ScalarBatch(batch) && InRange(indices, batch.rowCount)
    ensures SameLayout(batch, GatherBatch(batch, indices))
  {
    hide WellFormed, PickValid;
  }

  lemma TopKLayout(batch: Batch, terms: seq<OrderTerm>, offset: nat, limit: nat, selection: Option<seq<nat>>)
    requires ScalarBatch(batch) && TopKBatch(batch, terms, offset, limit, selection).Ok?
    ensures ScalarBatch(TopKBatch(batch, terms, offset, limit, selection).value)
    ensures SameLayout(batch, TopKBatch(batch, terms, offset, limit, selection).value)
  {
    var indices := if offset + limit == 0 then [] else TopKIndices(batch, terms, offset, limit, selection);
    GatheredLayout(batch, indices);
    GatheredScalar(batch, indices);
  }

  lemma JoinableFollows(a: Vector, b: Vector, x: Vector, y: Vector)
    requires Joinable(a, x) && Joinable(b, y)
    ensures Joinable(a, b) <==> Joinable(x, y)
    ensures a.TimestampVector? <==> x.TimestampVector?
    ensures a.DictVector? <==> x.DictVector?
  {
  }

  lemma SeamlessFollows(a: Batch, b: Batch, x: Batch, y: Batch, shared: string -> bool)
    requires SameLayout(a, x) && SameLayout(b, y) && Seamless(a, b, shared)
    ensures Seamless(x, y, shared)
    ensures SameLayout(a, b) <==> SameLayout(x, y)
  {
    forall c | c in a.columns && c in b.columns
      ensures Joinable(a.columns[c], b.columns[c]) <==> Joinable(x.columns[c], y.columns[c])
      ensures a.columns[c].TimestampVector? <==> x.columns[c].TimestampVector?
      ensures a.columns[c].DictVector? <==> x.columns[c].DictVector?
      ensures b.columns[c].TimestampVector? <==> y.columns[c].TimestampVector?
      ensures b.columns[c].DictVector? <==> y.columns[c].DictVector?
    {
      JoinableFollows(a.columns[c], b.columns[c], x.columns[c], y.columns[c]);
      JoinableFollows(b.columns[c], a.columns[c], y.columns[c], x.columns[c]);
    }
    hide SameType;
  }

  lemma ColumnsFollow(a: Batch, b: Batch, terms: seq<OrderTerm>)
    requires SameLayout(a, b)
    ensures ColumnsExist(a, terms) <==> ColumnsExist(b, terms)
  {
  }

  // ----- The fold -----

  /** The winners among the first batches: each batch's own winners are joined
      with those retained, and cut to `topK` again. `shared(i, c)` says whether
      column `c` of batch `i` has the dictionary object of the first batch. */
  function Retained(terms: seq<OrderTerm>, topK: nat, parts: seq<Part>, shared: (nat, string) -> bool)
    : (r: Result<Batch>)
    requires ScalarParts(parts) && parts != []
    ensures r.Ok? ==> ScalarBatch(r.value)
    decreases |parts|
  {
    var i := |parts| - 1;
    var last := parts[i];
    if i == 0 then
      var winners := TopKBatch(last.batch, terms, 0, topK, last.selection);
      assert winners.Ok? ==> ScalarBatch(winners.value) by {
        if winners.Ok? {
          TopKLayout(last.batch, terms, 0, topK, last.selection);
        }
      }
      winners
    else
      var retained :- Retained(terms, topK, parts[..i], shared);
      RetainMore(terms, topK, retained, last, (c: string) => shared(i, c))
  }

  function RetainMore(terms: seq<OrderTerm>, topK: nat, retained: Batch, last: Part, shared: string -> bool)
    : (r: Result<Batch>)
    requires ScalarBatch(retained) && ScalarBatch(last.batch)
    ensures r.Ok? ==> ScalarBatch(r.value)
  {
    var candidates :- TopKBatch(last.batch, terms, 0, topK, last.selection);
    assert ScalarBatch(candidates) by { TopKLayout(last.batch, terms, 0, topK, last.selection); }
    var joined :- JoinBatches(retained, candidates, shared);
    assert ScalarBatch(joined) by { JoinedScalar(retained, candidates, shared); }
    var winners := TopKBatch(joined, terms, 0, topK, None);
    assert winners.Ok? ==> ScalarBatch(winners.value) by {
      if winners.Ok? {
        TopKLayout(joined, terms, 0, topK, None);
      }
    }
    winners
  }

  /** The rows of the whole query. */
  function StreamRows(terms: seq<OrderTerm>, offset: nat, limit: nat, parts: seq<Part>, shared: (nat, string) -> bool)
    : Result<seq<Row>>
    requires ScalarParts(parts)
  {
    if parts == [] then Ok([])
    else
      var retained :- Retained(terms, offset + limit, parts, shared);
      var page :- TopKBatch(retained, terms, offset, limit, None);
      assert ScalarBatch(page) by { TopKLayout(retained, terms, offset, limit, None); }
      Ok(BatchRows(page))
  }

  // ----- Streams in which nothing is encoded afresh -----

  predicate OneLayout(parts: seq<Part>) {
    forall i :: 0 <= i < |parts| ==> SameLayout(parts[0].batch, parts[i].batch)
  }

  ghost predicate SeamlessParts(parts: seq<Part>, shared: (nat, string) -> bool) {
    forall i :: 0 < i < |parts| ==> Seamless(parts[0].batch, parts[i].batch, (c: string) => shared(i, c))
  }

  lemma AllSelected(n: nat)
    ensures |Selected(n, None)| == n && forall i :: 0 <= i < n ==> Selected(n, None)[i] == i
  {
  }

  lemma WholeBatch(batch: Batch)
    requires ScalarBatch(batch)
    ensures SelectedRows(Part(batch, None)) == BatchRows(batch)
  {
    AllSelected(batch.rowCount);
    hide ScalarBatch, MaterializeRow;
  }

  /** One more batch: when it can be joined, and what is then retained. */
  lemma RetainMoreExactly(terms: seq<OrderTerm>, topK: nat, first: Batch, retained: Batch, last: Part, seen: seq<Row>,
                          shared: string -> bool)
    requires ScalarBatch(first) && ScalarBatch(retained) && ScalarBatch(last.batch)
    requires SameLayout(first, retained) && Seamless(first, last.batch, shared)
    requires BatchRows(retained) == Take(topK, Sort(ByTerms(terms), seen)) && (topK == 0 || ColumnsExist(first, terms))
    ensures RetainMore(terms, topK, retained, last, shared).Ok? <==> SameLayout(first, last.batch)
    ensures RetainMore(terms, topK, retained, last, shared).Ok? ==>
      var next := RetainMore(terms, topK, retained, last, shared).value;
      && SameLayout(first, next)
      && (BatchRows(next) == Take(topK, Sort(ByTerms(terms), seen + SelectedRows(last))))
  {
    hide ScalarBatch, MaterializeRow, SameLayout, Seamless, Selected, Sort, RowsOf;
    if SameLayout(first, last.batch) {
      ColumnsFollow(first, last.batch, terms);
    }
    var more := TopKBatch(last.batch, terms, 0, topK, last.selection);
    if more.Ok? {
      TopKLayout(last.batch, terms, 0, topK, last.selection);
      TopKBatchRows(last.batch, terms, 0, topK, last.selection);
      SeamlessFollows(first, last.batch, retained, more.value, shared);
      JoinExactly(retained, more.value, shared);
      if SameLayout(first, last.batch) {
        var joined := JoinBatches(retained, more.value, shared).value;
        LayoutFollows(first, retained, joined);
        ColumnsFollow(first, joined, terms);
        CutJoined(terms, topK, first, joined, seen, SelectedRows(last));
      }
    }
  }

  /** Cutting the joined winners gives the winners of everything. */
  lemma CutJoined(terms: seq<OrderTerm>, topK: nat, first: Batch, joined: Batch, seen: seq<Row>, more: seq<Row>)
    requires ScalarBatch(joined) && SameLayout(first, joined) && (topK == 0 || ColumnsExist(joined, terms))
    requires BatchRows(joined) == Take(topK, Sort(ByTerms(terms), seen)) + Take(topK, Sort(ByTerms(terms), more))
    ensures TopKBatch(joined, terms, 0, topK, None).Ok?
    ensures var next := TopKBatch(joined, terms, 0, topK, None).value;
      && ScalarBatch(next) && SameLayout(first, next)
      && BatchRows(next) == Take(topK, Sort(ByTerms(terms), seen + more))
  {
    hide ScalarBatch, MaterializeRow, SameLayout, Selected, Sort, RowsOf;
    TopKLayout(joined, terms, 0, topK, None);
    LayoutFollows(first, joined, TopKBatch(joined, terms, 0, topK, None).value);
    TopKBatchRows(joined, terms, 0, topK, None);
    WholeBatch(joined);
    ByTermsIsPreorder(terms);
    RetainStep(ByTerms(terms), seen, more, topK);
  }

  lemma FrontParts(parts: seq<Part>, shared: (nat, string) -> bool)
    requires ScalarParts(parts) && |parts| > 1 && SeamlessParts(parts, shared)
    ensures var n := |parts| - 1;
      && ScalarParts(parts[..n]) && SeamlessParts(parts[..n], shared)
      && Seamless(parts[0].batch, parts[n].batch, (c: string) => shared(n, c))
      && (OneLayout(parts) <==> OneLayout(parts[..n]) && SameLayout(parts[0].batch, parts[n].batch))
  {
    hide ScalarBatch, Seamless, SameLayout;
    var front := parts[..|parts| - 1];
    assert forall i :: 0 <= i < |front| ==> front[i] == parts[i];
    if OneLayout(parts) {
      forall i | 0 <= i < |front| ensures SameLayout(front[0].batch, front[i].batch) {
        assert SameLayout(parts[0].batch, parts[i].batch);
      }
    }
  }

  /** Where nothing would be encoded afresh, the fold succeeds exactly on streams
      of one layout, and retains the winners of all rows. */
  lemma {:induction false} RetainedExactly(terms: seq<OrderTerm>, topK: nat, parts: seq<Part>,
                                           shared: (nat, string) -> bool)
    requires ScalarParts(parts) && parts != [] && SeamlessParts(parts, shared)
    ensures Retained(terms, topK, parts, shared).Ok? <==>
      OneLayout(parts) && (topK == 0 || ColumnsExist(parts[0].batch, terms))
    ensures Retained(terms, topK, parts, shared).Ok? ==>
      var retained := Retained(terms, topK, parts, shared).value;
      && SameLayout(parts[0].batch, retained)
      && BatchRows(retained) == Take(topK, Sort(ByTerms(terms), AllRows(parts)))
    decreases |parts|
  {
    var i := |parts| - 1;
    if i == 0 {
      RetainedFirst(terms, topK, parts, shared);
    } else {
      FrontParts(parts, shared);
      RetainedExactly(terms, topK, parts[..i], shared);
      hide ScalarBatch, MaterializeRow, SameLayout, Seamless, Selected, Sort, RowsOf, RetainMore, SeamlessParts;
      hide OneLayout;
      if Retained(terms, topK, parts[..i], shared).Ok? {
        var retained := Retained(terms, topK, parts[..i], shared).value;
        RetainMoreExactly(terms, topK, parts[0].batch, retained, parts[i], AllRows(parts[..i]),
                          (c: string) => shared(i, c));
      }
    }
  }

  lemma OneBatch(parts: seq<Part>)
    requires ScalarParts(parts) && |parts| == 1
    ensures OneLayout(parts) && AllRows(parts) == SelectedRows(parts[0])
  {
    hide ScalarBatch, SelectedRows;
    assert AllRows(parts[..0]) == [];
  }

  lemma RetainedFirst(terms: seq<OrderTerm>, topK: nat, parts: seq<Part>, shared: (nat, string) -> bool)
    requires ScalarParts(parts) && |parts| == 1
    ensures Retained(terms, topK, parts, shared).Ok? <==>
      OneLayout(parts) && (topK == 0 || ColumnsExist(parts[0].batch, terms))
    ensures Retained(terms, topK, parts, shared).Ok? ==>
      var retained := Retained(terms, topK, parts, shared).value;
      && SameLayout(parts[0].batch, retained)
      && BatchRows(retained) == Take(topK, Sort(ByTerms(terms), AllRows(parts)))
  {
    OneBatch(parts);
    hide ScalarBatch, MaterializeRow, SameLayout, OneLayout, Selected, Sort, RowsOf, AllRows;
    var first := parts[0];
    if Retained(terms, topK, parts, shared).Ok? {
      TopKLayout(first.batch, terms, 0, topK, first.selection);
      TopKBatchRows(first.batch, terms, 0, topK, first.selection);
    }
  }

  /** Main theorem: where nothing would be encoded afresh, the query succeeds
      exactly on streams of one layout, and returns the requested page of the
      stable sort of all selected rows, whatever the batching. */
  lemma StreamExactly(terms: seq<OrderTerm>, offset: nat, limit: nat, parts: seq<Part>, shared: (nat, string) -> bool)
    requires ScalarParts(parts) && SeamlessParts(parts, shared)
    ensures StreamRows(terms, offset, limit, parts, shared).Ok? <==>
      parts == [] || (OneLayout(parts) && (offset + limit == 0 || ColumnsExist(parts[0].batch, terms)))
    ensures StreamRows(terms, offset, limit, parts, shared).Ok? ==>
      StreamRows(terms, offset, limit, parts, shared) == Ok(Slice(Sort(ByTerms(terms), AllRows(parts)), offset, limit))
  {
    hide ScalarBatch, SameLayout, Sort, AllRows, SeamlessParts, OneLayout, Retained, Slice, Take, TopKBatch, BatchRows;
    NoBatches(terms, offset, limit);
    if parts != [] {
      RetainedExactly(terms, offset + limit, parts, shared);
      if Retained(terms, offset + limit, parts, shared).Ok? {
        var retained := Retained(terms, offset + limit, parts, shared).value;
        ColumnsFollow(parts[0].batch, retained, terms);
        LastPage(terms, offset, limit, retained, AllRows(parts));
      }
    }
  }

  lemma NoBatches(terms: seq<OrderTerm>, offset: nat, limit: nat)
    ensures ScalarParts([]) && Slice(Sort(ByTerms(terms), AllRows([])), offset, limit) == []
  {
  }

  lemma LastPage(terms: seq<OrderTerm>, offset: nat, limit: nat, retained: Batch, seen: seq<Row>)
    requires ScalarBatch(retained) && (offset + limit == 0 || ColumnsExist(retained, terms))
    requires BatchRows(retained) == Take(offset + limit, Sort(ByTerms(terms), seen))
    ensures TopKBatch(retained, terms, offset, limit, None).Ok?
    ensures ScalarBatch(TopKBatch(retained, terms, offset, limit, None).value)
    ensures BatchRows(TopKBatch(retained, terms, offset, limit, None).value)
      == Slice(Sort(ByTerms(terms), seen), offset, limit)
  {
    hide ScalarBatch, MaterializeRow, Selected, Sort, RowsOf;
    var sorted := Sort(ByTerms(terms), seen);
    TopKBatchRows(retained, terms, offset, limit, None);
    WholeBatch(retained);
    ByTermsIsPreorder(terms);
    TrimKeeps(ByTerms(terms), seen, offset + limit);
    SliceOfTake(sorted, offset, limit);
    SliceOfTake(Sort(ByTerms(terms), BatchRows(retained)), offset, limit);
  }

  // ----- Streams in which something is encoded afresh -----

  /** All timestamps of a vector have one unit and zone flag. */
  lemma {:induction false} OneUnit(v: Vector, i: nat, j: nat)
    requires Scalarish(v) && i < Length(v) && j < Length(v) && ScalarAt(v, i).Time? && ScalarAt(v, j).Time?
    ensures ScalarAt(v, i).t.unit == ScalarAt(v, j).t.unit && ScalarAt(v, i).t.utc == ScalarAt(v, j).t.utc
    ensures v.TimestampVector? ==> ScalarAt(v, i).t.unit == v.unit && ScalarAt(v, i).t.utc == v.utc
  {
    if v.DictVector? {
      OneUnit(v.dictionary, v.indices[i], v.indices[j]);
    }
  }

  /** Whatever was scanned, the timestamps a query returns in one column have one
      unit and zone flag. */
  lemma StreamHasOneUnit(terms: seq<OrderTerm>, offset: nat, limit: nat, parts: seq<Part>,
                         shared: (nat, string) -> bool, r: Row, s: Row, c: string)
    requires ScalarParts(parts) && StreamRows(terms, offset, limit, parts, shared).Ok?
    requires r in StreamRows(terms, offset, limit, parts, shared).value
    requires s in StreamRows(terms, offset, limit, parts, shared).value
    requires c in r && c in s && r[c].Time? && s[c].Time?
    ensures r[c].t.unit == s[c].t.unit && r[c].t.utc == s[c].t.utc
  {
    var retained := Retained(terms, offset + limit, parts, shared).value;
    TopKLayout(retained, terms, offset, limit, None);
    var page := TopKBatch(retained, terms, offset, limit, None).value;
    hide StreamRows, Retained, TopKBatch;
    var i :| 0 <= i < page.rowCount && r == MaterializeRow(page, i);
    var j :| 0 <= j < page.rowCount && s == MaterializeRow(page, j);
    OneUnit(page.columns[c], i, j);
  }

  /** Batches share the dictionary objects of the first one. */
  predicate DictionariesShared(parts: seq<Part>, shared: (nat, string) -> bool) {
    forall i, c :: 0 < i < |parts| && c in parts[0].batch.columns && c in parts[i].batch.columns
                   && parts[0].batch.columns[c].DictVector? && parts[i].batch.columns[c].DictVector? ==>
      shared(i, c) && parts[0].batch.columns[c].dictionary == parts[i].batch.columns[c].dictionary
  }

  /** Every timestamp column of every batch has a selected timestamp. */
  ghost predicate TimestampsPresent(parts: seq<Part>)
    requires ScalarParts(parts)
  {
    forall i, c :: 0 <= i < |parts| && c in parts[i].batch.columns && parts[i].batch.columns[c].TimestampVector? ==>
      HasTimestamp(parts[i], c)
  }

  ghost predicate HasTimestamp(part: Part, c: string)
    requires ScalarBatch(part.batch)
  {
    exists r: Row :: r in SelectedRows(part) && c in r && r[c].Time?
  }

  lemma SelectedUnit(part: Part, c: string, r: Row)
    requires ScalarBatch(part.batch) && r in SelectedRows(part) && c in r && r[c].Time?
    requires c in part.batch.columns && part.batch.columns[c].TimestampVector?
    ensures r[c].t.unit == part.batch.columns[c].unit && r[c].t.utc == part.batch.columns[c].utc
  {
    var selected := Selected(part.batch.rowCount, part.selection);
    SelectedAscending(part.batch.rowCount, part.selection);
    var k :| 0 <= k < |selected| && r == RowsOf(part.batch)(selected[k]);
    OneUnit(part.batch.columns[c], selected[k], selected[k]);
  }

  lemma {:induction false} AllRowsHave(parts: seq<Part>, i: nat, r: Row)
    requires ScalarParts(parts) && i < |parts| && r in SelectedRows(parts[i])
    ensures r in AllRows(parts)
    decreases |parts|
  {
    hide ScalarBatch, SelectedRows;
    if i < |parts| - 1 {
      AllRowsHave(parts[..|parts| - 1], i, r);
    }
  }

  /** A query that returns all rows as they are meets no differing units. */
  lemma UnitsAgree(terms: seq<OrderTerm>, parts: seq<Part>, shared: (nat, string) -> bool, i: nat, c: string)
    requires ScalarParts(parts) && TimestampsPresent(parts) && i < |parts|
    requires StreamRows(terms, 0, |AllRows(parts)|, parts, shared) == Ok(Sort(ByTerms(terms), AllRows(parts)))
    requires c in parts[0].batch.columns && parts[0].batch.columns[c].TimestampVector?
    requires c in parts[i].batch.columns && parts[i].batch.columns[c].TimestampVector?
    ensures parts[0].batch.columns[c].unit == parts[i].batch.columns[c].unit
    ensures parts[0].batch.columns[c].utc == parts[i].batch.columns[c].utc
  {
    hide ScalarBatch, SelectedRows, StreamRows, AllRows, Sort;
    assert HasTimestamp(parts[0], c) && HasTimestamp(parts[i], c);
    var r: Row :| r in SelectedRows(parts[0]) && c in r && r[c].Time?;
    var s: Row :| s in SelectedRows(parts[i]) && c in s && s[c].Time?;
    SelectedUnit(parts[0], c, r);
    SelectedUnit(parts[i], c, s);
    AllRowsHave(parts, 0, r);
    AllRowsHave(parts, i, s);
    SortContents(ByTerms(terms), AllRows(parts));
    SortHas(ByTerms(terms), AllRows(parts), r);
    SortHas(ByTerms(terms), AllRows(parts), s);
    StreamHasOneUnit(terms, 0, |AllRows(parts)|, parts, shared, r, s, c);
  }

  lemma SortHas<T>(cmp: (T, T) -> int, s: seq<T>, x: T)
    requires x in s
    ensures x in Sort(cmp, s)
  {
    SortContents(cmp, s);
    assert x in multiset(s);
    assert x in multiset(Sort(cmp, s));
  }

  /** Every page of every size is right if and only if all batches have one
      layout: the same columns, each of one vector type, and timestamps of one
      unit and zone flag. */
  lemma StreamRightExactly(terms: seq<OrderTerm>, parts: seq<Part>, shared: (nat, string) -> bool)
    requires ScalarParts(parts) && parts != [] && ColumnsExist(parts[0].batch, terms)
    requires DictionariesShared(parts, shared) && TimestampsPresent(parts)
    ensures (forall offset, limit ::
               StreamRows(terms, offset, limit, parts, shared)
                 == Ok(Slice(Sort(ByTerms(terms), AllRows(parts)), offset, limit)))
       <==> OneLayout(parts)
  {
    var sorted, n := Sort(ByTerms(terms), AllRows(parts)), |AllRows(parts)|;
    SortContents(ByTerms(terms), AllRows(parts));
    assert Slice(sorted, 0, n) == sorted;
    if StreamRows(terms, 0, n, parts, shared) == Ok(Slice(sorted, 0, n)) {
      SeamlessWhenRight(terms, parts, shared);
      StreamExactly(terms, 0, n, parts, shared);
    }
    if OneLayout(parts) {
      SeamlessLayout(parts, shared);
      forall offset, limit
        ensures StreamRows(terms, offset, limit, parts, shared) == Ok(Slice(sorted, offset, limit))
      {
        StreamExactly(terms, offset, limit, parts, shared);
      }
    }
  }

  lemma SeamlessLayout(parts: seq<Part>, shared: (nat, string) -> bool)
    requires ScalarParts(parts) && OneLayout(parts) && DictionariesShared(parts, shared)
    ensures SeamlessParts(parts, shared)
  {
    hide ScalarBatch;
    forall i | 0 < i < |parts| ensures Seamless(parts[0].batch, parts[i].batch, (c: string) => shared(i, c)) {
      assert SameLayout(parts[0].batch, parts[i].batch);
    }
  }

  lemma SeamlessWhenRight(terms: seq<OrderTerm>, parts: seq<Part>, shared: (nat, string) -> bool)
    requires ScalarParts(parts) && DictionariesShared(parts, shared) && TimestampsPresent(parts)
    requires StreamRows(terms, 0, |AllRows(parts)|, parts, shared) == Ok(Sort(ByTerms(terms), AllRows(parts)))
    ensures SeamlessParts(parts, shared)
  {
    hide ScalarBatch, StreamRows, AllRows, Sort, HasTimestamp;
    forall i, c | 0 < i < |parts| && c in parts[0].batch.columns && c in parts[i].batch.columns
                  && parts[0].batch.columns[c].TimestampVector? && parts[i].batch.columns[c].TimestampVector?
      ensures parts[0].batch.columns[c].unit == parts[i].batch.columns[c].unit
      ensures parts[0].batch.columns[c].utc == parts[i].batch.columns[c].utc
    {
      UnitsAgree(terms, parts, shared, i, c);
    }
  }

  // ----- Streams that fail -----

  /** The joined column keeps its type, but a dictionary that is not shared is
      read out. */
  lemma JoinedKind(a: Batch, b: Batch, shared: string -> bool, c: string)
    requires ScalarBatch(a) && ScalarBatch(b) && JoinBatches(a, b, shared).Ok? && c in a.columns
    ensures c in b.columns && (a.columns[c].DictVector? <==> b.columns[c].DictVector?)
    ensures c in JoinBatches(a, b, shared).value.columns
    ensures !shared(c) || !a.columns[c].DictVector? ==> !JoinBatches(a, b, shared).value.columns[c].DictVector?
  {
    hide WellFormed, IsScalarVector, ConcatVectors, ScalarBatch, SharedMeans, SameType, Reencoded;
    JoinRequires(a, b, shared);
    BatchColumns([a, b]);
    var one, vs := OneDictionary(shared, a, b), ColumnOf([a, b], c);
    assert vs == [a.columns[c], b.columns[c]];
    assert ConcatVectors(vs, one(c)).Ok?;
    ColumnKind(a.columns[c], b.columns[c], one(c));
  }

  lemma ColumnKind(a: Vector, b: Vector, shared: bool)
    requires AllScalarish([a, b]) && SharedMeans([a, b], shared) && ConcatVectors([a, b], shared).Ok?
    ensures a.DictVector? <==> b.DictVector?
    ensures !shared || !a.DictVector? ==> !ConcatVectors([a, b], shared).value.DictVector?
  {
    hide WellFormed, IsScalarVector;
    assert SameType([a, b][0], [a, b][1]);
  }

  lemma RetainMoreKind(terms: seq<OrderTerm>, topK: nat, retained: Batch, last: Part, shared: string -> bool, c: string)
    requires ScalarBatch(retained) && ScalarBatch(last.batch) && RetainMore(terms, topK, retained, last, shared).Ok?
    requires c in retained.columns
    ensures c in last.batch.columns && (retained.columns[c].DictVector? <==> last.batch.columns[c].DictVector?)
    ensures c in RetainMore(terms, topK, retained, last, shared).value.columns
    ensures !shared(c) || !retained.columns[c].DictVector? ==>
      !RetainMore(terms, topK, retained, last, shared).value.columns[c].DictVector?
  {
    hide ScalarBatch, TopKBatch, JoinBatches;
    var candidates := TopKBatch(last.batch, terms, 0, topK, last.selection).value;
    TopKLayout(last.batch, terms, 0, topK, last.selection);
    var joined := JoinBatches(retained, candidates, shared).value;
    JoinedScalar(retained, candidates, shared);
    JoinedKind(retained, candidates, shared, c);
    TopKLayout(joined, terms, 0, topK, None);
    assert Joinable(last.batch.columns[c], candidates.columns[c]);
    assert Joinable(joined.columns[c], TopKBatch(joined, terms, 0, topK, None).value.columns[c]);
  }

  /** Once a dictionary has been read out, the retained column is plain. */
  lemma {:induction false} ReadOut(terms: seq<OrderTerm>, topK: nat, parts: seq<Part>, shared: (nat, string) -> bool,
                                   c: string, i: nat)
    requires ScalarParts(parts) && parts != [] && Retained(terms, topK, parts, shared).Ok?
    requires c in parts[0].batch.columns
    ensures c in Retained(terms, topK, parts, shared).value.columns
    ensures 0 < i < |parts| && !shared(i, c) ==> !Retained(terms, topK, parts, shared).value.columns[c].DictVector?
    decreases |parts|
  {
    var n := |parts| - 1;
    hide ScalarBatch, RetainMore;
    if n == 0 {
      TopKLayout(parts[0].batch, terms, 0, topK, parts[0].selection);
    } else {
      ReadOut(terms, topK, parts[..n], shared, c, i);
      RetainMoreKind(terms, topK, Retained(terms, topK, parts[..n], shared).value, parts[n],
                     (c: string) => shared(n, c), c);
    }
  }

  lemma {:induction false} FailureStays(terms: seq<OrderTerm>, topK: nat, parts: seq<Part>,
                                        shared: (nat, string) -> bool, n: nat)
    requires ScalarParts(parts) && 0 < n <= |parts| && Retained(terms, topK, parts[..n], shared).Err?
    ensures Retained(terms, topK, parts, shared) == Retained(terms, topK, parts[..n], shared)
    decreases |parts|
  {
    hide ScalarBatch, RetainMore;
    if n == |parts| {
      assert parts[..n] == parts;
    } else {
      var front := parts[..|parts| - 1];
      assert front[..n] == parts[..n];
      FailureStays(terms, topK, front, shared, n);
    }
  }

  /** Dictionaries that are different objects are read out at the first join, and
      the next batch that has one cannot be joined any more. */
  lemma UnsharedDictionaryFails(terms: seq<OrderTerm>, offset: nat, limit: nat, parts: seq<Part>,
                                shared: (nat, string) -> bool, c: string, i: nat, j: nat)
    requires ScalarParts(parts) && 0 < i < j < |parts| && !shared(i, c) && c in parts[0].batch.columns
    requires c in parts[j].batch.columns && parts[j].batch.columns[c].DictVector?
    ensures StreamRows(terms, offset, limit, parts, shared).Err?
  {
    hide ScalarBatch, RetainMore, StreamRows;
    var topK, front := offset + limit, parts[..j];
    var upTo := parts[..j + 1];
    assert upTo[..j] == front && upTo[j] == parts[j];
    if Retained(terms, topK, upTo, shared).Ok? {
      ReadOut(terms, topK, front, shared, c, i);
      RetainMoreKind(terms, topK, Retained(terms, topK, front, shared).value, parts[j], (c: string) => shared(j, c), c);
      assert false;
    }
    FailureStays(terms, topK, parts, shared, j + 1);
    StreamFails(terms, offset, limit, parts, shared);
  }

  lemma StreamFails(terms: seq<OrderTerm>, offset: nat, limit: nat, parts: seq<Part>, shared: (nat, string) -> bool)
    requires ScalarParts(parts) && parts != [] && Retained(terms, offset + limit, parts, shared).Err?
    ensures StreamRows(terms, offset, limit, parts, shared).Err?
  {
    hide ScalarBatch, Retained;
  }

  /** A first batch whose column is all null and a second one with numbers. */
  lemma NullThenNumberFails(shared: (nat, string) -> bool)
    ensures var parts := [Part(Batch(1, map["t" := NullVector(1)]), None),
                          Part(Batch(1, map["t" := NumberVector(F64, [Fin(1.0)], None)]), None)];
      ScalarParts(parts) && StreamRows([OrderTerm("t", false, false)], 0, 2, parts, shared).Err?
  {
    var parts := [Part(Batch(1, map["t" := NullVector(1)]), None),
                  Part(Batch(1, map["t" := NumberVector(F64, [Fin(1.0)], None)]), None)];
    assert !Joinable(parts[0].batch.columns["t"], parts[1].batch.columns["t"]);
    assert !SameLayout(parts[0].batch, parts[1].batch);
    hide ScalarBatch, StreamRows;
    StreamExactly([OrderTerm("t", false, false)], 0, 2, parts, shared);
  }

  /** One batch of one row, one unit after the epoch. */
  function OneTick(unit: TimestampUnit): Part {
    Part(Batch(1, map["t" := TimestampVector([1], unit, true, None)]), None)
  }

  function TickRow(unit: TimestampUnit): Row {
    map["t" := Time(Timestamp(NanosPerUnit(unit), unit, true))]
  }

  lemma OneTickRow(unit: TimestampUnit)
    ensures ScalarBatch(OneTick(unit).batch) && SelectedRows(OneTick(unit)) == [TickRow(unit)]
    ensures HasTimestamp(OneTick(unit), "t")
  {
    hide NanosPerUnit;
    WholeBatch(OneTick(unit).batch);
    assert MaterializeRow(OneTick(unit).batch, 0) == TickRow(unit);
    assert TickRow(unit) in SelectedRows(OneTick(unit));
  }

  lemma TwoParts(a: Part, b: Part)
    requires ScalarBatch(a.batch) && ScalarBatch(b.batch)
    ensures ScalarParts([a, b]) && AllRows([a, b]) == SelectedRows(a) + SelectedRows(b)
  {
    hide ScalarBatch, SelectedRows;
    assert [a, b][..1] == [a] && [a][..0] == [];
    assert AllRows([]) == [];
    assert AllRows([a]) == SelectedRows(a);
  }

  /** One millisecond, then one microsecond: the two rows do not come back. */
  lemma FinerUnitFails(shared: (nat, string) -> bool)
    ensures var parts, terms := [OneTick(Millis), OneTick(Micros)], [OrderTerm("t", false, false)];
      && ScalarParts(parts) && AllRows(parts) == [TickRow(Millis), TickRow(Micros)]
      && StreamRows(terms, 0, 2, parts, shared) != Ok(Sort(ByTerms(terms), AllRows(parts)))
  {
    hide ByTerms, StreamRows;
    var parts, terms := [OneTick(Millis), OneTick(Micros)], [OrderTerm("t", false, false)];
    OneTickRow(Millis);
    OneTickRow(Micros);
    TwoParts(OneTick(Millis), OneTick(Micros));
    hide ScalarBatch, StreamRows, Sort, SelectedRows, AllRows, HasTimestamp, NanosPerUnit;
    assert TimestampsPresent(parts);
    assert |AllRows(parts)| == 2;
    if StreamRows(terms, 0, 2, parts, shared) == Ok(Sort(ByTerms(terms), AllRows(parts))) {
      UnitsAgree(terms, parts, shared, 1, "t");
      assert false;
    }
  }

  // ----- The query as it runs -----

  predicate SortableScalar(s: Scalar) {
    !s.Bytes? && !s.Span? && !IsNaN(s)
  }

  /** A column that can be sorted by: not binary, and free of NaN. */
  ghost predicate SortableColumn(v: Vector)
    requires Scalarish(v)
  {
    forall i :: 0 <= i < Length(v) ==> SortableScalar(ScalarAt(v, i))
  }

  ghost predicate Sortable(batch: Batch, terms: seq<OrderTerm>)
    requires ScalarBatch(batch)
  {
    forall t :: t in terms && t.column in batch.columns ==> SortableColumn(batch.columns[t.column])
  }

  /** Present values of one vector are of one type. */
  lemma {:induction false} OneClass(v: Vector, i: nat, j: nat)
    requires Scalarish(v) && i < Length(v) && j < Length(v) && !ScalarAt(v, i).Null? && !ScalarAt(v, j).Null?
    ensures TypeOfScalar(ScalarAt(v, i)) == TypeOfScalar(ScalarAt(v, j))
    ensures ScalarAt(v, i).Time? <==> ScalarAt(v, j).Time?
  {
    if v.DictVector? {
      OneClass(v.dictionary, v.indices[i], v.indices[j]);
    }
  }

  /** No comparison by sortable columns throws. */
  lemma SortableCompares(batch: Batch, terms: seq<OrderTerm>, indices: seq<int>)
    requires ScalarBatch(batch) && Sortable(batch, terms) && ColumnsExist(batch, terms)
    requires forall i :: i in indices ==> 0 <= i < batch.rowCount
    ensures NaNFree(batch, terms, indices) && !Incomparable(batch, terms, indices)
  {
    forall i, t | i in indices && t in terms
      ensures t.column in batch.columns && i < Length(batch.columns[t.column])
      ensures SortableScalar(ScalarAt(batch.columns[t.column], i))
      ensures KeyOf(RowAt(batch, i), t.column) == ScalarAt(batch.columns[t.column], i)
    {
    }
    forall i, j, t | i in indices && j in indices && t in terms
      ensures CompareSortValues(t, KeyOf(RowAt(batch, i), t.column), KeyOf(RowAt(batch, j), t.column)).Ok?
    {
      var v := batch.columns[t.column];
      if !ScalarAt(v, i).Null? && !ScalarAt(v, j).Null? {
        OneClass(v, i, j);
      }
    }
  }

  /** `vectorTopKBatch`: the first rows of a batch, gathered. By sortable columns
      no comparison throws and the result is the specified one. */
  method VectorTopKBatch(batch: Batch, orderBy: seq<OrderByTerm>, offset: nat, limit: nat, selection: Option<seq<nat>>)
    returns (r: Result<Batch>)
    requires ScalarBatch(batch)
    ensures r.Ok? ==> ScalarBatch(r.value)
    ensures offset + limit == 0 ==> r == Ok(GatherBatch(batch, []))
    ensures offset + limit > 0 ==>
      match NormalizeOrderBy(orderBy)
      case Err(error) => r == Err(error)
      case Ok(terms) => Sortable(batch, terms) ==> r == TopKBatch(batch, terms, offset, limit, selection)
  {
    hide ScalarBatch, GatherBatch, Sort, Selected, Sortable, NaNFree, Incomparable;
    GatheredScalar(batch, []);
    if offset + limit == 0 {
      return Ok(GatherBatch(batch, []));
    }
    var kept, _ := VectorTopKIndices(batch, orderBy, offset + limit, selection);
    ghost var rows := Selected(batch.rowCount, selection);
    SelectedAscending(batch.rowCount, selection);
    if NormalizeOrderBy(orderBy).Ok? && ColumnsExist(batch, NormalizeOrderBy(orderBy).value)
       && Sortable(batch, NormalizeOrderBy(orderBy).value) {
      SortableCompares(batch, NormalizeOrderBy(orderBy).value, rows);
    }
    if kept.Err? {
      return Err(kept.error);
    }
    var normalized := NormalizeVectorOrderBy(orderBy);
    var sorted := SortKept(batch, normalized.value, NormalizeOrderBy(orderBy).value, kept.value, offset + limit, rows);
    if sorted.Err? {
      return Err(sorted.error);
    }
    var page := Slice(sorted.value, offset, limit);
    assert Sortable(batch, NormalizeOrderBy(orderBy).value) ==>
      page == TopKIndices(batch, NormalizeOrderBy(orderBy).value, offset, limit, selection);
    assert forall k :: 0 <= k < |page| ==> page[k] in sorted.value;
    GatheredScalar(batch, page);
    r := Ok(GatherBatch(batch, page));
  }

  /** The second sort, of indices that are sorted already. */
  method SortKept(batch: Batch, terms: seq<OrderTerm>, ghost all: seq<OrderTerm>, kept: seq<int>, topK: nat,
                  ghost rows: seq<int>)
    returns (r: Result<seq<int>>)
    requires ScalarBatch(batch) && Within(kept, rows) && forall i :: i in rows ==> 0 <= i < batch.rowCount
    requires ColumnsExist(batch, all) && SameOrder(terms, all) && forall t :: t in terms <==> t in all
    ensures r.Ok? ==> forall i :: i in r.value ==> 0 <= i < batch.rowCount
    ensures Sortable(batch, all) && kept == Take(topK, Sort(ByIndex(batch, all), rows)) ==> r == Ok(kept)
  {
    hide ScalarBatch, Sort, TrySort, ByIndex, Sortable;
    var compare := Comparator(batch, terms);
    TrySortReturns(compare, ByIndex(batch, terms), kept, kept);
    r := TrySort(compare, kept);
    if r.Ok? {
      SameWithin(r.value, kept, rows);
    }
    if Sortable(batch, all) && kept == Take(topK, Sort(ByIndex(batch, all), rows)) {
      SortableReturns(batch, terms, all, kept);
      SortedAlready(batch, terms, all, rows, topK);
    }
  }

  lemma SortableReturns(batch: Batch, terms: seq<OrderTerm>, all: seq<OrderTerm>, kept: seq<int>)
    requires ScalarBatch(batch) && Sortable(batch, all) && ColumnsExist(batch, all)
    requires forall t :: t in terms <==> t in all
    requires forall i :: i in kept ==> 0 <= i < batch.rowCount
    ensures Computes(Comparator(batch, terms), ByIndex(batch, terms), kept)
    ensures forall error :: !ThrowsOn(Comparator(batch, terms), kept, error)
  {
    SortableCompares(batch, terms, kept);
    ComparatorComputes(batch, terms, kept);
    hide ScalarBatch, Sortable, NaNFree;
    forall i, j | i in kept && j in kept ensures CompareBatchRows(batch, terms, i, j).Ok? {
      if CompareBatchRows(batch, terms, i, j).Err? {
        ComparatorThrows(batch, terms, i, j);
        assert false;
      }
    }
  }

  lemma SortedAlready(batch: Batch, terms: seq<OrderTerm>, all: seq<OrderTerm>, rows: seq<int>, topK: nat)
    requires ScalarBatch(batch) && SameOrder(terms, all)
    ensures var kept := Take(topK, Sort(ByIndex(batch, all), rows)); Sort(ByIndex(batch, terms), kept) == kept
  {
    var kept := Take(topK, Sort(ByIndex(batch, all), rows));
    SameSort(ByIndex(batch, terms), ByIndex(batch, all), kept);
    ByIndexIsPreorder(batch, all);
    SortSorted(ByIndex(batch, all), rows);
    SortOfSorted(ByIndex(batch, all), kept);
  }

  lemma GatheredSortable(batch: Batch, indices: seq<nat>, terms: seq<OrderTerm>)
    requires ScalarBatch(batch) && InRange(indices, batch.rowCount) && Sortable(batch, terms)
    ensures ScalarBatch(GatherBatch(batch, indices)) && Sortable(GatherBatch(batch, indices), terms)
  {
    GatheredScalar(batch, indices);
    hide ScalarAt, WellFormed, GatherVector;
    forall t | t in terms && t.column in batch.columns
      ensures SortableColumn(GatherBatch(batch, indices).columns[t.column])
    {
      var v := batch.columns[t.column];
      forall i | 0 <= i < |indices| ensures SortableScalar(ScalarAt(GatherVector(v, indices), i)) {
        GatherAt(v, indices, i);
      }
      GatherWellFormed(v, indices);
    }
  }

  lemma ColumnStaysSortable(a: Vector, b: Vector, shared: bool)
    requires Scalarish(a) && Scalarish(b) && SortableColumn(a) && SortableColumn(b)
    requires AllScalarish([a, b]) && SharedMeans([a, b], shared) && ConcatVectors([a, b], shared).Ok?
    ensures Scalarish(ConcatVectors([a, b], shared).value) && SortableColumn(ConcatVectors([a, b], shared).value)
  {
    var vs, v := [a, b], ConcatVectors([a, b], shared).value;
    ConcatDenotes(vs, shared);
    TwoBlocks(a, b);
    var all := Denotes(a) + Denotes(b);
    if Denotes(v) == all {
      hide *;
      AllSortable(v, a, b);
    } else {
      AtomsAreFlat(all);
      assert v == FromValues(Atoms(all)).value;
      assert !Lossless(Atoms(all));
      assert ShapeOf(Atoms(all)) == Ok(TimestampShape);
      assert v.TimestampVector?;
      hide FromValues, Lossless, ShapeOf, ConcatVectors, DenotesAll, Denotes;
    }
  }

  lemma AllSortable(v: Vector, a: Vector, b: Vector)
    requires Scalarish(v) && Scalarish(a) && Scalarish(b) && SortableColumn(a) && SortableColumn(b)
    requires Denotes(v) == Denotes(a) + Denotes(b)
    ensures SortableColumn(v)
  {
    hide WellFormed, IsScalarVector, ScalarAt;
    forall i | 0 <= i < Length(v) ensures SortableScalar(ScalarAt(v, i)) {
      assert ScalarAt(v, i) == (Denotes(a) + Denotes(b))[i];
    }
  }

  lemma JoinedSortable(a: Batch, b: Batch, shared: string -> bool, terms: seq<OrderTerm>)
    requires ScalarBatch(a) && ScalarBatch(b) && Sortable(a, terms) && Sortable(b, terms)
    requires JoinBatches(a, b, shared).Ok?
    ensures ScalarBatch(JoinBatches(a, b, shared).value) && Sortable(JoinBatches(a, b, shared).value, terms)
  {
    var one, joined := OneDictionary(shared, a, b), JoinBatches(a, b, shared).value;
    JoinedScalar(a, b, shared);
    JoinRequires(a, b, shared);
    BatchColumns([a, b]);
    hide ScalarAt, WellFormed, IsScalarVector, ConcatVectors, SharedMeans, SameType, Reencoded, SortableColumn;
    forall t | t in terms && t.column in joined.columns ensures SortableColumn(joined.columns[t.column]) {
      assert t.column in a.columns && t.column in [a, b][1].columns;
      JoinedColumnSortable(a, b, one, t.column);
    }
  }

  lemma JoinedColumnSortable(a: Batch, b: Batch, one: string -> bool, c: string)
    requires c in a.columns && c in b.columns && Scalarish(a.columns[c]) && Scalarish(b.columns[c])
    requires SortableColumn(a.columns[c]) && SortableColumn(b.columns[c])
    requires AllScalarish(ColumnOf([a, b], c)) && SharedMeans(ColumnOf([a, b], c), one(c))
    requires ConcatVectors(ColumnOf([a, b], c), one(c)).Ok?
    ensures Scalarish(ConcatVectors(ColumnOf([a, b], c), one(c)).value)
    ensures SortableColumn(ConcatVectors(ColumnOf([a, b], c), one(c)).value)
  {
    hide WellFormed, IsScalarVector, ConcatVectors, SharedMeans, SortableColumn, AllScalarish;
    assert ColumnOf([a, b], c) == [a.columns[c], b.columns[c]];
    ColumnStaysSortable(a.columns[c], b.columns[c], one(c));
  }

  /** Every batch can be sorted by the columns of the order it has. */
  ghost predicate SortableParts(parts: seq<Part>, terms: seq<OrderTerm>)
    requires ScalarParts(parts)
  {
    forall i :: 0 <= i < |parts| ==> Sortable(parts[i].batch, terms)
  }

  lemma TopKSortable(batch: Batch, terms: seq<OrderTerm>, offset: nat, limit: nat, selection: Option<seq<nat>>)
    requires ScalarBatch(batch) && Sortable(batch, terms) && TopKBatch(batch, terms, offset, limit, selection).Ok?
    ensures ScalarBatch(TopKBatch(batch, terms, offset, limit, selection).value)
    ensures Sortable(TopKBatch(batch, terms, offset, limit, selection).value, terms)
  {
    var indices := if offset + limit == 0 then [] else TopKIndices(batch, terms, offset, limit, selection);
    GatheredSortable(batch, indices, terms);
  }

  /** The query over a stream: per-batch winners are concatenated with those
      retained and cut again; the page is cut from what is retained at the end. */
  method StreamTopK(orderBy: seq<OrderByTerm>, offset: nat, limit: nat, parts: seq<Part>, shared: (nat, string) -> bool)
    returns (r: Result<seq<Row>>)
    requires ScalarParts(parts)
    ensures match NormalizeOrderBy(orderBy)
            case Err(error) => r == Err(error)
            case Ok(terms) => SortableParts(parts, terms) ==> r == StreamRows(terms, offset, limit, parts, shared)
  {
    hide ScalarBatch, TopKBatch, Sortable, JoinBatches, BatchRows, RetainMore;
    var normalized := NormalizeOrderBy(orderBy);
    if normalized.Err? {
      return Err(normalized.error);
    }
    var terms, topK := normalized.value, offset + limit;
    var retained: Option<Batch> := None;
    ghost var sortable := SortableParts(parts, terms);
    for i := 0 to |parts|
      invariant retained.None? <==> i == 0
      invariant retained.Some? ==> ScalarBatch(retained.value) && (sortable ==> Sortable(retained.value, terms))
      invariant retained.Some? && sortable ==> Retained(terms, topK, parts[..i], shared) == Ok(retained.value)
    {
      ghost var upTo := parts[..i + 1];
      assert upTo[..i] == parts[..i] && upTo[i] == parts[i];
      var next := RetainNext(orderBy, terms, topK, retained, parts[i], (c: string) => shared(i, c), sortable);
      assert sortable ==> next == Retained(terms, topK, upTo, shared);
      if next.Err? {
        if sortable {
          FailureStays(terms, topK, parts, shared, i + 1);
        }
        return Err(next.error);
      }
      retained := Some(next.value);
    }
    assert parts[..|parts|] == parts;
    if retained.None? {
      return Ok([]);
    }
    var page := VectorTopKBatch(retained.value, orderBy, offset, limit, None);
    NothingAsked(retained.value, terms, None);
    r := if page.Err? then Err(page.error) else Ok(BatchRows(page.value));
  }

  lemma NothingAsked(batch: Batch, terms: seq<OrderTerm>, selection: Option<seq<nat>>)
    requires ScalarBatch(batch)
    ensures TopKBatch(batch, terms, 0, 0, selection) == Ok(GatherBatch(batch, []))
  {
  }

  /** One more batch. */
  method RetainNext(orderBy: seq<OrderByTerm>, terms: seq<OrderTerm>, topK: nat, retained: Option<Batch>, part: Part,
                    shared: string -> bool, ghost sortable: bool)
    returns (r: Result<Batch>)
    requires NormalizeOrderBy(orderBy) == Ok(terms) && ScalarBatch(part.batch)
      && (sortable ==> Sortable(part.batch, terms))
    requires retained.Some? ==> ScalarBatch(retained.value) && (sortable ==> Sortable(retained.value, terms))
    ensures r.Ok? ==> ScalarBatch(r.value) && (sortable ==> Sortable(r.value, terms))
    ensures sortable && retained.None? ==> r == TopKBatch(part.batch, terms, 0, topK, part.selection)
    ensures sortable && retained.Some? ==> r == RetainMore(terms, topK, retained.value, part, shared)
  {
    hide ScalarBatch, TopKBatch, Sortable, JoinBatches;
    var candidates := VectorTopKBatch(part.batch, orderBy, 0, topK, part.selection);
    NothingAsked(part.batch, terms, part.selection);
    if candidates.Err? {
      return Err(candidates.error);
    }
    if sortable {
      TopKSortable(part.batch, terms, 0, topK, part.selection);
    }
    if retained.None? {
      return Ok(candidates.value);
    }
    var joined := JoinBatches(retained.value, candidates.value, shared);
    if joined.Err? {
      return Err(joined.error);
    }
    JoinedScalar(retained.value, candidates.value, shared);
    if sortable {
      JoinedSortable(retained.value, candidates.value, shared, terms);
    }
    r := VectorTopKBatch(joined.value, orderBy, 0, topK, None);
    NothingAsked(joined.value, terms, None);
    if sortable && r.Ok? {
      TopKSortable(joined.value, terms, 0, topK, None);
    }
  }
}
