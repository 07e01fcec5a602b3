/** Top-k over a stream of batches whose columns of texts are dictionary-encoded,
    when the batches do not all have the dictionary object of the first. */
module DictionaryStreams {
  import opened Scalars
  import opened Expressions
  import opened Vectors
  import opened Orders
  import opened RowOrders
  import opened TopK
  import opened Columnar
  import opened ColumnOps
  import opened BatchStreams

  /** Columns of one type and unit; dictionaries hold texts but need not be equal. */
  predicate AlikeColumns(a: Vector, b: Vector) {
    && SameType(a, b)
    && (a.TimestampVector? ==> a.unit == b.unit && a.utc == b.utc)
    && (a.DictVector? ==> a.dictionary.Utf8Vector? && b.dictionary.Utf8Vector?)
  }

  predicate Alike(a: Batch, b: Batch) {
    a.columns.Keys == b.columns.Keys && forall c :: c in a.columns ==> AlikeColumns(a.columns[c], b.columns[c])
  }

  predicate AlikeParts(parts: seq<Part>) {
    forall i :: 0 <= i < |parts| ==> Alike(parts[0].batch, parts[i].batch)
  }

  /** A dictionary that is the first batch's object equals it. */
  predicate SharedAreEqual(parts: seq<Part>, shared: (nat, string) -> bool) {
    forall i, c :: 0 < i < |parts| && c in parts[0].batch.columns && c in parts[i].batch.columns && shared(i, c)
                   && parts[0].batch.columns[c].DictVector? && parts[i].batch.columns[c].DictVector? ==>
      parts[0].batch.columns[c].dictionary == parts[i].batch.columns[c].dictionary
  }

  /** Only the last batch may bring a dictionary of its own. */
  predicate SharedBeforeLast(parts: seq<Part>, shared: (nat, string) -> bool) {
    forall i, c :: 0 < i < |parts| - 1 && c in parts[0].batch.columns && parts[0].batch.columns[c].DictVector? ==>
      shared(i, c)
  }

  // ----- Joining dictionaries of texts -----

  predicate IsText(s: Scalar) {
    s.Null? || s.Str?
  }

  lemma {:induction false} TextsHaveOneShape(vs: seq<Value>)
    requires forall i :: 0 <= i < |vs| ==> vs[i].Atom? && IsText(vs[i].scalar)
    ensures CommonShape(vs) == Ok(NullShape) || CommonShape(vs) == Ok(Utf8Shape)
    decreases |vs|
  {
    if vs != [] {
      TextsHaveOneShape(vs[..|vs| - 1]);
    }
  }

  lemma TextsAreKept(scalars: seq<Scalar>)
    requires forall i :: 0 <= i < |scalars| ==> IsText(scalars[i])
    ensures FromValues(Atoms(scalars)).Ok? && Lossless(Atoms(scalars))
  {
    TextsHaveOneShape(Atoms(scalars));
    hide CommonShape, ValidityOfValues, FirstTimestamp;
  }

  lemma DictionaryTexts(v: Vector, i: nat)
    requires Scalarish(v) && v.DictVector? && v.dictionary.Utf8Vector? && i < Length(v)
    ensures IsText(ScalarAt(v, i))
  {
  }

  lemma AlikeJoin(a: Vector, b: Vector, shared: bool)
    requires Scalarish(a) && Scalarish(b) && AlikeColumns(a, b) && SharedMeans([a, b], shared)
    ensures AllScalarish([a, b]) && ConcatVectors([a, b], shared).Ok?
    ensures Reencoded([a, b], shared) ==> Lossless(Atoms(DenotesAll([a, b])))
  {
    TwoBlocks(a, b);
    hide WellFormed, IsScalarVector, Lossless, FromValues, JoinVectors, ScalarAt;
    assert [a, b][0] == a && [a, b][1] == b;
    if Reencoded([a, b], shared) {
      var scalars := Denotes(a) + Denotes(b);
      forall i | 0 <= i < |scalars| ensures IsText(scalars[i]) {
        if i < Length(a) {
          DictionaryTexts(a, i);
        } else {
          DictionaryTexts(b, i - Length(a));
        }
      }
      TextsAreKept(scalars);
    }
  }

  lemma AlikeColumnJoins(a: Batch, b: Batch, shared: string -> bool, c: string)
    requires ScalarBatch(a) && ScalarBatch(b) && c in a.columns && c in b.columns
    requires AlikeColumns(a.columns[c], b.columns[c])
    requires SharedMeans(ColumnOf([a, b], c), OneDictionary(shared, a, b)(c))
    ensures AllScalarish(ColumnOf([a, b], c)) && ConcatVectors(ColumnOf([a, b], c), OneDictionary(shared, a, b)(c)).Ok?
    ensures Reencoded(ColumnOf([a, b], c), OneDictionary(shared, a, b)(c)) ==>
      Lossless(Atoms(DenotesAll(ColumnOf([a, b], c))))
  {
    hide AlikeColumns, SharedMeans, AllScalarish, ConcatVectors, Reencoded, Lossless, DenotesAll, WellFormed;
    hide IsScalarVector;
    assert ColumnOf([a, b], c) == [a.columns[c], b.columns[c]];
    AlikeJoin(a.columns[c], b.columns[c], OneDictionary(shared, a, b)(c));
  }

  /** Whichever dictionaries are shared, the rows are put end to end. */
  lemma AlikeBatchesJoin(a: Batch, b: Batch, shared: string -> bool)
    requires ScalarBatch(a) && ScalarBatch(b) && Alike(a, b)
    ensures JoinBatches(a, b, shared).Ok?
    ensures var joined := JoinBatches(a, b, shared).value;
      && ScalarBatch(joined) && joined.columns.Keys == a.columns.Keys
      && BatchRows(joined) == BatchRows(a) + BatchRows(b)
  {
    hide ScalarBatch, AlikeColumns, ConcatVectors, OneDictionary, BatchRows, Reencoded, Lossless, SharedMeans;
    hide AllScalarish;
    hide DenotesAll;
    var one := OneDictionary(shared, a, b);
    JoinRequires(a, b, shared);
    BatchColumns([a, b]);
    forall c | c in a.columns
      ensures ConcatVectors(ColumnOf([a, b], c), one(c)).Ok?
      ensures Reencoded(ColumnOf([a, b], c), one(c)) ==> Lossless(Atoms(DenotesAll(ColumnOf([a, b], c))))
    {
      AlikeColumnJoins(a, b, shared, c);
    }
    JoinedScalar(a, b, shared);
    ConcatBatchesDenotes([a, b], one);
    ConcatenatedRows(JoinBatches(a, b, shared).value, a, b);
  }

  // ----- The fold -----

  lemma AlikeFollows(a: Batch, b: Batch, x: Batch, y: Batch)
    requires SameLayout(a, x) && SameLayout(b, y) && Alike(a, b)
    ensures Alike(x, y)
  {
    forall c | c in x.columns ensures AlikeColumns(x.columns[c], y.columns[c]) {
      AlikeColumnFollows(a.columns[c], b.columns[c], x.columns[c], y.columns[c]);
    }
  }

  lemma AlikeColumnFollows(a: Vector, b: Vector, x: Vector, y: Vector)
    requires Joinable(a, x) && Joinable(b, y) && AlikeColumns(a, b)
    ensures AlikeColumns(x, y)
  {
  }

  lemma SelfLayout(a: Batch)
    ensures SameLayout(a, a)
  {
  }

  /** One more batch, whatever its dictionaries. */
  lemma RetainAlike(terms: seq<OrderTerm>, topK: nat, first: Batch, retained: Batch, last: Part, seen: seq<Row>,
                    shared: string -> bool)
    requires ScalarBatch(first) && ScalarBatch(retained) && ScalarBatch(last.batch)
    requires SameLayout(first, retained) && Alike(first, last.batch)
    requires BatchRows(retained) == Take(topK, Sort(ByTerms(terms), seen)) && (topK == 0 || ColumnsExist(first, terms))
    ensures RetainMore(terms, topK, retained, last, shared).Ok?
    ensures var next := RetainMore(terms, topK, retained, last, shared).value;
      && next.columns.Keys == first.columns.Keys
      && BatchRows(next) == Take(topK, Sort(ByTerms(terms), seen + SelectedRows(last)))
  {
    hide ScalarBatch, MaterializeRow, Selected, Sort, RowsOf, BatchRows, AlikeColumns, JoinBatches, Joinable;
    hide SelectedRows;
    var more := TopKBatch(last.batch, terms, 0, topK, last.selection);
    TopKLayout(last.batch, terms, 0, topK, last.selection);
    TopKBatchRows(last.batch, terms, 0, topK, last.selection);
    AlikeFollows(first, last.batch, retained, more.value);
    AlikeBatchesJoin(retained, more.value, shared);
    var joined := JoinBatches(retained, more.value, shared).value;
    SelfLayout(joined);
    CutJoined(terms, topK, joined, joined, seen, SelectedRows(last));
  }

  lemma FrontIsSeamless(parts: seq<Part>, shared: (nat, string) -> bool)
    requires |parts| > 1 && AlikeParts(parts) && SharedAreEqual(parts, shared) && SharedBeforeLast(parts, shared)
    ensures SeamlessParts(parts[..|parts| - 1], shared) && OneLayout(parts[..|parts| - 1])
  {
    var front := parts[..|parts| - 1];
    forall i | 0 <= i < |front|
      ensures SameLayout(front[0].batch, front[i].batch)
      ensures i > 0 ==> Seamless(front[0].batch, front[i].batch, (c: string) => shared(i, c))
    {
      assert front[i] == parts[i] && Alike(parts[0].batch, parts[i].batch);
    }
  }

  lemma FoldAlike(terms: seq<OrderTerm>, topK: nat, parts: seq<Part>, shared: (nat, string) -> bool)
    requires ScalarParts(parts) && parts != [] && (topK == 0 || ColumnsExist(parts[0].batch, terms))
    requires AlikeParts(parts) && SharedAreEqual(parts, shared) && SharedBeforeLast(parts, shared)
    ensures Retained(terms, topK, parts, shared).Ok?
    ensures var retained := Retained(terms, topK, parts, shared).value;
      && retained.columns.Keys == parts[0].batch.columns.Keys
      && BatchRows(retained) == Take(topK, Sort(ByTerms(terms), AllRows(parts)))
  {
    hide ScalarBatch, MaterializeRow, Seamless, Selected, Sort, RowsOf, RetainMore, BatchRows, Joinable, SelectedRows;
    var n := |parts| - 1;
    if n == 0 {
      RetainedFirst(terms, topK, parts, shared);
      OneBatch(parts);
    } else {
      FrontIsSeamless(parts, shared);
      RetainedExactly(terms, topK, parts[..n], shared);
      var retained := Retained(terms, topK, parts[..n], shared).value;
      RetainAlike(terms, topK, parts[0].batch, retained, parts[n], AllRows(parts[..n]), (c: string) => shared(n, c));
    }
  }

  /** Main theorem: with dictionaries of texts, and otherwise one layout, the query
      succeeds if and only if no batch but the last brings a dictionary of its own,
      and then returns the requested page of the stable sort of all selected rows. */
  lemma DictionaryStreamExactly(terms: seq<OrderTerm>, offset: nat, limit: nat, parts: seq<Part>,
                                shared: (nat, string) -> bool)
    requires ScalarParts(parts) && parts != [] && AlikeParts(parts) && SharedAreEqual(parts, shared)
    ensures StreamRows(terms, offset, limit, parts, shared).Ok? <==>
      SharedBeforeLast(parts, shared) && (offset + limit == 0 || ColumnsExist(parts[0].batch, terms))
    ensures StreamRows(terms, offset, limit, parts, shared).Ok? ==>
      StreamRows(terms, offset, limit, parts, shared) == Ok(Slice(Sort(ByTerms(terms), AllRows(parts)), offset, limit))
  {
    if !SharedBeforeLast(parts, shared) {
      OwnDictionaryFails(terms, offset, limit, parts, shared);
    } else if offset + limit > 0 && !ColumnsExist(parts[0].batch, terms) {
      UnknownTermFails(terms, offset, limit, parts, shared);
    } else {
      hide ScalarBatch, Sort, AllRows, AlikeParts, SharedAreEqual, SharedBeforeLast, Retained, Slice, Take;
      hide TopKBatch, BatchRows;
      FoldAlike(terms, offset + limit, parts, shared);
      LastPage(terms, offset, limit, Retained(terms, offset + limit, parts, shared).value, AllRows(parts));
    }
  }

  lemma OwnDictionaryFails(terms: seq<OrderTerm>, offset: nat, limit: nat, parts: seq<Part>,
                           shared: (nat, string) -> bool)
    requires ScalarParts(parts) && AlikeParts(parts) && !SharedBeforeLast(parts, shared)
    ensures StreamRows(terms, offset, limit, parts, shared).Err?
  {
    hide ScalarBatch, StreamRows;
    var i, c :| 0 < i < |parts| - 1 && c in parts[0].batch.columns && parts[0].batch.columns[c].DictVector?
                && !shared(i, c);
    assert Alike(parts[0].batch, parts[|parts| - 1].batch);
    UnsharedDictionaryFails(terms, offset, limit, parts, shared, c, i, |parts| - 1);
  }

  lemma UnknownTermFails(terms: seq<OrderTerm>, offset: nat, limit: nat, parts: seq<Part>,
                         shared: (nat, string) -> bool)
    requires ScalarParts(parts) && parts != [] && offset + limit > 0 && !ColumnsExist(parts[0].batch, terms)
    ensures StreamRows(terms, offset, limit, parts, shared).Err?
  {
    hide ScalarBatch, StreamRows, ColumnsExist;
    assert parts[..1][0] == parts[0];
    FailureStays(terms, offset + limit, parts, shared, 1);
    StreamFails(terms, offset, limit, parts, shared);
  }
}
