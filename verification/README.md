# LakeQL engine: a verified model

LakeQL is a columnar query engine. Nearly every fast path in its core package
has a simple row-level meaning it has to agree with: masks against the row
evaluator, bounded top-k against sort-then-take, merged aggregate states
against one pass, pruning against reading everything, late materialisation
against direct reading, a cache against the store behind it. This project
models both sides and proves that they agree, on all inputs. Where the code is
narrower than that, the exact condition is proved and a concrete input shows
the failure.

`dafny verify dfyconfig.toml` checks everything.

| modules | component |
|---|---|
| Orders, FirstElements, ThrowingSorts, RowOrders, SortMeanings, TopK, BatchStreams, DictionaryStreams, PageMeanings, RowTopK, MergeSort, Candidates | stable sorting over an arbitrary comparator, which may throw, ORDER BY, bounded top-k on batches, streams of batches and rows, external merge sort, exact vector search |
| Scalars, ValueOrders, Expressions, ExpressionMeanings, Vectors, Predicates, MaskLoops, BatchPredicates, BatchPredicatesExact, MaskMeanings | the expression language, its row evaluator, and the vectorised predicates that refine it |
| Aggregates, AggregateMerges, AggregateRuns, AggregateResults, AggregateStates, AggregateSnapshots, SortedRuns, Distincts | mergeable aggregate states as values and as objects updated in place under a budget |
| GroupKeys, GroupTables, GroupMeanings, GroupMerges, GroupBy, EncodedGroupBy | grouped aggregation through either key path, in batches, merged and stored |
| Sidecar, SidecarMeanings, SidecarSound, HivePartitions, HiveMeanings | pruning of files by min/max indexes and by partition values |
| LateRows, LateColumns, LateAggregates | row-reference windows and late aggregation |
| Columnar, ColumnarMeanings, ColumnOps, Decimals | encoding columns as vectors, gathering, concatenating; decimal text of integers |
| Checkpoints, CheckpointStore, SharedCache, CachedStore, Resumption, Ntile | the task checkpoint protocol and its store, the object cache, resumable slices, NTILE |

The modules named Meanings, with AggregateRuns and ValueOrders, say what the
operations return in terms of the values alone: two paths that agree are also
shown to agree on the right answer.

Results that are sharper than, or differ from, what one would expect:

- A minimum or maximum merged from parts can miss a value: a part that starts
  with NaN stays on NaN (`AggregateMerges.ExtremeMergesExactly`,
  `AggregateMerges.NaNHidesMinimum`).
- Merging a distinct state reads only the source's `values`, so keys it holds in
  sorted runs are not taken in (`Distincts.DistinctAggregate.MergeFrom`,
  `Distincts.RunsAreNotMerged`).
- The fast comparison kernels differ from the row evaluator on NaN, on timestamp
  literals finer than the column's unit, and on intervals, and nowhere else
  (`Predicates.KernelEntryExact`, `BatchPredicatesExact.FastMaskExact`).
- Sidecar pruning skips matching files when an ordered comparison has its literal
  on the left (`SidecarSound.LiteralLeftExact`, `SidecarSound.LiteralLeftIsLost`),
  and when a column mixes numbers and texts (`SidecarSound.MixedColumnIsLost`).
- Partition pruning is right for all predicates exactly when no row redefines a
  partition column (`HivePartitions.PruningIsSoundExactly`).
- Concatenating timestamp columns of different units loses digits
  (`ColumnOps.FinerUnitIsLost`), so a streamed top-k is right for every page
  exactly when all batches have one layout (`BatchStreams.StreamRightExactly`);
  a null-typed first batch or unshared dictionaries make it fail
  (`BatchStreams.NullThenNumberFails`, `BatchStreams.UnsharedDictionaryFails`),
  unless only the last batch brings a dictionary of its own
  (`DictionaryStreams.DictionaryStreamExactly`).
- Late aggregation reads timestamps as null: the exact condition, operation by
  operation, is `LateColumns.LateColumnExactly`.
- A checkpoint that carries both `output` and `outputs` loses the list on its next
  step (`Checkpoints.BothFormsLoseList`), and a job id containing the task
  marker is filed under another job (`CheckpointStore.MarkerInJobIdIsLost`).

Numbers are exact reals or NaN. Results of the source's `throw` are `Err`
values; object state after a `throw` is stated except where listed at the end.
What the engine borrows from elsewhere (number formatting, scalar functions,
LIKE, date parsing, text collation) enters as function parameters about which
nothing is assumed beyond what a lemma's `requires` says.

## Model

| member | source | states |
|---|---|---|
| `Orders.SortIsTheStableSort` | packages/core/src/vector-sort.ts:42-52 | The sort used throughout is characterised outright: a sequence is the result exactly when it is a permutation of the input, in order, with ties in their original order |
| `Orders.TopKFold` | packages/core/src/query.ts:1939-1957 | For every comparator, prefix and suffix: keeping only the first k of a sorted prefix before adding the rest gives the same first k as sorting everything |
| `Orders.TopKFoldBoth` | packages/core/src/vector-candidate.ts:66-101 | The same when the added block was itself cut to its own first m >= k |
| `Orders.SortedPermutationSameKeys` | packages/core/src/query-sort.ts:75-92 | Any sorted permutation carries, position by position, the sort keys of the stable sort; so an unstable merge is right up to the order of ties |
| `Orders.PositionSortIsStableSort` | packages/core/src/vector-sort.ts:174-195 | Sorting ascending positions with the position as last key is the stable sort of the rows found there |
| `Scalars.LexAntisymmetric` | packages/core/src/scalar-order.ts:58-97 | Text order is antisymmetric, and zero only on equal texts |
| `Scalars.LexTransitive` | packages/core/src/scalar-order.ts:58-97 | Text order is transitive, the fact every sort and range check rests on |
| `Expressions.CollectExprColumns` | packages/core/src/expr-utils.ts:3-51 | The recursive walk adds exactly the columns an expression reads to the caller's set and removes none |
| `Expressions.CollectAll` | packages/core/src/expr-utils.ts:17-51 | The same for a list of operands |
| `Expressions.EvaluateReadsOnlyColumns` | packages/core/src/evaluator.ts:132-185 | Rows that agree on the collected columns give every expression the same value or the same error |
| `ExpressionMeanings.OrMeans` | packages/core/src/evaluator.ts:355-359 | OR of any number of operands is true if and only if one is true, false if and only if all are false, and null otherwise |
| `ExpressionMeanings.AndMeans` | packages/core/src/evaluator.ts:349-353 | AND is false if and only if one operand is false, true if and only if all are true, and null otherwise |
| `ExpressionMeanings.LogicalFails` | packages/core/src/evaluator.ts:158-167 | Every operand is evaluated: the first that is neither boolean nor null makes the whole fail with its error, whatever came before |
| `ExpressionMeanings.NotMeans` | packages/core/src/evaluator.ts:361-364 | NOT swaps true and false, keeps null and refuses anything else |
| `ExpressionMeanings.MatchesMeans` | packages/core/src/evaluator.ts:187-190 | A row matches if and only if there is no filter or the filter is true of it; false and null do not match |
| `ExpressionMeanings.CompareMeans` | packages/core/src/evaluator.ts:244-294 | Every comparison is decided by which value precedes the other: numbers of both types by size, texts by their first difference, false before true, timestamps and texts read as timestamps by instant; null beside anything is null, and the other pairs are exactly the type errors |
| `ExpressionMeanings.BetweenMeans` | packages/core/src/evaluator.ts:148-153 | BETWEEN is false if a limit excludes the value, true if neither does, null otherwise |
| `ExpressionMeanings.InMeans` | packages/core/src/evaluator.ts:338-347 | IN is true if and only if an equal value is reached, false if and only if every value differs, and fails exactly on a value that cannot be compared when none equal comes first; NOT IN swaps true and false |
| `ExpressionMeanings.NullCheckMeans` | packages/core/src/evaluator.ts:154-157 | IS NULL is true of null only and IS NOT NULL of everything else; neither is ever null |
| `ExpressionMeanings.ArithmeticMeans` | packages/core/src/evaluator.ts:308-332 | Arithmetic is null exactly beside a null, takes two numbers left one first, and refuses anything else |
| `ExpressionMeanings.CaseMeans` | packages/core/src/evaluator.ts:179-183 | CASE gives the value of the first branch whose condition is true, otherwise its ELSE or null |
| `ValueOrders.LexOrderMeans` | packages/core/src/scalar-order.ts:58-97 | Text order is decided at the first position where two texts differ |
| `Predicates.CompareNumberLiteralMasks` | packages/core/src/batch.ts:826-842 | The loop of the float kernel fills the mask of its specification, null where the row is absent or compared with null |
| `Predicates.CompareIntLiteralMasks` | packages/core/src/batch.ts:844-879 | The same for the 64-bit integer and timestamp loops |
| `Predicates.CompareDictLiteralMasks` | packages/core/src/batch.ts:795-812 | The dictionary loop looks each present code up in the mask of the dictionary |
| `Predicates.CompareVectorLiteralMasks` | packages/core/src/batch.ts:768-793 | The dispatch picks a kernel for the same vector types and literals as the source, recursively for dictionaries, and none otherwise |
| `Predicates.NumberKernelExact` | packages/core/src/batch.ts:881-896 | The native number comparison agrees with the row order if and only if neither side is NaN or the operator is `<` or `>` |
| `Predicates.TimestampKernelExact` | packages/core/src/batch.ts:862-879 | Truncating a timestamp literal to the column's unit gives the exact comparison if and only if the literal is a whole number of units, or the row's epoch is not the truncated literal, or the operator cannot tell the two apart |
| `Predicates.KernelEntryExact` | packages/core/src/batch.ts:768-879 | For every vector, dictionary or not, literal and row: a kernel's entry is the slow comparison's answer if and only if the number, timestamp or dictionary condition holds there |
| `Predicates.FlippedCompare` | packages/core/src/batch.ts:904-918 | Flipping the operator compensates swapping the operands, for every pair of scalars including nulls and errors |
| `Predicates.SlowPathsAgree` | packages/core/src/batch.ts:975-1003 | The batch comparison and the row evaluator's comparison differ on a pair of intervals and nowhere else |
| `BatchPredicates.ValuesCorrect` | packages/core/src/batch.ts:620-680 | Batch evaluation of any expression, CASE included, yields on every row the value of the row evaluator |
| `BatchPredicates.MaskCorrect` | packages/core/src/batch.ts:554-611 | Main theorem: whenever a mask is returned, each entry 1, 0 or 2 is true, false or null of the row evaluator on the materialised row, through literal, flipped, dictionary, IN, BETWEEN, CASE and and/or/not paths |
| `BatchPredicates.SelectionIsMatches` | packages/core/src/batch.ts:166-183 | The rows a vectorised filter keeps are exactly those the row filter keeps |
| `MaskMeanings.MaskMeans` | packages/core/src/batch.ts:554-611 | A returned mask holds 1, 0 or 2 exactly where the row evaluator returns true, false or null |
| `MaskMeanings.OrMaskMeans` | packages/core/src/batch.ts:1065-1069 | The mask of an OR of any length is 1 exactly where an operand is 1 and 0 exactly where all are 0 |
| `MaskMeanings.AndMaskMeans` | packages/core/src/batch.ts:1059-1063 | The mask of an AND is 0 exactly where an operand is 0 and 1 exactly where all are 1 |
| `MaskMeanings.NotMaskMeans` | packages/core/src/batch.ts:967-973 | The mask of a NOT swaps 1 and 0 and keeps 2 |
| `MaskMeanings.MaskLength` | packages/core/src/batch.ts:554-611 | Every mask returned has one entry a row |
| `BatchPredicatesExact.FastMaskExact` | packages/core/src/batch.ts:754-793 | For a column against a literal on either side, the mask is right on all rows if and only if no entry is misjudged by NaN or by a finer timestamp |
| `BatchPredicatesExact.NaNMisjudged` | packages/core/src/batch.ts:881-896 | A concrete column where the kernel says true and the row evaluator false: NaN <> 1 |
| `BatchPredicatesExact.FinerTimestampMisjudged` | packages/core/src/batch.ts:869-870 | A concrete column where a literal one nanosecond past a millisecond equals that millisecond for the kernel only |
| `BatchPredicatesExact.IntervalMisjudged` | packages/core/src/batch.ts:975-1003 | Two interval literals compare equal in a batch and are a type error in a row |
| `BatchPredicatesExact.MaskReturnedIffRowsEvaluate` | packages/core/src/batch.ts:554-611 | A case-free predicate over the batch's own columns returns a mask if and only if the row evaluator succeeds on every row |
| `MaskLoops.CombineMasks` | packages/core/src/batch.ts:951-965 | The in-place and/or loops compute three-valued logic entry by entry, said of the entries 1, 0 and 2: AND is decided by a 0, OR by a 1, and what is undecided is 2 |
| `MaskLoops.NegateMask` | packages/core/src/batch.ts:967-973 | The negation loop computes three-valued not entry by entry: 1 and 0 are swapped, 2 stays |
| `MaskLoops.SearchList` | packages/core/src/batch.ts:1022-1031 | The early-exit IN search returns true, null or false as the fold over all comparisons does, errors in the same order |
| `MaskLoops.CompareRows` | packages/core/src/batch.ts:744-752 | The slow comparison loop fills all rows' verdicts or throws the first row's error |
| `MaskLoops.SearchRows` | packages/core/src/batch.ts:920-930 | The same for IN and NOT IN over computed lists |
| `MaskLoops.ScalarToPredicateMask` | packages/core/src/batch.ts:729-742 | Booleans and nulls become a mask; the first other value is a type error |
| `RowOrders.ComparatorIsTermOrder` | packages/core/src/scalar-order.ts:11-28 | Both comparators, the vector path's and the row path's, compute one order of sort keys whenever they return and no NaN is involved (the row path refuses NaN) |
| `RowOrders.CompareRowsIsRowOrder` | packages/core/src/query-sort.ts:26-36 | Multi-term comparison is the lexicographic order of the terms |
| `RowOrders.ByTermsIsPreorder` | packages/core/src/query-sort.ts:26-36 | The order by any list of terms, with directions and null placement, is total and transitive |
| `RowOrders.RowComparatorAgrees` | packages/core/src/query-sort.ts:26-36 | Wherever the row comparator returns, on any two rows, it returns the order by terms |
| `RowOrders.NormalizeVectorOrderBy` | packages/core/src/vector-sort.ts:138-162 | Normalisation with removal of repeated terms fails as the row path's does, keeps the same set of terms without repetition, and never changes a comparison of two rows |
| `RowOrders.RepeatedTermIrrelevant` | packages/core/src/vector-sort.ts:138-162 | Repeating a term already present changes no comparison |
| `SortMeanings.NormalizeMeans` | packages/core/src/vector-sort.ts:138-162 | An ORDER BY is accepted if and only if it has a term and every term names a column; terms keep their places, ascending and nulls last unless asked otherwise, nulls first when descending |
| `SortMeanings.ComparatorReturns` | packages/core/src/vector-sort.ts:197-228 | The comparators return exactly on two keys of one kind or a null; the vector path also on NaN |
| `SortMeanings.ValidateSortRowMeans` | packages/core/src/query-sort.ts:155-166 | A row is refused for the first term whose column is missing or holds a binary or interval value, and otherwise accepted |
| `SortMeanings.TermOrderMeans` | packages/core/src/scalar-order.ts:11-28 | A term puts the lesser key first when ascending, the greater when descending; nulls where the term says, or last when ascending and first when descending |
| `SortMeanings.RowOrderMeans` | packages/core/src/query-sort.ts:26-36 | A row comes before another if and only if some term puts its key first and no term before it tells the two apart |
| `SortMeanings.AnswerInOrder` | packages/core/src/query-sort.ts:38-92 | Main theorem: whatever carries the keys of the first k rows of the stable sort has min(k, n) rows, in the order the terms ask for, and no row left out comes before one listed |
| `SortMeanings.OneTermInOrder` | packages/core/src/scalar-order.ts:11-28 | For one term and two rows that come back: numbers, big integers and instants ascend or descend, texts go by their first difference, false comes before true, nulls first or last |
| `TopK.CompareBatchRowsIsByIndex` | packages/core/src/vector-sort.ts:174-195 | Comparing two row indices through the vectors is comparing the materialised rows, then the indices |
| `TopK.KeepFirst` | packages/core/src/vector-sort.ts:60-86 | Collect, sort and trim never holds more than 2k + 64 indices; it returns the first k of the sorted selection, or throws what the comparator throws on two selected rows |
| `TopK.VectorTopKIndices` | packages/core/src/vector-sort.ts:60-86 | Bounded top-k equals sort-then-take whenever it returns and no selected key is NaN; it throws what normalisation throws, an unknown column, or a type error when two selected rows have incomparable keys; it holds at most 2k + 64 indices |
| `TopK.SortIndicesDenoteStableSort` | packages/core/src/vector-sort.ts:42-52 | The rows at the sorted indices are the stable sort of the selected rows |
| `PageMeanings.TopKIndicesInOrder` | packages/core/src/vector-sort.ts:60-86 | The rows at the kept indices are the first k in the order the terms ask for, and no selected row left out comes before one of them |
| `PageMeanings.TiesInRowOrder` | packages/core/src/vector-sort.ts:174-195 | Rows that no term tells apart are kept in row order |
| `PageMeanings.SelectedMeans` | packages/core/src/batch.ts:151-164 | The selected rows are those whose selection entry is 1, or all rows without a selection |
| `PageMeanings.FilteredMeans` | packages/core/src/batch.ts:166-183 | Selecting by the mask of a filter selects exactly the rows the filter is true of |
| `TopK.RetainStep` | packages/core/src/query.ts:1944-1947 | Merging the winners of two parts gives the winners of the whole |
| `BatchStreams.StreamTopK` | packages/core/src/query.ts:1917-1958 | The query as it runs, over encoded batches: winners are gathered, concatenated as vectors with those retained, and cut again; by sortable columns it computes the specified rows or the specified error |
| `BatchStreams.VectorTopKBatch` | packages/core/src/vector-sort.ts:26-40 | The page of a batch: top-k indices, the second sort, the slice and the gather; by columns that are not binary and free of NaN no comparison throws and the result is the specified one |
| `BatchStreams.TopKBatchRows` | packages/core/src/vector-sort.ts:26-40 | The rows of a gathered top-k batch are the page of the stable sort of the batch's selected rows |
| `PageMeanings.BatchPage` | packages/core/src/vector-sort.ts:26-40 | The page of one batch has min(limit, max(0, n - offset)) rows, and its row i is row offset + i of the stable sort of the selected rows |
| `BatchStreams.JoinExactly` | packages/core/src/vector-sort.ts:96-135 | Where no column would be encoded afresh, concatenating two batches succeeds if and only if their layouts are the same, keeps the layout and puts the rows end to end |
| `BatchStreams.RetainedExactly` | packages/core/src/query.ts:1917-1953 | For every stream in which nothing is encoded afresh, the fold of concatenations and cuts succeeds exactly on streams of one layout and retains the winners of all rows |
| `BatchStreams.StreamExactly` | packages/core/src/query.ts:1917-1958 | Main theorem: on such streams the query succeeds exactly when all batches have one layout, and returns the requested page of the stable sort of all selected rows, whatever the batching |
| `PageMeanings.StreamPage` | packages/core/src/query.ts:1949-1952 | What the query returns has min(limit, max(0, n - offset)) rows, n being the number of selected rows, and its row i is row offset + i of the stable sort |
| `PageMeanings.StreamInOrder` | packages/core/src/query.ts:1917-1958 | The rows returned come in the order the terms ask for, and at offset zero no selected row left out comes before one of them |
| `PageMeanings.PagesAreTheSort` | packages/core/src/query.ts:1917-1958 | The pages at offsets 0, k, 2k and so on, put end to end, are the stable sort of all selected rows: paging gives every row once |
| `BatchStreams.StreamHasOneUnit` | packages/core/src/query.ts:1944-1947 | Whatever was scanned, the timestamps returned in one column have one unit and zone flag |
| `BatchStreams.StreamRightExactly` | packages/core/src/query.ts:1917-1958 | With shared dictionaries, and a timestamp selected in every timestamp column of every batch, all pages are right if and only if all batches have one layout: the same columns, each of one vector type, timestamps of one unit and zone flag |
| `BatchStreams.UnsharedDictionaryFails` | packages/core/src/vector-sort.ts:513-534 | A dictionary that is another object is read out at the join, and any later batch with a dictionary in that column makes the query fail |
| `DictionaryStreams.DictionaryStreamExactly` | packages/core/src/query.ts:1917-1958 | With dictionaries of texts and otherwise one layout, the query succeeds if and only if every batch but the last has the first batch's dictionary objects, and then returns the page of the stable sort of all selected rows |
| `PageMeanings.DictionaryPage` | packages/core/src/query.ts:1949-1952 | The same number of rows, and the same rows, where the last batch has dictionaries of its own |
| `DictionaryStreams.AlikeBatchesJoin` | packages/core/src/vector-sort.ts:514-534 | Two batches of one layout whose dictionaries of texts may differ join to the rows of both, in order |
| `BatchStreams.NullThenNumberFails` | packages/core/src/vector-sort.ts:357-369 | A concrete stream that fails: a column all null in the first batch and of numbers in the second |
| `BatchStreams.FinerUnitFails` | packages/core/src/vector-sort.ts:447-461 | A concrete stream whose rows do not come back: one millisecond, then one microsecond |
| `RowTopK.RetainedKeys` | packages/core/src/query-sort.ts:38-67 | Sorting a bounded buffer yields, position by position, the keys of the first k rows of the stable sort of everything seen |
| `RowTopK.MatchBuffer.AddOrderedMatch` | packages/core/src/query-sort.ts:38-67 | Appends while there is room; otherwise replaces the first worst row exactly when the new row is smaller than some row; the buffer stays a top-k of all rows seen; when a comparison throws, the buffer is as it was and two of its rows or the new one are incomparable |
| `RowTopK.MatchBuffer.FindWorst` | packages/core/src/query-sort.ts:53-64 | The scan finds the first row no other row exceeds, or throws on two of the rows |
| `RowTopK.CollectOrderedMatches` | packages/core/src/query-sort.ts:38-67 | A scan that returns has valid rows only and, sorted, the keys of the first k rows of the stable sort, out of the rows scanned; one that throws met an invalid row or two incomparable ones; where the keys can be compared they come in the order the terms ask for, and no row left out comes before one of them |
| `MergeSort.RunHeap.Push` | packages/core/src/query-sort.ts:94-109 | Sift-up restores the heap and adds exactly the pushed item, or the comparator has thrown on two of the rows |
| `MergeSort.RunHeap.Pop` | packages/core/src/query-sort.ts:111-123 | Removes exactly the root, which is a least item, and restores the heap, or the comparator has thrown on two of the rows |
| `MergeSort.RunHeap.HeapifyDown` | packages/core/src/query-sort.ts:125-153 | Sift-down restores the heap from a displaced root and keeps the contents, or the comparator has thrown on two of the rows |
| `MergeSort.MergeSortRuns` | packages/core/src/query-sort.ts:75-92 | If every run is sorted, the k-way heap merge terminates with a sorted permutation of all rows of all runs, or with what the comparator throws on two of them |
| `MergeSort.CollectSortRuns` | packages/core/src/query.ts:2180-2228 | Flushing at any capacity, from any saved runs, leaves sorted runs within capacity holding exactly what was collected; it fails only on a capacity of zero, an invalid row, or two incomparable ones |
| `MergeSort.SortThroughRuns` | packages/core/src/query.ts:2180-2228 | Collecting and merging, resumed or not, has the sort keys of the stable sort of everything collected, whatever the run capacity; the ways to fail are those of collecting and merging |
| `Candidates.ByScoreIsPreorder` | packages/core/src/vector-candidate.ts:237-250 | Score order for every metric, with NaN and index, is total and transitive |
| `Candidates.NaNLast` | packages/core/src/vector-candidate.ts:237-250 | NaN follows every number under every metric and whatever the indices |
| `Candidates.CompareScoredMeans` | packages/core/src/vector-candidate.ts:237-250 | A candidate comes no later than another if and only if its score is at least as good and, for equal scores, its index no greater |
| `Candidates.InsertionIndex` | packages/core/src/vector-candidate.ts:220-235 | The binary search finds the boundary between the elements not greater than the candidate and those greater |
| `Candidates.InsertCandidate` | packages/core/src/vector-candidate.ts:209-218 | Splice-and-pop keeps exactly the first `limit` of all candidates seen |
| `Candidates.RetainRows` | packages/core/src/vector-candidate.ts:39-50 | After the loop over a block, `retained` is the first `limit` of its valid rows |
| `Candidates.CopyOut` | packages/core/src/vector-candidate.ts:51-63 | The output arrays hold the row ids and scores of the retained candidates, in order |
| `Candidates.ScoreCandidates` | packages/core/src/vector-candidate.ts:32-64 | Fails exactly on an invalid block, else returns its first `limit` valid rows by score, then index. Distances never decrease along the result and dot products never increase, equal scores are in row order, NaN comes last, each position copies a valid row, and a valid row is left out only for `limit` rows that are no worse |
| `Candidates.MergeInput` | packages/core/src/vector-candidate.ts:81-93 | Inserting one scored list keeps the first `limit` of everything seen |
| `Candidates.MergeScoredCandidates` | packages/core/src/vector-candidate.ts:66-101 | Fails exactly when a list's arrays differ in length, else returns the first `limit` of the stable order of all entries. Scores never get better along the result, equal ones are in index order, and an entry is left out only for `limit` entries that are no worse |
| `Candidates.MergeOfBlockWinners` | packages/core/src/vector-candidate.ts:66-101 | A per-block limit of at least k never loses a winner: merging block winners gives the first k over all rows of all blocks |
| `Aggregates.RunFromAppend` | packages/core/src/vector-aggregate.ts:246-290 | Feeding two parts one after the other into one state is feeding their concatenation, errors included |
| `Aggregates.AddEntriesThenAdd` | packages/core/src/vector-aggregate.ts:810-830 | Merging mode buckets and then adding a value is merging the buckets of the longer part: counts and first-insertion order agree |
| `AggregateMerges.VarianceRun` | packages/core/src/vector-aggregate.ts:446-459 | Welford's update always stands for the count, the sum and the sum of squares of the numbers fed |
| `AggregateMerges.VarianceMeaning` | packages/core/src/vector-aggregate.ts:446-459 | Over finite numbers the state is (n, mean, sum of squared deviations from the mean) |
| `Aggregates.RealArithmetic` | packages/core/src/vector-aggregate.ts:446-483 | The products and quotients named in the variance and quantile results are those of real numbers |
| `AggregateMerges.VarianceMerges` | packages/core/src/vector-aggregate.ts:461-483 | Chan's merge of two Welford states is the Welford state of the concatenation |
| `AggregateMerges.VariancePartsMerge` | packages/core/src/vector-aggregate.ts:461-483 | The same with errors in either part, for all four variance operations |
| `AggregateMerges.ExtremeAssociates` | packages/core/src/vector-aggregate.ts:418-444 | A minimum or maximum step commutes with merging unless the source is stuck on NaN |
| `AggregateMerges.MergeThenUpdate` | packages/core/src/vector-aggregate.ts:485-570 | For every operation, one more value into the source or into the merge gives the same state |
| `AggregateMerges.PartsMergeToWhole` | packages/core/src/vector-aggregate.ts:485-570 | Main theorem: for count, sum, avg, variances, median, quantile, min, max, mode, first, last, any and distinct sets, and all A and B, merging the state of B into the state of A is the state of A ++ B; an error in either is an error of the whole |
| `AggregateRuns.MergedPartsMean` | packages/core/src/vector-aggregate.ts:485-570 | Merged part states hold that total, count, extreme, keys or values of the concatenated parts |
| `AggregateMerges.ExtremeMergesExactly` | packages/core/src/vector-aggregate.ts:418-444 | Minimum and maximum merge to the whole if and only if the second part is not stuck on NaN while holding a value better than the first part's |
| `AggregateMerges.NaNHidesMinimum` | packages/core/src/vector-aggregate.ts:418-444 | A concrete pair of parts, [1] and [NaN, 0], whose merged minimum is 1 while that of the whole is 0 |
| `AggregateResults.ModeRunTallies` | packages/core/src/vector-aggregate.ts:802-830 | The mode state lists the values in order of first appearance, each with its first representative and exact count |
| `AggregateResults.FinalizeMode` | packages/core/src/vector-aggregate.ts:832-838 | The final loop picks the first bucket of greatest count, null when there is none |
| `AggregateResults.ModeIsEarliestMostFrequent` | packages/core/src/vector-aggregate.ts:832-838 | The reported mode occurs at least as often as any value fed, and appeared first among those equally frequent |
| `AggregateResults.MedianIsHalfQuantile` | packages/core/src/vector-aggregate.ts:710-722 | The median of numbers, odd or even in number, is the continuous quantile at one half |
| `AggregateResults.QuantileIgnoresOrder` | packages/core/src/aggregate-quantile.ts:7-17 | The quantile depends only on the multiset of buffered values, so parts may be merged in any order |
| `AggregateResults.QuantileSplitsValues` | packages/core/src/aggregate-quantile.ts:7-17 | The interpolated value is at least every sorted value up to its rank and at most every one from its rank on |
| `AggregateResults.QuantileAtPosition` | packages/core/src/aggregate-quantile.ts:7-17 | With q (n - 1) = i + share the quantile is the i-th sorted value, counted from zero, plus that share of the step to the next |
| `AggregateResults.AverageTells` | packages/core/src/vector-aggregate.ts:602-609 | The average is the total of the numbers over their count, NaN if one of them is, null if there are none |
| `AggregateResults.MergedVariance` | packages/core/src/vector-aggregate.ts:602-635 | Over finite numbers, in any merged parts: the mean is the total over the count, variances are the squared deviations from it over n or n - 1, standard deviations are the square roots of these quotients, and too few values give null |
| `AggregateStates.MeasureList` | packages/core/src/aggregate-memory.ts:24-32 | The measuring loop computes the JSON size of a list: brackets, items and separators |
| `AggregateStates.AppendIsExact` | packages/core/src/aggregate-memory.ts:38-44 | The incremental size after appending is the size of the longer list, for the empty list too |
| `AggregateStates.AggregateState.constructor` | packages/core/src/vector-aggregate.ts:214-244 | A fresh state denotes the empty run of its operation |
| `AggregateStates.AggregateState.MeasureBuffered` | packages/core/src/vector-aggregate.ts:745-758 | Measures on first need; `memoryBytes` is 0 or the true size, and exact under a memory limit |
| `AggregateStates.AggregateState.EnforceBudget` | packages/core/src/vector-aggregate.ts:729-740 | Throws exactly when the true length or the true size of the buffered list is over its limit |
| `AggregateStates.AggregateState.AddMedianValue` | packages/core/src/vector-aggregate.ts:699-708 | Appends one value, keeps the size exact, throws exactly when over a limit |
| `AggregateStates.AggregateState.AddQuantileValue` | packages/core/src/vector-aggregate.ts:770-779 | The same for quantiles |
| `AggregateStates.AggregateState.AddModeEntry` | packages/core/src/vector-aggregate.ts:810-830 | Adds to a bucket or opens one, keeps the size of the key list exact, throws exactly when over a limit |
| `AggregateStates.AggregateState.UpdateExtreme` | packages/core/src/vector-aggregate.ts:418-444 | Keeps the better value; a type mismatch leaves the state as it was |
| `AggregateStates.AggregateState.UpdateVariance` | packages/core/src/vector-aggregate.ts:446-459 | The in-place Welford step, field by field |
| `AggregateStates.AggregateState.MergeVarianceFrom` | packages/core/src/vector-aggregate.ts:461-483 | The in-place Chan merge, field by field, source unchanged |
| `AggregateStates.AggregateState.UpdateValue` | packages/core/src/vector-aggregate.ts:353-408 | For every operation the new state is the specified one; a type error changes nothing; a budget error is thrown exactly when the buffered list is over a limit |
| `AggregateStates.AggregateState.MergeMedian` | packages/core/src/vector-aggregate.ts:519-523 | Appends the source's values in order, or stops over a limit |
| `AggregateStates.AggregateState.MergeQuantile` | packages/core/src/vector-aggregate.ts:524-528 | The same for quantiles |
| `AggregateStates.AggregateState.MergeMode` | packages/core/src/vector-aggregate.ts:539-544 | Adds the source's buckets in order, or stops over a limit |
| `AggregateStates.AggregateState.MergeFrom` | packages/core/src/vector-aggregate.ts:485-570 | The merged state is the specified merge unless a limit is crossed; states of different operations are a type error that changes nothing; a merge that returns is within budget |
| `AggregateStates.AggregateState.Clone` | packages/core/src/vector-aggregate.ts:637-675 | The copy is fresh, denotes the same state and carries the measured size |
| `AggregateStates.AggregateState.CountRows` | packages/core/src/vector-aggregate.ts:246-262 | The `count(*)` shortcut equals feeding `true` once per selected row |
| `AggregateStates.AggregateState.UpdateRows` | packages/core/src/vector-aggregate.ts:246-290 | A batch update is the run of the update over the selected rows' values, with the first row error; an error leaves the state of the rows before it, a budget error that row included; once a value was buffered a batch that returns is within the budget, and a budget error means that a limit is exceeded |
| `AggregateStates.SelectedRowCount` | packages/core/src/batch.ts:142-149 | Counts exactly the selected rows |
| `SortedRuns.AscendingDetermined` | packages/core/src/vector-aggregate-distinct.ts:297-299 | A set of keys has exactly one strictly ascending listing |
| `SortedRuns.EntryHeap.Push` | packages/core/src/vector-aggregate-distinct.ts:246-257 | Moving parents into the hole restores the heap and adds exactly the entry |
| `SortedRuns.EntryHeap.Pop` | packages/core/src/vector-aggregate-distinct.ts:259-268 | Removes exactly the root, a least entry by key then run |
| `SortedRuns.EntryHeap.HeapifyDown` | packages/core/src/vector-aggregate-distinct.ts:270-287 | Sinking into the hole restores the heap and keeps the contents |
| `SortedRuns.VisitSortedUniqueRuns` | packages/core/src/vector-aggregate-distinct.ts:210-229 | The heap merge of ascending runs visits every key of the union exactly once, ascending |
| `SortedRuns.MergeSortedRuns` | packages/core/src/vector-aggregate-distinct.ts:190-198 | The merged run is the ascending listing of the union; a single run is copied |
| `SortedRuns.CountSortedUniqueRuns` | packages/core/src/vector-aggregate-distinct.ts:200-208 | The count is the cardinality of the union, single run or many |
| `Distincts.HasHighCardinalitySample` | packages/core/src/vector-aggregate-distinct.ts:313-321 | True exactly when at least half of the sampled prefix are different strings |
| `Distincts.PrefixedSortedUnique` | packages/core/src/vector-aggregate-distinct.ts:301-311 | Sorting and skipping neighbours gives the strictly ascending listing of the prefixed strings |
| `Distincts.DistinctAggregate.constructor` | packages/core/src/vector-aggregate-distinct.ts:23-27 | A fresh state is an empty Set with the exact size of the empty list |
| `Distincts.DistinctAggregate.SnapshotValues` | packages/core/src/vector-aggregate-distinct.ts:138-143 | The snapshot is the ascending listing of the denoted set in all three representations |
| `Distincts.DistinctAggregate.Count` | packages/core/src/vector-aggregate-distinct.ts:133-136 | The count is the cardinality of the denoted set in all three representations |
| `Distincts.DistinctAggregate.MutableValues` | packages/core/src/vector-aggregate-distinct.ts:164-172 | Switching to the Set form keeps the denoted set, and drops the measured size only when the form changed |
| `Distincts.DistinctAggregate.MeasureBytes` | packages/core/src/vector-aggregate-distinct.ts:174-177 | Under a memory limit the size becomes the exact size of the held list; the denoted set stays |
| `Distincts.DistinctAggregate.EnforceBudget` | packages/core/src/vector-aggregate-distinct.ts:179-188 | Throws exactly when the number of keys or the size of their list is over a limit; the denoted set stays |
| `Distincts.DistinctAggregate.AddValue` | packages/core/src/vector-aggregate-distinct.ts:33-47 | Adds exactly one key; limits are checked exactly when it is new |
| `Distincts.DistinctAggregate.AddValues` | packages/core/src/vector-aggregate-distinct.ts:49-61 | Adds exactly the keys given, or stops over a limit |
| `Distincts.DistinctAggregate.MergeSortedValues` | packages/core/src/vector-aggregate-distinct.ts:98-124 | Whether the run is kept as a run or merged into the Set, the denoted set becomes the union; without limits it never fails |
| `Distincts.DistinctAggregate.AddSortedStringRun` | packages/core/src/vector-aggregate-distinct.ts:77-96 | Whatever representation the sample chooses, the denoted set becomes the union with the prefixed strings |
| `Distincts.DistinctAggregate.MergeFrom` | packages/core/src/vector-aggregate.ts:535-536 | Adds the source's `values`; this is the union of the two denoted sets if and only if the source is in Set form or brings nothing new |
| `Distincts.DistinctAggregate.Clone` | packages/core/src/vector-aggregate-distinct.ts:145-157 | The copy is fresh and denotes the same set in the same form |
| `Distincts.UpdateDirectUtf8` | packages/core/src/vector-aggregate.ts:302-335 | The direct string path adds exactly the present selected strings |
| `Distincts.DirectPathIsGeneral` | packages/core/src/vector-aggregate.ts:302-335 | Feeding the same rows one by one through the general update yields that same set |
| `Distincts.RunsAreNotMerged` | packages/core/src/vector-aggregate.ts:535-536 | A concrete family: a state holding a sorted run of n keys merges into an empty one as 0 keys |
| `Decimals.IntRoundTrip` | packages/core/src/vector-aggregate-snapshot.ts:102-120 | Reading back the decimal text of any integer gives the integer |
| `Decimals.IntTextIsCanonical` | packages/core/src/vector-aggregate-snapshot.ts:102-120 | The text has a sign exactly when the integer is negative, and no leading zero |
| `AggregateSnapshots.ValueRoundTrip` | packages/core/src/vector-aggregate-snapshot.ts:102-140 | Values, big integers and timestamps included, are restored exactly |
| `AggregateSnapshots.SnapshotRoundTrip` | packages/core/src/vector-aggregate-snapshot.ts:10-100 | Restoring a snapshot gives back the state, for every operation |
| `AggregateSnapshots.ResumedRunIsWhole` | packages/core/src/vector-aggregate-snapshot.ts:51-100 | Cutting a run anywhere, storing, restoring and resuming gives the run over everything |
| `GroupKeys.PartInjective` | packages/core/src/vector-group-by.ts:671-682 | Two key values share their text exactly when they are equal as keys; types never mix |
| `GroupKeys.GroupKeyInjective` | packages/core/src/vector-group-by.ts:661-669 | For tuples of one arity, the framed key is equal exactly when the tuples are, whatever separators the texts contain |
| `GroupKeys.VectorKeyPartIsScalarPart` | packages/core/src/vector-group-by.ts:364-395 | Reading a key part from any vector, dictionaries included, gives the part of the row's scalar |
| `GroupKeys.KeyAt` | packages/core/src/vector-group-by.ts:327-362 | The reader's key of a row is the group key of the row's values, with the same errors |
| `GroupTables.GroupByMeans` | packages/core/src/vector-group-by.ts:277-316 | Grouping succeeds exactly on groupable rows; the table then has one group per key in order of first appearance, each state the run of its aggregate over that key's rows alone |
| `GroupMeanings.GroupByTells` | packages/core/src/vector-group-by.ts:90-155 | A grouped query that returns has one group for every distinct tuple of key values, in order of first appearance, with the key values of its first row; each aggregate holds the count, total, extreme, keys, values, first or last of exactly the rows with those key values |
| `GroupMeanings.BatchFeeds` | packages/core/src/vector-group-by.ts:100-127 | A batch feeds exactly the rows whose selection entry is 1, or all without a selection, in row order, with their values in the key columns and their inputs |
| `GroupMeanings.BatchTells` | packages/core/src/vector-group-by.ts:90-155 | A batch that was grouped, through either key path, leaves that table, and the number of its selected rows is returned |
| `GroupTables.MeaningIsUnique` | packages/core/src/vector-group-by.ts:277-316 | That meaning determines the table |
| `GroupMerges.MergedTablesAreOnePass` | packages/core/src/vector-group-by.ts:453-494 | Merging tables of two parts succeeds exactly when one pass over both does, with the same groups, order and states |
| `GroupMerges.MergeVectorGroupBy` | packages/core/src/vector-group-by.ts:453-494 | The in-place merge of two states computes the specified merged table or its error |
| `GroupMerges.TableRoundTrip` | packages/core/src/vector-group-by.ts:423-451 | Restoring a snapshot rebuilds the table, its keys recomputed from the key values |
| `GroupMerges.StoredBatchesAreOnePass` | packages/core/src/vector-group-by.ts:423-451 | Storing and restoring between batches leaves the table of one pass |
| `GroupBy.GroupByState.GetOrCreate` | packages/core/src/vector-group-by.ts:157-179 | Finds the group of the key values or appends a fresh one; a key error or a new group at the limit changes nothing |
| `GroupBy.GroupByState.FindOrOpen` | packages/core/src/vector-group-by.ts:106-122 | The same under a key already read; a new group is refused exactly at the limit |
| `GroupBy.GroupByState.UpdateGroup` | packages/core/src/vector-group-by.ts:303-316 | Updates one group's states in order and nothing else; an error leaves exactly the aggregates before it updated |
| `GroupBy.GroupByState.AddSelected` | packages/core/src/vector-group-by.ts:104-125 | One row under its key is one step of the table fold; an error leaves the group opened and its first aggregates fed |
| `GroupBy.UpdateByReader` | packages/core/src/vector-group-by.ts:90-127 | The key-reader path looks groups up by the key it read and adds exactly the selected rows in order; an error leaves the rows before it and what was done of that row |
| `EncodedGroupBy.KeyEncoder.GroupIdAt` | packages/core/src/vector-group-by.ts:181-275 | Every encoder, by dictionary code (duplicate and null entries included), by scalar or composite, gives ids whose key values have the row's key; earlier ids keep their meaning |
| `EncodedGroupBy.NextId` | packages/core/src/vector-group-by.ts:129-155 | A fresh id leaves all registered ids pointing at their groups |
| `EncodedGroupBy.FindGroup` | packages/core/src/vector-group-by.ts:129-155 | By id or by key, the group found or opened is the one of the row's key |
| `EncodedGroupBy.AddEncoded` | packages/core/src/vector-group-by.ts:129-155 | One row through the encoded path is one step of the table fold, with the same errors and the same table after them |
| `EncodedGroupBy.UpdateEncoded` | packages/core/src/vector-group-by.ts:129-155 | The encoded path over a batch leaves the table the reader path leaves, after an error too |
| `EncodedGroupBy.UpdateVectorGroupBy` | packages/core/src/vector-group-by.ts:90-155 | Whichever path is taken, the batch update has one meaning, after an error too |
| `EncodedGroupBy.DirectUpdateIsGeneral` | packages/core/src/vector-group-by.ts:538-609 | The direct count, sum and avg inputs equal the general update with the row's scalar |
| `Sidecar.SummariseColumn` | packages/core/src/sidecar-index.ts:61-86 | Minimum, maximum and null count are those of the scan in row order, are attained, and bound every cell of a column of one class; a value that cannot be indexed is a type error, exactly then |
| `Sidecar.BuildMinMaxIndex` | packages/core/src/sidecar-index.ts:55-89 | The index of all columns summarises each of them, or fails exactly when one cannot be indexed |
| `Sidecar.PruneFilesWithIndex` | packages/core/src/sidecar-index.ts:31-42 | Planned plus skipped is a permutation of the files, split exactly by the check, both in path order |
| `SidecarMeanings.CompareSkipsExactly` | packages/core/src/sidecar-index.ts:137-168 | A comparison with a literal skips its file if and only if the literal is comparable with both extremes and the range rules the comparison out: for equality when the literal lies outside the range |
| `SidecarMeanings.BetweenSkipsExactly` | packages/core/src/sidecar-index.ts:170-195 | BETWEEN skips if and only if the whole range lies below its lower or above its upper limit |
| `SidecarMeanings.InSkipsExactly` | packages/core/src/sidecar-index.ts:197-214 | IN skips if and only if every listed value is a literal outside the range; NOT IN never skips |
| `SidecarMeanings.NestingSkipsExactly` | packages/core/src/sidecar-index.ts:111-135 | AND skips if one operand does, OR if all do; other expressions and files without an index are never skipped |
| `SidecarMeanings.ExtremesMove` | packages/core/src/sidecar-index.ts:79-80 | A later value replaces an extreme only when it lies strictly beyond it |
| `ValueOrders.SafeIntegerMeans` | packages/core/src/sidecar-index.ts:361-365 | A number is compared with a big integer if and only if it is a whole number of at most 53 bits |
| `SidecarSound.CheckIsExact` | packages/core/src/sidecar-index.ts:137-168 | For every operator but equality the check keeps the file if and only if some cell satisfies the comparison |
| `SidecarSound.LiteralLeftExact` | packages/core/src/sidecar-index.ts:296-307 | With the literal on the left, a skip loses a matching cell if and only if the flipped check would have kept the file |
| `SidecarSound.LiteralLeftIsLost` | packages/core/src/sidecar-index.ts:296-307 | A concrete file: 5 < c over the value 10 is skipped although the row matches |
| `SidecarSound.MixedColumnIsLost` | packages/core/src/sidecar-index.ts:61-86 | A concrete column of numbers and texts: 5, "4", "30", 20, 40 is indexed with the range 20 to 40, and c < 10 skips the file although a row matches |
| `SidecarSound.CompareSound` | packages/core/src/sidecar-index.ts:137-168 | A row on which a comparison is true keeps its file |
| `SidecarSound.BetweenSound` | packages/core/src/sidecar-index.ts:170-195 | The same for BETWEEN |
| `SidecarSound.InSound` | packages/core/src/sidecar-index.ts:197-214 | The same for IN and NOT IN |
| `SidecarSound.MatchKeepsFile` | packages/core/src/sidecar-index.ts:111-135 | A matching row keeps its file through every nesting of and, or, not, comparison, between and in |
| `SidecarSound.SkippedFileHasNoMatch` | packages/core/src/sidecar-index.ts:31-42 | No row of a skipped file matches the filter |
| `HivePartitions.DecisionConsistent` | packages/core/src/query.ts:4175-4206 | A decision true means the row's value is not false, a decision false that it is not true, through not, and, or and nulls, on every row that keeps the partition values |
| `HivePartitions.DroppedFileHasNoMatch` | packages/core/src/query.ts:4168-4171 | A dropped file has no matching row when its rows keep the partition values |
| `HiveMeanings.LeafDecides` | packages/core/src/query.ts:4181-4189 | A comparison, list, range, null check, LIKE, call, arithmetic or CASE is decided exactly when it reads columns and all of them are in the path: true if true of the path's values, false if false or null |
| `HiveMeanings.AndDecides` | packages/core/src/query.ts:4195-4199 | AND is decided false exactly by one operand decided false, true exactly by all decided true |
| `HiveMeanings.OrDecides` | packages/core/src/query.ts:4195-4203 | OR is decided true exactly by one operand decided true, false exactly by all decided false |
| `HiveMeanings.NotDecides` | packages/core/src/query.ts:4190-4193 | NOT swaps the decisions; literals and bare columns are never decided |
| `HiveMeanings.DroppedExactly` | packages/core/src/query.ts:4168-4171 | A file is dropped if and only if the filter is decided false |
| `HivePartitions.RedefinedColumnIsLost` | packages/core/src/query.ts:2213 | For every redefined partition column there is a predicate that drops the file although the row matches |
| `HivePartitions.RenderedColumnIsLost` | packages/core/src/query.ts:2213 | The same for any value some function renders differently, such as the path's 05 and the file's number 5 under a cast |
| `HivePartitions.PruningIsSoundExactly` | packages/core/src/query.ts:4168-4213 | Pruning never drops a match, over all predicates, if and only if no row gives a partition column another value (other values being texts, nulls, or rendered differently by some function) |
| `LateRows.BuildWindows` | packages/core/src/query.ts:3914-3937 | For references in scan order the windows cover every reference in consecutive stretches within the limit, and none could have been extended |
| `LateRows.WindowsDisjoint` | packages/core/src/query.ts:3914-3937 | Windows of one path never overlap and are no longer than the limit |
| `LateRows.RowRefKeyInjective` | packages/core/src/query.ts:4051-4053 | Keys of references are equal exactly when the references are, whatever the path contains |
| `LateRows.IndexRefs` | packages/core/src/query.ts:1745-1746 | The map finds every reference under its own key |
| `LateRows.ScanWindow` | packages/core/src/query.ts:1762-1776 | Scanning one window yields exactly its references, in order |
| `LateRows.MaterializeRefs` | packages/core/src/query.ts:1738-1778 | Every reference is yielded exactly once, in the order of the first scan, for every window limit |
| `LateRows.SortedIsScanOrdered` | packages/core/src/query.ts:3974-3976 | Sorting distinct references by path and row puts them in scan order |
| `LateRows.MaterializeRanked` | packages/core/src/query.ts:2047-2093 | The references a top-k retained, in any order, are each fetched exactly once |
| `LateColumns.LateValueExact` | packages/core/src/query.ts:3901-3912 | Reading objects as null changes the effect of a value if and only if the value is an object the state would not have ignored |
| `AggregateRuns.RunMeans` | packages/core/src/vector-aggregate.ts:353-408 | A run fails exactly on values its aggregate refuses (binary and interval values, other types, extremes of two types), and otherwise its state holds: the count of the values that are not null; the total of the numbers, NaN once one of them is; their number beside it for an average; the values or numbers in order for median and quantile; the first of the least or greatest values, where nothing beats it; the set of keys; the first or last value |
| `LateColumns.LateColumnExactly` | packages/core/src/query.ts:3901-3912 | For every operation and column, reading objects as null gives the direct state if and only if nothing is an object, or both are refused, or the only objects are timestamps that distinct has as keys of other values, that are not first for first and any, or not last for last; with a timestamp never for count, sum, avg, variance, median, quantile, minimum, maximum and mode otherwise |
| `LateAggregates.LateIsDirect` | packages/core/src/query.ts:1677-1728 | Opening all groups first and then feeding the same rows succeeds exactly when the direct grouped aggregate does, and gives the same table |
| `LateAggregates.LateTableIsDirect` | packages/core/src/query.ts:1677-1728 | Fed with late inputs instead, the late aggregate succeeds exactly when, and gives what, the direct aggregate gives on the late rows |
| `LateAggregates.PlainLateIsDirect` | packages/core/src/query.ts:1677-1728 | Main theorem: without objects among the late inputs the late aggregate succeeds exactly when the direct one does, with the same table |
| `LateAggregates.LateExactly` | packages/core/src/query.ts:1677-1728 | Where the direct aggregate succeeds, the late one gives the same table if and only if every late column of every group agrees in the sense of LateColumnExactly |
| `LateAggregates.LateMinimumIsNull` | packages/core/src/query.ts:3901-3912 | A concrete query: the minimum over one timestamp is that timestamp directly and null late |
| `LateAggregates.LateAggregate` | packages/core/src/query.ts:1677-1778 | The two scans as they run: groups opened per reference, windows read, each reference's late inputs fed once; the result, errors included, is the specified late table |
| `LateAggregates.UngroupedNeedsMatch` | packages/core/src/query.ts:1677-1691 | An ungrouped late aggregate has its one result row if and only if some row matched |
| `Columnar.VectorShape` | packages/core/src/batch.ts:286-342 | One scan finds the common shape and the validity of a column, or the mixed-type error |
| `Columnar.BigIntRange` | packages/core/src/batch.ts:315-339 | Signed, unsigned or a type error, decided exactly by range and sign over the whole column |
| `Columnar.ListValues` | packages/core/src/batch.ts:463-480 | Offsets and flattened items of all lists |
| `Columnar.TimestampValues` | packages/core/src/batch.ts:368-395 | Epochs in the unit of the first timestamp |
| `Columnar.VectorFromValues` | packages/core/src/batch.ts:81-109 | The recursive encoder computes the specified vector or error at any depth |
| `Columnar.RoundTrip` | packages/core/src/batch.ts:185-259 | Reading every row back gives the encoded values if and only if each timestamp is a whole 64-bit number of its column's first unit; for lists at any depth, nulls anywhere, and unsigned promotion |
| `ColumnarMeanings.EncodesExactly` | packages/core/src/batch.ts:81-109 | Encoding succeeds if and only if, at every depth of lists, the values that are not null are of one kind and the big integers fit 64 bits, all signed or all unsigned |
| `ColumnarMeanings.StoredAs` | packages/core/src/batch.ts:286-366 | The vector type follows from any value that is not null; big integers are unsigned exactly when one is beyond the signed range, timestamps take unit and zone flag of the first |
| `ColumnarMeanings.KeptMeans` | packages/core/src/batch.ts:368-395 | A timestamp is kept if and only if it has the unit and zone flag of the column and is a whole number of its units within 64 bits |
| `ColumnOps.GatherValid` | packages/core/src/vector-sort.ts:603-612 | Gathered validity bits; all present becomes absent |
| `ColumnOps.GatherDenotes` | packages/core/src/vector-sort.ts:243-352 | Gathering is indexing on the denoted values, for scalar and dictionary vectors |
| `ColumnOps.GatherBatchRows` | packages/core/src/vector-sort.ts:88-94 | Every row of the gathered batch is the row it was gathered from |
| `ColumnOps.ConcatTypedArrays` | packages/core/src/vector-sort.ts:549-565 | The copying loop concatenates the parts |
| `ColumnOps.JoinDenotes` | packages/core/src/vector-sort.ts:354-534 | Joining vectors of one type, dictionaries included, denotes the concatenation |
| `ColumnOps.ReencodingExact` | packages/core/src/vector-sort.ts:447-461 | Encoding scalars afresh gives them back if and only if no timestamp is finer than the first one's unit |
| `ColumnOps.ConcatDenotes` | packages/core/src/vector-sort.ts:354-534 | Concatenation denotes concatenation if and only if the vectors are joined as they are or lose nothing when encoded afresh |
| `ColumnOps.FinerUnitIsLost` | packages/core/src/vector-sort.ts:447-461 | A concrete pair: one millisecond, then one microsecond, concatenates to one millisecond and zero |
| `ColumnOps.ConcatenatedRow` | packages/core/src/vector-sort.ts:96-135 | Every row of every batch is found, in order, in the concatenated batch |
| `ColumnOps.ConcatBatchesDenotes` | packages/core/src/vector-sort.ts:96-135 | The columns of the concatenated batch denote the concatenated columns when what is encoded afresh loses nothing |
| `Checkpoints.AcceptedExactly` | packages/core/src/manifest.ts:290-342 | After an existing checkpoint a step is accepted if and only if it is a same-key replay, one state forward, or a stale return to running; the key changes only when stale. The forward steps are planned to running, running to output-written, output-written to manifest-recorded, manifest-recorded to complete |
| `Checkpoints.Fenced` | packages/core/src/manifest.ts:281-342 | Over every run of attempts on a forward clock within the timeout of a recorded step, every attempt under another key is refused and the state only moves forward |
| `Checkpoints.TakeoverNeedsTimeout` | packages/core/src/manifest.ts:290-342 | Another key can take over if and only if more than the timeout has passed |
| `Checkpoints.OutputsKeptExactly` | packages/core/src/manifest.ts:326-341 | A step that brings no outputs keeps the recorded ones if and only if it moves forward from a checkpoint whose two forms agree, or nothing was recorded |
| `Checkpoints.SuppliedOutputsWin` | packages/core/src/manifest.ts:326-341 | Outputs a step brings replace the recorded ones, in either form |
| `Checkpoints.OutputsSurvive` | packages/core/src/manifest.ts:281-342 | Along every fenced run that brings nothing new the recorded outputs survive |
| `Checkpoints.BothFormsLoseList` | packages/core/src/manifest.ts:326-341 | A concrete checkpoint holding both forms loses its list on the next step |
| `CheckpointStore.JobIdRoundTrip` | packages/core/src/manifest.ts:486-494 | A task id gives its job back if and only if the marker first occurs right after the job id |
| `CheckpointStore.MarkerInJobIdIsLost` | packages/core/src/manifest.ts:490-494 | The job `x-task` is filed as job `x` |
| `CheckpointStore.MemoryCheckpointAdapter.Put` | packages/core/src/manifest.ts:261-264 | Replaces the task's checkpoint and no other |
| `CheckpointStore.MemoryCheckpointAdapter.AdvanceTaskCheckpoint` | packages/core/src/manifest.ts:281-288 | Stores exactly what the transition accepts; a refused one stores nothing, other tasks are untouched |
| `CheckpointStore.MemoryCheckpointAdapter.List` | packages/core/src/manifest.ts:266-274 | The job's checkpoints in task order |
| `CheckpointStore.CreateOutputManifest` | packages/core/src/manifest.ts:128-150 | The manifest holds exactly the outputs the job's checkpoints recorded, by task and path, independent of storage order |
| `SharedCache.SharedMemoryCache.Get` | packages/core/src/object-store-cache.ts:41-51 | Returns the live entry and moves it to the end, all others keeping their places; an expired one is removed, likewise |
| `SharedCache.SharedMemoryCache.Set` | packages/core/src/object-store-cache.ts:53-66 | The new entries are exactly: the key's old entry gone, the new record last, victims evicted; what cannot fit at all changes nothing |
| `SharedCache.SharedMemoryCache.Insert` | packages/core/src/object-store-cache.ts:55-64 | Adds exactly one entry and accounts for its size |
| `SharedCache.SharedMemoryCache.Delete` | packages/core/src/object-store-cache.ts:68-73 | Removes exactly the key, keeping the order, and accounts for its size |
| `SharedCache.SharedMemoryCache.Evict` | packages/core/src/object-store-cache.ts:87-93 | Terminates within the byte limit with exactly what repeated removal of the victim leaves |
| `SharedCache.EvictedExactly` | packages/core/src/object-store-cache.ts:87-103 | The rest keeps its order and fits; whatever went has less priority than, or equal priority and is older than, whatever stayed; and with the last one to go restored the rest would not fit |
| `SharedCache.SharedMemoryCache.EvictIndex` | packages/core/src/object-store-cache.ts:95-103 | Finds the oldest entry of least priority |
| `SharedCache.SharedMemoryCache.DeleteWhere` | packages/core/src/object-store-cache.ts:75-81 | Leaves exactly the entries that do not satisfy the predicate, in order, and accounts for the others' sizes |
| `CachedStore.RangeKeyInjective` | packages/core/src/object-store-cache.ts:200-202 | A range key determines path, offset and length, although the path may contain the separators |
| `CachedStore.KeysNeverCollide` | packages/core/src/object-store-cache.ts:196-206 | Cache keys of two requests are equal if and only if the requests are, whatever the paths contain |
| `CachedStore.CachedObjectStore.Remember` | packages/core/src/object-store-cache.ts:124-129 | Caching an answer of the inner store keeps every entry an answer of the inner store, whatever it evicts; the entries after it are exactly those of storing the value with its size and priority |
| `CachedStore.CachedObjectStore.Look` | packages/core/src/object-store-cache.ts:118-122 | A key finds a live entry, which is an answer of the inner store, or drops an expired one |
| `CachedStore.EvictionSpares` | packages/core/src/object-store-cache.ts:176-183 | No head is evicted while an object or range stays, under the balanced policy no range while an object stays, and otherwise the oldest of them goes first |
| `CachedStore.ReadsOutliveLatency` | packages/core/src/object-store-cache.ts:176-183 | In a cache shared by two stores what is kept to save reads outlives what is kept for latency |
| `CachedStore.CachedObjectStore.Get` | packages/core/src/object-store-cache.ts:136-143 | Hit, miss or expired: the answer is the inner store's; a live entry is used and becomes the most recent, otherwise the answer is stored |
| `CachedStore.CachedObjectStore.GetRange` | packages/core/src/object-store-cache.ts:144-151 | The same for ranges; a live entry is used and becomes the most recent, otherwise the answer is stored |
| `CachedStore.CachedObjectStore.Head` | packages/core/src/object-store-cache.ts:165-172 | The same for heads; a live entry is used and becomes the most recent, otherwise the answer is stored |
| `CachedStore.CachedObjectStore.InvalidatePath` | packages/core/src/object-store-cache.ts:131-134 | Exactly the entries of the path go, of any kind |
| `CachedStore.CachedObjectStore.Put` | packages/core/src/object-store-cache.ts:152-156 | Writes through and leaves only entries the inner store would still answer, on failure too |
| `CachedStore.CachedObjectStore.Delete` | packages/core/src/object-store-cache.ts:157-161 | The same for deletion |
| `CachedStore.Serve` | packages/core/src/object-store-cache.ts:113-174 | Every sequence of completed calls, under any expiry and eviction, gets the inner store's answers and final state; cached bytes stay within the limit; these are the bytes of the objects and ranges held |
| `Resumption.Slice` | packages/core/src/query.ts:1421-1464 | At most `maxRows` rows from the bookmark's offset, with a bookmark exactly when rows remain; a foreign bookmark or a bad limit is an error |
| `Resumption.TakeRows` | packages/core/src/query.ts:1430-1449 | The skip-and-stop loop reads exactly the slice and one row more |
| `Resumption.ResumableBatches` | packages/core/src/query.ts:1466-1476 | The chain of slices ends, all but the last are full and bookmarked, and together they are the remaining stream, once and in order |
| `Ntile.NtileValues` | packages/core/src/window-backend.ts:282-294 | Fails exactly when there are no buckets; otherwise one number per row, with no division by zero even when rows are fewer than buckets |
| `Ntile.BucketExactly` | packages/core/src/window-backend.ts:282-294 | The closed form puts a row in a bucket exactly when it lies in that bucket's stretch |
| `Ntile.BucketsAscend` | packages/core/src/window-backend.ts:282-294 | Bucket numbers never decrease and stay within 1..b |
| `Ntile.BucketSize` | packages/core/src/window-backend.ts:282-294 | The first n mod b stretches are one longer than the rest |
| `Ntile.BucketsBalance` | packages/core/src/window-backend.ts:282-294 | Counting rows: each bucket holds n div b rows, the first n mod b one more |

## Left out

- AggregateStates.AggregateState.MergeFrom: the source state is another object than the target; merging a state into itself is not modelled. After a budget error only that the limit was crossed is stated, not how far the merge got.
- Distincts.DistinctAggregate.MergeFrom: the same two restrictions.
- Distincts.DistinctAggregate.MergeSortedValues: a list long enough to be kept as a run has to be strictly ascending, as every snapshot is; the source does not check it.
- GroupMerges.MergeVectorGroupBy: does not say which groups were already merged when an error is thrown.
- GroupMerges.MergedTablesAreOnePass: for minimum and maximum it excludes groups whose second part hides a better value behind NaN; the exact condition is stated per aggregate in AggregateMerges.ExtremeMergesExactly.
- BatchPredicates.MaskCorrect: for nested predicates the condition on comparisons is sufficient; it is exact for a column against a literal, in BatchPredicatesExact.FastMaskExact, since and/or can mask a misjudged operand.
- BatchPredicatesExact.MaskReturnedIffRowsEvaluate: without CASE, because batches evaluate every branch and rows only the chosen one.
- SidecarSound.CheckIsExact: without equality, for which a range can only be conservative; soundness of equality is SidecarSound.CompareSound.
- HivePartitions.PruningIsSoundExactly: `parseHivePartitions` is left out; the partition values are an input. A file's number that every function renders as the path's text is not decided.
- LateRows.MaterializeRanked: states which rows are fetched; picking them up in rank order is a lookup by key.
- BatchStreams.StreamRightExactly: a timestamp column without a selected timestamp in some batch is left out of the equivalence; BatchStreams.StreamExactly covers it when units agree. Dictionaries that are different objects are left out too; DictionaryStreams.DictionaryStreamExactly covers them.
- DictionaryStreams.DictionaryStreamExactly: dictionaries of texts, in columns that keep one vector type and one unit; a batch with a plain column where another has a dictionary is not covered.
- SidecarSound.MatchKeepsFile: every indexed column is of one class (numbers, texts or booleans); SidecarSound.MixedColumnIsLost shows a column of two classes. Pruning by calls (bounding boxes, H3 cells) is a parameter assumed to be right about the row.
- SortMeanings.AnswerInOrder: keys that are neither null nor of one kind with the other keys of their column, among them NaN, are left out; the row path refuses them when it compares them.
- BatchStreams.StreamTopK: which rows it returns by binary columns or keys with NaN is not specified.
- ColumnOps.ConcatBatchesDenotes: one direction for whole batches; the exact condition is stated per column in ColumnOps.ConcatDenotes.
- AggregateResults.MergedVariance: the square root of the two standard deviations is a parameter.
- CachedStore.Serve: calls complete one after another; interleaved asynchronous calls and writes to the inner store behind the cache's back are not modelled.
- CheckpointStore.MemoryCheckpointAdapter.AdvanceTaskCheckpoint: one atomic step, although the source awaits between reading and writing.
- Floating-point rounding, infinities and negative zero.
- Text is a sequence of Unicode scalar values, so lone surrogates and the runtime's order of supplementary characters by code unit are not modelled; `localeCompare` is a comparator assumed total and transitive where order is claimed.
- The runtime's sort is a stable sort; with a comparator that throws it is an insertion sort, so which of two incomparable pairs is met first is not the runtime's. Orders by keys that hold NaN are not specified.
- Geometry, H3, regular expressions, LIKE, date parsing and arithmetic are parameters of the evaluators; the batch kernels for function calls are not modelled.
- Struct, map and interval values inside vectors, and gathering or concatenating list vectors.
- Identity of shared dictionary objects is a parameter; copying of byte buffers on the way in and out of caches and stores is not visible on values.
- Budgets inside grouped states and the estimate of their memory, the row-density and row-count fallbacks of late aggregation, and query budgets elsewhere.
- The ranked-reference buffer of the late top-k, which repeats `addOrderedMatch` with path and row as last keys.
- Scores of vectors (float arithmetic) are inputs of vector search; validation of its options is left out.
- Final medians of texts and of mixed types, and NaN among buffered numbers.
- Expressions as aggregate inputs: inputs are the rows' scalars.
- Error messages and their details; plan fingerprints are opaque texts, bookmark signing is left out.
- The concurrency limit on reads: its count of active readers is not an invariant of the interleaved steps.
- Storage and formats (HTTP, R2, files, Parquet, Iceberg, Lance), GPU backends, the command line, joins, policies, window frames, JSON queries, cost choice, statistics and explain output.
