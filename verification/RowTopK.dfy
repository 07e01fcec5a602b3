/** Top-k in the row path: an unordered buffer whose worst row is replaced.
    Which of several tied rows survives depends on arrival, but the sort keys
    that survive do not. */
module RowTopK {
  import opened Scalars
  import opened Expressions
  import opened Orders
  import opened RowOrders
  import opened ThrowingSorts
  import opened SortMeanings

  /** The buffer holds rows that were seen, as many as allowed, and for every
      row `x` as many rows not after `x` as the first `k` in order hold. */
  ghost predicate Retains(cmp: (Row, Row) -> int, topK: Option<nat>, rows: seq<Row>, seen: seq<Row>) {
    && multiset(rows) <= multiset(seen)
    && |rows| == |Kept(cmp, topK, seen)|
    && forall x :: CountLe(cmp, x, rows) == CountLe(cmp, x, Kept(cmp, topK, seen))
  }

  ghost function Kept(cmp: (Row, Row) -> int, topK: Option<nat>, seen: seq<Row>): seq<Row> {
    if topK.None? then Sort(cmp, seen) else Take(topK.value, Sort(cmp, seen))
  }

  /** Sorting such a buffer yields, position by position, the keys of the first
      `k` rows of the stable sort. */
  lemma RetainedKeys(cmp: (Row, Row) -> int, topK: Option<nat>, rows: seq<Row>, seen: seq<Row>)
    requires TotalPreorder(cmp) && Retains(cmp, topK, rows, seen)
    ensures SameKeys(cmp, Sort(cmp, rows), Kept(cmp, topK, seen))
  {
    SortSorted(cmp, rows);
    SortContents(cmp, rows);
    SortSorted(cmp, seen);
    forall x ensures CountLe(cmp, x, Sort(cmp, rows)) == CountLe(cmp, x, Kept(cmp, topK, seen)) {
      CountLePermutation(cmp, x, Sort(cmp, rows), rows);
    }
    SameCountsSameKeys(cmp, Sort(cmp, rows), Kept(cmp, topK, seen));
  }

  lemma {:induction false} InsertCounts(cmp: (Row, Row) -> int, x: Row, row: Row, s: seq<Row>)
    ensures CountLe(cmp, x, Insert(cmp, row, s)) == CountLe(cmp, x, s) + OneLe(cmp, x, row)
  {
    InsertContents(cmp, row, s);
    assert multiset(Insert(cmp, row, s)) == multiset(s + [row]);
    CountLePermutation(cmp, x, Insert(cmp, row, s), s + [row]);
    CountLeAppend(cmp, x, s, [row]);
  }

  lemma PushRetains(cmp: (Row, Row) -> int, topK: Option<nat>, rows: seq<Row>, seen: seq<Row>, row: Row)
    requires TotalPreorder(cmp) && Retains(cmp, topK, rows, seen)
    requires topK.Some? ==> |rows| < topK.value
    ensures Retains(cmp, topK, rows + [row], seen + [row])
  {
    var sorted := Sort(cmp, seen);
    SortContents(cmp, seen);
    SortAppend(cmp, seen, row);
    InsertContents(cmp, row, sorted);
    assert Kept(cmp, topK, seen) == sorted;
    assert Kept(cmp, topK, seen + [row]) == Insert(cmp, row, sorted);
    forall x ensures CountLe(cmp, x, rows + [row]) == CountLe(cmp, x, Insert(cmp, row, sorted)) {
      CountLeAppend(cmp, x, rows, [row]);
      InsertCounts(cmp, x, row, sorted);
    }
  }

  /** The worst row of the buffer ties with the last of the first `k`. */
  lemma WorstTiesLast(cmp: (Row, Row) -> int, rows: seq<Row>, kept: seq<Row>, worst: nat)
    requires TotalPreorder(cmp) && Sorted(cmp, kept) && |rows| == |kept| && worst < |rows|
    requires forall x :: CountLe(cmp, x, rows) == CountLe(cmp, x, kept)
    requires forall i :: 0 <= i < |rows| ==> cmp(rows[i], rows[worst]) <= 0
    ensures cmp(kept[|kept| - 1], rows[worst]) == 0
  {
    var last := kept[|kept| - 1];
    CountAll(cmp, rows[worst], rows);
    SortedCount(cmp, rows[worst], kept, |kept| - 1);
    forall i | 0 <= i < |kept| ensures cmp(kept[i], last) <= 0 {
      assert cmp(last, last) == 0;
    }
    CountAll(cmp, last, kept);
    if cmp(rows[worst], last) > 0 {
      CountSome(cmp, last, rows, worst);
      assert false;
    }
  }

  lemma CountSome(cmp: (Row, Row) -> int, x: Row, s: seq<Row>, i: nat)
    requires i < |s| && cmp(s[i], x) > 0
    ensures CountLe(cmp, x, s) < |s|
  {
    CountLeRemove(cmp, x, s, i);
    CountBounded(cmp, x, s[..i] + s[i + 1..]);
  }

  lemma {:induction false} CountBounded(cmp: (Row, Row) -> int, x: Row, s: seq<Row>)
    ensures CountLe(cmp, x, s) <= |s|
  {
    if s != [] {
      CountBounded(cmp, x, s[1..]);
    }
  }

  /** A row not before the worst is dropped by the bounded sort too. */
  lemma DropRetains(cmp: (Row, Row) -> int, k: nat, rows: seq<Row>, seen: seq<Row>, row: Row)
    requires TotalPreorder(cmp) && Retains(cmp, Some(k), rows, seen) && |rows| == k
    requires forall i :: 0 <= i < |rows| ==> cmp(rows[i], row) <= 0
    ensures Retains(cmp, Some(k), rows, seen + [row])
  {
    assert CountLe(cmp, row, rows) == CountLe(cmp, row, Take(k, Sort(cmp, seen)));
    CountAll(cmp, row, rows);
    KeptStays(cmp, k, seen, row);
    assert multiset(seen) <= multiset(seen + [row]);
    hide Sort, CountLe, TotalPreorder;
  }

  /** A row inserted after the first `k` leaves them. */
  lemma KeptStays(cmp: (Row, Row) -> int, k: nat, seen: seq<Row>, row: Row)
    requires TotalPreorder(cmp) && CountLe(cmp, row, Take(k, Sort(cmp, seen))) >= k
    ensures Kept(cmp, Some(k), seen + [row]) == Kept(cmp, Some(k), seen)
  {
    hide Sort, CountLe, TotalPreorder, Sorted, Insert;
    var sorted := Sort(cmp, seen);
    SortSorted(cmp, seen);
    SortAppend(cmp, seen, row);
    if |sorted| > k {
      assert sorted == Take(k, sorted) + sorted[k..];
      CountLeAppend(cmp, row, Take(k, sorted), sorted[k..]);
    }
    InsertBeyond(cmp, row, sorted, k);
  }

  /** Replacing the worst row by a smaller one is what the bounded sort does. */
  lemma ReplaceRetains(cmp: (Row, Row) -> int, k: nat, rows: seq<Row>, seen: seq<Row>, row: Row, worst: nat)
    requires TotalPreorder(cmp) && Retains(cmp, Some(k), rows, seen) && |rows| == k
    requires worst < |rows| && forall i :: 0 <= i < |rows| ==> cmp(rows[i], rows[worst]) <= 0
    requires cmp(row, rows[worst]) < 0
    ensures Retains(cmp, Some(k), rows[worst := row], seen + [row])
  {
    hide Sort, Insert;
    var kept, next := Kept(cmp, Some(k), seen), Kept(cmp, Some(k), seen + [row]);
    KeptStep(cmp, k, seen, row);
    SortSorted(cmp, seen);
    WorstTiesLast(cmp, rows, kept, worst);
    Transitive(cmp, row, rows[worst], kept[k - 1]);
    InsertKeepsLast(cmp, row, kept);
    forall x ensures CountLe(cmp, x, rows[worst := row]) == CountLe(cmp, x, next) {
      CountLeRemove(cmp, x, rows, worst);
      CountLeRemove(cmp, x, rows[worst := row], worst);
      assert rows[worst := row][..worst] + rows[worst := row][worst + 1..] == rows[..worst] + rows[worst + 1..];
      InsertCounts(cmp, x, row, kept);
      var grown := Insert(cmp, row, kept);
      assert grown == next + [kept[k - 1]];
      CountLeAppend(cmp, x, next, [kept[k - 1]]);
      Transitive(cmp, kept[k - 1], rows[worst], x);
      Transitive(cmp, rows[worst], kept[k - 1], x);
    }
  }

  lemma KeptStep(cmp: (Row, Row) -> int, k: nat, seen: seq<Row>, row: Row)
    requires TotalPreorder(cmp)
    ensures Kept(cmp, Some(k), seen + [row]) == Take(k, Insert(cmp, row, Kept(cmp, Some(k), seen)))
  {
    SortAppend(cmp, seen, row);
    InsertTake(cmp, row, Sort(cmp, seen), k);
  }

  lemma {:induction false} InsertKeepsLast(cmp: (Row, Row) -> int, x: Row, s: seq<Row>)
    requires TotalPreorder(cmp) && s != [] && cmp(x, s[|s| - 1]) < 0
    ensures Insert(cmp, x, s) == Take(|s|, Insert(cmp, x, s)) + [s[|s| - 1]]
  {
    InsertContents(cmp, x, s);
    if cmp(s[0], x) <= 0 {
      InsertKeepsLast(cmp, x, s[1..]);
    }
  }

  /** The first row that no other row follows. */
  ghost predicate IsFirstWorst(cmp: (Row, Row) -> int, rows: seq<Row>, worst: int) {
    && 0 <= worst < |rows|
    && (forall i :: 0 <= i < |rows| ==> cmp(rows[i], rows[worst]) <= 0)
    && (forall i :: 0 <= i < worst ==> cmp(rows[i], rows[worst]) < 0)
  }

  /** What adding a row does: a buffer with room grows; a full one replaces its
      first worst row exactly when the new row is smaller than some row. */
  ghost predicate Added(cmp: (Row, Row) -> int, topK: Option<nat>, before: seq<Row>, row: Row, after: seq<Row>) {
    if topK.None? || |before| < topK.value then after == before + [row]
    else if forall x :: x in before ==> cmp(row, x) >= 0 then after == before
    else exists w :: IsFirstWorst(cmp, before, w) && after == before[w := row]
  }

  class MatchBuffer {
    var rows: seq<Row>

    constructor ()
      ensures rows == []
    {
      rows := [];
    }

    /** Adds a match. Unbounded buffers grow; a full bounded buffer replaces its
        worst row, the first of them on ties, by a strictly smaller one. When a
        comparison throws, the buffer is as it was. */
    method AddOrderedMatch(row: Row, terms: seq<OrderTerm>, topK: Option<nat>, ghost seen: seq<Row>)
      returns (r: Result<()>)
      requires Retains(ByTerms(terms), topK, rows, seen)
      modifies this
      ensures r.Ok? ==> Retains(ByTerms(terms), topK, rows, seen + [row])
      ensures topK.None? || |old(rows)| < topK.value ==> r.Ok?
      ensures r.Ok? ==> Added(ByTerms(terms), topK, old(rows), row, rows)
      ensures r.Err? ==> rows == old(rows) && ThrowsOn(RowComparator(terms), rows + [row], r.error)
    {
      var cmp := ByTerms(terms);
      ByTermsIsPreorder(terms);
      if topK.None? {
        PushRetains(cmp, topK, rows, seen, row);
        rows := rows + [row];
        return Ok(());
      }
      SortContents(cmp, seen);
      if topK.value == 0 {
        DropRetains(cmp, 0, rows, seen, row);
        return Ok(());
      }
      if |rows| < topK.value {
        PushRetains(cmp, topK, rows, seen, row);
        rows := rows + [row];
        return Ok(());
      }
      r := ReplaceWorst(row, terms, topK.value, seen);
    }

    /** A full buffer: its worst row goes if the new one is smaller. */
    method ReplaceWorst(row: Row, terms: seq<OrderTerm>, topK: nat, ghost seen: seq<Row>) returns (r: Result<()>)
      requires Retains(ByTerms(terms), Some(topK), rows, seen) && |rows| >= topK > 0
      modifies this
      ensures r.Ok? ==> Retains(ByTerms(terms), Some(topK), rows, seen + [row])
      ensures r.Ok? ==> Added(ByTerms(terms), Some(topK), old(rows), row, rows)
      ensures r.Err? ==> rows == old(rows) && ThrowsOn(RowComparator(terms), rows + [row], r.error)
    {
      var cmp := ByTerms(terms);
      ByTermsIsPreorder(terms);
      SortContents(cmp, seen);
      var found := FindWorst(terms);
      if found.Err? {
        ThrowsOnMore(RowComparator(terms), rows, row, found.error);
        return Err(found.error);
      }
      var worst := found.value;
      RowComparatorAgrees(terms);
      var order := CompareRows(terms, row, rows[worst]);
      if order.Err? {
        assert (rows + [row])[|rows|] == row && (rows + [row])[worst] == rows[worst];
        assert RowComparator(terms)(row, rows[worst]) == Err(order.error);
        return Err(order.error);
      }
      assert order.value == cmp(row, rows[worst]);
      if order.value < 0 {
        ReplaceRetains(cmp, topK, rows, seen, row, worst);
        assert rows[worst] in rows;
        rows := rows[worst := row];
      } else {
        forall i | 0 <= i < |rows| ensures cmp(rows[i], row) <= 0 {
          Transitive(cmp, rows[i], rows[worst], row);
        }
        assert forall i :: 0 <= i < |rows| ==> cmp(row, rows[i]) >= 0;
        DropRetains(cmp, topK, rows, seen, row);
      }
      r := Ok(());
    }

    method FindWorst(terms: seq<OrderTerm>) returns (r: Result<nat>)
      requires rows != []
      ensures r.Ok? ==> IsFirstWorst(ByTerms(terms), rows, r.value)
      ensures r.Err? ==> ThrowsOn(RowComparator(terms), rows, r.error)
    {
      hide RowOrder, CompareRows;
      var cmp := ByTerms(terms);
      ByTermsIsPreorder(terms);
      RowComparatorAgrees(terms);
      var worst := 0;
      assert cmp(rows[0], rows[0]) == 0;
      for index := 1 to |rows|
        invariant worst < index
        invariant forall i :: 0 <= i < index ==> cmp(rows[i], rows[worst]) <= 0
        invariant forall i :: 0 <= i < worst ==> cmp(rows[i], rows[worst]) < 0
      {
        var order := CompareRows(terms, rows[index], rows[worst]);
        if order.Err? {
          assert RowComparator(terms)(rows[index], rows[worst]) == Err(order.error);
          return Err(order.error);
        }
        assert order.value == cmp(rows[index], rows[worst]);
        if order.value > 0 {
          forall i | 0 <= i < index ensures cmp(rows[i], rows[index]) < 0 {
            Transitive(cmp, rows[i], rows[worst], rows[index]);
          }
          worst := index;
          assert cmp(rows[index], rows[index]) == 0;
        }
      }
      r := Ok(worst);
    }
  }

  lemma ThrowsOnMore<T>(compare: (T, T) -> Result<int>, s: seq<T>, x: T, error: Error)
    requires ThrowsOn(compare, s, error)
    ensures ThrowsOn(compare, s + [x], error)
  {
    var y, z :| y in s && z in s && compare(y, z) == Err(error);
    assert y in s + [x] && z in s + [x];
  }

  lemma ThrowsOnSeen<T>(compare: (T, T) -> Result<int>, s: seq<T>, seen: seq<T>, error: Error)
    requires ThrowsOn(compare, s, error) && multiset(s) <= multiset(seen)
    ensures ThrowsOn(compare, seen, error)
  {
    var y, z :| y in s && z in s && compare(y, z) == Err(error);
    assert y in multiset(s) && z in multiset(s);
    assert y in multiset(seen) && z in multiset(seen);
  }

  /** Why collecting fails: a row cannot be sorted by, or the comparator throws on
      two of the rows. */
  ghost predicate ScanFails(scanned: seq<Row>, terms: seq<OrderTerm>, error: Error) {
    || (exists row :: row in scanned && ValidateSortRow(row, terms) == Err(error))
    || ThrowsOn(RowComparator(terms), scanned, error)
  }

  /** Feeding every row of a scan to the buffer and sorting it yields the keys
      of the first `topK` rows of the stable sort, in order. */
  method CollectOrderedMatches(scanned: seq<Row>, terms: seq<OrderTerm>, topK: Option<nat>)
    returns (r: Result<seq<Row>>)
    ensures r.Ok? ==> multiset(r.value) <= multiset(scanned)
    ensures r.Ok? ==> SameKeys(ByTerms(terms), r.value, Kept(ByTerms(terms), topK, scanned))
    ensures r.Ok? ==> forall orderBy :: NormalizeAll(orderBy) == Ok(terms) && AllComparable(orderBy, scanned) ==>
      FirstInOrder(orderBy, if topK.Some? then topK.value else |scanned|, scanned, r.value)
    ensures r.Ok? ==> forall row :: row in scanned ==> ValidateSortRow(row, terms).Ok?
    ensures r.Err? ==> ScanFails(scanned, terms, r.error)
  {
    var buffer := new MatchBuffer();
    RetainsNothing(ByTerms(terms), topK);
    hide Retains, Kept, SameKeys, ThrowsOn, ValidateSortRow, Added, ByTerms, RowComparator, FirstInOrder, AllComparable;
    hide NormalizeAll;
    assert scanned[..0] == [];
    for i := 0 to |scanned|
      invariant Retains(ByTerms(terms), topK, buffer.rows, scanned[..i])
      invariant forall k :: 0 <= k < i ==> ValidateSortRow(scanned[k], terms).Ok?
    {
      assert scanned[..i + 1] == scanned[..i] + [scanned[i]];
      var valid := ValidateSortRow(scanned[i], terms);
      if valid.Err? {
        return Err(valid.error);
      }
      var added := buffer.AddOrderedMatch(scanned[i], terms, topK, scanned[..i]);
      if added.Err? {
        PartOfScan(ByTerms(terms), topK, buffer.rows, scanned, i);
        ThrowsOnSeen(RowComparator(terms), buffer.rows + [scanned[i]], scanned, added.error);
        return Err(added.error);
      }
    }
    assert scanned[..|scanned|] == scanned;
    r := SortMatches(buffer.rows, terms, topK, scanned);
    if r.Ok? {
      forall orderBy | NormalizeAll(orderBy) == Ok(terms) && AllComparable(orderBy, scanned)
        ensures FirstInOrder(orderBy, if topK.Some? then topK.value else |scanned|, scanned, r.value)
      {
        KeptInOrder(orderBy, terms, topK, scanned, r.value);
      }
    }
  }

  lemma KeptInOrder(orderBy: seq<OrderByTerm>, terms: seq<OrderTerm>, topK: Option<nat>, scanned: seq<Row>,
                    answer: seq<Row>)
    requires NormalizeAll(orderBy) == Ok(terms) && AllComparable(orderBy, scanned)
    requires multiset(answer) <= multiset(scanned)
    requires SameKeys(ByTerms(terms), answer, Kept(ByTerms(terms), topK, scanned))
    ensures FirstInOrder(orderBy, if topK.Some? then topK.value else |scanned|, scanned, answer)
  {
    SortContents(ByTerms(terms), scanned);
    AnswerInOrder(orderBy, if topK.Some? then topK.value else |scanned|, scanned, answer);
  }

  /** The final sort of what was retained. */
  method SortMatches(rows: seq<Row>, terms: seq<OrderTerm>, ghost topK: Option<nat>, ghost scanned: seq<Row>)
    returns (r: Result<seq<Row>>)
    requires Retains(ByTerms(terms), topK, rows, scanned)
    ensures r.Ok? ==> multiset(r.value) <= multiset(scanned)
    ensures r.Ok? ==> SameKeys(ByTerms(terms), r.value, Kept(ByTerms(terms), topK, scanned))
    ensures r.Err? ==> ThrowsOn(RowComparator(terms), scanned, r.error)
  {
    assert multiset(rows) <= multiset(scanned);
    hide Retains, Kept, SameKeys, ThrowsOn, Sort, TrySort, TotalPreorder;
    ByTermsIsPreorder(terms);
    RowComparatorAgrees(terms);
    RetainedKeys(ByTerms(terms), topK, rows, scanned);
    TrySortReturns(RowComparator(terms), ByTerms(terms), rows, rows);
    r := TrySort(RowComparator(terms), rows);
    if r.Err? {
      ThrowsOnSeen(RowComparator(terms), rows, scanned, r.error);
    }
  }

  lemma RetainsNothing(cmp: (Row, Row) -> int, topK: Option<nat>)
    ensures Retains(cmp, topK, [], [])
  {
  }

  lemma PartOfScan(cmp: (Row, Row) -> int, topK: Option<nat>, rows: seq<Row>, scanned: seq<Row>, i: nat)
    requires i < |scanned| && Retains(cmp, topK, rows, scanned[..i])
    ensures multiset(rows + [scanned[i]]) <= multiset(scanned)
  {
    assert multiset(rows) <= multiset(scanned[..i]);
    hide *;
    OneMoreScanned(rows, scanned, i);
  }

  lemma OneMoreScanned(rows: seq<Row>, scanned: seq<Row>, i: nat)
    requires i < |scanned| && multiset(rows) <= multiset(scanned[..i])
    ensures multiset(rows + [scanned[i]]) <= multiset(scanned)
  {
    assert scanned == scanned[..i] + [scanned[i]] + scanned[i + 1..];
  }
}
