/** What ORDER BY means for the rows that come back, said of their key values
    alone: which key is first for a term, which row for a list of terms. */
module SortMeanings {
  import opened Scalars
  import opened ValueOrders
  import opened Expressions
  import opened Orders
  import opened FirstElements
  import opened RowOrders
  import opened ThrowingSorts

  /** Ascending unless asked otherwise. */
  predicate Descends(term: OrderByTerm) {
    term.descending.Some? && term.descending.value
  }

  /** Unless asked otherwise nulls come last when ascending, first when descending. */
  predicate NullsLead(term: OrderByTerm) {
    match term.nullsFirst
    case Some(first) => first
    case None => Descends(term)
  }

  /** One key comes strictly before another for a term. */
  predicate KeyFirst(term: OrderByTerm, l: Scalar, r: Scalar) {
    if l.Null? then !r.Null? && NullsLead(term)
    else if r.Null? then !NullsLead(term)
    else if Descends(term) then Precedes(r, l)
    else Precedes(l, r)
  }

  /** Two keys of one kind: null, booleans, numbers but NaN, big integers, texts or timestamps. */
  predicate OneKind(l: Scalar, r: Scalar) {
    || l.Null? || r.Null?
    || (l.Bool? && r.Bool?) || (l.BigInt? && r.BigInt?) || (l.Str? && r.Str?) || (l.Time? && r.Time?)
    || (l.Number? && r.Number? && l.n.Fin? && r.n.Fin?)
  }

  predicate TermFirst(terms: seq<OrderByTerm>, l: Row, r: Row, m: nat)
    requires m < |terms|
  {
    KeyFirst(terms[m], KeyOf(l, terms[m].column), KeyOf(r, terms[m].column))
  }

  /** Row `l` comes strictly before `r`: some term puts its key first, and no term
      before it tells the two rows apart. */
  ghost predicate RowFirst(terms: seq<OrderByTerm>, l: Row, r: Row) {
    exists m :: 0 <= m < |terms| && DecidedAt(terms, l, r, m)
  }

  ghost predicate DecidedAt(terms: seq<OrderByTerm>, l: Row, r: Row, m: nat)
    requires m < |terms|
  {
    TermFirst(terms, l, r, m) && forall n :: 0 <= n < m ==> !TermFirst(terms, l, r, n) && !TermFirst(terms, r, l, n)
  }

  ghost predicate ComparableRows(terms: seq<OrderByTerm>, l: Row, r: Row) {
    forall m :: 0 <= m < |terms| ==> OneKind(KeyOf(l, terms[m].column), KeyOf(r, terms[m].column))
  }

  /** Any two of these rows can be compared by the terms. */
  ghost predicate AllComparable(terms: seq<OrderByTerm>, rows: seq<Row>) {
    forall l, r :: l in rows && r in rows ==> ComparableRows(terms, l, r)
  }

  // ----- The comparators -----

  /** The two comparators return exactly on keys of one kind, the vector path also on NaN. */
  lemma ComparatorReturns(term: OrderTerm, l: Scalar, r: Scalar)
    ensures CompareOrderedScalars(term, l, r).Ok? <==> OneKind(l, r)
    ensures CompareSortValues(term, l, r).Ok? <==> OneKind(l, r) || (l.Number? && r.Number?)
  {
  }

  /** A row can be sorted by the terms: every column is there and holds no binary or
      interval value. */
  predicate CanSortBy(row: Row, term: OrderTerm) {
    term.column in row && !row[term.column].Bytes? && !row[term.column].Span?
  }

  /** Validation refuses a row for the first term it cannot be sorted by. */
  lemma {:induction false} ValidateSortRowMeans(row: Row, terms: seq<OrderTerm>)
    ensures ValidateSortRow(row, terms).Ok? <==> forall i :: 0 <= i < |terms| ==> CanSortBy(row, terms[i])
    ensures forall i :: 0 <= i < |terms| && !CanSortBy(row, terms[i])
                        && (forall j :: 0 <= j < i ==> CanSortBy(row, terms[j])) ==>
      ValidateSortRow(row, terms) == Err(if terms[i].column in row then TypeError else UnknownColumn)
  {
    if terms != [] {
      ValidateSortRowMeans(row, terms[1..]);
      assert forall i :: 1 <= i < |terms| ==> terms[i] == terms[1..][i - 1];
    }
  }

  lemma {:induction false} NormalizeAllMeans(terms: seq<OrderByTerm>)
    ensures NormalizeAll(terms).Ok? <==> forall i :: 0 <= i < |terms| ==> terms[i].column != ""
    ensures NormalizeAll(terms).Ok? ==>
      |NormalizeAll(terms).value| == |terms|
      && forall i :: 0 <= i < |terms| ==> NormalizeTerm(terms[i]) == Ok(NormalizeAll(terms).value[i])
    ensures NormalizeAll(terms).Err? ==> NormalizeAll(terms).error == TypeError
  {
    if terms != [] {
      NormalizeAllMeans(terms[..|terms| - 1]);
    }
  }

  /** An ORDER BY is accepted exactly when it has a term and every term names a
      column; each term keeps its place and its column. */
  lemma NormalizeMeans(terms: seq<OrderByTerm>)
    ensures NormalizeOrderBy(terms).Ok? <==> terms != [] && forall i :: 0 <= i < |terms| ==> terms[i].column != ""
    ensures NormalizeOrderBy(terms).Err? ==> NormalizeOrderBy(terms).error == TypeError
    ensures NormalizeOrderBy(terms).Ok? ==>
      var normalized := NormalizeOrderBy(terms).value;
      && |normalized| == |terms|
      && forall i :: 0 <= i < |terms| ==>
           && normalized[i].column == terms[i].column
           && normalized[i].descending == Descends(terms[i]) && normalized[i].nullsFirst == NullsLead(terms[i])
  {
    NormalizeAllMeans(terms);
    if NormalizeOrderBy(terms).Ok? {
      var normalized := NormalizeOrderBy(terms).value;
      forall i | 0 <= i < |terms| ensures NormalizeTerm(terms[i]) == Ok(normalized[i]) {
      }
      hide NormalizeAll;
    }
  }

  lemma TermOrderMeans(term: OrderByTerm, l: Scalar, r: Scalar)
    requires NormalizeTerm(term).Ok? && OneKind(l, r)
    ensures TermOrder(NormalizeTerm(term).value, l, r) < 0 <==> KeyFirst(term, l, r)
    ensures TermOrder(NormalizeTerm(term).value, l, r) > 0 <==> KeyFirst(term, r, l)
  {
    if !l.Time? || !r.Time? {
      LooseOrderMeans(l, r);
      hide LooseOrder;
    }
  }

  lemma {:induction false} RowOrderMeans(terms: seq<OrderByTerm>, l: Row, r: Row)
    requires NormalizeAll(terms).Ok? && ComparableRows(terms, l, r)
    ensures RowOrder(NormalizeAll(terms).value, l, r) < 0 <==> RowFirst(terms, l, r)
    ensures RowOrder(NormalizeAll(terms).value, l, r) > 0 <==> RowFirst(terms, r, l)
  {
    if terms != [] {
      var front, last := terms[..|terms| - 1], terms[|terms| - 1];
      RowOrderMeans(front, l, r);
      TermOrderMeans(last, KeyOf(l, last.column), KeyOf(r, last.column));
      RowOrderAppend(NormalizeAll(front).value, NormalizeTerm(last).value, l, r);
      OneMoreTerm(front, last, l, r);
      OneMoreTerm(front, last, r, l);
      assert front + [last] == terms;
      hide TermOrder, RowOrder, RowFirst, KeyFirst, NormalizeTerm;
      assert NormalizeAll(terms) == Ok(NormalizeAll(front).value + [NormalizeTerm(last).value]);
      KeepsColumn(last);
    }
  }

  lemma KeepsColumn(term: OrderByTerm)
    requires NormalizeTerm(term).Ok?
    ensures NormalizeTerm(term).value.column == term.column
  {
  }

  lemma OneMoreTerm(front: seq<OrderByTerm>, last: OrderByTerm, l: Row, r: Row)
    ensures RowFirst(front + [last], l, r) <==>
      || RowFirst(front, l, r)
      || (!RowFirst(front, r, l) && KeyFirst(last, KeyOf(l, last.column), KeyOf(r, last.column)))
  {
    var terms := front + [last];
    forall m | 0 <= m < |front|
      ensures TermFirst(terms, l, r, m) == TermFirst(front, l, r, m)
      ensures TermFirst(terms, r, l, m) == TermFirst(front, r, l, m)
    {
      assert terms[m] == front[m];
    }
    assert TermFirst(terms, l, r, |front|) <==> KeyFirst(last, KeyOf(l, last.column), KeyOf(r, last.column));
    hide TermFirst;
    if RowFirst(front, l, r) {
      var m :| 0 <= m < |front| && DecidedAt(front, l, r, m);
      assert DecidedAt(terms, l, r, m);
    }
    if RowFirst(terms, l, r) {
      var m :| 0 <= m < |terms| && DecidedAt(terms, l, r, m);
      if m < |front| {
        assert DecidedAt(front, l, r, m);
      }
    }
    DecidedOrTied(front, l, r, |front|);
    if !RowFirst(front, l, r) && !RowFirst(front, r, l) && TermFirst(terms, l, r, |front|) {
      assert DecidedAt(terms, l, r, |front|);
    }
  }

  /** Rows of which neither is first are told apart by no term. */
  lemma {:induction false} DecidedOrTied(terms: seq<OrderByTerm>, l: Row, r: Row, n: nat)
    requires n <= |terms|
    ensures !RowFirst(terms, l, r) && !RowFirst(terms, r, l) ==>
      forall m :: 0 <= m < n ==> !TermFirst(terms, l, r, m) && !TermFirst(terms, r, l, m)
  {
    if n > 0 {
      DecidedOrTied(terms, l, r, n - 1);
      if !RowFirst(terms, l, r) && !RowFirst(terms, r, l) {
        assert !DecidedAt(terms, l, r, n - 1) && !DecidedAt(terms, r, l, n - 1);
      }
    }
  }

  // ----- Rows that come back -----

  /** `answer` lists the first `k` rows in order: no row comes before one listed
      earlier, and no row left out comes before one listed. */
  ghost predicate FirstInOrder(terms: seq<OrderByTerm>, k: nat, rows: seq<Row>, answer: seq<Row>) {
    && |answer| == Least(k, |rows|)
    && (forall i, j :: 0 <= i < j < |answer| ==> !RowFirst(terms, answer[j], answer[i]))
    && (forall rest: seq<Row>, x, i ::
          multiset(rows) == multiset(answer) + multiset(rest) && x in rest && 0 <= i < |answer| ==>
            !RowFirst(terms, x, answer[i]))
  }

  lemma FirstMeans(terms: seq<OrderByTerm>, rows: seq<Row>, l: Row, r: Row)
    requires NormalizeAll(terms).Ok? && AllComparable(terms, rows) && l in rows && r in rows
    ensures ByTerms(NormalizeAll(terms).value)(l, r) < 0 <==> RowFirst(terms, l, r)
    ensures ByTerms(NormalizeAll(terms).value)(l, r) > 0 <==> RowFirst(terms, r, l)
  {
    RowOrderMeans(terms, l, r);
  }

  /** Main theorem: whatever carries, position by position, the sort keys of the
      first `k` rows of the stable sort lists the first `k` rows in the order the
      terms ask for. */
  lemma AnswerInOrder(terms: seq<OrderByTerm>, k: nat, rows: seq<Row>, answer: seq<Row>)
    requires NormalizeAll(terms).Ok? && AllComparable(terms, rows) && multiset(answer) <= multiset(rows)
    requires SameKeys(ByTerms(NormalizeAll(terms).value), answer,
                      Take(k, Sort(ByTerms(NormalizeAll(terms).value), rows)))
    ensures FirstInOrder(terms, k, rows, answer)
  {
    var cmp := ByTerms(NormalizeAll(terms).value);
    ByTermsIsPreorder(NormalizeAll(terms).value);
    KeysAscend(cmp, k, rows, answer);
    forall x | x in answer ensures x in rows {
      assert x in multiset(answer);
      assert x in multiset(rows);
    }
    hide Sort, Take, RowFirst, TotalPreorder, SameKeys, ByTerms, NormalizeAll, AllComparable;
    forall i, j | 0 <= i < j < |answer| ensures !RowFirst(terms, answer[j], answer[i]) {
      FirstMeans(terms, rows, answer[i], answer[j]);
    }
    forall rest: seq<Row>, x, i |
      multiset(rows) == multiset(answer) + multiset(rest) && x in rest && 0 <= i < |answer|
      ensures !RowFirst(terms, x, answer[i])
    {
      assert x in multiset(rest);
      assert x in multiset(rows);
      LeftOut(cmp, k, rows, answer, rest, x, i);
      FirstMeans(terms, rows, x, answer[i]);
    }
  }

  /** One term, said kind by kind for two rows that come back in this order. */
  lemma OneTermInOrder(term: OrderByTerm, k: nat, rows: seq<Row>, answer: seq<Row>, i: nat, j: nat)
    requires FirstInOrder([term], k, rows, answer) && i < j < |answer|
    ensures var l, r, down :=
      KeyOf(answer[i], term.column), KeyOf(answer[j], term.column), term.descending == Some(true);
      && (forall a, b :: l == Number(Fin(a)) && r == Number(Fin(b)) ==> if down then a >= b else a <= b)
      && (forall a, b :: l == BigInt(a) && r == BigInt(b) ==> if down then a >= b else a <= b)
      && (l.Time? && r.Time? ==> if down then l.t.nanos >= r.t.nanos else l.t.nanos <= r.t.nanos)
      && (l.Bool? && r.Bool? ==> if down then r.b ==> l.b else l.b ==> r.b)
      && (l.Str? && r.Str? ==> l.s == r.s || if down then TextBefore(r.s, l.s) else TextBefore(l.s, r.s))
      && (term.nullsFirst == Some(true) || (term.nullsFirst == None && down) ==> r.Null? ==> l.Null?)
      && (term.nullsFirst == Some(false) || (term.nullsFirst == None && !down) ==> l.Null? ==> r.Null?)
  {
    var l, r := KeyOf(answer[i], term.column), KeyOf(answer[j], term.column);
    assert TermFirst([term], answer[j], answer[i], 0) <==> KeyFirst(term, r, l);
    assert !DecidedAt([term], answer[j], answer[i], 0);
    if l.Str? && r.Str? {
      TextsTie(l.s, r.s);
    }
    hide TextBefore;
  }
}
