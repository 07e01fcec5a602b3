/** ORDER BY: term normalisation, the comparators of the row and vector paths,
    and the total preorder both of them compute. */
module RowOrders {
  import opened Scalars
  import opened Expressions
  import opened Orders
  import opened ThrowingSorts

  /** A term as a query gives it; absent parts take their defaults. */
  datatype OrderByTerm = OrderByTerm(column: string, descending: Option<bool>, nullsFirst: Option<bool>)

  /** A normalised term. */
  datatype OrderTerm = OrderTerm(column: string, descending: bool, nullsFirst: bool)

  function NormalizeTerm(term: OrderByTerm): Result<OrderTerm> {
    if term.column == "" then Err(TypeError)
    else
      var descending := term.descending == Some(true);
      Ok(OrderTerm(term.column, descending, if term.nullsFirst.Some? then term.nullsFirst.value else descending))
  }

  predicate IsSortable(v: Scalar) {
    v.Str? || v.Number? || v.BigInt? || v.Bool? || v.Time?
  }

  function Directed(term: OrderTerm, order: int): int {
    if term.descending then -order else order
  }

  /** Comparison of two sort keys in the vector path. */
  function CompareSortValues(term: OrderTerm, l: Scalar, r: Scalar): Result<int> {
    if l.Null? || r.Null? then
      Ok(if l.Null? && r.Null? then 0 else if l.Null? == term.nullsFirst then -1 else 1)
    else if !IsSortable(l) || !IsSortable(r) then Err(TypeError)
    else if l.Time? || r.Time? then
      if l.Time? && r.Time? then Ok(Directed(term, IntOrder(l.t.nanos, r.t.nanos))) else Err(TypeError)
    else if TypeOfScalar(l) != TypeOfScalar(r) then Err(TypeError)
    else Ok(Directed(term, LooseOrder(l, r)))
  }

  /** Comparison of two sort keys in the row path, which also refuses NaN. */
  function CompareOrderedScalars(term: OrderTerm, l: Scalar, r: Scalar): Result<int> {
    if !l.Null? && !r.Null? && IsSortable(l) && IsSortable(r) && (IsNaN(l) || IsNaN(r)) then Err(TypeError)
    else CompareSortValues(term, l, r)
  }

  // ----- A total preorder on all scalars -----

  function TypeRank(v: Scalar): nat {
    match v
    case Null => 0
    case Bool(_) => 1
    case Number(Fin(_)) => 2
    case Number(NaN) => 3
    case BigInt(_) => 4
    case Str(_) => 5
    case Time(_) => 6
    case Bytes(_) => 7
    case Span(_) => 8
  }

  /** Orders comparable values as the runtime does and separates the rest by type. */
  function ScalarOrder(l: Scalar, r: Scalar): int {
    if TypeRank(l) != TypeRank(r) then IntOrder(TypeRank(l), TypeRank(r))
    else if l.Time? then IntOrder(l.t.nanos, r.t.nanos)
    else LooseOrder(l, r)
  }

  function TermOrder(term: OrderTerm, l: Scalar, r: Scalar): int {
    if l.Null? || r.Null? then
      if l.Null? && r.Null? then 0 else if l.Null? == term.nullsFirst then -1 else 1
    else Directed(term, ScalarOrder(l, r))
  }

  lemma ScalarOrderAntisymmetric(l: Scalar, r: Scalar)
    ensures ScalarOrder(r, l) == -ScalarOrder(l, r)
  {
    if l.Str? && r.Str? {
      LexAntisymmetric(l.s, r.s);
    }
  }

  lemma ScalarOrderTransitive(x: Scalar, y: Scalar, z: Scalar)
    requires ScalarOrder(x, y) <= 0 && ScalarOrder(y, z) <= 0
    ensures ScalarOrder(x, z) <= 0
  {
    if x.Str? && y.Str? && z.Str? {
      LexTransitive(x.s, y.s, z.s);
    }
  }

  lemma TermOrderAntisymmetric(term: OrderTerm, l: Scalar, r: Scalar)
    ensures TermOrder(term, r, l) == -TermOrder(term, l, r)
  {
    ScalarOrderAntisymmetric(l, r);
  }

  lemma TermOrderTransitive(term: OrderTerm, x: Scalar, y: Scalar, z: Scalar)
    requires TermOrder(term, x, y) <= 0 && TermOrder(term, y, z) <= 0
    ensures TermOrder(term, x, z) <= 0
  {
    if !x.Null? && !y.Null? && !z.Null? {
      if term.descending {
        ScalarOrderAntisymmetric(x, y);
        ScalarOrderAntisymmetric(y, z);
        ScalarOrderAntisymmetric(x, z);
        ScalarOrderTransitive(z, y, x);
      } else {
        ScalarOrderTransitive(x, y, z);
      }
    }
  }

  /** A comparator that returns, and sees no NaN, computes `TermOrder`. */
  lemma ComparatorIsTermOrder(term: OrderTerm, l: Scalar, r: Scalar)
    ensures CompareSortValues(term, l, r).Ok? && !IsNaN(l) && !IsNaN(r) ==>
      CompareSortValues(term, l, r) == Ok(TermOrder(term, l, r))
    ensures CompareOrderedScalars(term, l, r).Ok? ==>
      CompareOrderedScalars(term, l, r) == Ok(TermOrder(term, l, r))
  {
  }

  // ----- Rows -----

  function KeyOf(row: Row, column: string): Scalar {
    if column in row then row[column] else Null
  }

  function RowOrder(terms: seq<OrderTerm>, l: Row, r: Row): int {
    if terms == [] then 0
    else
      var c := TermOrder(terms[0], KeyOf(l, terms[0].column), KeyOf(r, terms[0].column));
      if c != 0 then c else RowOrder(terms[1..], l, r)
  }

  /** The row path's comparator: terms in order, the first difference decides. */
  function CompareRows(terms: seq<OrderTerm>, l: Row, r: Row): Result<int> {
    if terms == [] then Ok(0)
    else if terms[0].column !in l || terms[0].column !in r then Err(UnknownColumn)
    else
      var c :- CompareOrderedScalars(terms[0], l[terms[0].column], r[terms[0].column]);
      if c != 0 then Ok(c) else CompareRows(terms[1..], l, r)
  }

  lemma {:induction false} CompareRowsIsRowOrder(terms: seq<OrderTerm>, l: Row, r: Row)
    requires CompareRows(terms, l, r).Ok?
    ensures CompareRows(terms, l, r) == Ok(RowOrder(terms, l, r))
  {
    if terms != [] {
      ComparatorIsTermOrder(terms[0], l[terms[0].column], r[terms[0].column]);
      if TermOrder(terms[0], l[terms[0].column], r[terms[0].column]) == 0 {
        CompareRowsIsRowOrder(terms[1..], l, r);
      }
    }
  }

  lemma {:induction false} RowOrderAntisymmetric(terms: seq<OrderTerm>, l: Row, r: Row)
    ensures RowOrder(terms, r, l) == -RowOrder(terms, l, r)
  {
    if terms != [] {
      TermOrderAntisymmetric(terms[0], KeyOf(l, terms[0].column), KeyOf(r, terms[0].column));
      RowOrderAntisymmetric(terms[1..], l, r);
    }
  }

  lemma {:induction false} RowOrderTransitive(terms: seq<OrderTerm>, x: Row, y: Row, z: Row)
    requires RowOrder(terms, x, y) <= 0 && RowOrder(terms, y, z) <= 0
    ensures RowOrder(terms, x, z) <= 0
  {
    if terms != [] {
      var a, b, c := KeyOf(x, terms[0].column), KeyOf(y, terms[0].column), KeyOf(z, terms[0].column);
      TermOrderTransitive(terms[0], a, b, c);
      if TermOrder(terms[0], a, c) == 0 {
        TermOrderAntisymmetric(terms[0], a, b);
        TermOrderAntisymmetric(terms[0], b, c);
        TermOrderAntisymmetric(terms[0], a, c);
        TermOrderTransitive(terms[0], c, a, b);
        assert TermOrder(terms[0], c, a) == 0;
        assert TermOrder(terms[0], a, b) == 0 by {
          if TermOrder(terms[0], a, b) < 0 {
            TermOrderTransitive(terms[0], b, c, a);
            assert false;
          }
        }
        assert TermOrder(terms[0], b, c) == 0;
        RowOrderTransitive(terms[1..], x, y, z);
      }
    }
  }

  /** A row comparator as a function value. */
  function ByTerms(terms: seq<OrderTerm>): (Row, Row) -> int {
    (l: Row, r: Row) => RowOrder(terms, l, r)
  }

  lemma ByTermsIsPreorder(terms: seq<OrderTerm>)
    ensures TotalPreorder(ByTerms(terms))
  {
    var cmp := ByTerms(terms);
    forall x, y ensures cmp(x, y) < 0 <==> cmp(y, x) > 0 {
      RowOrderAntisymmetric(terms, x, y);
    }
    forall x, y, z | cmp(x, y) <= 0 && cmp(y, z) <= 0 ensures cmp(x, z) <= 0 {
      RowOrderTransitive(terms, x, y, z);
    }
  }

  /** The row comparator as it runs: it may throw. */
  function RowComparator(terms: seq<OrderTerm>): (Row, Row) -> Result<int> {
    (l: Row, r: Row) => CompareRows(terms, l, r)
  }

  lemma RowComparatorAgrees(terms: seq<OrderTerm>)
    ensures Agrees(RowComparator(terms), ByTerms(terms))
  {
    forall l, r | CompareRows(terms, l, r).Ok? ensures CompareRows(terms, l, r) == Ok(ByTerms(terms)(l, r)) {
      CompareRowsIsRowOrder(terms, l, r);
    }
  }

  /** `validateSortRow`: every order column exists and holds null or a scalar. */
  function ValidateSortRow(row: Row, terms: seq<OrderTerm>): Result<()> {
    if terms == [] then Ok(())
    else if terms[0].column !in row then Err(UnknownColumn)
    else if !row[terms[0].column].Null? && !IsSortable(row[terms[0].column]) then Err(TypeError)
    else ValidateSortRow(row, terms[1..])
  }

  // ----- Normalisation -----

  function NormalizeAll(terms: seq<OrderByTerm>): Result<seq<OrderTerm>> {
    if terms == [] then Ok([])
    else
      var init :- NormalizeAll(terms[..|terms| - 1]);
      var last :- NormalizeTerm(terms[|terms| - 1]);
      Ok(init + [last])
  }

  /** Every term's column is named; an empty list is refused. */
  function NormalizeOrderBy(terms: seq<OrderByTerm>): Result<seq<OrderTerm>> {
    if terms == [] then Err(TypeError) else NormalizeAll(terms)
  }

  lemma {:induction false} NormalizePrefix(terms: seq<OrderByTerm>, i: nat)
    requires i <= |terms| && NormalizeAll(terms[..i]).Err?
    ensures NormalizeAll(terms) == NormalizeAll(terms[..i])
  {
    if i < |terms| {
      assert terms[..|terms| - 1][..i] == terms[..i];
      NormalizePrefix(terms[..|terms| - 1], i);
    } else {
      assert terms[..i] == terms;
    }
  }

  /** Two lists of terms order every pair of rows alike. */
  ghost predicate SameOrder(s: seq<OrderTerm>, t: seq<OrderTerm>) {
    forall l: Row, r: Row :: RowOrder(s, l, r) == RowOrder(t, l, r)
  }

  /** Normalises and drops repeated terms, as the vector path does, without
      changing the order of any two rows. */
  method NormalizeVectorOrderBy(terms: seq<OrderByTerm>) returns (r: Result<seq<OrderTerm>>)
    ensures r.Ok? <==> NormalizeOrderBy(terms).Ok?
    ensures r.Err? ==> r == NormalizeOrderBy(terms)
    ensures r.Ok? ==> SameOrder(r.value, NormalizeOrderBy(terms).value)
    ensures r.Ok? ==> forall i, j :: 0 <= i < j < |r.value| ==> r.value[i] != r.value[j]
    ensures r.Ok? ==> forall t :: t in r.value <==> t in NormalizeOrderBy(terms).value
  {
    if terms == [] {
      return Err(TypeError);
    }
    var normalized: seq<OrderTerm> := [];
    var seen: set<OrderTerm> := {};
    assert terms[..0] == [];
    for i := 0 to |terms|
      invariant NormalizeAll(terms[..i]).Ok?
      invariant forall t :: t in normalized <==> t in NormalizeAll(terms[..i]).value
      invariant forall t :: t in normalized <==> t in seen
      invariant forall j, k :: 0 <= j < k < |normalized| ==> normalized[j] != normalized[k]
      invariant SameOrder(normalized, NormalizeAll(terms[..i]).value)
    {
      assert terms[..i + 1][..i] == terms[..i];
      var term := NormalizeTerm(terms[i]);
      if term.Err? {
        NormalizePrefix(terms, i + 1);
        return Err(term.error);
      }
      ghost var all := NormalizeAll(terms[..i]).value;
      if term.value in seen {
        RepeatedTermIrrelevant(all, term.value);
        continue;
      }
      seen := seen + {term.value};
      AppendedTermSameOrder(normalized, all, term.value);
      normalized := normalized + [term.value];
    }
    assert terms[..|terms|] == terms;
    r := Ok(normalized);
  }

  lemma {:induction false} RowOrderAppend(s: seq<OrderTerm>, term: OrderTerm, l: Row, r: Row)
    ensures RowOrder(s + [term], l, r)
         == if RowOrder(s, l, r) != 0 then RowOrder(s, l, r)
            else TermOrder(term, KeyOf(l, term.column), KeyOf(r, term.column))
  {
    if s == [] {
      assert s + [term] == [term] && [term][1..] == [];
    } else {
      assert (s + [term])[1..] == s[1..] + [term];
      RowOrderAppend(s[1..], term, l, r);
    }
  }

  lemma {:induction false} TiedRowsTieTerms(s: seq<OrderTerm>, term: OrderTerm, l: Row, r: Row)
    requires term in s && RowOrder(s, l, r) == 0
    ensures TermOrder(term, KeyOf(l, term.column), KeyOf(r, term.column)) == 0
  {
    if s[0] != term {
      TiedRowsTieTerms(s[1..], term, l, r);
    }
  }

  /** Repeating a term never changes a comparison. */
  lemma RepeatedTermIrrelevant(s: seq<OrderTerm>, term: OrderTerm)
    requires term in s
    ensures SameOrder(s + [term], s)
  {
    forall l: Row, r: Row ensures RowOrder(s + [term], l, r) == RowOrder(s, l, r) {
      RowOrderAppend(s, term, l, r);
      if RowOrder(s, l, r) == 0 {
        TiedRowsTieTerms(s, term, l, r);
      }
    }
  }

  lemma AppendedTermSameOrder(s: seq<OrderTerm>, t: seq<OrderTerm>, term: OrderTerm)
    requires SameOrder(s, t)
    ensures SameOrder(s + [term], t + [term])
  {
    forall l: Row, r: Row ensures RowOrder(s + [term], l, r) == RowOrder(t + [term], l, r) {
      RowOrderAppend(s, term, l, r);
      RowOrderAppend(t, term, l, r);
    }
  }
}
