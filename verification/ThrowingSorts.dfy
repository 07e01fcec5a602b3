/** Sorting with a comparator that may throw. */
module ThrowingSorts {
  import opened Scalars
  import opened Orders

  /** Insertion that stops at the first comparison that throws. */
  function TryInsert<T>(compare: (T, T) -> Result<int>, x: T, s: seq<T>): Result<seq<T>> {
    if s == [] then Ok([x])
    else
      var c :- compare(s[0], x);
      if c > 0 then Ok([x] + s)
      else
        var rest :- TryInsert(compare, x, s[1..]);
        Ok([s[0]] + rest)
  }

  function TrySort<T>(compare: (T, T) -> Result<int>, s: seq<T>): Result<seq<T>> {
    if s == [] then Ok([])
    else
      var before :- TrySort(compare, s[..|s| - 1]);
      TryInsert(compare, s[|s| - 1], before)
  }

  ghost predicate Within<T>(s: seq<T>, all: seq<T>) {
    forall x :: x in s ==> x in all
  }

  /** Where the comparator returns on these elements, it returns what `cmp` says. */
  ghost predicate Computes<T>(compare: (T, T) -> Result<int>, cmp: (T, T) -> int, s: seq<T>) {
    forall x, y :: x in s && y in s && compare(x, y).Ok? ==> compare(x, y) == Ok(cmp(x, y))
  }

  /** The comparator throws this error on two of these elements. */
  ghost predicate ThrowsOn<T>(compare: (T, T) -> Result<int>, s: seq<T>, error: Error) {
    exists x, y :: x in s && y in s && compare(x, y) == Err(error)
  }

  lemma {:induction false} TryInsertReturns<T>(
    compare: (T, T) -> Result<int>, cmp: (T, T) -> int, x: T, s: seq<T>, all: seq<T>)
    requires x in all && Within(s, all)
    ensures TryInsert(compare, x, s).Ok? && Computes(compare, cmp, all) ==>
      TryInsert(compare, x, s).value == Insert(cmp, x, s)
    ensures TryInsert(compare, x, s).Ok? ==> multiset(TryInsert(compare, x, s).value) == multiset(s) + multiset{x}
    ensures TryInsert(compare, x, s).Err? ==> ThrowsOn(compare, all, TryInsert(compare, x, s).error)
  {
    if s != [] {
      assert s == [s[0]] + s[1..];
      TryInsertReturns(compare, cmp, x, s[1..], all);
    }
  }

  /** A sort that returns has sorted; one that throws met two elements on which
      the comparator throws. */
  lemma {:induction false} TrySortReturns<T>(
    compare: (T, T) -> Result<int>, cmp: (T, T) -> int, s: seq<T>, all: seq<T>)
    requires Within(s, all)
    ensures TrySort(compare, s).Ok? && Computes(compare, cmp, all) ==> TrySort(compare, s).value == Sort(cmp, s)
    ensures TrySort(compare, s).Ok? ==>
      multiset(TrySort(compare, s).value) == multiset(s) && |TrySort(compare, s).value| == |s|
    ensures TrySort(compare, s).Err? ==> ThrowsOn(compare, all, TrySort(compare, s).error)
  {
    if s != [] {
      var init, last := s[..|s| - 1], s[|s| - 1];
      assert s == init + [last];
      TrySortReturns(compare, cmp, init, all);
      if TrySort(compare, init).Ok? {
        var before := TrySort(compare, init).value;
        SameWithin(before, init, all);
        TryInsertReturns(compare, cmp, last, before, all);
      }
    }
    if TrySort(compare, s).Ok? {
      assert |TrySort(compare, s).value| == |multiset(TrySort(compare, s).value)|;
    }
  }

  lemma SameWithin<T>(s: seq<T>, t: seq<T>, all: seq<T>)
    requires multiset(s) == multiset(t) && Within(t, all)
    ensures Within(s, all)
  {
    forall x | x in s ensures x in all {
      assert x in multiset(s) && x in multiset(t);
    }
  }

  lemma PrefixWithin<T>(s: seq<T>, k: nat, all: seq<T>)
    requires k <= |s| && Within(s, all)
    ensures Within(s[..k], all)
  {
  }

  lemma AppendWithin<T>(s: seq<T>, x: T, all: seq<T>)
    requires Within(s, all) && x in all
    ensures Within(s + [x], all)
  {
  }

  // ----- Comparators over a whole type -----

  /** Wherever the comparator returns, it returns what `cmp` says. */
  ghost predicate Agrees<T(!new)>(compare: (T, T) -> Result<int>, cmp: (T, T) -> int) {
    forall x, y :: compare(x, y).Ok? ==> compare(x, y) == Ok(cmp(x, y))
  }

  /** The comparator throws this error on two of these elements. */
  ghost predicate ThrowsAmong<T>(compare: (T, T) -> Result<int>, all: multiset<T>, error: Error) {
    exists x, y :: x in all && y in all && compare(x, y) == Err(error)
  }

  lemma SortAmong<T(!new)>(compare: (T, T) -> Result<int>, cmp: (T, T) -> int, s: seq<T>, all: multiset<T>)
    requires Agrees(compare, cmp) && multiset(s) <= all
    ensures TrySort(compare, s).Ok? ==> TrySort(compare, s).value == Sort(cmp, s)
    ensures TrySort(compare, s).Err? ==> ThrowsAmong(compare, all, TrySort(compare, s).error)
  {
    TrySortReturns(compare, cmp, s, s);
    if TrySort(compare, s).Err? {
      var x, y :| x in s && y in s && compare(x, y) == Err(TrySort(compare, s).error);
      assert x in multiset(s) && y in multiset(s);
    }
  }
}
