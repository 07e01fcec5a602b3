/** The first elements of a sorted arrangement: in order, and no worse than what
    is left out. */
module FirstElements {
  import opened Orders

  function Least(a: nat, b: nat): nat {
    if a <= b then a else b
  }

  lemma {:induction false} SameKeysCount<T(!new)>(cmp: (T, T) -> int, x: T, s: seq<T>, t: seq<T>)
    requires TotalPreorder(cmp) && SameKeys(cmp, s, t)
    ensures CountLe(cmp, x, s) == CountLe(cmp, x, t)
  {
    if s != [] {
      Transitive(cmp, s[0], t[0], x);
      Transitive(cmp, t[0], s[0], x);
      SameKeysCount(cmp, x, s[1..], t[1..]);
    }
  }

  /** What is not greater than `x` is all among the first `k`. */
  lemma CountInTake<T(!new)>(cmp: (T, T) -> int, x: T, s: seq<T>, k: nat, i: nat)
    requires TotalPreorder(cmp) && Sorted(cmp, s) && i < |s| && i < k && cmp(s[i], x) > 0
    ensures CountLe(cmp, x, Take(k, s)) == CountLe(cmp, x, s)
  {
    if |s| > k {
      var rest := s[k..];
      forall j | 0 <= j < |rest| ensures cmp(rest[j], x) > 0 {
        Transitive(cmp, s[i], rest[j], x);
      }
      NoneLe(cmp, x, rest);
      CountLeAppend(cmp, x, s[..k], rest);
      assert s == s[..k] + rest;
    }
  }

  /** A row left out is not less than any row of the first `k`. */
  lemma LeftOut<T(!new)>(cmp: (T, T) -> int, k: nat, rows: seq<T>, answer: seq<T>, rest: seq<T>, x: T, i: nat)
    requires TotalPreorder(cmp) && SameKeys(cmp, answer, Take(k, Sort(cmp, rows)))
    requires multiset(rows) == multiset(answer) + multiset(rest) && x in rest && i < |answer|
    ensures cmp(x, answer[i]) >= 0
  {
    var sorted := Sort(cmp, rows);
    SortSorted(cmp, rows);
    SortContents(cmp, rows);
    hide Sort, CountLe;
    if cmp(x, answer[i]) < 0 {
      Transitive(cmp, sorted[i], x, answer[i]);
      CountInTake(cmp, x, sorted, k, i);
      SameKeysCount(cmp, x, answer, Take(k, sorted));
      CountLePermutation(cmp, x, sorted, rows);
      CountLePermutation(cmp, x, rows, answer + rest);
      CountLeAppend(cmp, x, answer, rest);
      CountsItself(cmp, x, rest);
      assert false;
    }
  }

  lemma {:induction false} CountsItself<T(!new)>(cmp: (T, T) -> int, x: T, s: seq<T>)
    requires TotalPreorder(cmp) && x in s
    ensures CountLe(cmp, x, s) > 0
  {
    if s[0] != x {
      CountsItself(cmp, x, s[1..]);
    }
  }

  lemma KeysAscend<T(!new)>(cmp: (T, T) -> int, k: nat, rows: seq<T>, answer: seq<T>)
    requires TotalPreorder(cmp) && SameKeys(cmp, answer, Take(k, Sort(cmp, rows)))
    ensures |answer| == Least(k, |rows|)
    ensures forall i, j :: 0 <= i < j < |answer| ==> cmp(answer[i], answer[j]) <= 0
  {
    SortSorted(cmp, rows);
    SortContents(cmp, rows);
    TakeSorted(cmp, k, Sort(cmp, rows));
    hide *;
    TiedKeysAscend(cmp, answer, Take(k, Sort(cmp, rows)));
  }

  lemma TakeSorted<T>(cmp: (T, T) -> int, k: nat, s: seq<T>)
    requires Sorted(cmp, s)
    ensures Sorted(cmp, Take(k, s)) && |Take(k, s)| == Least(k, |s|)
  {
  }

  lemma TiedKeysAscend<T(!new)>(cmp: (T, T) -> int, answer: seq<T>, first: seq<T>)
    requires TotalPreorder(cmp) && Sorted(cmp, first) && SameKeys(cmp, answer, first)
    ensures |answer| == |first| && forall i, j :: 0 <= i < j < |answer| ==> cmp(answer[i], answer[j]) <= 0
  {
    hide TotalPreorder;
    forall i, j | 0 <= i < j < |answer| ensures cmp(answer[i], answer[j]) <= 0 {
      TiedAscend(cmp, answer[i], first[i], first[j], answer[j]);
    }
  }

  lemma TiedAscend<T(!new)>(cmp: (T, T) -> int, a: T, b: T, c: T, d: T)
    requires TotalPreorder(cmp) && cmp(a, b) == 0 && cmp(b, c) <= 0 && cmp(d, c) == 0
    ensures cmp(a, d) <= 0
  {
    Transitive(cmp, a, b, c);
    Transitive(cmp, a, c, d);
  }

  lemma SelfKeys<T(!new)>(cmp: (T, T) -> int, s: seq<T>)
    requires TotalPreorder(cmp)
    ensures SameKeys(cmp, s, s)
  {
  }

  lemma TakeOfSort<T(!new)>(cmp: (T, T) -> int, rows: seq<T>, k: nat)
    requires TotalPreorder(cmp)
    ensures SameKeys(cmp, Take(k, Sort(cmp, rows)), Take(k, Sort(cmp, rows)))
    ensures multiset(Take(k, Sort(cmp, rows))) <= multiset(rows)
  {
    SelfKeys(cmp, Take(k, Sort(cmp, rows)));
    SortContents(cmp, rows);
    hide *;
    TakeContents(k, Sort(cmp, rows));
  }

  lemma TakeContents<T>(k: nat, s: seq<T>)
    ensures multiset(Take(k, s)) <= multiset(s)
  {
    if |s| > k {
      assert s == s[..k] + s[k..];
    }
  }

  lemma CountedTwice<T>(s: seq<T>, i: nat, j: nat)
    requires i < j < |s| && s[i] == s[j]
    ensures multiset(s)[s[j]] >= 2
  {
    assert s == s[..j] + [s[j]] + s[j + 1..];
    assert s[..j][i] in multiset(s[..j]);
  }
}
