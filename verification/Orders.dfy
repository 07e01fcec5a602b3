/** Stable sorting over an arbitrary comparator, in the sign convention of a
    JavaScript comparison callback. */
module Orders {

  ghost predicate TotalPreorder<T(!new)>(cmp: (T, T) -> int) {
    && (forall x, y :: cmp(x, y) < 0 <==> cmp(y, x) > 0)
    && (forall x, y, z {:trigger Chain(x, y, z)} :: cmp(x, y) <= 0 && cmp(y, z) <= 0 ==> cmp(x, z) <= 0)
  }

  /** A trigger, so that transitivity is used only where `Transitive` asks for it. */
  ghost predicate Chain<T>(x: T, y: T, z: T) {
    true
  }

  lemma Transitive<T(!new)>(cmp: (T, T) -> int, x: T, y: T, z: T)
    requires TotalPreorder(cmp)
    ensures cmp(x, y) <= 0 && cmp(y, z) <= 0 ==> cmp(x, z) <= 0
    ensures cmp(x, y) <= 0 && cmp(y, z) < 0 ==> cmp(x, z) < 0
    ensures cmp(x, y) < 0 && cmp(y, z) <= 0 ==> cmp(x, z) < 0
  {
    assert Chain(x, y, z) && Chain(z, x, y) && Chain(y, z, x);
  }

  ghost predicate Sorted<T>(cmp: (T, T) -> int, s: seq<T>) {
    forall i, j :: 0 <= i < j < |s| ==> cmp(s[i], s[j]) <= 0
  }

  function Take<T>(k: nat, s: seq<T>): seq<T> {
    if |s| <= k then s else s[..k]
  }

  /** Places `x` after every leading element that is not greater than it. */
  function Insert<T>(cmp: (T, T) -> int, x: T, s: seq<T>): seq<T> {
    if s == [] then [x]
    else if cmp(s[0], x) <= 0 then [s[0]] + Insert(cmp, x, s[1..])
    else [x] + s
  }

  /** The meaning given to the runtime's built-in stable sort; by
      `SortIsTheStableSort` it does not depend on how it is written here. */
  function Sort<T>(cmp: (T, T) -> int, s: seq<T>): seq<T> {
    if s == [] then [] else Insert(cmp, s[|s| - 1], Sort(cmp, s[..|s| - 1]))
  }

  ghost function OneTied<T>(cmp: (T, T) -> int, x: T, y: T): seq<T> {
    if cmp(y, x) == 0 then [y] else []
  }

  /** The elements of `s` tied with `x`, in their order of occurrence. */
  ghost function Tied<T>(cmp: (T, T) -> int, x: T, s: seq<T>): seq<T> {
    if s == [] then []
    else OneTied(cmp, x, s[0]) + Tied(cmp, x, s[1..])
  }

  /** How many elements of `s` are not greater than `x`. */
  ghost function CountLe<T>(cmp: (T, T) -> int, x: T, s: seq<T>): nat {
    if s == [] then 0 else OneLe(cmp, x, s[0]) + CountLe(cmp, x, s[1..])
  }

  /** Element by element, the two sequences carry tied sort keys. */
  ghost predicate SameKeys<T>(cmp: (T, T) -> int, s: seq<T>, t: seq<T>) {
    |s| == |t| && forall i :: 0 <= i < |s| ==> cmp(s[i], t[i]) == 0
  }

  // ----- Insert -----

  lemma {:induction false} InsertContents<T>(cmp: (T, T) -> int, x: T, s: seq<T>)
    ensures multiset(Insert(cmp, x, s)) == multiset(s) + multiset{x}
    ensures |Insert(cmp, x, s)| == |s| + 1
  {
    if s != [] {
      assert s == [s[0]] + s[1..];
      if cmp(s[0], x) <= 0 {
        InsertContents(cmp, x, s[1..]);
      }
    }
  }

  lemma {:induction false} InsertSorted<T(!new)>(cmp: (T, T) -> int, x: T, s: seq<T>)
    requires TotalPreorder(cmp) && Sorted(cmp, s)
    ensures Sorted(cmp, Insert(cmp, x, s))
  {
    if s != [] && cmp(s[0], x) <= 0 {
      var rest := Insert(cmp, x, s[1..]);
      InsertSorted(cmp, x, s[1..]);
      InsertContents(cmp, x, s[1..]);
      forall j | 0 <= j < |rest| ensures cmp(s[0], rest[j]) <= 0 {
        assert rest[j] in multiset(rest);
        assert rest[j] in s[1..] || rest[j] == x;
      }
    } else if s != [] {
      forall j | 0 <= j < |s| ensures cmp(x, s[j]) <= 0 {
        Transitive(cmp, x, s[0], s[j]);
      }
    }
  }

  lemma {:induction false} InsertTied<T(!new)>(cmp: (T, T) -> int, x: T, s: seq<T>, key: T)
    requires TotalPreorder(cmp) && Sorted(cmp, s)
    ensures Tied(cmp, key, Insert(cmp, x, s)) == Tied(cmp, key, s) + OneTied(cmp, key, x)
  {
    if s == [] {
    } else if cmp(s[0], x) <= 0 {
      InsertTied(cmp, x, s[1..], key);
    } else {
      TiedBelow(cmp, x, s, key);
    }
  }

  lemma TiedBelow<T(!new)>(cmp: (T, T) -> int, x: T, s: seq<T>, key: T)
    requires TotalPreorder(cmp) && Sorted(cmp, s) && s != [] && cmp(s[0], x) > 0
    ensures OneTied(cmp, key, x) + Tied(cmp, key, s) == Tied(cmp, key, s) + OneTied(cmp, key, x)
  {
    if cmp(x, key) == 0 {
      forall i | 0 <= i < |s| ensures cmp(s[i], x) > 0 {
        Transitive(cmp, x, s[0], s[i]);
      }
      NoneTied(cmp, key, x, s);
    }
  }

  lemma {:induction false} NoneTied<T(!new)>(cmp: (T, T) -> int, key: T, x: T, s: seq<T>)
    requires TotalPreorder(cmp)
    requires cmp(x, key) == 0 && forall i :: 0 <= i < |s| ==> cmp(s[i], x) > 0
    ensures Tied(cmp, key, s) == []
  {
    if s != [] {
      Transitive(cmp, s[0], key, x);
      NoneTied(cmp, key, x, s[1..]);
    }
  }

  /** An element inserted beyond position `k` cannot change the first `k`. */
  lemma {:induction false} InsertTake<T>(cmp: (T, T) -> int, x: T, s: seq<T>, k: nat)
    ensures Take(k, Insert(cmp, x, s)) == Take(k, Insert(cmp, x, Take(k, s)))
  {
    InsertContents(cmp, x, s);
    if |s| > k && k > 0 {
      assert Take(k, s)[0] == s[0] && Take(k, s)[1..] == Take(k - 1, s[1..]);
      if cmp(s[0], x) <= 0 {
        InsertTake(cmp, x, s[1..], k - 1);
        InsertContents(cmp, x, Take(k, s));
        assert Take(k, Insert(cmp, x, s)) == [s[0]] + Take(k - 1, Insert(cmp, x, s[1..]));
        assert Take(k, Insert(cmp, x, Take(k, s))) == [s[0]] + Take(k - 1, Insert(cmp, x, Take(k - 1, s[1..])));
      }
    } else if k == 0 {
      InsertContents(cmp, x, Take(k, s));
    }
  }

  /** Appending a greatest element is inserting it. */
  lemma {:induction false} InsertLast<T>(cmp: (T, T) -> int, x: T, s: seq<T>)
    requires forall i :: 0 <= i < |s| ==> cmp(s[i], x) <= 0
    ensures Insert(cmp, x, s) == s + [x]
  {
    if s != [] {
      InsertLast(cmp, x, s[1..]);
      assert s + [x] == [s[0]] + (s[1..] + [x]);
    }
  }

  // ----- Sort -----

  lemma {:induction false} SortContents<T>(cmp: (T, T) -> int, s: seq<T>)
    ensures multiset(Sort(cmp, s)) == multiset(s)
    ensures |Sort(cmp, s)| == |s|
  {
    if s != [] {
      var init := s[..|s| - 1];
      SortContents(cmp, init);
      InsertContents(cmp, s[|s| - 1], Sort(cmp, init));
      assert s == init + [s[|s| - 1]];
    }
  }

  lemma {:induction false} SortSorted<T(!new)>(cmp: (T, T) -> int, s: seq<T>)
    requires TotalPreorder(cmp)
    ensures Sorted(cmp, Sort(cmp, s))
  {
    if s != [] {
      SortSorted(cmp, s[..|s| - 1]);
      InsertSorted(cmp, s[|s| - 1], Sort(cmp, s[..|s| - 1]));
    }
  }

  lemma {:induction false} TiedAppend<T>(cmp: (T, T) -> int, key: T, s: seq<T>, t: seq<T>)
    ensures Tied(cmp, key, s + t) == Tied(cmp, key, s) + Tied(cmp, key, t)
  {
    if s == [] {
      assert s + t == t;
    } else {
      calc {
        Tied(cmp, key, s + t);
        { assert s + t == [s[0]] + (s[1..] + t); }
        OneTied(cmp, key, s[0]) + Tied(cmp, key, s[1..] + t);
        { TiedAppend(cmp, key, s[1..], t); }
        OneTied(cmp, key, s[0]) + (Tied(cmp, key, s[1..]) + Tied(cmp, key, t));
        Tied(cmp, key, s) + Tied(cmp, key, t);
      }
    }
  }

  lemma SortAppend<T>(cmp: (T, T) -> int, s: seq<T>, x: T)
    ensures Sort(cmp, s + [x]) == Insert(cmp, x, Sort(cmp, s))
  {
    assert (s + [x])[..|s + [x]| - 1] == s;
  }

  lemma TiedSnoc<T>(cmp: (T, T) -> int, key: T, s: seq<T>, x: T)
    ensures Tied(cmp, key, s + [x]) == Tied(cmp, key, s) + OneTied(cmp, key, x)
  {
    TiedAppend(cmp, key, s, [x]);
    assert [x] + [] == [x];
  }

  /** Sorting keeps tied elements in their original order. */
  lemma {:induction false} SortStable<T(!new)>(cmp: (T, T) -> int, s: seq<T>, key: T)
    requires TotalPreorder(cmp)
    ensures Tied(cmp, key, Sort(cmp, s)) == Tied(cmp, key, s)
  {
    if s != [] {
      var init, last := s[..|s| - 1], s[|s| - 1];
      assert s == init + [last];
      SortStable(cmp, init, key);
      SortSorted(cmp, init);
      SortAppend(cmp, init, last);
      InsertTied(cmp, last, Sort(cmp, init), key);
      TiedSnoc(cmp, key, init, last);
    }
  }

  lemma {:induction false} SortedTiedUnique<T(!new)>(cmp: (T, T) -> int, s: seq<T>, t: seq<T>)
    requires TotalPreorder(cmp) && Sorted(cmp, s) && Sorted(cmp, t)
    requires forall key :: Tied(cmp, key, s) == Tied(cmp, key, t)
    ensures s == t
  {
    if s == [] {
      if t != [] {
        HeadTied(cmp, t);
        assert false;
      }
    } else if t == [] {
      HeadTied(cmp, s);
      assert false;
    } else {
      HeadNotGreater(cmp, s, t);
      HeadNotGreater(cmp, t, s);
      assert s[0] == Tied(cmp, s[0], s)[0] == Tied(cmp, s[0], t)[0] == t[0];
      forall key ensures Tied(cmp, key, s[1..]) == Tied(cmp, key, t[1..]) {
        assert Tied(cmp, key, s) == Tied(cmp, key, t);
        var n := |OneTied(cmp, key, s[0])|;
        assert Tied(cmp, key, s[1..]) == Tied(cmp, key, s)[n..];
        assert Tied(cmp, key, t[1..]) == Tied(cmp, key, t)[n..];
      }
      SortedTiedUnique(cmp, s[1..], t[1..]);
    }
  }

  lemma HeadTied<T(!new)>(cmp: (T, T) -> int, s: seq<T>)
    requires TotalPreorder(cmp) && s != []
    ensures Tied(cmp, s[0], s) != []
  {
    assert cmp(s[0], s[0]) == 0;
  }

  lemma HeadNotGreater<T(!new)>(cmp: (T, T) -> int, s: seq<T>, t: seq<T>)
    requires TotalPreorder(cmp) && Sorted(cmp, s) && s != [] && t != []
    requires forall key :: Tied(cmp, key, s) == Tied(cmp, key, t)
    ensures cmp(s[0], t[0]) <= 0
  {
    assert Tied(cmp, t[0], s) == Tied(cmp, t[0], t);
    TiedMember(cmp, t[0], s);
    var i :| 0 <= i < |s| && cmp(s[i], t[0]) == 0;
    Transitive(cmp, s[0], s[i], t[0]);
  }

  lemma {:induction false} TiedMember<T>(cmp: (T, T) -> int, key: T, s: seq<T>)
    requires Tied(cmp, key, s) != []
    ensures exists i :: 0 <= i < |s| && cmp(s[i], key) == 0
  {
    if cmp(s[0], key) != 0 {
      TiedMember(cmp, key, s[1..]);
      var i :| 0 <= i < |s[1..]| && cmp(s[1..][i], key) == 0;
      assert cmp(s[i + 1], key) == 0;
    }
  }

  ghost predicate StableArrangement<T(!new)>(cmp: (T, T) -> int, t: seq<T>, s: seq<T>) {
    Sorted(cmp, t) && forall key :: Tied(cmp, key, t) == Tied(cmp, key, s)
  }

  /** A sorted arrangement of `s` that keeps ties in order is the one `Sort` returns. */
  lemma SortIsTheStableSort<T(!new)>(cmp: (T, T) -> int, s: seq<T>, t: seq<T>)
    requires TotalPreorder(cmp)
    ensures t == Sort(cmp, s) <==> StableArrangement(cmp, t, s)
  {
    SortSorted(cmp, s);
    forall key ensures Tied(cmp, key, Sort(cmp, s)) == Tied(cmp, key, s) {
      SortStable(cmp, s, key);
    }
    if StableArrangement(cmp, t, s) {
      SortedTiedUnique(cmp, t, Sort(cmp, s));
    }
  }

  lemma {:induction false} SortOfSorted<T>(cmp: (T, T) -> int, s: seq<T>)
    requires Sorted(cmp, s)
    ensures Sort(cmp, s) == s
  {
    if s != [] {
      SortOfSorted(cmp, s[..|s| - 1]);
      InsertLast(cmp, s[|s| - 1], s[..|s| - 1]);
    }
  }

  /** Keeping only the first `k` of a sorted prefix loses no winner: the fold
      at the heart of every bounded top-k in the engine. */
  lemma {:induction false} TopKFold<T(!new)>(cmp: (T, T) -> int, a: seq<T>, b: seq<T>, k: nat)
    requires TotalPreorder(cmp)
    ensures Take(k, Sort(cmp, Take(k, Sort(cmp, a)) + b)) == Take(k, Sort(cmp, a + b))
  {
    var kept := Take(k, Sort(cmp, a));
    if b == [] {
      assert a + b == a && kept + b == kept;
      SortSorted(cmp, a);
      SortOfSorted(cmp, kept);
    } else {
      var init, last := b[..|b| - 1], b[|b| - 1];
      TopKFold(cmp, a, init, k);
      assert a + b == (a + init) + [last] && kept + b == (kept + init) + [last];
      SortAppend(cmp, a + init, last);
      SortAppend(cmp, kept + init, last);
      InsertTake(cmp, last, Sort(cmp, a + init), k);
      InsertTake(cmp, last, Sort(cmp, kept + init), k);
    }
  }

  lemma SuffixOrderIrrelevant<T(!new)>(cmp: (T, T) -> int, a: seq<T>, b: seq<T>)
    requires TotalPreorder(cmp)
    ensures Sort(cmp, a + Sort(cmp, b)) == Sort(cmp, a + b)
  {
    SortSorted(cmp, a + Sort(cmp, b));
    forall key ensures Tied(cmp, key, Sort(cmp, a + Sort(cmp, b))) == Tied(cmp, key, a + b) {
      SortStable(cmp, a + Sort(cmp, b), key);
      SortStable(cmp, b, key);
      TiedAppend(cmp, key, a, Sort(cmp, b));
      TiedAppend(cmp, key, a, b);
    }
    SortIsTheStableSort(cmp, a + b, Sort(cmp, a + Sort(cmp, b)));
  }

  // ----- Sorting without stability -----

  lemma {:induction false} CountLeAppend<T>(cmp: (T, T) -> int, x: T, s: seq<T>, t: seq<T>)
    ensures CountLe(cmp, x, s + t) == CountLe(cmp, x, s) + CountLe(cmp, x, t)
  {
    if s == [] {
      assert s + t == t;
    } else {
      assert (s + t)[1..] == s[1..] + t;
      CountLeAppend(cmp, x, s[1..], t);
    }
  }

  ghost function OneLe<T>(cmp: (T, T) -> int, x: T, y: T): nat {
    if cmp(y, x) <= 0 then 1 else 0
  }

  lemma CountLeRemove<T>(cmp: (T, T) -> int, x: T, s: seq<T>, i: nat)
    requires i < |s|
    ensures CountLe(cmp, x, s) == CountLe(cmp, x, s[..i] + s[i + 1..]) + OneLe(cmp, x, s[i])
  {
    assert s == s[..i] + ([s[i]] + s[i + 1..]);
    CountLeAppend(cmp, x, s[..i], [s[i]] + s[i + 1..]);
    CountLeAppend(cmp, x, s[..i], s[i + 1..]);
    assert ([s[i]] + s[i + 1..])[1..] == s[i + 1..];
  }

  lemma MultisetRemove<T>(s: seq<T>, i: nat)
    requires i < |s|
    ensures multiset(s[..i] + s[i + 1..]) == multiset(s) - multiset{s[i]}
  {
    assert s == s[..i] + [s[i]] + s[i + 1..];
  }

  lemma TailMultiset<T>(s: seq<T>)
    requires s != []
    ensures multiset(s[1..]) == multiset(s) - multiset{s[0]}
  {
    MultisetRemove(s, 0);
    assert s[..0] + s[1..] == s[1..];
  }

  lemma Locate<T>(x: T, s: seq<T>, t: seq<T>) returns (i: nat)
    requires multiset(s) == multiset(t) && x in s
    ensures i < |t| && t[i] == x
    ensures multiset(t[..i] + t[i + 1..]) == multiset(s) - multiset{x}
  {
    assert x in multiset(t);
    i :| 0 <= i < |t| && t[i] == x;
    MultisetRemove(t, i);
  }

  lemma {:induction false} CountLePermutation<T>(cmp: (T, T) -> int, x: T, s: seq<T>, t: seq<T>)
    requires multiset(s) == multiset(t)
    ensures CountLe(cmp, x, s) == CountLe(cmp, x, t)
    decreases |s|
  {
    if s == [] {
      assert |multiset(t)| == |t|;
    } else {
      var i := Locate(s[0], s, t);
      var rest := t[..i] + t[i + 1..];
      TailMultiset(s);
      CountLePermutation(cmp, x, s[1..], rest);
      CountLeRemove(cmp, x, t, i);
    }
  }

  /** In a sorted sequence an element is at most `x` exactly when more elements
      are at most `x` than precede it. */
  lemma {:induction false} SortedCount<T(!new)>(cmp: (T, T) -> int, x: T, s: seq<T>, i: nat)
    requires TotalPreorder(cmp) && Sorted(cmp, s) && i < |s|
    ensures cmp(s[i], x) <= 0 <==> CountLe(cmp, x, s) > i
  {
    if cmp(s[0], x) > 0 {
      forall j | 0 <= j < |s| ensures cmp(s[j], x) > 0 {
        Transitive(cmp, s[0], s[j], x);
      }
      CountNone(cmp, x, s);
    } else if i > 0 {
      SortedCount(cmp, x, s[1..], i - 1);
    }
  }

  lemma {:induction false} CountNone<T>(cmp: (T, T) -> int, x: T, s: seq<T>)
    requires forall j :: 0 <= j < |s| ==> cmp(s[j], x) > 0
    ensures CountLe(cmp, x, s) == 0
  {
    if s != [] {
      CountNone(cmp, x, s[1..]);
    }
  }

  /** Two sorted sequences with the same counts carry the same keys. */
  lemma SameCountsSameKeys<T(!new)>(cmp: (T, T) -> int, s: seq<T>, t: seq<T>)
    requires TotalPreorder(cmp) && Sorted(cmp, s) && Sorted(cmp, t) && |s| == |t|
    requires forall x :: CountLe(cmp, x, s) == CountLe(cmp, x, t)
    ensures SameKeys(cmp, s, t)
  {
    forall i | 0 <= i < |s| ensures cmp(s[i], t[i]) == 0 {
      assert cmp(s[i], s[i]) == 0 && cmp(t[i], t[i]) == 0;
      SortedCount(cmp, s[i], s, i);
      SortedCount(cmp, s[i], t, i);
      SortedCount(cmp, t[i], t, i);
      SortedCount(cmp, t[i], s, i);
    }
  }

  /** Any sorted permutation of `s` carries, position by position, the keys of
      the stable sort: an unstable sort is right up to the order of ties. */
  lemma SortedPermutationSameKeys<T(!new)>(cmp: (T, T) -> int, s: seq<T>, t: seq<T>)
    requires TotalPreorder(cmp) && Sorted(cmp, t) && multiset(t) == multiset(s)
    ensures SameKeys(cmp, t, Sort(cmp, s))
  {
    SortSorted(cmp, s);
    SortContents(cmp, s);
    assert |multiset(t)| == |t| && |multiset(s)| == |s|;
    forall x ensures CountLe(cmp, x, t) == CountLe(cmp, x, Sort(cmp, s)) {
      CountLePermutation(cmp, x, t, Sort(cmp, s));
    }
    SameCountsSameKeys(cmp, t, Sort(cmp, s));
  }

  // ----- Newcomers already reduced to their own first elements -----

  lemma NoneLe<T(!new)>(cmp: (T, T) -> int, x: T, s: seq<T>)
    requires TotalPreorder(cmp) && Sorted(cmp, s) && s != [] && cmp(s[0], x) > 0
    ensures CountLe(cmp, x, s) == 0
  {
    forall i | 0 <= i < |s| ensures cmp(s[i], x) > 0 {
      Transitive(cmp, x, s[0], s[i]);
    }
    CountNone(cmp, x, s);
  }

  lemma {:induction false} InsertBeyond<T(!new)>(cmp: (T, T) -> int, x: T, s: seq<T>, k: nat)
    requires TotalPreorder(cmp) && Sorted(cmp, s) && CountLe(cmp, x, s) >= k
    ensures Take(k, Insert(cmp, x, s)) == Take(k, s)
  {
    if k == 0 {
    } else if cmp(s[0], x) > 0 {
      NoneLe(cmp, x, s);
    } else {
      InsertBeyond(cmp, x, s[1..], k - 1);
      HeadTake(k, s);
    }
  }

  lemma HeadTake<T>(k: nat, s: seq<T>)
    requires k > 0 && s != []
    ensures Take(k, s) == [s[0]] + Take(k - 1, s[1..])
  {
  }

  lemma {:induction false} CountAll<T>(cmp: (T, T) -> int, x: T, s: seq<T>)
    requires forall j :: 0 <= j < |s| ==> cmp(s[j], x) <= 0
    ensures CountLe(cmp, x, s) == |s|
  {
    if s != [] {
      CountAll(cmp, x, s[1..]);
    }
  }

  lemma {:induction false} SortedSuffixTake<T(!new)>(cmp: (T, T) -> int, a: seq<T>, b: seq<T>, j: nat, k: nat)
    requires TotalPreorder(cmp) && Sorted(cmp, b) && k <= j <= |b|
    ensures Take(k, Sort(cmp, a + b[..j])) == Take(k, Sort(cmp, a + b))
    decreases |b|
  {
    if j == |b| {
      assert b[..j] == b;
    } else {
      var init, last := b[..|b| - 1], b[|b| - 1];
      assert init[..j] == b[..j] && a + b == (a + init) + [last];
      SortedSuffixTake(cmp, a, init, j, k);
      SortAppend(cmp, a + init, last);
      SortSorted(cmp, a + init);
      SortContents(cmp, a + init);
      CountLePermutation(cmp, last, Sort(cmp, a + init), a + init);
      CountLeAppend(cmp, last, a, init);
      CountAll(cmp, last, init);
      InsertBeyond(cmp, last, Sort(cmp, a + init), k);
    }
  }

  /** A block reduced to its own first `m >= k` contributes every winner it has. */
  lemma TopKFoldBoth<T(!new)>(cmp: (T, T) -> int, a: seq<T>, b: seq<T>, k: nat, m: nat)
    requires TotalPreorder(cmp) && k <= m
    ensures Take(k, Sort(cmp, a + Take(m, Sort(cmp, b)))) == Take(k, Sort(cmp, a + b))
  {
    SortSorted(cmp, b);
    SuffixOrderIrrelevant(cmp, a, b);
    if m < |Sort(cmp, b)| {
      SortedSuffixTake(cmp, a, Sort(cmp, b), m, k);
    }
  }

  // ----- Breaking ties by position -----

  /** Compares positions by the elements found there, then by the positions. */
  function ByPosition<T>(cmp: (T, T) -> int, at: int -> T): (int, int) -> int {
    (i: int, j: int) => if cmp(at(i), at(j)) != 0 then cmp(at(i), at(j)) else i - j
  }

  function Gather<T>(at: int -> T, positions: seq<int>): seq<T> {
    seq(|positions|, i requires 0 <= i < |positions| => at(positions[i]))
  }

  lemma ByPositionTransitive<T(!new)>(cmp: (T, T) -> int, at: int -> T, x: int, y: int, z: int)
    requires TotalPreorder(cmp)
    requires ByPosition(cmp, at)(x, y) <= 0 && ByPosition(cmp, at)(y, z) <= 0
    ensures ByPosition(cmp, at)(x, z) <= 0
  {
    Transitive(cmp, at(x), at(y), at(z));
  }

  lemma ByPositionIsPreorder<T(!new)>(cmp: (T, T) -> int, at: int -> T)
    requires TotalPreorder(cmp)
    ensures TotalPreorder(ByPosition(cmp, at))
  {
    var order := ByPosition(cmp, at);
    forall x, y, z | order(x, y) <= 0 && order(y, z) <= 0 ensures order(x, z) <= 0 {
      ByPositionTransitive(cmp, at, x, y, z);
    }
  }

  lemma GatherTail<T>(at: int -> T, s: seq<int>)
    requires s != []
    ensures Gather(at, s)[1..] == Gather(at, s[1..])
  {
  }

  lemma GatherSnoc<T>(at: int -> T, s: seq<int>, x: int)
    ensures Gather(at, s + [x]) == Gather(at, s) + [at(x)]
  {
  }

  lemma {:induction false} GatherInsert<T>(cmp: (T, T) -> int, at: int -> T, x: int, s: seq<int>)
    requires forall k :: 0 <= k < |s| ==> s[k] < x
    ensures Gather(at, Insert(ByPosition(cmp, at), x, s)) == Insert(cmp, at(x), Gather(at, s))
  {
    if s != [] {
      GatherTail(at, s);
      if cmp(at(s[0]), at(x)) <= 0 {
        GatherInsert(cmp, at, x, s[1..]);
      }
    }
  }

  lemma SortBounded(cmp: (int, int) -> int, s: seq<int>, bound: int)
    requires forall k :: 0 <= k < |s| ==> s[k] < bound
    ensures forall k :: 0 <= k < |Sort(cmp, s)| ==> Sort(cmp, s)[k] < bound
  {
    SortContents(cmp, s);
    forall k | 0 <= k < |Sort(cmp, s)| ensures Sort(cmp, s)[k] < bound {
      assert Sort(cmp, s)[k] in multiset(Sort(cmp, s));
      assert Sort(cmp, s)[k] in s;
    }
  }

  /** Sorting ascending positions with the position as last key is the stable
      sort of the elements found there. */
  lemma {:induction false} PositionSortIsStableSort<T>(cmp: (T, T) -> int, at: int -> T, s: seq<int>)
    requires forall j, k :: 0 <= j < k < |s| ==> s[j] < s[k]
    ensures Gather(at, Sort(ByPosition(cmp, at), s)) == Sort(cmp, Gather(at, s))
  {
    if s != [] {
      var init, last := s[..|s| - 1], s[|s| - 1];
      assert s == init + [last];
      PositionSortIsStableSort(cmp, at, init);
      SortBounded(ByPosition(cmp, at), init, last);
      GatherInsert(cmp, at, last, Sort(ByPosition(cmp, at), init));
      GatherSnoc(at, init, last);
      SortAppend(ByPosition(cmp, at), init, last);
      SortAppend(cmp, Gather(at, init), at(last));
    }
  }
}
