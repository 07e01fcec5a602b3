/** What the buffered aggregates mean at the end: mode, median, quantile and
    the variances. */
module AggregateResults {
  import opened Scalars
  import opened Decimals
  import opened Orders
  import opened Aggregates
  import opened AggregateMerges
  import opened AggregateRuns

  // ----- Mode -----

  predicate Carries(key: Scalar -> string, x: Scalar, k: string) {
    !x.Null? && key(x) == k
  }

  /** How often a non-null value with key `k` occurs. */
  function Occurrences(key: Scalar -> string, xs: seq<Scalar>, k: string): nat
    decreases |xs|
  {
    if xs == [] then 0
    else Occurrences(key, xs[..|xs| - 1], k) + if Carries(key, xs[|xs| - 1], k) then 1 else 0
  }

  /** Where key `k` first occurs, or `|xs|` if it does not. */
  function FirstAt(key: Scalar -> string, xs: seq<Scalar>, k: string): (i: nat)
    ensures i <= |xs|
    ensures i < |xs| ==> Carries(key, xs[i], k)
    ensures forall j :: 0 <= j < i ==> !Carries(key, xs[j], k)
    decreases |xs|
  {
    if xs == [] then 0
    else
      var i := FirstAt(key, xs[..|xs| - 1], k);
      if i < |xs| - 1 || Carries(key, xs[|xs| - 1], k) then i else |xs|
  }

  /** The entries list the keys in order of first appearance, each with its first
      value and its number of occurrences. */
  ghost predicate Tallies(key: Scalar -> string, entries: seq<Entry>, xs: seq<Scalar>) {
    && (forall i :: 0 <= i < |entries| ==> Tallied(key, entries[i], xs))
    && (forall i, j :: 0 <= i < j < |entries| ==>
          FirstAt(key, xs, entries[i].key) < FirstAt(key, xs, entries[j].key))
    && (forall i :: 0 <= i < |xs| && !xs[i].Null? ==> HasKey(entries, key(xs[i])))
  }

  predicate Tallied(key: Scalar -> string, e: Entry, xs: seq<Scalar>) {
    && FirstAt(key, xs, e.key) < |xs|
    && e.value == xs[FirstAt(key, xs, e.key)]
    && e.count == Occurrences(key, xs, e.key)
  }

  lemma OccurrencesSnoc(key: Scalar -> string, xs: seq<Scalar>, x: Scalar, k: string)
    ensures Occurrences(key, xs + [x], k) == Occurrences(key, xs, k) + if Carries(key, x, k) then 1 else 0
    ensures FirstAt(key, xs, k) < |xs| ==> FirstAt(key, xs + [x], k) == FirstAt(key, xs, k)
    ensures FirstAt(key, xs, k) == |xs| && Carries(key, x, k) ==> FirstAt(key, xs + [x], k) == |xs|
  {
    assert (xs + [x])[..|xs|] == xs;
  }

  lemma {:induction false} NeverOccurs(key: Scalar -> string, xs: seq<Scalar>, k: string)
    requires FirstAt(key, xs, k) == |xs|
    ensures Occurrences(key, xs, k) == 0
    decreases |xs|
  {
    if xs != [] {
      var front := xs[..|xs| - 1];
      assert !Carries(key, xs[|xs| - 1], k);
      assert FirstAt(key, front, k) == |front|;
      NeverOccurs(key, front, k);
    }
  }

  /** Among entries with distinct keys, the addition changes the one with that key. */
  lemma {:induction false} AddEntryAt(entries: seq<Entry>, i: nat, e: Entry)
    requires i < |entries| && entries[i].key == e.key
    requires forall j :: 0 <= j < i ==> entries[j].key != e.key
    ensures AddEntry(entries, e) == entries[i := entries[i].(count := entries[i].count + e.count)]
    decreases |entries|
  {
    if i > 0 {
      AddEntryAt(entries[1..], i - 1, e);
    }
  }

  lemma TalliedStays(key: Scalar -> string, e: Entry, xs: seq<Scalar>, x: Scalar)
    requires Tallied(key, e, xs)
    ensures Tallied(key, if Carries(key, x, e.key) then e.(count := e.count + 1) else e, xs + [x])
  {
    OccurrencesSnoc(key, xs, x, e.key);
  }

  lemma HasKeyAfter(entries: seq<Entry>, e: Entry, key: Scalar -> string, xs: seq<Scalar>, x: Scalar)
    requires forall i :: 0 <= i < |xs| && !xs[i].Null? ==> HasKey(entries, key(xs[i]))
    requires !x.Null? && e.key == key(x)
    ensures forall i :: 0 <= i < |xs + [x]| && !(xs + [x])[i].Null? ==> HasKey(AddEntry(entries, e), key((xs + [x])[i]))
  {
    forall i | 0 <= i < |xs + [x]| && !(xs + [x])[i].Null?
      ensures HasKey(AddEntry(entries, e), key((xs + [x])[i]))
    {
      AddEntryHasKey(entries, e, key((xs + [x])[i]));
    }
  }

  /** Null values leave the tally alone. */
  lemma TalliesNull(key: Scalar -> string, entries: seq<Entry>, xs: seq<Scalar>)
    requires Tallies(key, entries, xs)
    ensures Tallies(key, entries, xs + [Null])
  {
    forall i | 0 <= i < |entries| ensures Tallied(key, entries[i], xs + [Null]) {
      TalliedStays(key, entries[i], xs, Null);
    }
    forall i, j | 0 <= i < j < |entries|
      ensures FirstAt(key, xs + [Null], entries[i].key) < FirstAt(key, xs + [Null], entries[j].key)
    {
      OccurrencesSnoc(key, xs, Null, entries[i].key);
      OccurrencesSnoc(key, xs, Null, entries[j].key);
      assert Tallied(key, entries[i], xs) && Tallied(key, entries[j], xs);
    }
  }

  lemma TalliesIntro(key: Scalar -> string, entries: seq<Entry>, xs: seq<Scalar>)
    requires forall i :: 0 <= i < |entries| ==> Tallied(key, entries[i], xs)
    requires forall i, j :: 0 <= i < j < |entries| ==>
               FirstAt(key, xs, entries[i].key) < FirstAt(key, xs, entries[j].key)
    requires forall i :: 0 <= i < |xs| && !xs[i].Null? ==> HasKey(entries, key(xs[i]))
    ensures Tallies(key, entries, xs)
  {
  }

  lemma TalliedEntry(key: Scalar -> string, entries: seq<Entry>, xs: seq<Scalar>, i: nat)
    requires Tallies(key, entries, xs) && i < |entries|
    ensures Tallied(key, entries[i], xs) && FirstAt(key, xs, entries[i].key) < |xs|
  {
  }

  lemma TalliesOrder(key: Scalar -> string, entries: seq<Entry>, xs: seq<Scalar>, i: nat, j: nat)
    requires Tallies(key, entries, xs) && i < j < |entries|
    ensures FirstAt(key, xs, entries[i].key) < FirstAt(key, xs, entries[j].key)
    ensures entries[i].key != entries[j].key
  {
  }

  lemma TalliesCovers(key: Scalar -> string, entries: seq<Entry>, xs: seq<Scalar>)
    requires Tallies(key, entries, xs)
    ensures forall i :: 0 <= i < |xs| && !xs[i].Null? ==> HasKey(entries, key(xs[i]))
  {
  }

  lemma FreshKey(key: Scalar -> string, entries: seq<Entry>, xs: seq<Scalar>, x: Scalar)
    requires Tallies(key, entries, xs) && !x.Null? && !HasKey(entries, key(x))
    ensures Tallied(key, Entry(key(x), x, 1), xs + [x]) && FirstAt(key, xs + [x], key(x)) == |xs|
  {
    var k := key(x);
    assert FirstAt(key, xs, k) == |xs|;
    NeverOccurs(key, xs, k);
    OccurrencesSnoc(key, xs, x, k);
  }

  lemma OldKeyStays(key: Scalar -> string, e: Entry, xs: seq<Scalar>, x: Scalar)
    requires Tallied(key, e, xs)
    ensures FirstAt(key, xs + [x], e.key) == FirstAt(key, xs, e.key) < |xs|
    ensures !Carries(key, x, e.key) ==> Tallied(key, e, xs + [x])
    ensures Carries(key, x, e.key) ==> Tallied(key, e.(count := e.count + 1), xs + [x])
  {
    OccurrencesSnoc(key, xs, x, e.key);
    TalliedStays(key, e, xs, x);
  }

  lemma NotCarried(key: Scalar -> string, entries: seq<Entry>, x: Scalar, i: nat)
    requires i < |entries| && !HasKey(entries, key(x))
    ensures !Carries(key, x, entries[i].key)
  {
  }

  /** A value whose key is new opens an entry at the end. */
  lemma TalliesNew(key: Scalar -> string, entries: seq<Entry>, xs: seq<Scalar>, x: Scalar)
    requires Tallies(key, entries, xs) && !x.Null? && !HasKey(entries, key(x))
    ensures Tallies(key, entries + [Entry(key(x), x, 1)], xs + [x])
  {
    hide *;
    var e := Entry(key(x), x, 1);
    var added, more := entries + [e], xs + [x];
    FreshKey(key, entries, xs, x);
    forall i | 0 <= i < |added|
      ensures Tallied(key, added[i], more)
      ensures i < |entries| ==> FirstAt(key, more, added[i].key) == FirstAt(key, xs, added[i].key) < |xs|
    {
      if i < |entries| {
        TalliedEntry(key, entries, xs, i);
        NotCarried(key, entries, x, i);
        OldKeyStays(key, entries[i], xs, x);
      }
    }
    AddNewEntry(entries, e);
    TalliesCovers(key, entries, xs);
    HasKeyAfter(entries, e, key, xs, x);
    forall i, j | 0 <= i < j < |added| ensures FirstAt(key, more, added[i].key) < FirstAt(key, more, added[j].key) {
      if j < |entries| {
        TalliesOrder(key, entries, xs, i, j);
      }
    }
    TalliesIntro(key, added, more);
  }

  lemma KnownKey(key: Scalar -> string, entries: seq<Entry>, xs: seq<Scalar>, x: Scalar) returns (at: nat)
    requires Tallies(key, entries, xs) && !x.Null? && HasKey(entries, key(x))
    ensures at < |entries|
    ensures forall i :: 0 <= i < |entries| ==> (Carries(key, x, entries[i].key) <==> i == at)
    ensures AddEntry(entries, Entry(key(x), x, 1)) == entries[at := entries[at].(count := entries[at].count + 1)]
  {
    at :| at < |entries| && entries[at].key == key(x);
    forall j | 0 <= j < |entries| && j != at ensures entries[j].key != key(x) {
      if j < at {
        TalliesOrder(key, entries, xs, j, at);
      } else {
        TalliesOrder(key, entries, xs, at, j);
      }
    }
    AddEntryAt(entries, at, Entry(key(x), x, 1));
  }

  /** A value whose key is known adds one to its entry. */
  lemma TalliesKnown(key: Scalar -> string, entries: seq<Entry>, xs: seq<Scalar>, x: Scalar)
    requires Tallies(key, entries, xs) && !x.Null? && HasKey(entries, key(x))
    ensures Tallies(key, AddEntry(entries, Entry(key(x), x, 1)), xs + [x])
  {
    hide *;
    var at := KnownKey(key, entries, xs, x);
    var added, more := AddEntry(entries, Entry(key(x), x, 1)), xs + [x];
    forall i | 0 <= i < |added|
      ensures Tallied(key, added[i], more)
      ensures FirstAt(key, more, added[i].key) == FirstAt(key, xs, entries[i].key)
    {
      TalliedEntry(key, entries, xs, i);
      OldKeyStays(key, entries[i], xs, x);
      assert Carries(key, x, entries[i].key) <==> i == at;
    }
    TalliesCovers(key, entries, xs);
    HasKeyAfter(entries, Entry(key(x), x, 1), key, xs, x);
    forall i, j | 0 <= i < j < |added| ensures FirstAt(key, more, added[i].key) < FirstAt(key, more, added[j].key) {
      TalliesOrder(key, entries, xs, i, j);
    }
    TalliesIntro(key, added, more);
  }

  /** The mode state tallies every value it was fed. */
  lemma {:induction false} ModeRunTallies(key: Scalar -> string, xs: seq<Scalar>)
    requires Run(key, Mode, xs).Ok?
    ensures Run(key, Mode, xs).value.ModeState?
    ensures Tallies(key, Run(key, Mode, xs).value.entries, xs)
    decreases |xs|
  {
    if xs != [] {
      var front, x := xs[..|xs| - 1], xs[|xs| - 1];
      RunStep(key, Mode, xs);
      ModeRunTallies(key, front);
      var entries := Run(key, Mode, front).value.entries;
      assert xs == front + [x];
      assert Run(key, Mode, xs).value
          == if x.Null? then ModeState(entries) else ModeState(AddEntry(entries, Entry(key(x), x, 1)));
      hide *;
      if x.Null? {
        TalliesNull(key, entries, front);
      } else if HasKey(entries, key(x)) {
        TalliesKnown(key, entries, front, x);
      } else {
        AddNewEntry(entries, Entry(key(x), x, 1));
        TalliesNew(key, entries, front, x);
      }
    }
  }

  /** Entry `i` has the highest count, and every earlier entry a lower one. */
  ghost predicate IsBest(entries: seq<Entry>, i: nat) {
    && i < |entries|
    && (forall j :: 0 <= j < |entries| ==> entries[j].count <= entries[i].count)
    && (forall j :: 0 <= j < i ==> entries[j].count < entries[i].count)
  }

  method FinalizeMode(entries: seq<Entry>) returns (value: Scalar)
    ensures entries == [] ==> value == Null
    ensures entries != [] ==> exists i: nat :: IsBest(entries, i) && value == entries[i].value
  {
    value := Null;
    var best := 0;
    for n := 0 to |entries|
      invariant n == 0 ==> value == Null
      invariant n > 0 ==> IsBest(entries[..n], best) && value == entries[best].value
    {
      if n == 0 || entries[n].count > entries[best].count {
        best := n;
        value := entries[n].value;
      }
      assert entries[..n + 1] == entries[..n] + [entries[n]];
    }
    assert entries[..|entries|] == entries;
  }

  /** The final mode is the value that occurs most often, and of those equally
      frequent the one that appeared first. */
  lemma ModeIsEarliestMostFrequent(key: Scalar -> string, xs: seq<Scalar>, i: nat, x: Scalar)
    requires Run(key, Mode, xs).Ok? && Run(key, Mode, xs).value.ModeState?
    requires IsBest(Run(key, Mode, xs).value.entries, i)
    requires x in xs && !x.Null?
    ensures var best := Run(key, Mode, xs).value.entries[i];
            && FirstAt(key, xs, best.key) < |xs|
            && best.value == xs[FirstAt(key, xs, best.key)]
            && Occurrences(key, xs, key(x)) <= Occurrences(key, xs, best.key)
            && (Occurrences(key, xs, key(x)) == Occurrences(key, xs, best.key) ==>
                  FirstAt(key, xs, best.key) <= FirstAt(key, xs, key(x)))
  {
    ModeRunTallies(key, xs);
    var entries := Run(key, Mode, xs).value.entries;
    hide Run, Occurrences, FirstAt;
    var at :| 0 <= at < |xs| && xs[at] == x;
    assert HasKey(entries, key(x));
    var j :| 0 <= j < |entries| && entries[j].key == key(x);
    assert Tallied(key, entries[i], xs) && Tallied(key, entries[j], xs);
    if i < j {
      assert FirstAt(key, xs, entries[i].key) < FirstAt(key, xs, entries[j].key);
    }
  }

  // ----- Median and quantile -----

  function RealCmp(): (real, real) -> int {
    (a: real, b: real) => RealOrder(a, b)
  }

  function Sorting(values: seq<real>): (sorted: seq<real>)
    ensures |sorted| == |values|
  {
    SortContents(RealCmp(), values);
    Sort(RealCmp(), values)
  }

  /** The fractional position of quantile `q` among `n` sorted values. */
  function Rank(q: real, n: nat): real {
    q * (n as real - 1.0)
  }

  function Between(low: real, high: real, w: real): real {
    low + (high - low) * w
  }

  predicate RankWithin(rank: real, n: nat) {
    0 <= rank.Floor < n && (rank != rank.Floor as real ==> rank.Floor + 1 < n)
  }

  function ValueAtRank(sorted: seq<real>, rank: real): real
    requires RankWithin(rank, |sorted|)
  {
    var lower := rank.Floor;
    var upper := if rank == lower as real then lower else lower + 1;
    if lower == upper then sorted[lower] else Between(sorted[lower], sorted[upper], rank - lower as real)
  }

  /** The continuous quantile of finite numbers; `q` has passed the range check. */
  function ContinuousQuantile(values: seq<real>, q: real): Option<real>
    requires 0.0 <= q <= 1.0
  {
    if values == [] then None
    else
      RankInRange(q, |values|);
      Some(ValueAtRank(Sorting(values), Rank(q, |values|)))
  }

  lemma ProductSign(a: real, b: real)
    requires a >= 0.0 && b >= 0.0
    ensures a * b >= 0.0
  {
  }

  lemma RankInRange(q: real, n: nat)
    requires 0.0 <= q <= 1.0 && n > 0
    ensures RankWithin(Rank(q, n), n)
  {
    var top := n as real - 1.0;
    ProductSign(q, top);
    ProductSign(1.0 - q, top);
    assert (1.0 - q) * top == top - Rank(q, n);
  }

  /** The median of finite numbers: the middle one, or the mean of the middle two. */
  function MedianOfNumbers(values: seq<real>): Option<real> {
    if values == [] then None
    else
      var sorted := Sorting(values);
      var middle := (|sorted| - 1) / 2;
      if |sorted| % 2 == 1 then Some(sorted[middle])
      else Some((sorted[middle] + sorted[middle + 1]) / 2.0)
  }

  lemma HalfRank(n: nat)
    requires n > 0
    ensures Rank(0.5, n).Floor == (n - 1) / 2
    ensures Rank(0.5, n) == ((n - 1) / 2) as real + if n % 2 == 1 then 0.0 else 0.5
  {
    var middle := (n - 1) / 2;
    assert n - 1 == 2 * middle + if n % 2 == 1 then 0 else 1;
  }

  lemma BetweenAtHalf(low: real, high: real)
    ensures Between(low, high, 0.5) == (low + high) / 2.0
  {
  }

  /** The median is the quantile at one half. */
  lemma MedianIsHalfQuantile(values: seq<real>)
    ensures MedianOfNumbers(values) == ContinuousQuantile(values, 0.5)
  {
    if values != [] {
      RankInRange(0.5, |values|);
      HalfRank(|values|);
      var sorted, middle := Sorting(values), (|values| - 1) / 2;
      hide Rank, Sorting, Between;
      if |values| % 2 == 0 {
        BetweenAtHalf(sorted[middle], sorted[middle + 1]);
      }
    }
  }

  lemma RealCmpPreorder()
    ensures TotalPreorder(RealCmp())
  {
  }

  lemma SortingIsSorted(values: seq<real>)
    ensures multiset(Sorting(values)) == multiset(values)
    ensures forall i, j :: 0 <= i <= j < |values| ==> Sorting(values)[i] <= Sorting(values)[j]
  {
    var sorted := Sorting(values);
    RealCmpPreorder();
    SortContents(RealCmp(), values);
    SortSorted(RealCmp(), values);
    forall i, j | 0 <= i < j < |values| ensures sorted[i] <= sorted[j] {
      assert RealCmp()(sorted[i], sorted[j]) <= 0;
    }
  }

  lemma SameReals(s: seq<real>, t: seq<real>)
    requires SameKeys(RealCmp(), s, t)
    ensures s == t
  {
    forall i | 0 <= i < |s| ensures s[i] == t[i] {
      assert RealCmp()(s[i], t[i]) == 0;
    }
  }

  lemma SortingIgnoresOrder(a: seq<real>, b: seq<real>)
    requires multiset(a) == multiset(b)
    ensures Sorting(a) == Sorting(b)
  {
    hide Sort, SameKeys, Sorted, TotalPreorder;
    RealCmpPreorder();
    SortContents(RealCmp(), a);
    SortContents(RealCmp(), b);
    SortSorted(RealCmp(), a);
    SortSorted(RealCmp(), b);
    SortedPermutationSameKeys(RealCmp(), b, Sorting(a));
    SameReals(Sorting(a), Sorting(b));
  }

  /** Quantiles depend only on which values were buffered, not on their order,
      so partial states may be merged in any order. */
  lemma QuantileIgnoresOrder(a: seq<real>, b: seq<real>, q: real)
    requires 0.0 <= q <= 1.0 && multiset(a) == multiset(b)
    ensures ContinuousQuantile(a, q) == ContinuousQuantile(b, q)
  {
    SortingIgnoresOrder(a, b);
    assert |Sorting(a)| == |Sorting(b)|;
    hide Sorting, Rank, ValueAtRank;
  }

  lemma Interpolation(low: real, high: real, w: real)
    requires low <= high && 0.0 <= w <= 1.0
    ensures low <= Between(low, high, w) <= high
  {
    ProductSign(high - low, w);
    ProductSign(high - low, 1.0 - w);
    assert (high - low) * (1.0 - w) == (high - low) - (high - low) * w;
  }

  /** A quantile is at least every sorted value up to its rank and at most every
      sorted value from its rank on. */
  lemma QuantileSplitsValues(values: seq<real>, q: real, i: nat)
    requires 0.0 <= q <= 1.0 && i < |values|
    ensures ContinuousQuantile(values, q).Some?
    ensures i as real <= Rank(q, |values|) ==> Sorting(values)[i] <= ContinuousQuantile(values, q).value
    ensures i as real >= Rank(q, |values|) ==> Sorting(values)[i] >= ContinuousQuantile(values, q).value
  {
    RankInRange(q, |values|);
    SortingIsSorted(values);
    var sorted, rank := Sorting(values), Rank(q, |values|);
    var lower := rank.Floor;
    hide Sorting, Rank, Between;
    if rank != lower as real {
      Interpolation(sorted[lower], sorted[lower + 1], rank - lower as real);
    }
  }

  /** Position `q * (n - 1)` among the sorted values, counted from zero: a whole
      position has its value, and one in between has its share of the step up to
      the next value. */
  lemma QuantileAtPosition(values: seq<real>, q: real, i: nat, share: real)
    requires 0.0 <= q <= 1.0 && i < |values| && 0.0 <= share < 1.0
    requires Product(q, |values| as real - 1.0) == i as real + share
    ensures share == 0.0 ==> ContinuousQuantile(values, q) == Some(Sorting(values)[i])
    ensures share > 0.0 ==>
      && i + 1 < |values|
      && ContinuousQuantile(values, q)
         == Some(Sorting(values)[i] + Product(Sorting(values)[i + 1] - Sorting(values)[i], share))
  {
    RankInRange(q, |values|);
    QuantileIs(values, q);
    RankIs(q, |values|);
    hide *;
    ValueAtPosition(Sorting(values), Rank(q, |values|), i, share);
  }

  lemma RankIs(q: real, n: nat)
    ensures Rank(q, n) == Product(q, n as real - 1.0)
  {
  }

  lemma QuantileIs(values: seq<real>, q: real)
    requires 0.0 <= q <= 1.0 && values != [] && RankWithin(Rank(q, |values|), |values|)
    ensures ContinuousQuantile(values, q) == Some(ValueAtRank(Sorting(values), Rank(q, |values|)))
  {
    hide Rank, Sorting, ValueAtRank;
  }

  lemma ValueAtPosition(sorted: seq<real>, rank: real, i: nat, share: real)
    requires RankWithin(rank, |sorted|) && rank == i as real + share && 0.0 <= share < 1.0
    ensures i < |sorted| && (share == 0.0 ==> ValueAtRank(sorted, rank) == sorted[i])
    ensures share > 0.0 ==>
      i + 1 < |sorted| && ValueAtRank(sorted, rank) == sorted[i] + Product(sorted[i + 1] - sorted[i], share)
  {
    assert rank.Floor == i && rank - i as real == share;
  }

  // ----- Average -----

  function FinalizeAverage(s: State): Option<Num>
    requires s.AvgState?
  {
    if s.count == 0 then None else Some(Div(s.sum, s.count))
  }

  /** The average of the numbers fed is their total over their count, NaN if one of
      them is, and null if there are none. */
  lemma AverageTells(key: Scalar -> string, xs: seq<Scalar>)
    requires Run(key, Avg, xs).Ok?
    ensures Run(key, Avg, xs).value.AvgState?
    ensures FinalizeAverage(Run(key, Avg, xs).value)
         == var n := |NumbersOf(xs)|;
            if n == 0 then None
            else if TotalOf(NumbersOf(xs)).NaN? then Some(NaN)
            else Some(Fin(Quotient(TotalOf(NumbersOf(xs)).v, n as real)))
  {
    RunMeans(key, Avg, xs);
    hide Run, Refuses, TotalOf, NumbersOf, Quotient;
  }

  // ----- Variance -----

  function SquaredDeviations(ns: seq<Num>, c: real): real
    requires forall i :: 0 <= i < |ns| ==> ns[i].Fin?
    decreases |ns|
  {
    if ns == [] then 0.0
    else SquaredDeviations(ns[..|ns| - 1], c) + (ns[|ns| - 1].v - c) * (ns[|ns| - 1].v - c)
  }

  lemma {:induction false} DeviationsAreSquared(ns: seq<Num>, c: real)
    requires forall i :: 0 <= i < |ns| ==> ns[i].Fin?
    ensures Deviations(ns, c) == SquaredDeviations(ns, c)
    decreases |ns|
  {
    if ns != [] {
      DeviationsAreSquared(ns[..|ns| - 1], c);
    }
  }

  lemma {:induction false} MomentsTotal(ns: seq<Num>)
    ensures MomentsOf(ns).sum == TotalOf(ns)
    decreases |ns|
  {
    if ns != [] {
      MomentsTotal(ns[..|ns| - 1]);
    }
  }

  /** The final value: `sqrt` is the runtime's; too few values give null. */
  function FinalizeVariance(sqrt: Num -> Num, s: State): Option<Num>
    requires s.VarianceState?
  {
    match s.kind
    case VarSamp => if s.count < 2 then None else Some(Div(s.m2, s.count - 1))
    case StddevSamp => if s.count < 2 then None else Some(sqrt(Div(s.m2, s.count - 1)))
    case VarPop => if s.count == 0 then None else Some(Div(s.m2, s.count))
    case StddevPop => if s.count == 0 then None else Some(sqrt(Div(s.m2, s.count)))
  }

  /** Over finite numbers, in any number of merged parts: the state's mean is the
      total over the count, the variances are the squared deviations from it over n,
      or over n - 1 for a sample, and the standard deviations are their roots. */
  lemma MergedVariance(sqrt: Num -> Num, key: Scalar -> string, kind: VarianceKind, a: seq<Scalar>, b: seq<Scalar>)
    requires MergeRuns(Run(key, Variance(kind), a), Run(key, Variance(kind), b)).Ok?
    requires forall i :: 0 <= i < |NumbersOf(a + b)| ==> NumbersOf(a + b)[i].Fin?
    ensures MergeRuns(Run(key, Variance(kind), a), Run(key, Variance(kind), b)).value.VarianceState?
    ensures var s := MergeRuns(Run(key, Variance(kind), a), Run(key, Variance(kind), b)).value;
            var ns := NumbersOf(a + b);
            && s.mean.Fin? && TotalOf(ns) == Fin(Product(s.mean.v, |ns| as real))
            && FinalizeVariance(sqrt, s)
               == var squares, n := SquaredDeviations(ns, s.mean.v), |ns|;
                  match kind
                  case VarPop => if n == 0 then None else Some(Fin(Quotient(squares, n as real)))
                  case StddevPop => if n == 0 then None else Some(sqrt(Fin(Quotient(squares, n as real))))
                  case VarSamp => if n < 2 then None else Some(Fin(Quotient(squares, (n - 1) as real)))
                  case StddevSamp => if n < 2 then None else Some(sqrt(Fin(Quotient(squares, (n - 1) as real))))
  {
    VariancePartsMerge(key, kind, a, b);
    VarianceMeaning(key, kind, a + b);
    VarianceKindStays(key, kind, a + b);
    var s, ns := MergeRuns(Run(key, Variance(kind), a), Run(key, Variance(kind), b)).value, NumbersOf(a + b);
    DeviationsAreSquared(ns, s.mean.v);
    MomentsTotal(ns);
    assert kind == s.kind;
    hide *;
    FinalizeMeans(sqrt, s, SquaredDeviations(ns, s.mean.v), |ns|);
  }

  lemma FinalizeMeans(sqrt: Num -> Num, s: State, squares: real, n: nat)
    requires s.VarianceState? && s.count == n && s.m2 == Fin(squares)
    ensures FinalizeVariance(sqrt, s)
         == match s.kind
            case VarPop => if n == 0 then None else Some(Fin(Quotient(squares, n as real)))
            case StddevPop => if n == 0 then None else Some(sqrt(Fin(Quotient(squares, n as real))))
            case VarSamp => if n < 2 then None else Some(Fin(Quotient(squares, (n - 1) as real)))
            case StddevSamp => if n < 2 then None else Some(sqrt(Fin(Quotient(squares, (n - 1) as real))))
  {
  }

  lemma VarianceKindStays(key: Scalar -> string, kind: VarianceKind, xs: seq<Scalar>)
    requires Run(key, Variance(kind), xs).Ok?
    ensures Run(key, Variance(kind), xs).value.VarianceState? && Run(key, Variance(kind), xs).value.kind == kind
  {
    RunFromKeepsOp(key, Create(Variance(kind)), xs);
  }
}
