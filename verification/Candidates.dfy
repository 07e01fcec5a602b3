/** Exact vector search: bounded insertion of scored candidates by binary
    search, and merging of per-block winners. */
module Candidates {
  import opened Scalars
  import opened Orders
  import opened FirstElements

  datatype Metric = CosineDistance | Dot | L2

  datatype Candidate = Candidate(index: nat, score: Num)

  /** A candidate with the two halves of its row id. */
  datatype Entry = Entry(index: nat, score: Num, low: nat, high: nat)

  datatype Block = Block(rowIdsLow: seq<nat>, rowIdsHigh: seq<nat>, scores: seq<Num>, valid: Option<seq<nat>>)

  datatype ScoredCandidates = ScoredCandidates(
    rowIdsLow: seq<nat>, rowIdsHigh: seq<nat>, scores: seq<Num>, sourceIndices: seq<nat>)

  /** Better score first (greater for dot products), NaN last, then the index. */
  function CompareScored(metric: Metric, li: nat, ls: Num, ri: nat, rs: Num): int {
    if ls.NaN? != rs.NaN? then (if ls.NaN? then 1 else -1)
    else if ls.Fin? && ls.v != rs.v then
      if metric == Dot then RealOrder(rs.v, ls.v) else RealOrder(ls.v, rs.v)
    else li - ri
  }

  function ByScore(metric: Metric): (Candidate, Candidate) -> int {
    (l: Candidate, r: Candidate) => CompareScored(metric, l.index, l.score, r.index, r.score)
  }

  function ByEntry(metric: Metric): (Entry, Entry) -> int {
    (l: Entry, r: Entry) => CompareScored(metric, l.index, l.score, r.index, r.score)
  }

  lemma ByScoreIsPreorder(metric: Metric)
    ensures TotalPreorder(ByScore(metric))
  {
  }

  lemma ByEntryIsPreorder(metric: Metric)
    ensures TotalPreorder(ByEntry(metric))
  {
  }

  /** NaN follows every number, whatever the metric and the indices. */
  lemma NaNLast(metric: Metric, l: Candidate, r: Candidate)
    requires l.score.Fin? && r.score.NaN?
    ensures ByScore(metric)(l, r) < 0 && ByScore(metric)(r, l) > 0
  {
  }

  // ----- Better scores -----

  /** A score is at least as good: a smaller distance or a greater dot product;
      NaN is worse than any number. */
  predicate NoWorse(metric: Metric, a: Num, b: Num) {
    match (a, b)
    case (_, NaN) => true
    case (NaN, Fin(_)) => false
    case (Fin(x), Fin(y)) => if metric == Dot then x >= y else x <= y
  }

  lemma CompareScoredMeans(metric: Metric, li: nat, ls: Num, ri: nat, rs: Num)
    ensures CompareScored(metric, li, ls, ri, rs) <= 0 <==> NoWorse(metric, ls, rs) && (ls == rs ==> li <= ri)
    ensures CompareScored(metric, li, ls, ri, rs) >= 0 <==> NoWorse(metric, rs, ls) && (ls == rs ==> li >= ri)
  {
  }

  // ----- Bounded insertion -----

  lemma {:induction false} SpliceIsInsert<T>(cmp: (T, T) -> int, s: seq<T>, x: T, at: nat)
    requires at <= |s|
    requires forall i :: 0 <= i < at ==> cmp(s[i], x) <= 0
    requires at < |s| ==> cmp(s[at], x) > 0
    ensures s[..at] + [x] + s[at..] == Insert(cmp, x, s)
  {
    if s == [] {
    } else if at == 0 {
      assert s[..0] == [] && s[0..] == s;
    } else {
      SpliceIsInsert(cmp, s[1..], x, at - 1);
      assert s[..at] == [s[0]] + s[1..][..at - 1] && s[at..] == s[1..][at - 1..];
    }
  }

  /** Binary search for the first element greater than `x`. */
  method InsertionIndex<T(!new)>(cmp: (T, T) -> int, retained: seq<T>, x: T) returns (low: nat)
    requires TotalPreorder(cmp) && Sorted(cmp, retained)
    ensures low <= |retained|
    ensures forall i :: 0 <= i < low ==> cmp(retained[i], x) <= 0
    ensures forall i :: low <= i < |retained| ==> cmp(retained[i], x) > 0
  {
    low := 0;
    var high := |retained|;
    while low < high
      invariant low <= high <= |retained|
      invariant forall i :: 0 <= i < low ==> cmp(retained[i], x) <= 0
      invariant forall i :: high <= i < |retained| ==> cmp(retained[i], x) > 0
    {
      var middle := (low + high) / 2;
      if cmp(retained[middle], x) <= 0 {
        forall i | 0 <= i <= middle ensures cmp(retained[i], x) <= 0 {
          Transitive(cmp, retained[i], retained[middle], x);
        }
        low := middle + 1;
      } else {
        forall i | middle <= i < |retained| ensures cmp(retained[i], x) > 0 {
          Transitive(cmp, x, retained[middle], retained[i]);
        }
        high := middle;
      }
    }
  }

  /** The first `limit` elements seen, in order. */
  ghost predicate Retains<T>(cmp: (T, T) -> int, limit: nat, retained: seq<T>, seen: seq<T>) {
    retained == Take(limit, Sort(cmp, seen))
  }

  /** Inserts a candidate and drops the last one if there are too many. */
  method InsertCandidate<T(!new)>(cmp: (T, T) -> int, retained: seq<T>, x: T, limit: nat, ghost seen: seq<T>)
    returns (next: seq<T>)
    requires TotalPreorder(cmp) && Retains(cmp, limit, retained, seen)
    ensures next == Take(limit, Insert(cmp, x, retained)) && Retains(cmp, limit, next, seen + [x])
  {
    SortSorted(cmp, seen);
    var position := InsertionIndex(cmp, retained, x);
    SpliceIsInsert(cmp, retained, x, position);
    InsertRetains(cmp, retained, x, limit, seen);
    hide *;
    CutLast(retained[..position] + [x] + retained[position..], limit);
    next := retained[..position] + [x] + retained[position..];
    if |next| > limit {
      next := next[..|next| - 1];
    }
  }

  lemma InsertRetains<T(!new)>(cmp: (T, T) -> int, retained: seq<T>, x: T, limit: nat, seen: seq<T>)
    requires TotalPreorder(cmp) && Retains(cmp, limit, retained, seen)
    ensures |retained| <= limit && Retains(cmp, limit, Take(limit, Insert(cmp, x, retained)), seen + [x])
  {
    SortAppend(cmp, seen, x);
    InsertTake(cmp, x, Sort(cmp, seen), limit);
  }

  lemma CutLast<T>(s: seq<T>, limit: nat)
    requires |s| <= limit + 1
    ensures Take(limit, s) == if |s| > limit then s[..|s| - 1] else s
  {
  }

  // ----- One block -----

  predicate ValidBlock(block: Block) {
    && |block.rowIdsLow| == |block.scores| && |block.rowIdsHigh| == |block.scores|
    && (block.valid.Some? ==> |block.valid.value| == |block.scores|)
  }

  /** The candidates of the first `n` rows, in row order; `scores` holds the
      distance of every row. */
  function ValidCandidates(block: Block, n: nat): seq<Candidate>
    requires ValidBlock(block) && n <= |block.scores|
  {
    if n == 0 then []
    else
      ValidCandidates(block, n - 1) +
      (if block.valid.None? || block.valid.value[n - 1] == 1 then [Candidate(n - 1, block.scores[n - 1])] else [])
  }

  function EntryOf(block: Block, c: Candidate): Entry {
    Entry(c.index, c.score,
          if c.index < |block.rowIdsLow| then block.rowIdsLow[c.index] else 0,
          if c.index < |block.rowIdsHigh| then block.rowIdsHigh[c.index] else 0)
  }

  function EntriesOf(block: Block, cs: seq<Candidate>): seq<Entry> {
    seq(|cs|, i requires 0 <= i < |cs| => EntryOf(block, cs[i]))
  }

  /** The entries a result denotes. */
  function Entries(r: ScoredCandidates): seq<Entry>
    requires SameLengths(r)
  {
    seq(|r.scores|, i requires 0 <= i < |r.scores| =>
      Entry(r.sourceIndices[i], r.scores[i], r.rowIdsLow[i], r.rowIdsHigh[i]))
  }

  predicate SameLengths(r: ScoredCandidates) {
    |r.rowIdsLow| == |r.scores| && |r.rowIdsHigh| == |r.scores| && |r.sourceIndices| == |r.scores|
  }

  /** The bounded insertion loop over the rows of a block. */
  method RetainRows(block: Block, metric: Metric, limit: nat) returns (retained: seq<Candidate>)
    requires ValidBlock(block)
    ensures Retains(ByScore(metric), limit, retained, ValidCandidates(block, |block.scores|))
  {
    hide Retains, TotalPreorder;
    var cmp := ByScore(metric);
    ByScoreIsPreorder(metric);
    retained := [];
    NothingRetained(cmp, limit);
    for index := 0 to |block.scores|
      invariant Retains(cmp, limit, retained, ValidCandidates(block, index))
    {
      if block.valid.Some? && block.valid.value[index] != 1 {
        assert ValidCandidates(block, index + 1) == ValidCandidates(block, index);
        continue;
      }
      var candidate := Candidate(index, block.scores[index]);
      retained := InsertCandidate(cmp, retained, candidate, limit, ValidCandidates(block, index));
    }
  }

  lemma NothingRetained<T>(cmp: (T, T) -> int, limit: nat)
    ensures Retains(cmp, limit, [], [])
  {
  }

  /** Copies the winners into the output buffers. */
  method CopyOut(block: Block, retained: seq<Candidate>) returns (r: ScoredCandidates)
    ensures SameLengths(r) && Entries(r) == EntriesOf(block, retained)
  {
    var low, high := new nat[|retained|], new nat[|retained|];
    var scores, sources := new Num[|retained|](_ => NaN), new nat[|retained|];
    for i := 0 to |retained|
      invariant forall k :: 0 <= k < i ==>
        Entry(sources[k], scores[k], low[k], high[k]) == EntryOf(block, retained[k])
    {
      var entry := EntryOf(block, retained[i]);
      low[i], high[i], scores[i], sources[i] := entry.low, entry.high, entry.score, entry.index;
    }
    r := ScoredCandidates(low[..], high[..], scores[..], sources[..]);
    assert Entries(r) == EntriesOf(block, retained);
  }

  /** The first `limit` valid rows of a block by score, then index. */
  method ScoreCandidates(block: Block, metric: Metric, limit: nat) returns (r: Result<ScoredCandidates>)
    ensures r.Ok? <==> ValidBlock(block)
    ensures r.Err? ==> r.error == TypeError
    ensures r.Ok? ==> ScoredFrom(metric, limit, block, r.value) && BestRows(metric, limit, block, r.value)
  {
    if !ValidBlock(block) {
      return Err(TypeError);
    }
    var retained := RetainRows(block, metric, limit);
    var result := CopyOut(block, retained);
    ScoredAreBest(metric, limit, block, result);
    r := Ok(result);
  }

  /** The result lists the first `limit` valid rows of the block. */
  ghost predicate ScoredFrom(metric: Metric, limit: nat, block: Block, r: ScoredCandidates) {
    && ValidBlock(block) && SameLengths(r)
    && Entries(r) == EntriesOf(block, Take(limit, Sort(ByScore(metric), ValidCandidates(block, |block.scores|))))
  }

  predicate ValidRow(block: Block, i: nat) {
    i < |block.scores| && (block.valid.None? || (i < |block.valid.value| && block.valid.value[i] == 1))
  }

  /** Position `k` of a result is a valid row of the block with its score and id. */
  predicate CopiesRow(block: Block, r: ScoredCandidates, k: nat)
    requires ValidBlock(block) && SameLengths(r) && k < |r.scores|
  {
    var i := r.sourceIndices[k];
    && ValidRow(block, i) && r.scores[k] == block.scores[i]
    && r.rowIdsLow[k] == block.rowIdsLow[i] && r.rowIdsHigh[k] == block.rowIdsHigh[i]
  }

  /** The best valid rows: scores never get better, equal ones are in row order, and
      a row is left out only for `limit` rows that are no worse. */
  ghost predicate BestRows(metric: Metric, limit: nat, block: Block, r: ScoredCandidates)
    requires ValidBlock(block) && SameLengths(r)
  {
    && |r.scores| <= limit
    && (forall k :: 0 <= k < |r.scores| ==> CopiesRow(block, r, k))
    && (forall j, k :: 0 <= j < k < |r.scores| ==>
          && NoWorse(metric, r.scores[j], r.scores[k])
          && (r.scores[j] == r.scores[k] ==> r.sourceIndices[j] < r.sourceIndices[k]))
    && (forall i :: 0 <= i < |block.scores| && ValidRow(block, i) && i !in r.sourceIndices ==>
          |r.scores| == limit && NoneWorse(metric, r.scores, block.scores[i]))
  }

  predicate NoneWorse(metric: Metric, scores: seq<Num>, score: Num) {
    forall k :: 0 <= k < |scores| ==> NoWorse(metric, scores[k], score)
  }

  /** The candidates of the first `n` rows: every valid one, in row order. */
  ghost predicate CandidatesAre(block: Block, n: nat, cs: seq<Candidate>) {
    && n <= |block.scores|
    && (forall k :: 0 <= k < |cs| ==> IsCandidate(block, n, cs[k]))
    && (forall j, k :: 0 <= j < k < |cs| ==> cs[j].index < cs[k].index)
    && (forall i :: 0 <= i < n && ValidRow(block, i) ==> Candidate(i, block.scores[i]) in cs)
  }

  predicate IsCandidate(block: Block, n: nat, c: Candidate) {
    c.index < n && ValidRow(block, c.index) && c.score == block.scores[c.index]
  }

  lemma {:induction false} ValidCandidatesMean(block: Block, n: nat)
    requires ValidBlock(block) && n <= |block.scores|
    ensures CandidatesAre(block, n, ValidCandidates(block, n))
  {
    if n > 0 {
      ValidCandidatesMean(block, n - 1);
      var before := ValidCandidates(block, n - 1);
      hide CandidatesAre;
      if ValidRow(block, n - 1) {
        OneMoreCandidate(block, n, before);
      } else {
        NoMoreCandidate(block, n, before);
      }
    }
  }

  lemma OneMoreCandidate(block: Block, n: nat, before: seq<Candidate>)
    requires 0 < n <= |block.scores| && ValidRow(block, n - 1) && CandidatesAre(block, n - 1, before)
    ensures CandidatesAre(block, n, before + [Candidate(n - 1, block.scores[n - 1])])
  {
    hide ValidRow;
    var cs := before + [Candidate(n - 1, block.scores[n - 1])];
    assert cs[|before|].index == n - 1 && forall k :: 0 <= k < |before| ==> cs[k] == before[k];
    assert forall c :: c in before ==> c in cs;
    assert cs[|before|] in cs;
  }

  lemma NoMoreCandidate(block: Block, n: nat, before: seq<Candidate>)
    requires 0 < n <= |block.scores| && !ValidRow(block, n - 1) && CandidatesAre(block, n - 1, before)
    ensures CandidatesAre(block, n, before)
  {
  }

  lemma CandidatesIn(block: Block, n: nat, cs: seq<Candidate>)
    requires CandidatesAre(block, n, cs)
    ensures forall j, k :: 0 <= j < k < |cs| ==> cs[j].index < cs[k].index
  {
  }

  lemma CandidateIs(block: Block, n: nat, cs: seq<Candidate>, c: Candidate)
    requires CandidatesAre(block, n, cs)
    ensures c in cs <==> IsCandidate(block, n, c)
  {
  }

  predicate Ranked(metric: Metric, a: Candidate, b: Candidate) {
    NoWorse(metric, a.score, b.score) && (a.score == b.score ==> a.index < b.index)
  }

  predicate AllRanked(metric: Metric, s: seq<Candidate>) {
    forall j, k :: 0 <= j < k < |s| ==> Ranked(metric, s[j], s[k])
  }

  lemma SortedAreRanked(metric: Metric, all: seq<Candidate>)
    requires forall j, k :: 0 <= j < k < |all| ==> all[j].index < all[k].index
    ensures AllRanked(metric, Sort(ByScore(metric), all))
  {
    var cmp := ByScore(metric);
    var sorted := Sort(cmp, all);
    ByScoreIsPreorder(metric);
    SortSorted(cmp, all);
    SortDistinct(cmp, all);
    hide Sort, TotalPreorder, ByScore, Ranked;
    forall j, k | 0 <= j < k < |sorted| ensures Ranked(metric, sorted[j], sorted[k]) {
      SortedPair(metric, sorted, j, k);
    }
  }

  lemma SortedPair(metric: Metric, sorted: seq<Candidate>, j: nat, k: nat)
    requires Sorted(ByScore(metric), sorted) && j < k < |sorted| && sorted[j] != sorted[k]
    ensures Ranked(metric, sorted[j], sorted[k])
  {
    CompareScoredMeans(metric, sorted[j].index, sorted[j].score, sorted[k].index, sorted[k].score);
    assert ByScore(metric)(sorted[j], sorted[k]) <= 0;
  }

  /** What is not among the first `limit` comes after them. */
  lemma RankedAfter(metric: Metric, limit: nat, sorted: seq<Candidate>, c: Candidate, k: nat)
    requires AllRanked(metric, sorted) && c in sorted && c !in Take(limit, sorted) && k < |Take(limit, sorted)|
    ensures Ranked(metric, Take(limit, sorted)[k], c)
  {
    hide Ranked;
    var m :| 0 <= m < |sorted| && sorted[m] == c;
    if m < limit {
      TakenEarly(limit, sorted, m);
    }
  }

  lemma TakenEarly<T>(k: nat, s: seq<T>, m: nat)
    requires m < |s| && m < k
    ensures s[m] in Take(k, s)
  {
    assert Take(k, s)[m] == s[m];
  }

  /** Sorting rows of different indices keeps them different. */
  lemma SortDistinct(cmp: (Candidate, Candidate) -> int, s: seq<Candidate>)
    requires forall j, k :: 0 <= j < k < |s| ==> s[j].index < s[k].index
    ensures forall j, k :: 0 <= j < k < |Sort(cmp, s)| ==> Sort(cmp, s)[j] != Sort(cmp, s)[k]
  {
    var sorted := Sort(cmp, s);
    SortContents(cmp, s);
    forall j, k | 0 <= j < k < |sorted| ensures sorted[j] != sorted[k] {
      CountOnce(s, sorted[k]);
      if sorted[j] == sorted[k] {
        CountedTwice(sorted, j, k);
      }
    }
  }

  lemma {:induction false} CountOnce(s: seq<Candidate>, x: Candidate)
    requires forall j, k :: 0 <= j < k < |s| ==> s[j].index < s[k].index
    ensures multiset(s)[x] <= 1
  {
    if s != [] {
      var front, last := s[..|s| - 1], s[|s| - 1];
      CountOnce(front, x);
      assert s == front + [last];
      assert last !in front;
    }
  }

  lemma ScoredAreBest(metric: Metric, limit: nat, block: Block, r: ScoredCandidates)
    requires ScoredFrom(metric, limit, block, r)
    ensures BestRows(metric, limit, block, r)
  {
    var kept := Take(limit, Sort(ByScore(metric), ValidCandidates(block, |block.scores|)));
    KeptAreBest(metric, limit, block);
    hide *;
    ScoredAre(metric, limit, block, r);
    ResultsAreBest(metric, limit, block, r, kept);
  }

  lemma ScoredAre(metric: Metric, limit: nat, block: Block, r: ScoredCandidates)
    requires ScoredFrom(metric, limit, block, r)
    ensures ValidBlock(block) && SameLengths(r)
    ensures Entries(r) == EntriesOf(block, Take(limit, Sort(ByScore(metric), ValidCandidates(block, |block.scores|))))
  {
  }

  /** The same of candidates, before their row ids are attached. */
  ghost predicate BestKept(metric: Metric, limit: nat, block: Block, kept: seq<Candidate>) {
    && |kept| <= limit && AllRanked(metric, kept)
    && (forall k :: 0 <= k < |kept| ==> IsCandidate(block, |block.scores|, kept[k]))
    && (forall i :: 0 <= i < |block.scores| && ValidRow(block, i) ==> KeptOrBeaten(metric, limit, block, kept, i))
  }

  predicate KeptOrBeaten(metric: Metric, limit: nat, block: Block, kept: seq<Candidate>, i: nat)
    requires i < |block.scores|
  {
    var c := Candidate(i, block.scores[i]);
    c in kept || (|kept| == limit && AllBeat(metric, kept, c))
  }

  predicate AllBeat(metric: Metric, kept: seq<Candidate>, c: Candidate) {
    forall k :: 0 <= k < |kept| ==> NoWorse(metric, kept[k].score, c.score)
  }

  lemma KeptAreBest(metric: Metric, limit: nat, block: Block)
    requires ValidBlock(block)
    ensures BestKept(metric, limit, block, Take(limit, Sort(ByScore(metric), ValidCandidates(block, |block.scores|))))
  {
    var n, all := |block.scores|, ValidCandidates(block, |block.scores|);
    var sorted := Sort(ByScore(metric), all);
    var kept := Take(limit, sorted);
    ValidCandidatesMean(block, n);
    CandidatesIn(block, n, all);
    SortedAreRanked(metric, all);
    hide *;
    TakeMembers(limit, sorted);
    TakeRanked(metric, limit, sorted);
    forall k | 0 <= k < |kept| ensures IsCandidate(block, n, kept[k]) {
      SortMember(ByScore(metric), all, kept[k]);
      CandidateIs(block, n, all, kept[k]);
    }
    forall i | 0 <= i < n && ValidRow(block, i) ensures KeptOrBeaten(metric, limit, block, kept, i) {
      RowListed(block, all, i);
      SortMember(ByScore(metric), all, Candidate(i, block.scores[i]));
      LeftOutIsBeaten(metric, limit, block, sorted, i);
    }
    KeptIs(metric, limit, block, kept);
  }

  lemma RowListed(block: Block, all: seq<Candidate>, i: nat)
    requires CandidatesAre(block, |block.scores|, all) && i < |block.scores| && ValidRow(block, i)
    ensures Candidate(i, block.scores[i]) in all
  {
  }

  lemma SortMember<T>(cmp: (T, T) -> int, s: seq<T>, x: T)
    ensures x in s <==> x in Sort(cmp, s)
  {
    SortContents(cmp, s);
    assert x in s <==> x in multiset(s);
    assert x in Sort(cmp, s) <==> x in multiset(Sort(cmp, s));
  }

  lemma KeptIs(metric: Metric, limit: nat, block: Block, kept: seq<Candidate>)
    requires |kept| <= limit && AllRanked(metric, kept)
    requires forall k :: 0 <= k < |kept| ==> IsCandidate(block, |block.scores|, kept[k])
    requires forall i :: 0 <= i < |block.scores| && ValidRow(block, i) ==> KeptOrBeaten(metric, limit, block, kept, i)
    ensures BestKept(metric, limit, block, kept)
  {
  }

  lemma LeftOutIsBeaten(metric: Metric, limit: nat, block: Block, sorted: seq<Candidate>, i: nat)
    requires AllRanked(metric, sorted) && i < |block.scores| && Candidate(i, block.scores[i]) in sorted
    ensures KeptOrBeaten(metric, limit, block, Take(limit, sorted), i)
  {
    var c := Candidate(i, block.scores[i]);
    hide Take, AllRanked, NoWorse;
    if c !in Take(limit, sorted) {
      TakeIsFull(limit, sorted, c);
      forall k | 0 <= k < |Take(limit, sorted)| ensures NoWorse(metric, Take(limit, sorted)[k].score, c.score) {
        RankedAfter(metric, limit, sorted, c, k);
      }
    }
  }

  lemma TakeRanked(metric: Metric, limit: nat, sorted: seq<Candidate>)
    requires AllRanked(metric, sorted)
    ensures AllRanked(metric, Take(limit, sorted))
  {
    hide Ranked;
  }

  lemma ResultsAreBest(metric: Metric, limit: nat, block: Block, r: ScoredCandidates, kept: seq<Candidate>)
    requires ValidBlock(block) && SameLengths(r) && Entries(r) == EntriesOf(block, kept)
    requires BestKept(metric, limit, block, kept)
    ensures BestRows(metric, limit, block, r)
  {
    ResultsAre(block, r, kept);
    hide NoWorse, EntriesOf, Entries, ValidBlock;
    forall k | 0 <= k < |r.scores| ensures CopiesRow(block, r, k) {
      assert IsCandidate(block, |block.scores|, kept[k]);
    }
    forall j, k | 0 <= j < k < |r.scores|
      ensures NoWorse(metric, r.scores[j], r.scores[k])
      ensures r.scores[j] == r.scores[k] ==> r.sourceIndices[j] < r.sourceIndices[k]
    {
      assert Ranked(metric, kept[j], kept[k]);
    }
    forall i | 0 <= i < |block.scores| && ValidRow(block, i) && i !in r.sourceIndices
      ensures |r.scores| == limit && NoneWorse(metric, r.scores, block.scores[i])
    {
      NotKept(r, kept, Candidate(i, block.scores[i]));
      assert KeptOrBeaten(metric, limit, block, kept, i);
    }
  }

  lemma NotKept(r: ScoredCandidates, kept: seq<Candidate>, c: Candidate)
    requires |r.sourceIndices| == |kept| && forall k :: 0 <= k < |kept| ==> r.sourceIndices[k] == kept[k].index
    requires c.index !in r.sourceIndices
    ensures c !in kept
  {
  }

  lemma TakeMembers<T>(k: nat, s: seq<T>)
    ensures |Take(k, s)| <= k && forall i :: 0 <= i < |Take(k, s)| ==> Take(k, s)[i] in s
  {
  }

  lemma TakeIsFull<T>(k: nat, s: seq<T>, x: T)
    requires x in s && x !in Take(k, s)
    ensures |Take(k, s)| == k
  {
  }

  lemma ResultsAre(block: Block, r: ScoredCandidates, kept: seq<Candidate>)
    requires ValidBlock(block) && SameLengths(r) && Entries(r) == EntriesOf(block, kept)
    requires forall k :: 0 <= k < |kept| ==> kept[k].index < |block.scores|
    ensures |r.scores| == |kept|
    ensures forall k :: 0 <= k < |kept| ==>
      && r.sourceIndices[k] == kept[k].index && r.scores[k] == kept[k].score
      && r.rowIdsLow[k] == block.rowIdsLow[kept[k].index] && r.rowIdsHigh[k] == block.rowIdsHigh[kept[k].index]
  {
    assert |Entries(r)| == |EntriesOf(block, kept)|;
    forall k | 0 <= k < |kept| ensures Entries(r)[k] == EntryOf(block, kept[k]) {
    }
  }

  // ----- Many blocks -----

  /** The entries of the first `n` inputs, in order. */
  function AllEntries(inputs: seq<ScoredCandidates>, n: nat): seq<Entry>
    requires n <= |inputs| && forall i :: 0 <= i < n ==> SameLengths(inputs[i])
  {
    if n == 0 then [] else AllEntries(inputs, n - 1) + Entries(inputs[n - 1])
  }

  /** Inserts every entry of one input. */
  method MergeInput(
    cmp: (Entry, Entry) -> int, retained: seq<Entry>, input: ScoredCandidates, limit: nat, ghost seen: seq<Entry>)
    returns (next: seq<Entry>)
    requires TotalPreorder(cmp) && SameLengths(input) && Retains(cmp, limit, retained, seen)
    ensures Retains(cmp, limit, next, seen + Entries(input))
  {
    hide Retains, TotalPreorder;
    next := retained;
    ghost var entries := Entries(input);
    assert seen + entries[..0] == seen;
    for i := 0 to |input.scores|
      invariant Retains(cmp, limit, next, seen + entries[..i])
    {
      var candidate := Entry(input.sourceIndices[i], input.scores[i], input.rowIdsLow[i], input.rowIdsHigh[i]);
      assert seen + entries[..i + 1] == (seen + entries[..i]) + [candidate];
      next := InsertCandidate(cmp, next, candidate, limit, seen + entries[..i]);
    }
    assert entries[..|input.scores|] == entries;
  }

  /** Merges scored lists: the first `limit` of all their entries; entries tied
      on score and index keep their order of arrival. */
  method MergeScoredCandidates(inputs: seq<ScoredCandidates>, metric: Metric, limit: nat)
    returns (r: Result<seq<Entry>>)
    ensures r.Ok? <==> forall i :: 0 <= i < |inputs| ==> SameLengths(inputs[i])
    ensures r.Err? ==> r.error == TypeError
    ensures r.Ok? ==> r.value == Take(limit, Sort(ByEntry(metric), AllEntries(inputs, |inputs|)))
    ensures r.Ok? ==> BestEntries(metric, limit, AllEntries(inputs, |inputs|), r.value)
  {
    var cmp := ByEntry(metric);
    ByEntryIsPreorder(metric);
    var retained: seq<Entry> := [];
    for k := 0 to |inputs|
      invariant forall i :: 0 <= i < k ==> SameLengths(inputs[i])
      invariant Retains(cmp, limit, retained, AllEntries(inputs, k))
    {
      if !SameLengths(inputs[k]) {
        return Err(TypeError);
      }
      retained := MergeInput(cmp, retained, inputs[k], limit, AllEntries(inputs, k));
    }
    r := Ok(retained);
    MergedAreBest(metric, limit, AllEntries(inputs, |inputs|));
  }

  /** The best entries: scores never get better, equal ones are in index order, and
      an entry is left out only for `limit` entries that are no worse. */
  ghost predicate BestEntries(metric: Metric, limit: nat, all: seq<Entry>, best: seq<Entry>) {
    && |best| == Least(limit, |all|) && multiset(best) <= multiset(all)
    && (forall j, k :: 0 <= j < k < |best| ==>
          NoWorse(metric, best[j].score, best[k].score)
          && (best[j].score == best[k].score ==> best[j].index <= best[k].index))
    && (forall rest: seq<Entry>, e, k ::
          multiset(all) == multiset(best) + multiset(rest) && e in rest && 0 <= k < |best| ==>
            NoWorse(metric, best[k].score, e.score))
  }

  lemma MergedAreBest(metric: Metric, limit: nat, all: seq<Entry>)
    ensures BestEntries(metric, limit, all, Take(limit, Sort(ByEntry(metric), all)))
  {
    var cmp := ByEntry(metric);
    var best := Take(limit, Sort(cmp, all));
    ByEntryIsPreorder(metric);
    TakeOfSort(cmp, all, limit);
    KeysAscend(cmp, limit, all, best);
    hide Sort, Take, TotalPreorder, SameKeys, NoWorse, CompareScored;
    forall j, k | 0 <= j < k < |best|
      ensures NoWorse(metric, best[j].score, best[k].score)
      ensures best[j].score == best[k].score ==> best[j].index <= best[k].index
    {
      CompareScoredMeans(metric, best[j].index, best[j].score, best[k].index, best[k].score);
    }
    forall rest: seq<Entry>, e, k |
      multiset(all) == multiset(best) + multiset(rest) && e in rest && 0 <= k < |best|
      ensures NoWorse(metric, best[k].score, e.score)
    {
      LeftOut(cmp, limit, all, best, rest, e, k);
      CompareScoredMeans(metric, e.index, e.score, best[k].index, best[k].score);
    }
  }

  // ----- Composition -----

  lemma {:induction false} EntriesInsert(block: Block, metric: Metric, c: Candidate, s: seq<Candidate>)
    ensures EntriesOf(block, Insert(ByScore(metric), c, s))
         == Insert(ByEntry(metric), EntryOf(block, c), EntriesOf(block, s))
  {
    var es := EntriesOf(block, s);
    if s != [] {
      assert es[1..] == EntriesOf(block, s[1..]);
      if ByScore(metric)(s[0], c) <= 0 {
        EntriesInsert(block, metric, c, s[1..]);
      }
    }
  }

  /** Attaching row ids commutes with sorting. */
  lemma {:induction false} EntriesSort(block: Block, metric: Metric, s: seq<Candidate>)
    ensures EntriesOf(block, Sort(ByScore(metric), s)) == Sort(ByEntry(metric), EntriesOf(block, s))
  {
    if s != [] {
      var init, last := s[..|s| - 1], s[|s| - 1];
      assert s == init + [last] && EntriesOf(block, s) == EntriesOf(block, init) + [EntryOf(block, last)];
      EntriesSort(block, metric, init);
      EntriesInsert(block, metric, last, Sort(ByScore(metric), init));
      SortAppend(ByScore(metric), init, last);
      SortAppend(ByEntry(metric), EntriesOf(block, init), EntryOf(block, last));
    }
  }

  /** Every valid row of the first `n` blocks, in block order. */
  function AllRows(blocks: seq<Block>, n: nat): seq<Entry>
    requires n <= |blocks| && forall i :: 0 <= i < n ==> ValidBlock(blocks[i])
  {
    if n == 0 then []
    else AllRows(blocks, n - 1) + EntriesOf(blocks[n - 1], ValidCandidates(blocks[n - 1], |blocks[n - 1].scores|))
  }

  /** A per-block limit never loses a winner: merging lists scored with limits
      of at least `k` gives the first `k` over all rows of all blocks. */
  lemma MergeOfBlockWinners(metric: Metric, k: nat, limit: nat, blocks: seq<Block>, scored: seq<ScoredCandidates>)
    requires k <= limit && |blocks| == |scored|
    requires forall i :: 0 <= i < |blocks| ==> ScoredFrom(metric, limit, blocks[i], scored[i])
    ensures forall i :: 0 <= i < |blocks| ==> ValidBlock(blocks[i])
    ensures forall i :: 0 <= i < |scored| ==> SameLengths(scored[i])
    ensures Take(k, Sort(ByEntry(metric), AllEntries(scored, |scored|)))
         == Take(k, Sort(ByEntry(metric), AllRows(blocks, |blocks|)))
  {
    MergePrefix(metric, k, limit, blocks, scored, |blocks|);
  }

  lemma {:induction false} MergePrefix(
    metric: Metric, k: nat, limit: nat, blocks: seq<Block>, scored: seq<ScoredCandidates>, n: nat)
    requires k <= limit && n <= |blocks| == |scored|
    requires forall i :: 0 <= i < |blocks| ==> ValidBlock(blocks[i])
    requires forall i :: 0 <= i < |scored| ==> SameLengths(scored[i])
    requires forall i :: 0 <= i < |blocks| ==> ScoredFrom(metric, limit, blocks[i], scored[i])
    ensures Take(k, Sort(ByEntry(metric), AllEntries(scored, n))) == Take(k, Sort(ByEntry(metric), AllRows(blocks, n)))
  {
    hide ScoredFrom, ValidBlock, SameLengths, Entries, EntriesOf, ValidCandidates, Take, Sort;
    if n > 0 {
      MergePrefix(metric, k, limit, blocks, scored, n - 1);
      PrefixStep(metric, k, limit, blocks, scored[n - 1], n, AllEntries(scored, n - 1));
    }
  }

  lemma PrefixStep(
    metric: Metric, k: nat, limit: nat, blocks: seq<Block>, last: ScoredCandidates, n: nat, merged: seq<Entry>)
    requires k <= limit && 0 < n <= |blocks| && forall i :: 0 <= i < n ==> ValidBlock(blocks[i])
    requires SameLengths(last) && ScoredFrom(metric, limit, blocks[n - 1], last)
    requires Take(k, Sort(ByEntry(metric), merged)) == Take(k, Sort(ByEntry(metric), AllRows(blocks, n - 1)))
    ensures Take(k, Sort(ByEntry(metric), merged + Entries(last)))
         == Take(k, Sort(ByEntry(metric), AllRows(blocks, n)))
  {
    hide Take, Sort, TotalPreorder, ByEntry, ByScore;
    ByEntryIsPreorder(metric);
    BlockStep(metric, k, limit, blocks[n - 1], merged, AllRows(blocks, n - 1));
  }

  lemma BlockStep(metric: Metric, k: nat, limit: nat, block: Block, merged: seq<Entry>, rows: seq<Entry>)
    requires k <= limit && ValidBlock(block) && TotalPreorder(ByEntry(metric))
    requires Take(k, Sort(ByEntry(metric), merged)) == Take(k, Sort(ByEntry(metric), rows))
    ensures var candidates := ValidCandidates(block, |block.scores|);
      Take(k, Sort(ByEntry(metric), merged + EntriesOf(block, Take(limit, Sort(ByScore(metric), candidates)))))
      == Take(k, Sort(ByEntry(metric), rows + EntriesOf(block, candidates)))
  {
    hide Sort;
    var cmp := ByEntry(metric);
    var candidates := ValidCandidates(block, |block.scores|);
    var all := EntriesOf(block, candidates);
    EntriesSort(block, metric, candidates);
    assert EntriesOf(block, Take(limit, Sort(ByScore(metric), candidates))) == Take(limit, Sort(cmp, all));
    TopKFoldBoth(cmp, merged, all, k, limit);
    TopKFold(cmp, merged, all, k);
    TopKFold(cmp, rows, all, k);
  }
}
