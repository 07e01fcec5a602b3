/** Late materialisation: row references gathered by a first scan are grouped
    into windows, and a second scan of the windows yields each reference once. */
module LateRows {
  import opened Scalars
  import opened Decimals
  import opened Orders
  import opened SortedRuns

  datatype RowRef = RowRef(path: string, rowIndex: nat)

  datatype Window = Window(path: string, rowStart: nat, rowEnd: nat)

  /** The order in which a scan meets rows: one path after another, ascending. */
  ghost predicate ScanOrdered(refs: seq<RowRef>) {
    forall i, j :: 0 <= i < j < |refs| && refs[i].path == refs[j].path ==>
      && refs[i].rowIndex < refs[j].rowIndex
      && forall k :: i < k < j ==> refs[k].path == refs[i].path
  }

  /** Window `w` spans the references from `from` up to `to`. */
  ghost predicate Spans(w: Window, refs: seq<RowRef>, from: nat, to: nat, limit: nat) {
    && from < to <= |refs|
    && (forall i :: from <= i < to ==> refs[i].path == w.path && w.rowStart <= refs[i].rowIndex < w.rowEnd)
    && w.rowStart == refs[from].rowIndex && w.rowEnd == refs[to - 1].rowIndex + 1
    && w.rowEnd - w.rowStart <= limit
  }

  /** The windows cut the references into consecutive stretches. */
  ghost predicate Covers(windows: seq<Window>, refs: seq<RowRef>, cuts: seq<nat>, limit: nat) {
    && |cuts| == |windows| + 1 && cuts[0] == 0 && cuts[|windows|] == |refs|
    && forall k :: 0 <= k < |windows| ==> Spans(windows[k], refs, cuts[k], cuts[k + 1], limit)
  }

  function Later(a: nat, b: nat): nat {
    if a >= b then a else b
  }

  /** Extends the last window while it stays within the limit, else opens one. */
  method BuildWindows(refs: seq<RowRef>, limit: nat) returns (out: seq<Window>, ghost cuts: seq<nat>)
    requires ScanOrdered(refs) && limit >= 1
    ensures Covers(out, refs, cuts, limit)
    ensures forall k :: 0 < k < |out| ==>
      out[k - 1].path != out[k].path || out[k].rowStart + 1 - out[k - 1].rowStart > limit
  {
    out, cuts := [], [0];
    for n := 0 to |refs|
      invariant Covers(out, refs[..n], cuts, limit)
      invariant forall k :: 0 < k < |out| ==>
        out[k - 1].path != out[k].path || out[k].rowStart + 1 - out[k - 1].rowStart > limit
    {
      var ref := refs[n];
      var last := |out| - 1;
      if last >= 0 && out[last].path == ref.path && ref.rowIndex + 1 - out[last].rowStart <= limit {
        CoverExtend(out, refs, cuts, limit, n);
        out := out[last := out[last].(rowEnd := Later(out[last].rowEnd, ref.rowIndex + 1))];
        cuts := cuts[|cuts| - 1 := n + 1];
      } else {
        CoverOpen(out, refs, cuts, limit, n);
        out := out + [Window(ref.path, ref.rowIndex, ref.rowIndex + 1)];
        cuts := cuts + [n + 1];
      }
    }
    assert refs[..|refs|] == refs;
  }

  lemma CoverExtend(out: seq<Window>, refs: seq<RowRef>, cuts: seq<nat>, limit: nat, n: nat)
    requires ScanOrdered(refs) && n < |refs| && Covers(out, refs[..n], cuts, limit) && out != []
    requires var last := out[|out| - 1]; last.path == refs[n].path && refs[n].rowIndex + 1 - last.rowStart <= limit
    ensures var k := |out| - 1;
            Covers(out[k := out[k].(rowEnd := Later(out[k].rowEnd, refs[n].rowIndex + 1))],
                   refs[..n + 1], cuts[|cuts| - 1 := n + 1], limit)
  {
    var k := |out| - 1;
    var wide := out[k].(rowEnd := Later(out[k].rowEnd, refs[n].rowIndex + 1));
    var next, cut := out[k := wide], cuts[|cuts| - 1 := n + 1];
    var front, all := refs[..n], refs[..n + 1];
    assert Spans(out[k], front, cuts[k], n, limit);
    assert forall i :: 0 <= i < n ==> front[i] == refs[i] && all[i] == refs[i];
    assert front[n - 1].path == refs[n].path && front[n - 1].rowIndex < refs[n].rowIndex;
    assert Spans(wide, all, cut[k], cut[k + 1], limit);
    forall m | 0 <= m < |next| ensures Spans(next[m], all, cut[m], cut[m + 1], limit) {
    }
  }

  lemma CoverOpen(out: seq<Window>, refs: seq<RowRef>, cuts: seq<nat>, limit: nat, n: nat)
    requires n < |refs| && limit >= 1 && Covers(out, refs[..n], cuts, limit)
    ensures Covers(out + [Window(refs[n].path, refs[n].rowIndex, refs[n].rowIndex + 1)], refs[..n + 1],
                   cuts + [n + 1], limit)
  {
    var next := out + [Window(refs[n].path, refs[n].rowIndex, refs[n].rowIndex + 1)];
    var cut := cuts + [n + 1];
    forall m | 0 <= m < |next| ensures Spans(next[m], refs[..n + 1], cut[m], cut[m + 1], limit) {
    }
  }

  lemma {:induction false} CutsAscend(windows: seq<Window>, refs: seq<RowRef>, cuts: seq<nat>, limit: nat, a: nat,
                                      b: nat)
    requires Covers(windows, refs, cuts, limit) && a <= b <= |windows|
    ensures cuts[a] <= cuts[b] && cuts[b] - cuts[a] >= b - a
  {
    if a < b {
      CutsAscend(windows, refs, cuts, limit, a, b - 1);
      assert Spans(windows[b - 1], refs, cuts[b - 1], cuts[b], limit);
    }
  }

  /** Windows are no longer than the limit and never overlap, so no row is read twice. */
  lemma WindowsDisjoint(windows: seq<Window>, refs: seq<RowRef>, cuts: seq<nat>, limit: nat, a: nat, b: nat)
    requires ScanOrdered(refs) && Covers(windows, refs, cuts, limit) && a < b < |windows|
    ensures windows[a].path == windows[b].path ==> windows[a].rowEnd <= windows[b].rowStart
    ensures 0 < windows[a].rowEnd - windows[a].rowStart <= limit
  {
    CutsAscend(windows, refs, cuts, limit, a + 1, b);
    assert Spans(windows[a], refs, cuts[a], cuts[a + 1], limit) && Spans(windows[b], refs, cuts[b], cuts[b + 1], limit);
    assert refs[cuts[a + 1] - 1].path == windows[a].path && refs[cuts[b]].path == windows[b].path;
  }

  // ----- The second scan -----

  function RowRefKey(ref: RowRef): string {
    ref.path + ['\U{1f}'] + NatText(ref.rowIndex)
  }

  lemma RowRefKeyInjective(a: RowRef, b: RowRef)
    ensures RowRefKey(a) == RowRefKey(b) <==> a == b
  {
    if RowRefKey(a) == RowRefKey(b) {
      SplitAtLast(a.path, b.path, NatText(a.rowIndex), NatText(b.rowIndex), '\U{1f}');
      NatRoundTrip(a.rowIndex);
      NatRoundTrip(b.rowIndex);
    }
  }

  ghost predicate Indexes(refsByKey: map<string, RowRef>, refs: seq<RowRef>) {
    && (forall key :: key in refsByKey ==> refsByKey[key] in refs && key == RowRefKey(refsByKey[key]))
    && (forall ref :: ref in refs ==> RowRefKey(ref) in refsByKey)
  }

  method IndexRefs(refs: seq<RowRef>) returns (refsByKey: map<string, RowRef>)
    ensures Indexes(refsByKey, refs)
  {
    refsByKey := map[];
    for n := 0 to |refs|
      invariant Indexes(refsByKey, refs[..n])
    {
      assert refs[..n + 1] == refs[..n] + [refs[n]];
      refsByKey := refsByKey[RowRefKey(refs[n]) := refs[n]];
    }
    assert refs[..|refs|] == refs;
  }

  lemma Lookup(refsByKey: map<string, RowRef>, refs: seq<RowRef>, ref: RowRef)
    requires Indexes(refsByKey, refs)
    ensures RowRefKey(ref) in refsByKey <==> ref in refs
    ensures ref in refs ==> refsByKey[RowRefKey(ref)] == ref
  {
    if RowRefKey(ref) in refsByKey {
      RowRefKeyInjective(refsByKey[RowRefKey(ref)], ref);
    }
  }

  /** The references of a window from `c` on lie at row `r` or later, those before it earlier. */
  ghost predicate At(refs: seq<RowRef>, from: nat, to: nat, c: nat, r: int) {
    && from <= c <= to <= |refs|
    && (forall i :: from <= i < c ==> refs[i].rowIndex < r)
    && (forall i :: c <= i < to ==> refs[i].rowIndex >= r)
  }

  /** The one place a row of the window can be referenced from. */
  lemma RowFound(w: Window, refs: seq<RowRef>, from: nat, to: nat, limit: nat, c: nat, r: nat)
    requires ScanOrdered(refs) && Spans(w, refs, from, to, limit) && At(refs, from, to, c, r)
    requires w.rowStart <= r < w.rowEnd
    ensures RowRef(w.path, r) in refs ==> c < to && refs[c] == RowRef(w.path, r) && At(refs, from, to, c + 1, r + 1)
    ensures RowRef(w.path, r) !in refs ==> At(refs, from, to, c, r + 1)
  {
    if RowRef(w.path, r) in refs {
      var j :| 0 <= j < |refs| && refs[j] == RowRef(w.path, r);
      assert refs[from].path == w.path && refs[to - 1].path == w.path;
      assert from <= j < to;
      assert c <= j;
    } else {
      forall i | c <= i < to ensures refs[i].rowIndex >= r + 1 {
        assert refs[i] != RowRef(w.path, r);
      }
    }
  }

  /** Reads the rows of one window and yields the referenced ones. */
  method ScanWindow(w: Window, refsByKey: map<string, RowRef>, ghost refs: seq<RowRef>, ghost from: nat, ghost to: nat,
                    ghost limit: nat)
    returns (yielded: seq<RowRef>)
    requires ScanOrdered(refs) && Indexes(refsByKey, refs) && Spans(w, refs, from, to, limit)
    ensures yielded == refs[from..to]
  {
    yielded := [];
    ghost var c: nat := from;
    for r := w.rowStart to w.rowEnd
      invariant At(refs, from, to, c, r)
      invariant yielded == refs[from..c]
    {
      RowFound(w, refs, from, to, limit, c, r);
      Lookup(refsByKey, refs, RowRef(w.path, r));
      var key := RowRefKey(RowRef(w.path, r));
      if key in refsByKey {
        yielded := yielded + [refsByKey[key]];
        c := c + 1;
      }
    }
    assert c == to;
  }

  /** Every reference is yielded exactly once, in the order of the first scan. */
  method MaterializeRefs(refs: seq<RowRef>, limit: nat) returns (yielded: seq<RowRef>)
    requires ScanOrdered(refs) && limit >= 1
    ensures yielded == refs
  {
    var refsByKey := IndexRefs(refs);
    var windows, cuts := BuildWindows(refs, limit);
    yielded := [];
    for k := 0 to |windows|
      invariant cuts[k] <= |refs| && yielded == refs[..cuts[k]]
    {
      assert Spans(windows[k], refs, cuts[k], cuts[k + 1], limit);
      var rows := ScanWindow(windows[k], refsByKey, refs, cuts[k], cuts[k + 1], limit);
      assert refs[..cuts[k + 1]] == refs[..cuts[k]] + refs[cuts[k]..cuts[k + 1]];
      yielded := yielded + rows;
    }
    assert refs[..|refs|] == refs;
  }

  // ----- References kept by a top-k, in rank order -----

  function ByScan(comparePaths: (string, string) -> int): (RowRef, RowRef) -> int {
    (a: RowRef, b: RowRef) =>
      if comparePaths(a.path, b.path) != 0 then comparePaths(a.path, b.path) else a.rowIndex - b.rowIndex
  }

  /** The path order tells different paths apart. */
  ghost predicate PathOrder(comparePaths: (string, string) -> int) {
    TotalPreorder(comparePaths) && forall a, b :: comparePaths(a, b) == 0 ==> a == b
  }

  /** Sorting distinct references by path and row puts them in scan order. */
  lemma SortedIsScanOrdered(comparePaths: (string, string) -> int, refs: seq<RowRef>)
    requires PathOrder(comparePaths) && Sorted(ByScan(comparePaths), refs) && Unique(refs)
    ensures ScanOrdered(refs)
  {
    var cmp := ByScan(comparePaths);
    forall i, j | 0 <= i < j < |refs| && refs[i].path == refs[j].path
      ensures refs[i].rowIndex < refs[j].rowIndex
      ensures forall k :: i < k < j ==> refs[k].path == refs[i].path
    {
      assert comparePaths(refs[i].path, refs[i].path) == 0;
      assert cmp(refs[i], refs[j]) <= 0;
      forall k | i < k < j ensures refs[k].path == refs[i].path {
        assert cmp(refs[i], refs[k]) <= 0 && cmp(refs[k], refs[j]) <= 0;
        assert comparePaths(refs[i].path, refs[k].path) <= 0 && comparePaths(refs[k].path, refs[i].path) <= 0;
      }
    }
  }

  lemma ByScanTransitive(comparePaths: (string, string) -> int, x: RowRef, y: RowRef, z: RowRef)
    requires PathOrder(comparePaths) && ByScan(comparePaths)(x, y) <= 0 && ByScan(comparePaths)(y, z) <= 0
    ensures ByScan(comparePaths)(x, z) <= 0
  {
    Transitive(comparePaths, x.path, y.path, z.path);
    Transitive(comparePaths, x.path, z.path, y.path);
  }

  lemma ByScanPreorder(comparePaths: (string, string) -> int)
    requires PathOrder(comparePaths)
    ensures TotalPreorder(ByScan(comparePaths))
  {
    var cmp := ByScan(comparePaths);
    forall x, y ensures cmp(x, y) < 0 <==> cmp(y, x) > 0 {
      assert comparePaths(x.path, y.path) < 0 <==> comparePaths(y.path, x.path) > 0;
      assert comparePaths(y.path, x.path) < 0 <==> comparePaths(x.path, y.path) > 0;
    }
    forall x, y, z | cmp(x, y) <= 0 && cmp(y, z) <= 0 ensures cmp(x, z) <= 0 {
      ByScanTransitive(comparePaths, x, y, z);
    }
  }

  /** The references a top-k retained, in any order: sorted for reading, each
      fetched exactly once. */
  method MaterializeRanked(comparePaths: (string, string) -> int, refs: seq<RowRef>, limit: nat)
    returns (yielded: seq<RowRef>)
    requires PathOrder(comparePaths) && Unique(refs) && limit >= 1
    ensures multiset(yielded) == multiset(refs) && Sorted(ByScan(comparePaths), yielded)
  {
    hide *;
    var sorted := Sort(ByScan(comparePaths), refs);
    ByScanPreorder(comparePaths);
    SortSorted(ByScan(comparePaths), refs);
    SortContents(ByScan(comparePaths), refs);
    SameMultisetUnique(refs, sorted);
    SortedIsScanOrdered(comparePaths, sorted);
    yielded := MaterializeRefs(sorted, limit);
  }
}
