/** Strictly ascending runs of keys and their merge through a heap that sifts by
    moving a hole: the union of the runs, each key visited once, in order. */
module SortedRuns {
  import opened Scalars
  import opened Orders
  import opened MergeSort

  function KeyCmp(): (string, string) -> int {
    (a: string, b: string) => LexOrder(a, b)
  }

  ghost predicate StrictlyAscending(s: seq<string>) {
    forall i, j :: 0 <= i < j < |s| ==> LexOrder(s[i], s[j]) < 0
  }

  ghost function SetOf<T>(s: seq<T>): set<T> {
    set x | x in s
  }

  ghost predicate Unique<T>(s: seq<T>) {
    forall i, j :: 0 <= i < j < |s| ==> s[i] != s[j]
  }

  /** Insertion into a set that keeps the order of first insertion. */
  function AddKey<T(==)>(values: seq<T>, key: T): seq<T> {
    if key in values then values else values + [key]
  }

  lemma AddKeyFacts<T>(values: seq<T>, key: T)
    requires Unique(values)
    ensures Unique(AddKey(values, key)) && SetOf(AddKey(values, key)) == SetOf(values) + {key}
  {
    SetOfSnoc(values, key);
    if key in values {
      assert SetOf(values) + {key} == SetOf(values);
    }
  }

  lemma KeyCmpPreorder()
    ensures TotalPreorder(KeyCmp())
  {
    forall x, y ensures KeyCmp()(x, y) < 0 <==> KeyCmp()(y, x) > 0 {
      LexAntisymmetric(x, y);
    }
    forall x, y, z | KeyCmp()(x, y) <= 0 && KeyCmp()(y, z) <= 0 ensures KeyCmp()(x, z) <= 0 {
      LexTransitive(x, y, z);
    }
  }

  lemma AscendingUnique(s: seq<string>)
    requires StrictlyAscending(s)
    ensures Unique(s)
  {
    forall i, j | 0 <= i < j < |s| ensures s[i] != s[j] {
      LexAntisymmetric(s[i], s[j]);
    }
  }

  lemma {:induction false} UniqueCount<T>(s: seq<T>)
    requires Unique(s)
    ensures |SetOf(s)| == |s|
  {
    if s != [] {
      var front, x := s[..|s| - 1], s[|s| - 1];
      UniqueCount(front);
      assert s == front + [x];
      assert SetOf(s) == SetOf(front) + {x};
    }
  }

  /** A set of keys has one strictly ascending listing. */
  lemma {:induction false} AscendingDetermined(s: seq<string>, t: seq<string>)
    requires StrictlyAscending(s) && StrictlyAscending(t) && SetOf(s) == SetOf(t)
    ensures s == t
    decreases |s|
  {
    AscendingUnique(s);
    AscendingUnique(t);
    UniqueCount(s);
    UniqueCount(t);
    if s != [] {
      LastIsGreatest(s, t);
      var front, rear := s[..|s| - 1], t[..|t| - 1];
      WithoutLast(s);
      WithoutLast(t);
      AscendingDetermined(front, rear);
      assert s == front + [s[|s| - 1]] && t == rear + [t[|t| - 1]];
    }
  }

  lemma WithoutLast(s: seq<string>)
    requires s != [] && Unique(s)
    ensures SetOf(s[..|s| - 1]) == SetOf(s) - {s[|s| - 1]}
  {
    var front, x := s[..|s| - 1], s[|s| - 1];
    assert s == front + [x];
    assert x !in front;
  }

  lemma LastIsGreatest(s: seq<string>, t: seq<string>)
    requires StrictlyAscending(s) && StrictlyAscending(t) && SetOf(s) == SetOf(t) && s != [] && t != []
    ensures s[|s| - 1] == t[|t| - 1]
  {
    var x, y := s[|s| - 1], t[|t| - 1];
    assert x in SetOf(t) && y in SetOf(s);
    var i :| 0 <= i < |t| && t[i] == x;
    var j :| 0 <= j < |s| && s[j] == y;
    LexAntisymmetric(x, y);
  }

  /** Sorting distinct keys lists them strictly ascending. */
  lemma SortedUniqueAscends(values: seq<string>)
    requires Unique(values)
    ensures StrictlyAscending(Sort(KeyCmp(), values)) && SetOf(Sort(KeyCmp(), values)) == SetOf(values)
  {
    var sorted := Sort(KeyCmp(), values);
    KeyCmpPreorder();
    SortSorted(KeyCmp(), values);
    SortContents(KeyCmp(), values);
    forall x ensures x in sorted <==> x in values {
      assert x in multiset(sorted) <==> x in multiset(values);
    }
    SameMultisetUnique(values, sorted);
    forall i, j | 0 <= i < j < |sorted| ensures LexOrder(sorted[i], sorted[j]) < 0 {
      assert KeyCmp()(sorted[i], sorted[j]) <= 0;
      LexAntisymmetric(sorted[i], sorted[j]);
    }
  }

  lemma SameMultisetUnique<T>(s: seq<T>, t: seq<T>)
    requires Unique(s) && multiset(s) == multiset(t)
    ensures Unique(t)
  {
    forall i, j | 0 <= i < j < |t| ensures t[i] != t[j] {
      if t[i] == t[j] {
        TwiceInMultiset(t, i, j);
        OnceInMultiset(s, t[i]);
        assert false;
      }
    }
  }

  lemma TwiceInMultiset<T>(t: seq<T>, i: nat, j: nat)
    requires i < j < |t| && t[i] == t[j]
    ensures multiset(t)[t[i]] >= 2
  {
    var left, right := t[..i], t[i..];
    var middle, rest := t[i..j], t[j..];
    assert t == left + right && right == middle + rest;
    assert t[i] in middle && t[j] in rest;
    assert multiset(middle)[t[i]] >= 1 && multiset(rest)[t[j]] >= 1;
    assert multiset(right)[t[i]] == multiset(middle)[t[i]] + multiset(rest)[t[i]];
  }

  lemma {:induction false} OnceInMultiset<T>(s: seq<T>, x: T)
    requires Unique(s)
    ensures multiset(s)[x] <= 1
  {
    if s != [] {
      var front, last := s[..|s| - 1], s[|s| - 1];
      OnceInMultiset(front, x);
      assert s == front + [last];
      if last == x {
        assert x !in front;
        assert x !in multiset(front);
      }
    }
  }

  /** The strictly ascending listing of a set of keys. */
  ghost function Listing(keys: set<string>): (s: seq<string>)
    ensures StrictlyAscending(s) && SetOf(s) == keys
  {
    var s := AnyOrder(keys);
    SortedUniqueAscends(s);
    Sort(KeyCmp(), s)
  }

  lemma SetOfSnoc<T>(s: seq<T>, x: T)
    ensures SetOf(s + [x]) == SetOf(s) + {x}
  {
  }

  ghost function AnyOrder<T>(items: set<T>): (s: seq<T>)
    ensures Unique(s) && SetOf(s) == items
  {
    if items == {} then []
    else
      var x :| x in items;
      var rest := AnyOrder(items - {x});
      assert forall i :: 0 <= i < |rest| ==> rest[i] in SetOf(rest);
      SetOfSnoc(rest, x);
      rest + [x]
  }

  lemma ListingIs(s: seq<string>)
    requires StrictlyAscending(s)
    ensures s == Listing(SetOf(s)) && |s| == |SetOf(s)|
  {
    AscendingDetermined(s, Listing(SetOf(s)));
    AscendingUnique(s);
    UniqueCount(s);
  }

  // ----- The heap -----

  datatype RunEntry = RunEntry(value: string, runIndex: nat, valueIndex: nat)

  function EntryOrder(a: RunEntry, b: RunEntry): int {
    if LexOrder(a.value, b.value) != 0 then LexOrder(a.value, b.value)
    else if a.runIndex != b.runIndex then a.runIndex - b.runIndex
    else a.valueIndex - b.valueIndex
  }

  function EntryCmp(): (RunEntry, RunEntry) -> int {
    (a: RunEntry, b: RunEntry) => EntryOrder(a, b)
  }

  lemma EntryOrderTransitive(x: RunEntry, y: RunEntry, z: RunEntry)
    requires EntryOrder(x, y) <= 0 && EntryOrder(y, z) <= 0
    ensures EntryOrder(x, z) <= 0
  {
    LexTransitive(x.value, y.value, z.value);
    LexAntisymmetric(x.value, y.value);
    LexAntisymmetric(y.value, z.value);
    if LexOrder(x.value, z.value) == 0 {
      LexAntisymmetric(x.value, z.value);
    }
  }

  lemma EntryCmpPreorder()
    ensures TotalPreorder(EntryCmp())
  {
    forall x, y ensures EntryCmp()(x, y) < 0 <==> EntryCmp()(y, x) > 0 {
      LexAntisymmetric(x.value, y.value);
    }
    forall x, y, z | EntryCmp()(x, y) <= 0 && EntryCmp()(y, z) <= 0 ensures EntryCmp()(x, z) <= 0 {
      EntryOrderTransitive(x, y, z);
    }
  }

  lemma MoveParentDown<T>(s: seq<T>, hole: int, p: int, entry: T)
    requires 0 <= p < |s| && 0 <= hole < |s| && p != hole
    ensures Swap(s[hole := entry], hole, p) == s[hole := s[p]][p := entry]
  {
  }

  /** The hole moves down to the least child, which moves up. */
  lemma SinkHole(s: seq<HeapItem<RunEntry>>, hole: nat, child: nat, entry: HeapItem<RunEntry>)
    requires 0 < child < |s| && hole < |s| && Parent(child) == hole
    requires HeapAbove(EntryCmp(), s[hole := entry], hole) && EntryCmp()(s[child].row, entry.row) < 0
    requires NotAbove(EntryCmp(), s[hole := entry], hole, s[child].row)
    ensures HeapAbove(EntryCmp(), s[hole := s[child]][child := entry], child)
    ensures multiset(s[hole := s[child]][child := entry]) == multiset(s[hole := entry])
  {
    EntryCmpPreorder();
    hide HeapAbove, Swap, TotalPreorder;
    SiftDownStep(EntryCmp(), s[hole := entry], hole, child);
    SwapContents(s[hole := entry], hole, child);
    MoveParentDown(s, hole, child, entry);
  }

  /** A binary heap in an array; while an item sifts, its place is a hole. */
  class EntryHeap {
    var items: seq<HeapItem<RunEntry>>

    constructor ()
      ensures items == []
    {
      items := [];
    }

    method Push(entry: HeapItem<RunEntry>)
      requires IsHeap(EntryCmp(), items)
      modifies this
      ensures IsHeap(EntryCmp(), items)
      ensures multiset(items) == old(multiset(items)) + multiset{entry}
    {
      EntryCmpPreorder();
      var index := |items|;
      items := items + [entry];
      assert items[index := entry] == items;
      hide TotalPreorder, EntryOrder, IsHeap, Swap;
      while index > 0
        invariant 0 <= index < |items|
        invariant HeapBelow(EntryCmp(), items[index := entry], index)
        invariant multiset(items[index := entry]) == old(multiset(items)) + multiset{entry}
      {
        var parentIndex := (index - 1) / 2;
        var parent := items[parentIndex];
        if EntryCmp()(parent.row, entry.row) <= 0 {
          break;
        }
        ghost var whole := items[index := entry];
        SiftUpStep(EntryCmp(), whole, index);
        SwapContents(whole, index, parentIndex);
        MoveParentDown(items, index, parentIndex, entry);
        items := items[index := parent];
        index := parentIndex;
      }
      items := items[index := entry];
    }

    /** Removes the root, a least entry. */
    method Pop() returns (root: HeapItem<RunEntry>)
      requires IsHeap(EntryCmp(), items) && items != []
      modifies this
      ensures IsHeap(EntryCmp(), items)
      ensures root in old(items) && multiset(items) == old(multiset(items)) - multiset{root}
      ensures IsLeast(EntryCmp(), old(items), root.row)
    {
      EntryCmpPreorder();
      root := items[0];
      var last := items[|items| - 1];
      forall i | 0 <= i < |items| ensures EntryCmp()(root.row, items[i].row) <= 0 {
        RootIsLeast(EntryCmp(), items, i);
      }
      PopContents(items);
      PopShape(EntryCmp(), items);
      items := items[..|items| - 1];
      if |items| > 0 {
        items := items[0 := last];
        HeapifyDown();
      }
    }

    method HeapifyDown()
      requires HeapAbove(EntryCmp(), items, 0)
      modifies this
      ensures IsHeap(EntryCmp(), items) && |items| == old(|items|)
      ensures multiset(items) == old(multiset(items))
    {
      var index := 0;
      var entry := items[0];
      assert items[0 := entry] == items;
      hide EntryOrder, IsHeap, HeapAbove, NotAbove, Parent;
      while true
        invariant |items| == old(|items|) && 0 <= index < |items|
        invariant HeapAbove(EntryCmp(), items[index := entry], index)
        invariant multiset(items[index := entry]) == old(multiset(items))
        decreases |items| - index
      {
        var left := index * 2 + 1;
        var right := left + 1;
        if left >= |items| {
          SunkIsHeap(items[index := entry], index);
          break;
        }
        var childIndex := if right < |items| && EntryCmp()(items[right].row, items[left].row) < 0 then right else left;
        var child := items[childIndex];
        LeastChild(items[index := entry], index, childIndex);
        if EntryCmp()(entry.row, child.row) <= 0 {
          SunkIsHeap(items[index := entry], index);
          break;
        }
        EntryFlip(entry.row, child.row);
        SinkHole(items, index, childIndex, entry);
        items := items[index := child];
        index := childIndex;
      }
      items := items[index := entry];
    }
  }

  /** The chosen child is no greater than its sibling. */
  lemma EntryFlip(a: RunEntry, b: RunEntry)
    ensures EntryCmp()(a, b) > 0 <==> EntryCmp()(b, a) < 0
  {
    EntryCmpPreorder();
  }

  lemma LeastChild(s: seq<HeapItem<RunEntry>>, index: nat, child: nat)
    requires var left := index * 2 + 1; var right := left + 1;
             && left < |s|
             && child == if right < |s| && EntryCmp()(s[right].row, s[left].row) < 0 then right else left
    ensures Parent(child) == index && NotAbove(EntryCmp(), s, index, s[child].row)
  {
    EntryCmpPreorder();
    forall i | 0 < i < |s| && Parent(i) == index ensures EntryCmp()(s[child].row, s[i].row) <= 0 {
      assert i == index * 2 + 1 || i == index * 2 + 2;
      assert EntryCmp()(s[i].row, s[i].row) == 0;
    }
  }

  /** The sunk item has no child, or is no greater than the least of them. */
  lemma SunkIsHeap(s: seq<HeapItem<RunEntry>>, index: nat)
    requires HeapAbove(EntryCmp(), s, index)
    requires index * 2 + 1 >= |s|
          || exists c :: 0 <= c < |s| && EntryCmp()(s[index].row, s[c].row) <= 0
                         && NotAbove(EntryCmp(), s, index, s[c].row)
    ensures IsHeap(EntryCmp(), s)
  {
    EntryCmpPreorder();
    forall i | 0 < i < |s| && Parent(i) == index ensures EntryCmp()(s[index].row, s[i].row) <= 0 {
      assert i == index * 2 + 1 || i == index * 2 + 2;
      var c :| 0 <= c < |s| && EntryCmp()(s[index].row, s[c].row) <= 0 && NotAbove(EntryCmp(), s, index, s[c].row);
      Transitive(EntryCmp(), s[index].row, s[c].row, s[i].row);
    }
  }

  // ----- Visiting the union -----

  function EntryRun(run: seq<string>, r: nat): (rows: seq<RunEntry>)
    ensures |rows| == |run| && forall j :: 0 <= j < |run| ==> rows[j] == RunEntry(run[j], r, j)
  {
    seq(|run|, j requires 0 <= j < |run| => RunEntry(run[j], r, j))
  }

  function EntryRuns(runs: seq<seq<string>>): (rows: seq<seq<RunEntry>>)
    ensures |rows| == |runs| && forall r :: 0 <= r < |runs| ==> rows[r] == EntryRun(runs[r], r)
  {
    seq(|runs|, r requires 0 <= r < |runs| => EntryRun(runs[r], r))
  }

  ghost predicate AllAscending(runs: seq<seq<string>>) {
    forall r :: 0 <= r < |runs| ==> StrictlyAscending(runs[r])
  }

  ghost function UnionOf(runs: seq<seq<string>>): set<string> {
    if runs == [] then {} else UnionOf(runs[..|runs| - 1]) + SetOf(runs[|runs| - 1])
  }

  ghost function ValuesOf(entries: multiset<RunEntry>): set<string> {
    set e | e in entries :: e.value
  }

  lemma EntryRunsSorted(runs: seq<seq<string>>)
    requires AllAscending(runs)
    ensures RunsSorted(EntryCmp(), EntryRuns(runs))
  {
    forall r | 0 <= r < |runs| ensures Sorted(EntryCmp(), EntryRuns(runs)[r]) {
      assert StrictlyAscending(runs[r]);
    }
  }

  lemma EntryRunValues(run: seq<string>, r: nat)
    ensures ValuesOf(multiset(EntryRun(run, r))) == SetOf(run)
  {
    var rows := EntryRun(run, r);
    forall x | x in SetOf(run) ensures x in ValuesOf(multiset(rows)) {
      var j :| 0 <= j < |run| && run[j] == x;
      assert rows[j] in multiset(rows);
    }
    forall x | x in ValuesOf(multiset(rows)) ensures x in SetOf(run) {
      var e :| e in multiset(rows) && e.value == x;
      assert e in rows;
    }
  }

  lemma ValuesOfSum(a: multiset<RunEntry>, b: multiset<RunEntry>)
    ensures ValuesOf(a + b) == ValuesOf(a) + ValuesOf(b)
  {
    forall x | x in ValuesOf(a) ensures x in ValuesOf(a + b) {
      var e :| e in a && e.value == x;
      assert e in a + b;
    }
    forall x | x in ValuesOf(b) ensures x in ValuesOf(a + b) {
      var e :| e in b && e.value == x;
      assert e in a + b;
    }
  }

  lemma {:induction false} EntryRunsValues(runs: seq<seq<string>>)
    ensures ValuesOf(Contents(EntryRuns(runs))) == UnionOf(runs)
  {
    if runs != [] {
      var front, rows := runs[..|runs| - 1], EntryRuns(runs);
      EntryRunsValues(front);
      assert rows[..|rows| - 1] == EntryRuns(front);
      EntryRunValues(runs[|runs| - 1], |runs| - 1);
      ValuesOfSum(Contents(EntryRuns(front)), multiset(rows[|rows| - 1]));
    }
  }

  /** The visited keys are the distinct values of the sorted entries so far. */
  ghost predicate Visited(visited: seq<string>, out: seq<RunEntry>, previous: Option<string>) {
    && StrictlyAscending(visited) && SetOf(visited) == ValuesOf(multiset(out))
    && (out == [] ==> visited == [] && previous.None?)
    && (out != [] ==> visited != [] && previous == Some(visited[|visited| - 1]) == Some(out[|out| - 1].value))
  }

  lemma NoneVisited()
    ensures Visited([], [], None)
  {
    assert ValuesOf(multiset([])) == {};
  }

  lemma ValuesSnoc(out: seq<RunEntry>, e: RunEntry)
    ensures ValuesOf(multiset(out + [e])) == ValuesOf(multiset(out)) + {e.value}
  {
    ValuesOfSum(multiset(out), multiset{e});
    assert multiset(out + [e]) == multiset(out) + multiset{e};
    assert ValuesOf(multiset{e}) == {e.value};
  }

  lemma NextNotLess(out: seq<RunEntry>, e: RunEntry)
    requires out != [] && Sorted(EntryCmp(), out + [e])
    ensures LexOrder(out[|out| - 1].value, e.value) <= 0
  {
    var last := out[|out| - 1];
    assert (out + [e])[|out| - 1] == last && (out + [e])[|out|] == e;
    assert EntryCmp()(last, e) <= 0;
  }

  lemma VisitStep(visited: seq<string>, out: seq<RunEntry>, previous: Option<string>, e: RunEntry)
    requires Visited(visited, out, previous) && Sorted(EntryCmp(), out + [e])
    ensures Visited(if previous == Some(e.value) then visited else visited + [e.value], out + [e], Some(e.value))
  {
    ValuesSnoc(out, e);
    SetOfSnoc(visited, e.value);
    if out != [] {
      NextNotLess(out, e);
      LexAntisymmetric(out[|out| - 1].value, e.value);
    }
    AppendAscending(visited, e.value);
    hide Sorted, StrictlyAscending, LexOrder, ValuesOf, SetOf, EntryOrder;
    if previous == Some(e.value) {
      assert visited[|visited| - 1] in visited;
      LastInSet(visited);
    }
  }

  lemma LastInSet(s: seq<string>)
    requires s != []
    ensures SetOf(s) + {s[|s| - 1]} == SetOf(s)
  {
  }

  lemma AppendAscending(s: seq<string>, x: string)
    requires StrictlyAscending(s)
    ensures s == [] || LexOrder(s[|s| - 1], x) < 0 ==> StrictlyAscending(s + [x])
  {
    if s != [] && LexOrder(s[|s| - 1], x) < 0 {
      forall i | 0 <= i < |s| ensures LexOrder(s[i], x) < 0 {
        if i < |s| - 1 {
          LexTransitive(s[i], s[|s| - 1], x);
          LexAntisymmetric(s[i], s[|s| - 1]);
          LexAntisymmetric(s[|s| - 1], x);
          LexAntisymmetric(s[i], x);
        }
      }
    }
  }

  method SeedRuns(runs: seq<seq<string>>) returns (heap: EntryHeap)
    ensures fresh(heap) && IsHeap(EntryCmp(), heap.items)
    ensures multiset(heap.items) == Heads(EntryRuns(runs), Zeros(|runs|), |runs|)
  {
    heap := new EntryHeap();
    ghost var rows := EntryRuns(runs);
    ghost var zero := Zeros(|runs|);
    assert IsHeap(EntryCmp(), heap.items) && CursorsWithin(rows, zero) && Heads(rows, zero, 0) == multiset{};
    hide *;
    for r := 0 to |runs|
      invariant fresh(heap) && IsHeap(EntryCmp(), heap.items) && CursorsWithin(rows, zero)
      invariant multiset(heap.items) == Heads(rows, zero, r)
    {
      FirstHead(rows, r);
      PushFollowing(heap, runs, r, 0);
    }
  }

  lemma CursorOfEntry(runs: seq<seq<string>>, cursors: seq<nat>, items: seq<HeapItem<RunEntry>>,
                      next: HeapItem<RunEntry>)
    requires CursorsWithin(EntryRuns(runs), cursors) && next in items
    requires multiset(items) == Heads(EntryRuns(runs), cursors, |runs|)
    ensures next.runIndex < |runs| && next.row.runIndex == next.runIndex
    ensures next.row.valueIndex == cursors[next.runIndex] < |runs[next.runIndex]|
    ensures next.row.value == runs[next.runIndex][next.row.valueIndex]
  {
    NextInRange(EntryRuns(runs), cursors, items, next);
  }

  /** The next entry of a run, if there is one, as the merge's next head. */
  method PushFollowing(heap: EntryHeap, runs: seq<seq<string>>, r: nat, nextIndex: nat)
    requires IsHeap(EntryCmp(), heap.items) && r < |runs|
    modifies heap
    ensures IsHeap(EntryCmp(), heap.items)
    ensures multiset(heap.items) == old(multiset(heap.items)) + Head(EntryRuns(runs)[r], r, nextIndex)
  {
    if nextIndex < |runs[r]| {
      heap.Push(HeapItem(r, RunEntry(runs[r][nextIndex], r, nextIndex)));
    }
  }

  lemma MergingWithin(rows: seq<seq<RunEntry>>, cursors: seq<nat>, heap: multiset<HeapItem<RunEntry>>,
                      out: seq<RunEntry>)
    requires Merging(EntryCmp(), rows, cursors, heap, out)
    ensures CursorsWithin(rows, cursors) && heap == Heads(rows, cursors, |rows|) && Sorted(EntryCmp(), out)
  {
  }

  /** Takes the least entry, visits its key if it is new, and moves on in its run. */
  method VisitNext(runs: seq<seq<string>>, heap: EntryHeap, visited: seq<string>, previous: Option<string>,
                   ghost cursors: seq<nat>, ghost out: seq<RunEntry>)
    returns (nextVisited: seq<string>, nextPrevious: Option<string>, ghost nextCursors: seq<nat>,
             ghost nextOut: seq<RunEntry>)
    requires AllAscending(runs) && IsHeap(EntryCmp(), heap.items) && heap.items != []
    requires Merging(EntryCmp(), EntryRuns(runs), cursors, multiset(heap.items), out)
    requires Visited(visited, out, previous)
    modifies heap
    ensures IsHeap(EntryCmp(), heap.items)
    ensures Merging(EntryCmp(), EntryRuns(runs), nextCursors, multiset(heap.items), nextOut)
    ensures Visited(nextVisited, nextOut, nextPrevious)
    ensures |nextOut| == |out| + 1 <= |Contents(EntryRuns(runs))|
  {
    hide *;
    ghost var items := heap.items;
    ghost var rows := EntryRuns(runs);
    EntryCmpPreorder();
    EntryRunsSorted(runs);
    MergingWithin(rows, cursors, multiset(items), out);
    var entry := heap.Pop();
    MergeStep(EntryCmp(), rows, cursors, items, out, entry);
    CursorOfEntry(runs, cursors, items, entry);
    var r := entry.runIndex;
    nextOut := out + [entry.row];
    nextCursors := cursors[r := cursors[r] + 1];
    MergingWithin(rows, nextCursors, (multiset(items) - multiset{entry}) + Head(rows[r], r, cursors[r] + 1), nextOut);
    VisitStep(visited, out, previous, entry.row);
    nextVisited := if previous == Some(entry.row.value) then visited else visited + [entry.row.value];
    nextPrevious := Some(entry.row.value);
    PushFollowing(heap, runs, r, entry.row.valueIndex + 1);
    OutBounded(EntryCmp(), rows, nextCursors, multiset(heap.items), nextOut);
  }

  lemma VisitEnds(runs: seq<seq<string>>, cursors: seq<nat>, out: seq<RunEntry>, visited: seq<string>,
                  previous: Option<string>)
    requires Merging(EntryCmp(), EntryRuns(runs), cursors, multiset{}, out) && Visited(visited, out, previous)
    ensures visited == Listing(UnionOf(runs)) && |visited| == |UnionOf(runs)|
  {
    MergeEnds(EntryCmp(), EntryRuns(runs), cursors, out);
    EntryRunsValues(runs);
    ListingIs(visited);
  }

  /** The heap merge visits every key of the union of the runs once, ascending. */
  method VisitSortedUniqueRuns(runs: seq<seq<string>>) returns (visited: seq<string>)
    requires AllAscending(runs)
    ensures visited == Listing(UnionOf(runs)) && |visited| == |UnionOf(runs)|
  {
    hide *;
    var heap := SeedRuns(runs);
    var previous: Option<string> := None;
    visited := [];
    ghost var cursors: seq<nat>, out: seq<RunEntry> := Zeros(|runs|), [];
    MergeStarts(EntryCmp(), EntryRuns(runs), multiset(heap.items));
    NoneVisited();
    while |heap.items| > 0
      invariant fresh(heap) && IsHeap(EntryCmp(), heap.items)
      invariant Merging(EntryCmp(), EntryRuns(runs), cursors, multiset(heap.items), out)
      invariant Visited(visited, out, previous)
      decreases |Contents(EntryRuns(runs))| - |out|
    {
      visited, previous, cursors, out := VisitNext(runs, heap, visited, previous, cursors, out);
    }
    assert heap.items == [];
    VisitEnds(runs, cursors, out, visited, previous);
  }

  /** The union of the runs as one run; a single run is copied. */
  method MergeSortedRuns(runs: seq<seq<string>>) returns (values: seq<string>)
    requires AllAscending(runs)
    ensures values == Listing(UnionOf(runs))
  {
    if |runs| == 0 {
      ListingIs([]);
      return [];
    }
    if |runs| == 1 {
      ListingIs(runs[0]);
      assert UnionOf(runs) == SetOf(runs[0]);
      return runs[0];
    }
    values := VisitSortedUniqueRuns(runs);
  }

  method CountSortedUniqueRuns(runs: seq<seq<string>>) returns (count: nat)
    requires AllAscending(runs)
    ensures count == |UnionOf(runs)|
  {
    if |runs| == 0 {
      return 0;
    }
    if |runs| == 1 {
      ListingIs(runs[0]);
      assert UnionOf(runs) == SetOf(runs[0]);
      return |runs[0]|;
    }
    var visited := VisitSortedUniqueRuns(runs);
    count := |visited|;
  }
}
