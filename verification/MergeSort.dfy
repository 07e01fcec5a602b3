/** External sort of the row path: sorted runs merged through a binary heap. */
module MergeSort {
  import opened Scalars
  import opened Orders
  import opened ThrowingSorts

  datatype HeapItem<+T> = HeapItem(runIndex: nat, row: T)

  function Parent(i: int): int
    requires i > 0
  {
    (i - 1) / 2
  }

  /** Every item but the root is at least its parent. */
  ghost predicate IsHeap<T>(cmp: (T, T) -> int, s: seq<HeapItem<T>>) {
    forall i :: 0 < i < |s| ==> cmp(s[Parent(i)].row, s[i].row) <= 0
  }

  /** A heap but for the edge from `hole` to its parent; the children of `hole`
      are already at least that parent. */
  ghost predicate HeapBelow<T>(cmp: (T, T) -> int, s: seq<HeapItem<T>>, hole: int) {
    && 0 <= hole < |s|
    && (forall i :: 0 < i < |s| && i != hole ==> cmp(s[Parent(i)].row, s[i].row) <= 0)
    && (forall i :: 0 < i < |s| && Parent(i) == hole && hole > 0 ==> cmp(s[Parent(hole)].row, s[i].row) <= 0)
  }

  /** A heap but for the edges from `hole` to its children; they are already at
      least the parent of `hole`. */
  ghost predicate HeapAbove<T>(cmp: (T, T) -> int, s: seq<HeapItem<T>>, hole: int) {
    && 0 <= hole < |s|
    && (forall i :: 0 < i < |s| && Parent(i) != hole ==> cmp(s[Parent(i)].row, s[i].row) <= 0)
    && (forall i :: 0 < i < |s| && Parent(i) == hole && hole > 0 ==> cmp(s[Parent(hole)].row, s[i].row) <= 0)
  }

  function Swap<T>(s: seq<T>, i: int, j: int): seq<T>
    requires 0 <= i < |s| && 0 <= j < |s|
  {
    s[i := s[j]][j := s[i]]
  }

  lemma SwapContents<T>(s: seq<T>, i: int, j: int)
    requires 0 <= i < |s| && 0 <= j < |s|
    ensures multiset(Swap(s, i, j)) == multiset(s)
  {
  }

  lemma SwapLength<T>(s: seq<T>, i: int, j: int)
    requires 0 <= i < |s| && 0 <= j < |s|
    ensures |Swap(s, i, j)| == |s|
  {
  }

  lemma {:induction false} RootIsLeast<T(!new)>(cmp: (T, T) -> int, s: seq<HeapItem<T>>, i: nat)
    requires TotalPreorder(cmp) && IsHeap(cmp, s) && i < |s|
    ensures cmp(s[0].row, s[i].row) <= 0
  {
    if i == 0 {
      assert cmp(s[0].row, s[0].row) == 0;
    } else {
      RootIsLeast(cmp, s, Parent(i));
      Transitive(cmp, s[0].row, s[Parent(i)].row, s[i].row);
    }
  }

  lemma SiftUpStep<T(!new)>(cmp: (T, T) -> int, s: seq<HeapItem<T>>, hole: int)
    requires TotalPreorder(cmp) && HeapBelow(cmp, s, hole) && hole > 0
    requires cmp(s[hole].row, s[Parent(hole)].row) < 0
    ensures HeapBelow(cmp, Swap(s, hole, Parent(hole)), Parent(hole))
  {
    var p := Parent(hole);
    var t := Swap(s, hole, p);
    forall i | 0 < i < |t| && i != p ensures cmp(t[Parent(i)].row, t[i].row) <= 0 {
      if i != hole && Parent(i) == p {
        Transitive(cmp, s[hole].row, s[p].row, s[i].row);
      }
    }
    forall i | 0 < i < |t| && Parent(i) == p && p > 0 ensures cmp(t[Parent(p)].row, t[i].row) <= 0 {
      if i != hole {
        Transitive(cmp, s[Parent(p)].row, s[p].row, s[i].row);
      }
    }
  }

  lemma SiftDownStep<T(!new)>(cmp: (T, T) -> int, s: seq<HeapItem<T>>, hole: int, child: int)
    requires TotalPreorder(cmp) && HeapAbove(cmp, s, hole)
    requires 0 < child < |s| && Parent(child) == hole
    requires cmp(s[child].row, s[hole].row) < 0
    requires forall i :: 0 < i < |s| && Parent(i) == hole ==> cmp(s[child].row, s[i].row) <= 0
    ensures HeapAbove(cmp, Swap(s, hole, child), child)
  {
    var t := Swap(s, hole, child);
    forall i | 0 < i < |t| && Parent(i) != child ensures cmp(t[Parent(i)].row, t[i].row) <= 0 {
      if Parent(i) == hole && i == child {
      } else if i == hole {
        assert cmp(s[Parent(hole)].row, s[child].row) <= 0;
      }
    }
    forall i | 0 < i < |t| && Parent(i) == child ensures cmp(t[Parent(child)].row, t[i].row) <= 0 {
      assert i != hole && i != child;
    }
  }

  /** Moving the last item over the root removes exactly the root. */
  lemma PopContents<T>(s: seq<T>)
    requires s != []
    ensures var init, last := s[..|s| - 1], s[|s| - 1];
      multiset(if init == [] then [] else init[0 := last]) == multiset(s) - multiset{s[0]}
  {
    var init, last := s[..|s| - 1], s[|s| - 1];
    assert s == init + [last];
    if init != [] {
      RestContents(init, last);
    }
  }

  lemma RestContents<T>(init: seq<T>, last: T)
    requires init != []
    ensures multiset(init[0 := last]) == multiset(init + [last]) - multiset{init[0]}
  {
    assert init == [init[0]] + init[1..];
    assert init[0 := last] == [last] + init[1..];
  }

  lemma PopShape<T>(cmp: (T, T) -> int, s: seq<HeapItem<T>>)
    requires IsHeap(cmp, s) && s != []
    ensures |s| > 1 ==> HeapAbove(cmp, s[..|s| - 1][0 := s[|s| - 1]], 0)
    ensures |s| == 1 ==> s[..|s| - 1] == []
  {
    if |s| > 1 {
      var t := s[..|s| - 1][0 := s[|s| - 1]];
      forall i | 0 < i < |t| && Parent(i) != 0 ensures cmp(t[Parent(i)].row, t[i].row) <= 0 {
        assert t[i] == s[i] && t[Parent(i)] == s[Parent(i)];
      }
    }
  }

  /** The rows of these items are among `all`. */
  ghost predicate RowsAmong<T>(s: seq<HeapItem<T>>, all: multiset<T>) {
    forall i :: 0 <= i < |s| ==> s[i].row in all
  }

  ghost predicate IsLeast<T>(cmp: (T, T) -> int, s: seq<HeapItem<T>>, row: T) {
    forall i :: 0 <= i < |s| ==> cmp(row, s[i].row) <= 0
  }

  /** One comparison: the order, or the comparator has thrown on two of the rows. */
  lemma Compared<T(!new)>(compare: (T, T) -> Result<int>, cmp: (T, T) -> int, s: seq<HeapItem<T>>, i: nat, j: nat,
                          all: multiset<T>)
    requires Agrees(compare, cmp) && RowsAmong(s, all) && i < |s| && j < |s|
    ensures compare(s[i].row, s[j].row).Ok? ==> compare(s[i].row, s[j].row).value == cmp(s[i].row, s[j].row)
    ensures compare(s[i].row, s[j].row).Err? ==> ThrowsAmong(compare, all, compare(s[i].row, s[j].row).error)
  {
  }

  lemma SwapAmong<T>(s: seq<HeapItem<T>>, i: nat, j: nat, all: multiset<T>)
    requires RowsAmong(s, all) && i < |s| && j < |s|
    ensures RowsAmong(Swap(s, i, j), all)
  {
  }

  /** Nothing is left to sift up. */
  lemma Settled<T(!new)>(cmp: (T, T) -> int, s: seq<HeapItem<T>>, hole: int)
    requires TotalPreorder(cmp) && HeapBelow(cmp, s, hole)
    requires hole > 0 ==> cmp(s[hole].row, s[Parent(hole)].row) >= 0
    ensures IsHeap(cmp, s)
  {
  }

  /** An item appended to a heap is out of place at most with its parent. */
  lemma Appended<T>(cmp: (T, T) -> int, s: seq<HeapItem<T>>, item: HeapItem<T>, all: multiset<T>)
    requires IsHeap(cmp, s) && RowsAmong(s, all) && item.row in all
    ensures HeapBelow(cmp, s + [item], |s|) && RowsAmong(s + [item], all)
  {
  }

  /** No child of `parent` is less than `row`. */
  ghost predicate NotAbove<T>(cmp: (T, T) -> int, s: seq<HeapItem<T>>, parent: int, row: T) {
    forall i :: 0 < i < |s| && Parent(i) == parent ==> cmp(row, s[i].row) <= 0
  }

  lemma RestAmong<T>(s: seq<HeapItem<T>>, all: multiset<T>)
    requires RowsAmong(s, all) && s != []
    ensures RowsAmong(s[..|s| - 1], all)
    ensures |s| > 1 ==> RowsAmong(s[..|s| - 1][0 := s[|s| - 1]], all)
  {
  }

  lemma AboveInRange<T>(cmp: (T, T) -> int, s: seq<HeapItem<T>>, hole: int)
    requires HeapAbove(cmp, s, hole)
    ensures 0 <= hole < |s|
  {
  }

  lemma Sunk<T>(cmp: (T, T) -> int, s: seq<HeapItem<T>>, hole: int)
    requires HeapAbove(cmp, s, hole) && NotAbove(cmp, s, hole, s[hole].row)
    ensures IsHeap(cmp, s)
  {
  }

  lemma SinkStep<T(!new)>(cmp: (T, T) -> int, s: seq<HeapItem<T>>, hole: int, child: int, all: multiset<T>)
    requires TotalPreorder(cmp) && HeapAbove(cmp, s, hole) && RowsAmong(s, all)
    requires 0 < child < |s| && Parent(child) == hole && cmp(s[child].row, s[hole].row) < 0
    requires NotAbove(cmp, s, hole, s[child].row)
    ensures HeapAbove(cmp, Swap(s, hole, child), child) && RowsAmong(Swap(s, hole, child), all)
    ensures |Swap(s, hole, child)| == |s| && multiset(Swap(s, hole, child)) == multiset(s)
  {
    SiftDownStep(cmp, s, hole, child);
    SwapContents(s, hole, child);
  }

  /** The heap of run heads. Every method takes the comparator, which may throw,
      and the order it computes where it returns; `all` holds every row there is. */
  class RunHeap<T(!new)> {
    var items: seq<HeapItem<T>>

    constructor ()
      ensures items == []
    {
      items := [];
    }

    method Push(compare: (T, T) -> Result<int>, item: HeapItem<T>, ghost cmp: (T, T) -> int, ghost all: multiset<T>)
      returns (r: Result<()>)
      requires TotalPreorder(cmp) && Agrees(compare, cmp) && IsHeap(cmp, items)
      requires RowsAmong(items, all) && item.row in all
      modifies this
      ensures r.Ok? ==> IsHeap(cmp, items) && RowsAmong(items, all)
      ensures r.Ok? ==> multiset(items) == old(multiset(items)) + multiset{item}
      ensures r.Err? ==> ThrowsAmong(compare, all, r.error)
    {
      hide IsHeap, HeapBelow, RowsAmong, Agrees, ThrowsAmong, TotalPreorder, Swap;
      Appended(cmp, items, item, all);
      items := items + [item];
      var index := |items| - 1;
      while index > 0
        invariant 0 <= index < |items| && HeapBelow(cmp, items, index) && RowsAmong(items, all)
        invariant multiset(items) == old(multiset(items)) + multiset{item}
      {
        var parent := (index - 1) / 2;
        Compared(compare, cmp, items, index, parent, all);
        var order := compare(items[index].row, items[parent].row);
        if order.Err? {
          return Err(order.error);
        }
        if order.value >= 0 {
          break;
        }
        SiftUpStep(cmp, items, index);
        SwapContents(items, index, parent);
        SwapAmong(items, index, parent, all);
        assert |Swap(items, index, parent)| == |items| by { SwapLength(items, index, parent); }
        items := Swap(items, index, parent);
        index := parent;
      }
      Settled(cmp, items, index);
      r := Ok(());
    }

    /** Removes the root, a least item. */
    method Pop(compare: (T, T) -> Result<int>, ghost cmp: (T, T) -> int, ghost all: multiset<T>)
      returns (r: Result<HeapItem<T>>)
      requires TotalPreorder(cmp) && Agrees(compare, cmp) && IsHeap(cmp, items)
      requires RowsAmong(items, all) && items != []
      modifies this
      ensures r.Ok? ==> IsHeap(cmp, items) && RowsAmong(items, all)
      ensures r.Ok? ==> r.value in old(items) && multiset(items) == old(multiset(items)) - multiset{r.value}
      ensures r.Ok? ==> IsLeast(cmp, old(items), r.value.row)
      ensures r.Err? ==> ThrowsAmong(compare, all, r.error)
    {
      var root := items[0];
      var last := items[|items| - 1];
      RestAmong(items, all);
      forall i | 0 <= i < |items| ensures cmp(root.row, items[i].row) <= 0 {
        RootIsLeast(cmp, items, i);
      }
      PopContents(items);
      PopShape(cmp, items);
      assert IsLeast(cmp, items, root.row);
      if |items| == 1 {
        assert IsHeap(cmp, []);
      }
      hide IsHeap, HeapAbove, RowsAmong, Agrees, ThrowsAmong, TotalPreorder, IsLeast;
      items := items[..|items| - 1];
      if |items| > 0 {
        items := items[0 := last];
        var sunk := HeapifyDown(compare, cmp, all);
        if sunk.Err? {
          return Err(sunk.error);
        }
      }
      r := Ok(root);
    }

    /** Sinks the item at the root until both its children are at least it. */
    method HeapifyDown(compare: (T, T) -> Result<int>, ghost cmp: (T, T) -> int, ghost all: multiset<T>)
      returns (r: Result<()>)
      requires TotalPreorder(cmp) && Agrees(compare, cmp) && HeapAbove(cmp, items, 0) && RowsAmong(items, all)
      modifies this
      ensures r.Ok? ==> IsHeap(cmp, items) && RowsAmong(items, all) && |items| == old(|items|)
      ensures r.Ok? ==> multiset(items) == old(multiset(items))
      ensures r.Err? ==> ThrowsAmong(compare, all, r.error)
    {
      hide IsHeap, HeapAbove, RowsAmong, Agrees, ThrowsAmong, TotalPreorder, Swap, NotAbove;
      AboveInRange(cmp, items, 0);
      var index := 0;
      while true
        invariant |items| == old(|items|) && 0 <= index < |items|
        invariant HeapAbove(cmp, items, index) && RowsAmong(items, all)
        invariant multiset(items) == old(multiset(items))
        decreases |items| - index
      {
        var smallest := Smallest(compare, cmp, index, all);
        if smallest.Err? {
          return Err(smallest.error);
        }
        if smallest.value == index {
          Sunk(cmp, items, index);
          return Ok(());
        }
        SinkStep(cmp, items, index, smallest.value, all);
        items := Swap(items, index, smallest.value);
        index := smallest.value;
      }
    }

    /** The least of an item and its children; the item itself unless a child is less. */
    method Smallest(compare: (T, T) -> Result<int>, ghost cmp: (T, T) -> int, index: nat, ghost all: multiset<T>)
      returns (r: Result<nat>)
      requires TotalPreorder(cmp) && Agrees(compare, cmp) && index < |items| && RowsAmong(items, all)
      ensures r.Ok? ==> r.value < |items|
      ensures r.Ok? ==>
        && (r.value == index
            || (r.value > 0 && Parent(r.value) == index && cmp(items[r.value].row, items[index].row) < 0))
        && NotAbove(cmp, items, index, items[r.value].row)
      ensures r.Err? ==> ThrowsAmong(compare, all, r.error)
    {
      var left := index * 2 + 1;
      var right := left + 1;
      var smallest := index;
      if left < |items| {
        var order := compare(items[left].row, items[smallest].row);
        if order.Err? {
          return Err(order.error);
        }
        if order.value < 0 {
          smallest := left;
        }
      }
      if right < |items| {
        var order := compare(items[right].row, items[smallest].row);
        if order.Err? {
          return Err(order.error);
        }
        if order.value < 0 {
          smallest := right;
        }
      }
      forall i | 0 < i < |items| && Parent(i) == index ensures cmp(items[smallest].row, items[i].row) <= 0 {
        assert i == left || i == right;
        assert cmp(items[i].row, items[i].row) == 0;
        if right < |items| {
          Transitive(cmp, items[right].row, items[left].row, items[index].row);
          Transitive(cmp, items[right].row, items[index].row, items[left].row);
        }
      }
      if right < |items| {
        Transitive(cmp, items[right].row, items[left].row, items[index].row);
      }
      r := Ok(smallest);
    }
  }

  // ----- Merging runs -----

  ghost function Contents<T>(runs: seq<seq<T>>): multiset<T> {
    if runs == [] then multiset{} else Contents(runs[..|runs| - 1]) + multiset(runs[|runs| - 1])
  }

  ghost predicate CursorsWithin<T>(runs: seq<seq<T>>, cursors: seq<nat>) {
    |runs| == |cursors| && forall r :: 0 <= r < |runs| ==> cursors[r] <= |runs[r]|
  }

  /** Cursors at the start of every run. */
  function Zeros(n: nat): (cursors: seq<nat>)
    ensures |cursors| == n && forall i :: 0 <= i < n ==> cursors[i] == 0
  {
    seq(n, _ => 0)
  }

  ghost function Head<T>(run: seq<T>, r: nat, cursor: nat): multiset<HeapItem<T>> {
    if cursor < |run| then multiset{HeapItem(r, run[cursor])} else multiset{}
  }

  /** The next unread row of each of the first `n` runs. */
  ghost function Heads<T>(runs: seq<seq<T>>, cursors: seq<nat>, n: nat): multiset<HeapItem<T>>
    requires CursorsWithin(runs, cursors) && n <= |runs|
  {
    if n == 0 then multiset{} else Heads(runs, cursors, n - 1) + Head(runs[n - 1], n - 1, cursors[n - 1])
  }

  ghost function Unread<T>(run: seq<T>, cursor: nat): multiset<T>
    requires cursor <= |run|
  {
    multiset(run[cursor..])
  }

  /** The unread rows of the first `n` runs. */
  ghost function Remaining<T>(runs: seq<seq<T>>, cursors: seq<nat>, n: nat): multiset<T>
    requires CursorsWithin(runs, cursors) && n <= |runs|
  {
    if n == 0 then multiset{} else Remaining(runs, cursors, n - 1) + Unread(runs[n - 1], cursors[n - 1])
  }

  lemma {:induction false} HeadsMember<T>(runs: seq<seq<T>>, cursors: seq<nat>, n: nat, item: HeapItem<T>)
    requires CursorsWithin(runs, cursors) && n <= |runs|
    ensures item in Heads(runs, cursors, n) <==>
      item.runIndex < n && cursors[item.runIndex] < |runs[item.runIndex]| &&
      item.row == runs[item.runIndex][cursors[item.runIndex]]
  {
    if n > 0 {
      HeadsMember(runs, cursors, n - 1, item);
    }
  }

  lemma {:induction false} HeadsUntouched<T>(runs: seq<seq<T>>, cursors: seq<nat>, next: seq<nat>, n: nat)
    requires CursorsWithin(runs, cursors) && CursorsWithin(runs, next) && n <= |runs| && cursors[..n] == next[..n]
    ensures Heads(runs, next, n) == Heads(runs, cursors, n)
  {
    if n > 0 {
      SamePrefix(cursors, next, n);
      HeadsUntouched(runs, cursors, next, n - 1);
    }
  }

  lemma {:induction false} RemainingUntouched<T>(runs: seq<seq<T>>, cursors: seq<nat>, next: seq<nat>, n: nat)
    requires CursorsWithin(runs, cursors) && CursorsWithin(runs, next) && n <= |runs| && cursors[..n] == next[..n]
    ensures Remaining(runs, next, n) == Remaining(runs, cursors, n)
  {
    if n > 0 {
      SamePrefix(cursors, next, n);
      RemainingUntouched(runs, cursors, next, n - 1);
    }
  }

  lemma SamePrefix<T>(s: seq<T>, t: seq<T>, n: nat)
    requires 0 < n <= |s| && n <= |t| && s[..n] == t[..n]
    ensures s[..n - 1] == t[..n - 1] && s[n - 1] == t[n - 1]
  {
    assert s[..n - 1] == s[..n][..n - 1] && t[..n - 1] == t[..n][..n - 1];
    assert s[n - 1] == s[..n][n - 1] && t[n - 1] == t[..n][n - 1];
  }

  lemma ReadOne<T>(run: seq<T>, cursor: nat)
    requires cursor < |run|
    ensures Unread(run, cursor) == Unread(run, cursor + 1) + multiset{run[cursor]}
  {
    assert run[cursor..] == [run[cursor]] + run[cursor + 1..];
  }

  lemma MultisetShift<T>(a: multiset<T>, b: multiset<T>, h: multiset<T>, x: multiset<T>, y: multiset<T>)
    requires a + x == b + y
    ensures (a + h) + x == (b + h) + y
  {
    assert (a + h) + x == (a + x) + h;
    assert (b + h) + y == (b + y) + h;
  }

  lemma MultisetAssociative<T>(a: multiset<T>, b: multiset<T>, c: multiset<T>)
    ensures a + (b + c) == (a + b) + c
  {
  }

  lemma HeadsStep<T>(runs: seq<seq<T>>, cursors: seq<nat>, n: nat)
    requires CursorsWithin(runs, cursors) && 0 < n <= |runs|
    ensures Heads(runs, cursors, n) == Heads(runs, cursors, n - 1) + Head(runs[n - 1], n - 1, cursors[n - 1])
    ensures Remaining(runs, cursors, n) == Remaining(runs, cursors, n - 1) + Unread(runs[n - 1], cursors[n - 1])
  {
  }

  /** Advancing one run replaces its head by the next row. */
  lemma {:induction false} AdvanceHeads<T>(runs: seq<seq<T>>, cursors: seq<nat>, next: seq<nat>, n: nat, r: nat)
    requires CursorsWithin(runs, cursors) && CursorsWithin(runs, next) && r < n <= |runs|
    requires cursors[r] < |runs[r]| && next == cursors[r := cursors[r] + 1]
    ensures Heads(runs, cursors, n) + Head(runs[r], r, next[r]) == Heads(runs, next, n) + Head(runs[r], r, cursors[r])
  {
    hide Heads, Head, Remaining, Unread;
    HeadsStep(runs, cursors, n);
    HeadsStep(runs, next, n);
    if n == r + 1 {
      HeadsUntouched(runs, cursors, next, r);
    } else {
      AdvanceHeads(runs, cursors, next, n - 1, r);
      MultisetShift(Heads(runs, cursors, n - 1), Heads(runs, next, n - 1), Head(runs[n - 1], n - 1, cursors[n - 1]),
                    Head(runs[r], r, next[r]), Head(runs[r], r, cursors[r]));
    }
  }

  /** Advancing one run consumes one row. */
  lemma {:induction false} AdvanceRemaining<T>(runs: seq<seq<T>>, cursors: seq<nat>, next: seq<nat>, n: nat, r: nat)
    requires CursorsWithin(runs, cursors) && CursorsWithin(runs, next) && r < n <= |runs|
    requires cursors[r] < |runs[r]| && next == cursors[r := cursors[r] + 1]
    ensures Remaining(runs, cursors, n) == Remaining(runs, next, n) + multiset{runs[r][cursors[r]]}
  {
    hide Heads, Head, Remaining, Unread;
    HeadsStep(runs, cursors, n);
    HeadsStep(runs, next, n);
    if n == r + 1 {
      RemainingUntouched(runs, cursors, next, r);
      ReadOne(runs[r], cursors[r]);
      MultisetAssociative(Remaining(runs, cursors, r), Unread(runs[r], next[r]), multiset{runs[r][cursors[r]]});
    } else {
      AdvanceRemaining(runs, cursors, next, n - 1, r);
    }
  }

  lemma {:induction false} RemainingMember<T>(runs: seq<seq<T>>, cursors: seq<nat>, n: nat, x: T)
    requires CursorsWithin(runs, cursors) && n <= |runs| && x in Remaining(runs, cursors, n)
    ensures exists r, j :: 0 <= r < n && cursors[r] <= j < |runs[r]| && runs[r][j] == x
  {
    if x in Unread(runs[n - 1], cursors[n - 1]) {
      var k :| 0 <= k < |runs[n - 1][cursors[n - 1]..]| && runs[n - 1][cursors[n - 1]..][k] == x;
      assert runs[n - 1][cursors[n - 1] + k] == x;
    } else {
      RemainingMember(runs, cursors, n - 1, x);
    }
  }

  ghost predicate RunsSorted<T>(cmp: (T, T) -> int, runs: seq<seq<T>>) {
    forall r :: 0 <= r < |runs| ==> Sorted(cmp, runs[r])
  }

  /** A least head is least among all unread rows. */
  lemma LeastHeadIsLeast<T(!new)>(cmp: (T, T) -> int, runs: seq<seq<T>>, cursors: seq<nat>, least: T, x: T)
    requires TotalPreorder(cmp) && RunsSorted(cmp, runs) && CursorsWithin(runs, cursors)
    requires forall item :: item in Heads(runs, cursors, |runs|) ==> cmp(least, item.row) <= 0
    requires x in Remaining(runs, cursors, |runs|)
    ensures cmp(least, x) <= 0
  {
    RemainingMember(runs, cursors, |runs|, x);
    var r, j :| 0 <= r < |runs| && cursors[r] <= j < |runs[r]| && runs[r][j] == x;
    var head := HeapItem(r, runs[r][cursors[r]]);
    HeadsMember(runs, cursors, |runs|, head);
    LaterInRun(cmp, runs[r], cursors[r], j);
    Transitive(cmp, least, head.row, x);
  }

  lemma LaterInRun<T(!new)>(cmp: (T, T) -> int, run: seq<T>, i: nat, j: nat)
    requires TotalPreorder(cmp) && Sorted(cmp, run) && i <= j < |run|
    ensures cmp(run[i], run[j]) <= 0
  {
    assert cmp(run[i], run[i]) == 0;
  }

  lemma {:induction false} NothingRead<T>(runs: seq<seq<T>>, n: nat)
    requires n <= |runs|
    ensures Remaining(runs, Zeros(|runs|), n) == Contents(runs[..n])
  {
    if n > 0 {
      NothingRead(runs, n - 1);
      assert runs[..n][..n - 1] == runs[..n - 1];
      assert runs[n - 1][0..] == runs[n - 1];
    }
  }

  lemma {:induction false} NoHeadsNoRows<T>(runs: seq<seq<T>>, cursors: seq<nat>, n: nat)
    requires CursorsWithin(runs, cursors) && n <= |runs| && Heads(runs, cursors, n) == multiset{}
    ensures Remaining(runs, cursors, n) == multiset{}
  {
    if n > 0 {
      assert Head(runs[n - 1], n - 1, cursors[n - 1]) <= Heads(runs, cursors, n);
      assert Heads(runs, cursors, n - 1) <= Heads(runs, cursors, n);
      NoHeadsNoRows(runs, cursors, n - 1);
    }
  }

  lemma {:induction false} RowInContents<T>(runs: seq<seq<T>>, r: nat, j: nat)
    requires r < |runs| && j < |runs[r]|
    ensures runs[r][j] in Contents(runs)
    decreases |runs|
  {
    if r < |runs| - 1 {
      RowInContents(runs[..|runs| - 1], r, j);
    }
  }

  lemma EmptyHeap<T>(cmp: (T, T) -> int, runs: seq<seq<T>>)
    ensures IsHeap(cmp, []) && RowsAmong([], Contents(runs)) && CursorsWithin(runs, Zeros(|runs|))
    ensures Heads(runs, Zeros(|runs|), 0) == multiset{}
  {
  }

  lemma FirstHead<T>(runs: seq<seq<T>>, n: nat)
    requires n < |runs|
    ensures CursorsWithin(runs, Zeros(|runs|))
    ensures Heads(runs, Zeros(|runs|), n + 1) == Heads(runs, Zeros(|runs|), n) + Head(runs[n], n, 0)
  {
  }

  /** Fills the heap with the first row of every non-empty run. */
  method SeedHeap<T(!new)>(compare: (T, T) -> Result<int>, runs: seq<seq<T>>, heap: RunHeap<T>,
                           ghost cmp: (T, T) -> int)
    returns (r: Result<()>)
    requires TotalPreorder(cmp) && Agrees(compare, cmp) && heap.items == []
    modifies heap
    ensures r.Ok? ==> IsHeap(cmp, heap.items) && RowsAmong(heap.items, Contents(runs))
    ensures r.Ok? ==> multiset(heap.items) == Heads(runs, Zeros(|runs|), |runs|)
    ensures r.Err? ==> ThrowsAmong(compare, Contents(runs), r.error)
  {
    hide *;
    ghost var zero := Zeros(|runs|);
    EmptyHeap(cmp, runs);
    for n := 0 to |runs|
      invariant IsHeap(cmp, heap.items) && RowsAmong(heap.items, Contents(runs)) && CursorsWithin(runs, zero)
      invariant multiset(heap.items) == Heads(runs, zero, n)
    {
      FirstHead(runs, n);
      var pushed := PushNext(compare, heap, runs, n, 0, cmp);
      if pushed.Err? {
        return pushed;
      }
    }
    r := Ok(());
  }

  /** Merges sorted runs: a sorted permutation of all their rows, unless the
      comparator throws on two of them. */
  method MergeSortRuns<T(!new)>(compare: (T, T) -> Result<int>, runs: seq<seq<T>>, ghost cmp: (T, T) -> int)
    returns (r: Result<seq<T>>)
    requires TotalPreorder(cmp) && Agrees(compare, cmp) && RunsSorted(cmp, runs)
    ensures r.Ok? ==> Sorted(cmp, r.value) && multiset(r.value) == Contents(runs)
    ensures r.Err? ==> ThrowsAmong(compare, Contents(runs), r.error)
  {
    var cursors: seq<nat> := Zeros(|runs|);
    var heap := new RunHeap<T>();
    var seeded := SeedHeap(compare, runs, heap, cmp);
    if seeded.Err? {
      return Err(seeded.error);
    }
    MergeStarts(cmp, runs, multiset(heap.items));
    var out: seq<T> := [];
    while |heap.items| > 0
      invariant IsHeap(cmp, heap.items) && RowsAmong(heap.items, Contents(runs))
      invariant Merging(cmp, runs, cursors, multiset(heap.items), out)
      decreases |Contents(runs)| - |out|
    {
      var emitted: Result<(seq<nat>, seq<T>)> := EmitNext(compare, runs, cursors, heap, out, cmp);
      if emitted.Err? {
        return Err(emitted.error);
      }
      cursors, out := emitted.value.0, emitted.value.1;
    }
    MergeEnds(cmp, runs, cursors, out);
    r := Ok(out);
  }

  /** Outputs a least unread row and moves on in its run. */
  method EmitNext<T(!new)>(compare: (T, T) -> Result<int>, runs: seq<seq<T>>, cursors: seq<nat>, heap: RunHeap<T>,
                           out: seq<T>, ghost cmp: (T, T) -> int)
    returns (r: Result<(seq<nat>, seq<T>)>)
    requires TotalPreorder(cmp) && Agrees(compare, cmp) && RunsSorted(cmp, runs) && heap.items != []
    requires IsHeap(cmp, heap.items) && RowsAmong(heap.items, Contents(runs))
    requires Merging(cmp, runs, cursors, multiset(heap.items), out)
    modifies heap
    ensures r.Ok? ==> IsHeap(cmp, heap.items) && RowsAmong(heap.items, Contents(runs))
    ensures r.Ok? ==> Merging(cmp, runs, r.value.0, multiset(heap.items), r.value.1)
    ensures r.Ok? ==> |r.value.1| == |out| + 1 <= |Contents(runs)|
    ensures r.Err? ==> ThrowsAmong(compare, Contents(runs), r.error)
  {
    hide *;
    ghost var items := heap.items;
    var popped := heap.Pop(compare, cmp, Contents(runs));
    if popped.Err? {
      return Err(popped.error);
    }
    var next := popped.value;
    MergeStep(cmp, runs, cursors, items, out, next);
    var run := next.runIndex;
    var nextOut := out + [next.row];
    var nextCursors := cursors[run := cursors[run] + 1];
    assert Merging(cmp, runs, nextCursors, multiset(heap.items) + Head(runs[run], run, nextCursors[run]), nextOut);
    var pushed := PushNext(compare, heap, runs, run, nextCursors[run], cmp);
    if pushed.Err? {
      return Err(pushed.error);
    }
    OutBounded(cmp, runs, nextCursors, multiset(heap.items), nextOut);
    r := Ok((nextCursors, nextOut));
  }

  /** Pushes the next row of a run, if there is one. */
  method PushNext<T(!new)>(compare: (T, T) -> Result<int>, heap: RunHeap<T>, runs: seq<seq<T>>, r: nat, cursor: nat,
                           ghost cmp: (T, T) -> int)
    returns (pushed: Result<()>)
    requires TotalPreorder(cmp) && Agrees(compare, cmp) && IsHeap(cmp, heap.items)
    requires RowsAmong(heap.items, Contents(runs))
    requires r < |runs|
    modifies heap
    ensures pushed.Ok? ==> IsHeap(cmp, heap.items) && RowsAmong(heap.items, Contents(runs))
    ensures pushed.Ok? ==> multiset(heap.items) == old(multiset(heap.items)) + Head(runs[r], r, cursor)
    ensures pushed.Err? ==> ThrowsAmong(compare, Contents(runs), pushed.error)
  {
    pushed := Ok(());
    if cursor < |runs[r]| {
      RowInContents(runs, r, cursor);
      pushed := heap.Push(compare, HeapItem(r, runs[r][cursor]), cmp, Contents(runs));
    }
  }

  lemma MergeStarts<T(!new)>(cmp: (T, T) -> int, runs: seq<seq<T>>, heap: multiset<HeapItem<T>>)
    requires heap == Heads(runs, Zeros(|runs|), |runs|)
    ensures Merging(cmp, runs, Zeros(|runs|), heap, [])
  {
    NothingRead(runs, |runs|);
    assert runs[..|runs|] == runs;
  }

  lemma MergeEnds<T(!new)>(cmp: (T, T) -> int, runs: seq<seq<T>>, cursors: seq<nat>, out: seq<T>)
    requires Merging(cmp, runs, cursors, multiset{}, out)
    ensures Sorted(cmp, out) && multiset(out) == Contents(runs)
  {
    NoHeadsNoRows(runs, cursors, |runs|);
  }

  /** The state of the merge: the heap holds the head of every unfinished run,
      and what was output is sorted and precedes what was not. */
  ghost predicate Merging<T(!new)>(
    cmp: (T, T) -> int, runs: seq<seq<T>>, cursors: seq<nat>, heap: multiset<HeapItem<T>>, out: seq<T>)
  {
    && CursorsWithin(runs, cursors)
    && heap == Heads(runs, cursors, |runs|)
    && multiset(out) + Remaining(runs, cursors, |runs|) == Contents(runs)
    && Sorted(cmp, out) && Precedes(cmp, out, Remaining(runs, cursors, |runs|))
  }

  lemma NextInRange<T>(runs: seq<seq<T>>, cursors: seq<nat>, items: seq<HeapItem<T>>, next: HeapItem<T>)
    requires CursorsWithin(runs, cursors) && multiset(items) == Heads(runs, cursors, |runs|) && next in items
    ensures next.runIndex < |runs| && cursors[next.runIndex] < |runs[next.runIndex]|
    ensures next.row == runs[next.runIndex][cursors[next.runIndex]]
  {
    assert next in multiset(items);
    HeadsMember(runs, cursors, |runs|, next);
  }

  lemma NextHeads<T>(runs: seq<seq<T>>, cursors: seq<nat>, heads: multiset<HeapItem<T>>, r: nat)
    requires CursorsWithin(runs, cursors) && heads == Heads(runs, cursors, |runs|)
    requires r < |runs| && cursors[r] < |runs[r]| && HeapItem(r, runs[r][cursors[r]]) in heads
    ensures (heads - multiset{HeapItem(r, runs[r][cursors[r]])}) + Head(runs[r], r, cursors[r] + 1)
         == Heads(runs, cursors[r := cursors[r] + 1], |runs|)
  {
    AdvanceHeads(runs, cursors, cursors[r := cursors[r] + 1], |runs|, r);
    ReplaceHead(heads, HeapItem(r, runs[r][cursors[r]]), Head(runs[r], r, cursors[r] + 1),
                Heads(runs, cursors[r := cursors[r] + 1], |runs|));
  }

  lemma NextOut<T(!new)>(
    cmp: (T, T) -> int, runs: seq<seq<T>>, cursors: seq<nat>, out: seq<T>, r: nat)
    requires CursorsWithin(runs, cursors) && r < |runs| && cursors[r] < |runs[r]|
    requires Sorted(cmp, out) && Precedes(cmp, out, Remaining(runs, cursors, |runs|))
    requires forall x :: x in Remaining(runs, cursors, |runs|) ==> cmp(runs[r][cursors[r]], x) <= 0
    ensures var next, x := cursors[r := cursors[r] + 1], runs[r][cursors[r]];
      && Sorted(cmp, out + [x]) && Precedes(cmp, out + [x], Remaining(runs, next, |runs|))
      && multiset(out + [x]) + Remaining(runs, next, |runs|) == multiset(out) + Remaining(runs, cursors, |runs|)
  {
    hide Sorted, Precedes, Remaining;
    var next, x := cursors[r := cursors[r] + 1], runs[r][cursors[r]];
    AdvanceRemaining(runs, cursors, next, |runs|, r);
    NextSorted(cmp, out, x, Remaining(runs, cursors, |runs|), Remaining(runs, next, |runs|));
  }

  lemma NextSorted<T(!new)>(cmp: (T, T) -> int, out: seq<T>, x: T, rest: multiset<T>, after: multiset<T>)
    requires Sorted(cmp, out) && Precedes(cmp, out, rest) && rest == after + multiset{x}
    requires forall y :: y in rest ==> cmp(x, y) <= 0
    ensures Sorted(cmp, out + [x]) && Precedes(cmp, out + [x], after)
    ensures multiset(out + [x]) + after == multiset(out) + rest
  {
    assert multiset(out + [x]) == multiset(out) + multiset{x};
  }

  lemma MergeStep<T(!new)>(
    cmp: (T, T) -> int, runs: seq<seq<T>>, cursors: seq<nat>, items: seq<HeapItem<T>>, out: seq<T>, next: HeapItem<T>)
    requires TotalPreorder(cmp) && RunsSorted(cmp, runs) && Merging(cmp, runs, cursors, multiset(items), out)
    requires next in items && IsLeast(cmp, items, next.row)
    ensures next.runIndex < |runs| == |cursors| && cursors[next.runIndex] < |runs[next.runIndex]|
    ensures Merging(cmp, runs, cursors[next.runIndex := cursors[next.runIndex] + 1],
                    (multiset(items) - multiset{next}) +
                      Head(runs[next.runIndex], next.runIndex, cursors[next.runIndex] + 1),
                    out + [next.row])
  {
    hide Sorted, Precedes, Contents, Remaining, RunsSorted, IsLeast, TotalPreorder, Heads, Head;
    NextInRange(runs, cursors, items, next);
    PoppedIsLeast(cmp, runs, cursors, items, next.row);
    MergeStepAt(cmp, runs, cursors, multiset(items), out, next.runIndex);
  }

  lemma MergeStepAt<T(!new)>(
    cmp: (T, T) -> int, runs: seq<seq<T>>, cursors: seq<nat>, heads: multiset<HeapItem<T>>, out: seq<T>, r: nat)
    requires Merging(cmp, runs, cursors, heads, out)
    requires r < |runs| && cursors[r] < |runs[r]| && HeapItem(r, runs[r][cursors[r]]) in heads
    requires forall x :: x in Remaining(runs, cursors, |runs|) ==> cmp(runs[r][cursors[r]], x) <= 0
    ensures Merging(cmp, runs, cursors[r := cursors[r] + 1],
                    (heads - multiset{HeapItem(r, runs[r][cursors[r]])}) + Head(runs[r], r, cursors[r] + 1),
                    out + [runs[r][cursors[r]]])
  {
    hide Sorted, Precedes, Contents, Remaining, Heads, Head;
    NextHeads(runs, cursors, heads, r);
    NextOut(cmp, runs, cursors, out, r);
  }

  lemma OutBounded<T(!new)>(
    cmp: (T, T) -> int, runs: seq<seq<T>>, cursors: seq<nat>, heads: multiset<HeapItem<T>>, out: seq<T>)
    requires Merging(cmp, runs, cursors, heads, out)
    ensures |out| <= |Contents(runs)|
  {
  }

  ghost predicate Precedes<T(!new)>(cmp: (T, T) -> int, out: seq<T>, rest: multiset<T>) {
    forall x, y :: x in out && y in rest ==> cmp(x, y) <= 0
  }

  lemma ReplaceHead<T>(heads: multiset<T>, x: T, added: multiset<T>, after: multiset<T>)
    requires x in heads && heads + added == after + multiset{x}
    ensures (heads - multiset{x}) + added == after
  {
    assert heads == (heads - multiset{x}) + multiset{x};
    assert ((heads - multiset{x}) + added) + multiset{x} == after + multiset{x};
    assert (((heads - multiset{x}) + added) + multiset{x}) - multiset{x} == after;
  }

  lemma PoppedIsLeast<T(!new)>(
    cmp: (T, T) -> int, runs: seq<seq<T>>, cursors: seq<nat>, items: seq<HeapItem<T>>, least: T)
    requires TotalPreorder(cmp) && RunsSorted(cmp, runs) && CursorsWithin(runs, cursors)
    requires multiset(items) == Heads(runs, cursors, |runs|)
    requires IsLeast(cmp, items, least)
    ensures forall x :: x in Remaining(runs, cursors, |runs|) ==> cmp(least, x) <= 0
  {
    forall item | item in Heads(runs, cursors, |runs|) ensures cmp(least, item.row) <= 0 {
      assert item in multiset(items);
      assert item in items;
    }
    forall x | x in Remaining(runs, cursors, |runs|) ensures cmp(least, x) <= 0 {
      LeastHeadIsLeast(cmp, runs, cursors, least, x);
    }
  }

  // ----- Collecting runs -----

  ghost predicate PartOf<T>(s: seq<T>, t: seq<T>) {
    multiset(s) <= multiset(t)
  }

  /** `flushSortRun`: a non-empty run is sorted and moved to the runs. */
  function FlushSortRun<T>(compare: (T, T) -> Result<int>, runs: seq<seq<T>>, currentRun: seq<T>): Result<seq<seq<T>>> {
    if currentRun == [] then Ok(runs)
    else
      var sorted :- TrySort(compare, currentRun);
      Ok(runs + [sorted])
  }

  lemma FlushKeeps<T(!new)>(compare: (T, T) -> Result<int>, cmp: (T, T) -> int, runs: seq<seq<T>>, currentRun: seq<T>,
                            all: multiset<T>)
    requires TotalPreorder(cmp) && Agrees(compare, cmp) && RunsSorted(cmp, runs) && multiset(currentRun) <= all
    ensures FlushSortRun(compare, runs, currentRun).Ok? ==>
      var next := FlushSortRun(compare, runs, currentRun).value;
      RunsSorted(cmp, next) && Contents(next) == Contents(runs) + multiset(currentRun)
      && |runs| <= |next| && next[..|runs|] == runs
      && forall k :: |runs| <= k < |next| ==> |next[k]| == |currentRun| > 0
    ensures FlushSortRun(compare, runs, currentRun).Err? ==>
      ThrowsAmong(compare, all, FlushSortRun(compare, runs, currentRun).error)
  {
    if currentRun != [] {
      SortAmong(compare, cmp, currentRun, all);
      SortSorted(cmp, currentRun);
      SortContents(cmp, currentRun);
      assert (runs + [Sort(cmp, currentRun)])[..|runs|] == runs;
    }
  }

  /** Runs collected so far: sorted, within capacity, holding what was read. */
  ghost predicate Collected<T(!new)>(
    cmp: (T, T) -> int, saved: seq<seq<T>>, runs: seq<seq<T>>, currentRun: seq<T>, read: seq<T>, capacity: Option<nat>)
  {
    && RunsSorted(cmp, runs) && |runs| >= |saved|
    && (capacity.Some? ==> forall k :: |saved| <= k < |runs| ==> 0 < |runs[k]| <= capacity.value)
    && Contents(runs) + multiset(currentRun) == Contents(saved) + multiset(read)
  }

  lemma CollectOne<T(!new)>(
    cmp: (T, T) -> int, saved: seq<seq<T>>, runs: seq<seq<T>>, currentRun: seq<T>, read: seq<T>,
    capacity: Option<nat>, x: T)
    requires Collected(cmp, saved, runs, currentRun, read, capacity)
    ensures Collected(cmp, saved, runs, currentRun + [x], read + [x], capacity)
  {
    MultisetAssociative(Contents(runs), multiset(currentRun), multiset{x});
    MultisetAssociative(Contents(saved), multiset(read), multiset{x});
    assert multiset(currentRun + [x]) == multiset(currentRun) + multiset{x};
    assert multiset(read + [x]) == multiset(read) + multiset{x};
  }

  lemma CollectFlush<T(!new)>(
    compare: (T, T) -> Result<int>, cmp: (T, T) -> int, saved: seq<seq<T>>, runs: seq<seq<T>>, currentRun: seq<T>,
    read: seq<T>, capacity: Option<nat>, pool: seq<T>)
    requires TotalPreorder(cmp) && Agrees(compare, cmp) && Collected(cmp, saved, runs, currentRun, read, capacity)
    requires (capacity.Some? ==> |currentRun| <= capacity.value) && PartOf(currentRun, pool)
    ensures FlushSortRun(compare, runs, currentRun).Ok? ==>
      Collected(cmp, saved, FlushSortRun(compare, runs, currentRun).value, [], read, capacity)
    ensures FlushSortRun(compare, runs, currentRun).Err? ==>
      ThrowsAmong(compare, multiset(pool), FlushSortRun(compare, runs, currentRun).error)
  {
    FlushKeeps(compare, cmp, runs, currentRun, multiset(pool));
    hide FlushSortRun, RunsSorted, Contents, ThrowsAmong;
    if FlushSortRun(compare, runs, currentRun).Ok? {
      var next := FlushSortRun(compare, runs, currentRun).value;
      assert forall k :: 0 <= k < |runs| ==> next[k] == next[..|runs|][k];
    }
  }

  /** Why collecting fails: no run can hold a row, a row cannot be sorted by, or
      the comparator throws on two rows. */
  ghost predicate CollectingFails<T>(
    compare: (T, T) -> Result<int>, validate: T -> Result<()>, matched: seq<T>, capacity: Option<nat>, error: Error)
  {
    || (capacity == Some(0) && matched != [] && error == BudgetExceeded)
    || (exists x :: x in matched && validate(x) == Err(error))
    || ThrowsAmong(compare, multiset(matched), error)
  }

  /** Collects matched rows into sorted runs, starting from saved runs and
      flushing whenever the current run reaches its capacity. */
  method CollectSortRuns<T(!new)>(
    compare: (T, T) -> Result<int>, validate: T -> Result<()>, saved: seq<seq<T>>, matched: seq<T>,
    capacity: Option<nat>, ghost cmp: (T, T) -> int)
    returns (r: Result<seq<seq<T>>>)
    requires TotalPreorder(cmp) && Agrees(compare, cmp) && RunsSorted(cmp, saved)
    ensures r.Err? ==> CollectingFails(compare, validate, matched, capacity, r.error)
    ensures r.Ok? ==> Collected(cmp, saved, r.value, [], matched, capacity)
    ensures r.Ok? ==> (capacity == Some(0) ==> matched == []) && forall x :: x in matched ==> validate(x).Ok?
  {
    hide CollectedUpTo, Collected, FlushSortRun, RunsSorted, Contents, Agrees, ThrowsAmong, TotalPreorder, PartOf;
    var runs, currentRun: seq<T> := saved, [];
    ghost var start := 0;
    CollectNone(cmp, saved, matched, capacity);
    for i := 0 to |matched|
      invariant capacity == Some(0) ==> i == 0
      invariant capacity.Some? ==> |currentRun| < capacity.value || (i == 0 && currentRun == [])
      invariant CollectedUpTo(cmp, saved, runs, currentRun, matched, capacity, start, i)
      invariant forall k :: 0 <= k < i ==> validate(matched[k]).Ok?
    {
      var valid := validate(matched[i]);
      if valid.Err? {
        return Err(valid.error);
      }
      CollectNext(cmp, saved, runs, currentRun, matched, capacity, start, i);
      currentRun := currentRun + [matched[i]];
      if capacity.Some? && |currentRun| > capacity.value {
        return Err(BudgetExceeded);
      }
      if capacity.Some? && |currentRun| >= capacity.value {
        FlushUpTo(compare, cmp, saved, runs, currentRun, matched, capacity, start, i + 1);
        var flushed := FlushSortRun(compare, runs, currentRun);
        if flushed.Err? {
          return Err(flushed.error);
        }
        runs, currentRun, start := flushed.value, [], i + 1;
      }
    }
    FlushUpTo(compare, cmp, saved, runs, currentRun, matched, capacity, start, |matched|);
    CollectedAll(cmp, saved, matched, capacity);
    r := FlushSortRun(compare, runs, currentRun);
  }

  /** The first `i` matched rows are collected, those since `start` in the current run. */
  ghost predicate CollectedUpTo<T(!new)>(
    cmp: (T, T) -> int, saved: seq<seq<T>>, runs: seq<seq<T>>, currentRun: seq<T>, matched: seq<T>,
    capacity: Option<nat>, start: nat, i: nat)
  {
    && start <= i <= |matched| && currentRun == matched[start..i]
    && Collected(cmp, saved, runs, currentRun, matched[..i], capacity)
  }

  lemma CollectNext<T(!new)>(
    cmp: (T, T) -> int, saved: seq<seq<T>>, runs: seq<seq<T>>, currentRun: seq<T>, matched: seq<T>,
    capacity: Option<nat>, start: nat, i: nat)
    requires i < |matched| && CollectedUpTo(cmp, saved, runs, currentRun, matched, capacity, start, i)
    ensures CollectedUpTo(cmp, saved, runs, currentRun + [matched[i]], matched, capacity, start, i + 1)
  {
    hide Collected;
    assert matched[..i + 1] == matched[..i] + [matched[i]];
    assert currentRun + [matched[i]] == matched[start..i + 1];
    CollectOne(cmp, saved, runs, currentRun, matched[..i], capacity, matched[i]);
  }

  lemma FlushUpTo<T(!new)>(
    compare: (T, T) -> Result<int>, cmp: (T, T) -> int, saved: seq<seq<T>>, runs: seq<seq<T>>, currentRun: seq<T>,
    matched: seq<T>, capacity: Option<nat>, start: nat, i: nat)
    requires TotalPreorder(cmp) && Agrees(compare, cmp)
    requires CollectedUpTo(cmp, saved, runs, currentRun, matched, capacity, start, i)
    requires capacity.Some? ==> |currentRun| <= capacity.value
    ensures FlushSortRun(compare, runs, currentRun).Ok? ==>
      CollectedUpTo(cmp, saved, FlushSortRun(compare, runs, currentRun).value, [], matched, capacity, i, i)
    ensures FlushSortRun(compare, runs, currentRun).Err? ==>
      ThrowsAmong(compare, multiset(matched), FlushSortRun(compare, runs, currentRun).error)
  {
    hide Collected, FlushSortRun, ThrowsAmong, TotalPreorder, Agrees, PartOf;
    SliceAmong(matched, start, i);
    CollectFlush(compare, cmp, saved, runs, currentRun, matched[..i], capacity, matched);
  }

  lemma CollectedAll<T(!new)>(cmp: (T, T) -> int, saved: seq<seq<T>>, matched: seq<T>, capacity: Option<nat>)
    ensures forall runs, start ::
      CollectedUpTo(cmp, saved, runs, [], matched, capacity, start, |matched|) ==>
        Collected(cmp, saved, runs, [], matched, capacity)
  {
    hide Collected;
    assert matched[..|matched|] == matched;
  }

  lemma CollectNone<T(!new)>(cmp: (T, T) -> int, saved: seq<seq<T>>, matched: seq<T>, capacity: Option<nat>)
    requires RunsSorted(cmp, saved)
    ensures CollectedUpTo(cmp, saved, saved, [], matched, capacity, 0, 0)
  {
  }

  lemma SliceAmong<T>(s: seq<T>, from: nat, to: nat)
    requires from <= to <= |s|
    ensures PartOf(s[from..to], s)
  {
    assert s == s[..from] + s[from..to] + s[to..];
  }

  /** Whatever the capacity, and whatever was saved before, merging the runs
      gives the sort keys of the stable sort of everything collected. */
  method SortThroughRuns<T(!new)>(
    compare: (T, T) -> Result<int>, validate: T -> Result<()>, saved: seq<seq<T>>, earlier: seq<T>, matched: seq<T>,
    capacity: Option<nat>, ghost cmp: (T, T) -> int)
    returns (r: Result<seq<T>>)
    requires TotalPreorder(cmp) && Agrees(compare, cmp) && RunsSorted(cmp, saved)
    requires Contents(saved) == multiset(earlier)
    ensures r.Err? ==> CollectingFails(compare, validate, matched, capacity, r.error)
                       || ThrowsAmong(compare, multiset(earlier + matched), r.error)
    ensures r.Ok? ==> (capacity == Some(0) ==> matched == []) && forall x :: x in matched ==> validate(x).Ok?
    ensures r.Ok? ==> multiset(r.value) == multiset(earlier + matched)
    ensures r.Ok? ==> SameKeys(cmp, r.value, Sort(cmp, earlier + matched))
  {
    var runs := CollectSortRuns(compare, validate, saved, matched, capacity, cmp);
    if runs.Err? {
      return Err(runs.error);
    }
    assert multiset(earlier + matched) == multiset(earlier) + multiset(matched);
    r := MergeSortRuns(compare, runs.value, cmp);
    if r.Ok? {
      SortedPermutationSameKeys(cmp, earlier + matched, r.value);
    }
  }
}
