/** Slicing a query's rows by bookmark, and resuming until nothing is left. */
module Resumption {
  import opened Scalars

  datatype Bookmark = Bookmark(planFingerprint: string, rowOffset: nat)

  datatype SliceResult<T> = SliceResult(rows: seq<T>, bookmark: Option<Bookmark>)

  /** The rows the query yields, the same on every run, and its plan's fingerprint. */
  datatype Query<T> = Query(stream: seq<T>, planFingerprint: string)

  function Start(bookmark: Option<Bookmark>): nat {
    if bookmark.Some? then bookmark.value.rowOffset else 0
  }

  function Least(a: nat, b: nat): nat {
    if a <= b then a else b
  }

  /** A slice: the next rows, and a bookmark exactly when rows remain after them. */
  ghost predicate IsSlice<T>(q: Query<T>, start: nat, maxRows: nat, slice: SliceResult<T>) {
    var from := Least(start, |q.stream|);
    var to := Least(start + maxRows, |q.stream|);
    && slice.rows == q.stream[from..to]
    && slice.bookmark == if start + maxRows < |q.stream| then Some(Bookmark(q.planFingerprint, to)) else None
  }

  method Slice<T>(q: Query<T>, maxRows: int, bookmark: Option<Bookmark>) returns (r: Result<SliceResult<T>>)
    ensures maxRows <= 0 ==> r == Err(TypeError)
    ensures maxRows > 0 && bookmark.Some? && bookmark.value.planFingerprint != q.planFingerprint ==>
              r == Err(ValidationError)
    ensures maxRows > 0 && (bookmark.None? || bookmark.value.planFingerprint == q.planFingerprint) ==>
              r.Ok? && IsSlice(q, Start(bookmark), maxRows, r.value)
  {
    if maxRows <= 0 {
      return Err(TypeError);
    }
    var startOffset := Start(bookmark);
    if bookmark.Some? && bookmark.value.planFingerprint != q.planFingerprint {
      return Err(ValidationError);
    }
    var rows, seen, hasMore := TakeRows(q.stream, startOffset, maxRows);
    if !hasMore {
      return Ok(SliceResult(rows, None));
    }
    return Ok(SliceResult(rows, Some(Bookmark(q.planFingerprint, seen))));
  }

  /** Reads the stream, skipping up to the offset and stopping at one row too many. */
  method TakeRows<T>(stream: seq<T>, startOffset: nat, maxRows: nat) returns (rows: seq<T>, seen: nat, hasMore: bool)
    requires maxRows > 0
    ensures rows == stream[Least(startOffset, |stream|)..Least(startOffset + maxRows, |stream|)]
    ensures hasMore <==> startOffset + maxRows < |stream|
    ensures hasMore ==> seen == startOffset + maxRows
  {
    rows := [];
    var skipped := 0;
    seen, hasMore := 0, false;
    for n := 0 to |stream|
      invariant skipped == Least(n, startOffset) && seen == n && !hasMore
      invariant n <= startOffset ==> rows == []
      invariant n > startOffset ==> rows == stream[startOffset..n] && n - startOffset <= maxRows
    {
      if skipped < startOffset {
        skipped, seen := skipped + 1, seen + 1;
        continue;
      }
      if |rows| >= maxRows {
        hasMore := true;
        return;
      }
      rows := rows + [stream[n]];
      seen := seen + 1;
    }
  }

  function Concat<T>(slices: seq<SliceResult<T>>): seq<T> {
    if slices == [] then [] else Concat(slices[..|slices| - 1]) + slices[|slices| - 1].rows
  }

  lemma ConcatSnoc<T>(slices: seq<SliceResult<T>>, slice: SliceResult<T>)
    ensures Concat(slices + [slice]) == Concat(slices) + slice.rows
  {
    assert (slices + [slice])[..|slices|] == slices;
  }

  /** Following the bookmarks from one on yields each remaining row once, in order;
      every slice but the last is full and carries a bookmark, and it ends. */
  method ResumableBatches<T>(q: Query<T>, bookmarkEvery: int, bookmark: Option<Bookmark>)
    returns (r: Result<seq<SliceResult<T>>>)
    ensures bookmarkEvery <= 0 ==> r == Err(TypeError)
    ensures bookmarkEvery > 0 && bookmark.Some? && bookmark.value.planFingerprint != q.planFingerprint ==>
              r == Err(ValidationError)
    ensures bookmarkEvery > 0 && (bookmark.None? || bookmark.value.planFingerprint == q.planFingerprint) ==>
              && r.Ok? && r.value != []
              && Concat(r.value) == (if bookmark.None? then q.stream
                                     else if bookmark.value.rowOffset >= |q.stream| then []
                                     else q.stream[bookmark.value.rowOffset..])
              && (forall i :: 0 <= i < |r.value| ==> |r.value[i].rows| <= bookmarkEvery)
              && (forall i :: 0 <= i < |r.value| - 1 ==>
                    |r.value[i].rows| == bookmarkEvery && r.value[i].bookmark.Some?)
              && r.value[|r.value| - 1].bookmark.None?
  {
    if bookmarkEvery <= 0 {
      return Err(TypeError);
    }
    if bookmark.Some? && bookmark.value.planFingerprint != q.planFingerprint {
      return Err(ValidationError);
    }
    var slices: seq<SliceResult<T>> := [];
    var current := bookmark;
    ghost var from := Least(Start(bookmark), |q.stream|);
    NothingTaken(q, from);
    hide *;
    while true
      invariant current.None? || current.value.planFingerprint == q.planFingerprint
      invariant Taken(q, from, bookmarkEvery, slices, Start(current))
      decreases Left(q, Start(current))
    {
      var result := Slice(q, bookmarkEvery, current);
      var slice := result.value;
      SliceAdvances(q, from, bookmarkEvery, slices, Start(current), slice);
      slices := slices + [slice];
      if slice.bookmark.None? {
        return Ok(slices);
      }
      current := slice.bookmark;
    }
  }

  function Left<T>(q: Query<T>, start: nat): nat {
    |q.stream| - Least(start, |q.stream|)
  }

  /** The full slices taken so far hold the rows from `from` up to `start`. */
  ghost predicate Taken<T>(q: Query<T>, from: nat, every: nat, slices: seq<SliceResult<T>>, start: nat) {
    && from <= Least(start, |q.stream|)
    && Concat(slices) == q.stream[from..Least(start, |q.stream|)]
    && forall i :: 0 <= i < |slices| ==> |slices[i].rows| == every && slices[i].bookmark.Some?
  }

  lemma NothingTaken<T>(q: Query<T>, from: nat)
    requires from <= |q.stream|
    ensures forall every, start :: Least(start, |q.stream|) == from ==> Taken(q, from, every, [], start)
  {
  }

  /** One more slice either ends the stream or is full and moves the start on. */
  lemma SliceAdvances<T>(q: Query<T>, from: nat, every: nat, slices: seq<SliceResult<T>>, start: nat,
                         slice: SliceResult<T>)
    requires every > 0 && Taken(q, from, every, slices, start) && IsSlice(q, start, every, slice)
    ensures slice.bookmark.Some? ==>
      && slice.bookmark.value.planFingerprint == q.planFingerprint
      && Taken(q, from, every, slices + [slice], slice.bookmark.value.rowOffset)
      && Left(q, slice.bookmark.value.rowOffset) < Left(q, start)
    ensures slice.bookmark.None? ==>
      && Concat(slices + [slice]) == q.stream[from..]
      && (forall i :: 0 <= i < |slices + [slice]| ==> |(slices + [slice])[i].rows| <= every)
      && (forall i :: 0 <= i < |slices + [slice]| - 1 ==>
            |(slices + [slice])[i].rows| == every && (slices + [slice])[i].bookmark.Some?)
      && (slices + [slice])[|slices + [slice]| - 1].bookmark.None?
  {
    ConcatSnoc(slices, slice);
    hide Concat;
    var at, to := Least(start, |q.stream|), Least(start + every, |q.stream|);
    assert q.stream[from..at] + q.stream[at..to] == q.stream[from..to];
    assert q.stream[from..|q.stream|] == q.stream[from..];
  }
}
