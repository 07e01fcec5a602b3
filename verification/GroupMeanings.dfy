/** What grouped aggregation returns, said of rows and their key values alone:
    no key texts, no runs. */
module GroupMeanings {
  import opened Scalars
  import opened Vectors
  import opened SortedRuns
  import opened Aggregates
  import opened AggregateRuns
  import opened GroupKeys
  import opened GroupTables
  import opened GroupBy

  /** The rows with these key values, in order. */
  ghost function RowsLike(rows: seq<RowIn>, keyValues: seq<Scalar>): seq<RowIn>
    decreases |rows|
  {
    if rows == [] then []
    else
      var before, last := RowsLike(rows[..|rows| - 1], keyValues), rows[|rows| - 1];
      if SameKeyValues(last.keyValues, keyValues) then before + [last] else before
  }

  predicate OneArity(rows: seq<RowIn>, n: nat) {
    forall r :: 0 <= r < |rows| ==> |rows[r].keyValues| == n
  }

  /** Row `r` is the first with its key values. */
  ghost predicate FirstLike(rows: seq<RowIn>, r: nat) {
    r < |rows| && forall k :: 0 <= k < r ==> !SameKeyValues(rows[k].keyValues, rows[r].keyValues)
  }

  lemma {:induction false} LikeIsWith(q: Query, rows: seq<RowIn>, keyValues: seq<Scalar>, key: string)
    requires Injective(q.num) && Keyed(q, rows) && OneArity(rows, |keyValues|)
    requires AllKeyValues(keyValues) && GroupKey(q.num, keyValues) == Ok(key)
    ensures RowsWith(q, rows, key) == RowsLike(rows, keyValues)
    decreases |rows|
  {
    hide GroupKey, SameKeyValues, AllKeyValues, Injective;
    if rows != [] {
      LikeIsWith(q, rows[..|rows| - 1], keyValues, key);
      GroupKeyInjective(q.num, rows[|rows| - 1].keyValues, keyValues);
    }
  }

  // ----- Keys come in order of first appearance -----

  /** The groups' key texts are those of ever later first rows. */
  ghost predicate InOrder(q: Query, rows: seq<RowIn>, keys: seq<string>, firsts: seq<nat>) {
    && |firsts| == |keys|
    && (forall i :: 0 <= i < |keys| ==> FirstKeyed(q, rows, keys[i], firsts[i]))
    && (forall i, j :: 0 <= i < j < |keys| ==> firsts[i] < firsts[j])
    && (forall r :: 0 <= r < |rows| ==> Listed(q, rows[r], keys))
  }

  ghost predicate FirstKeyed(q: Query, rows: seq<RowIn>, key: string, r: nat) {
    r < |rows| && HasKeyOf(q, rows[r], key) && forall k :: 0 <= k < r ==> !HasKeyOf(q, rows[k], key)
  }

  ghost predicate Listed(q: Query, row: RowIn, keys: seq<string>) {
    exists i :: 0 <= i < |keys| && HasKeyOf(q, row, keys[i])
  }

  lemma ListedIn(q: Query, row: RowIn, keys: seq<string>, key: string)
    requires HasKeyOf(q, row, key)
    ensures Listed(q, row, keys) <==> key in keys
  {
  }

  lemma {:induction false} KeysInOrder(q: Query, rows: seq<RowIn>) returns (firsts: seq<nat>)
    requires Keyed(q, rows)
    ensures InOrder(q, rows, KeysOf(q, rows), firsts)
    decreases |rows|
  {
    firsts := [];
    if rows != [] {
      var front, row := rows[..|rows| - 1], rows[|rows| - 1];
      assert front + [row] == rows;
      firsts := KeysInOrder(q, front);
      GroupKeySucceeds(q.num, row.keyValues);
      var key := GroupKey(q.num, row.keyValues).value;
      NextKeys(q, front, row, key);
      hide *;
      if key in KeysOf(q, front) {
        SameKeysInOrder(q, front, row, KeysOf(q, front), firsts, key);
      } else {
        NewKeyInOrder(q, front, row, KeysOf(q, front), firsts, key);
        firsts := firsts + [|front|];
      }
    }
  }

  lemma NextKeys(q: Query, front: seq<RowIn>, row: RowIn, key: string)
    requires GroupKey(q.num, row.keyValues) == Ok(key)
    ensures HasKeyOf(q, row, key)
    ensures KeysOf(q, front + [row]) == if key in KeysOf(q, front) then KeysOf(q, front) else KeysOf(q, front) + [key]
  {
    hide GroupKey;
    KeysSnoc(q, front, row, key);
  }

  lemma FirstStays(q: Query, front: seq<RowIn>, row: RowIn, key: string, r: nat)
    requires FirstKeyed(q, front, key, r)
    ensures FirstKeyed(q, front + [row], key, r)
  {
  }

  lemma SameKeysInOrder(q: Query, front: seq<RowIn>, row: RowIn, keys: seq<string>, firsts: seq<nat>, key: string)
    requires InOrder(q, front, keys, firsts) && HasKeyOf(q, row, key) && key in keys
    ensures InOrder(q, front + [row], keys, firsts)
  {
    hide HasKeyOf, FirstKeyed, Listed;
    ListedIn(q, row, keys, key);
    forall i | 0 <= i < |keys| ensures FirstKeyed(q, front + [row], keys[i], firsts[i]) {
      FirstStays(q, front, row, keys[i], firsts[i]);
    }
    assert forall r :: 0 <= r < |front| ==> (front + [row])[r] == front[r];
  }

  lemma NewKeyInOrder(q: Query, front: seq<RowIn>, row: RowIn, keys: seq<string>, firsts: seq<nat>, key: string)
    requires InOrder(q, front, keys, firsts) && HasKeyOf(q, row, key) && key !in keys
    ensures InOrder(q, front + [row], keys + [key], firsts + [|front|])
  {
    var rows, all, next := front + [row], keys + [key], firsts + [|front|];
    forall r | 0 <= r < |rows| ensures Listed(q, rows[r], all) && (r < |front| ==> !HasKeyOf(q, rows[r], key)) {
      if r == |front| {
        ListedIn(q, row, all, key);
      } else {
        assert Listed(q, front[r], keys);
        NewKeyLists(q, front[r], keys, key);
      }
    }
    NewIsFirst(q, front, row, key);
    hide HasKeyOf, FirstKeyed, Listed;
    forall i | 0 <= i < |all| ensures FirstKeyed(q, rows, all[i], next[i]) {
      if i < |keys| {
        assert FirstKeyed(q, front, keys[i], firsts[i]);
        FirstStays(q, front, row, keys[i], firsts[i]);
      }
    }
    forall i | 0 <= i < |keys| ensures next[i] < |front| {
      FirstWithin(q, front, keys[i], firsts[i]);
    }
  }

  lemma FirstWithin(q: Query, rows: seq<RowIn>, key: string, r: nat)
    requires FirstKeyed(q, rows, key, r)
    ensures r < |rows|
  {
  }

  lemma NewKeyLists(q: Query, row: RowIn, keys: seq<string>, key: string)
    requires Listed(q, row, keys) && key !in keys
    ensures Listed(q, row, keys + [key]) && !HasKeyOf(q, row, key)
  {
    var i :| 0 <= i < |keys| && HasKeyOf(q, row, keys[i]);
    assert (keys + [key])[i] == keys[i];
  }

  lemma NewIsFirst(q: Query, front: seq<RowIn>, row: RowIn, key: string)
    requires HasKeyOf(q, row, key) && forall r :: 0 <= r < |front| ==> !HasKeyOf(q, (front + [row])[r], key)
    ensures FirstKeyed(q, front + [row], key, |front|)
  {
  }

  // ----- The table -----

  /** The group of first row `first`: its key values are that row's, and each of
      its states tells of the rows with those key values. */
  ghost predicate GroupTells(q: Query, rows: seq<RowIn>, group: Group, first: nat)
    requires Shaped(q, rows)
  {
    && FirstLike(rows, first) && group.keyValues == rows[first].keyValues && |group.states| == |q.ops|
    && Shaped(q, RowsLike(rows, group.keyValues))
    && forall j :: 0 <= j < |q.ops| ==>
         RunIs(q.key, q.ops[j], Column(RowsLike(rows, group.keyValues), j), group.states[j])
  }

  lemma FirstWith(q: Query, rows: seq<RowIn>, key: string, first: nat)
    requires FirstKeyed(q, rows, key, first)
    ensures FirstKeyValues(q, rows, key) == rows[first].keyValues
  {
    FirstOfWith(q, rows, key, first, |rows|);
    assert rows[..|rows|] == rows;
  }

  lemma {:induction false} FirstOfWith(q: Query, rows: seq<RowIn>, key: string, first: nat, n: nat)
    requires FirstKeyed(q, rows, key, first) && n <= |rows|
    ensures n <= first ==> RowsWith(q, rows[..n], key) == []
    ensures n > first ==> RowsWith(q, rows[..n], key) != [] && RowsWith(q, rows[..n], key)[0] == rows[first]
  {
    hide HasKeyOf;
    if n > 0 {
      FirstOfWith(q, rows, key, first, n - 1);
      assert rows[..n][..n - 1] == rows[..n - 1];
    }
  }

  lemma SlotTells(q: Query, rows: seq<RowIn>, slot: Slot, key: string, first: nat, n: nat)
    requires Shaped(q, rows) && Keyed(q, rows) && Injective(q.num) && OneArity(rows, n)
    requires SlotMeans(q, slot, rows, key) && FirstKeyed(q, rows, key, first)
    ensures GroupTells(q, rows, slot.group, first)
  {
    var keyValues := rows[first].keyValues;
    FirstWith(q, rows, key, first);
    LikeIsWith(q, rows, keyValues, key);
    forall k | 0 <= k < first ensures !SameKeyValues(rows[k].keyValues, keyValues) {
      GroupKeyInjective(q.num, rows[k].keyValues, keyValues);
    }
    var those := RowsLike(rows, keyValues);
    hide GroupKey, SameKeyValues, AllKeyValues, Injective, RowsWith, RowsLike;
    forall j | 0 <= j < |q.ops| ensures RunIs(q.key, q.ops[j], Column(those, j), slot.group.states[j]) {
      RunMeans(q.key, q.ops[j], Column(those, j));
      hide Run, RunIs, Refuses;
    }
  }

  /** The groups are those of ever later first rows, and every row's key values are
      those of some group. */
  ghost predicate TableTells(q: Query, rows: seq<RowIn>, table: seq<Slot>, firsts: seq<nat>)
    requires Shaped(q, rows)
  {
    && |firsts| == |table|
    && (forall i :: 0 <= i < |table| ==> GroupTells(q, rows, table[i].group, firsts[i]))
    && (forall i, j :: 0 <= i < j < |table| ==> firsts[i] < firsts[j])
    && (forall r :: 0 <= r < |rows| ==>
          exists i :: 0 <= i < |table| && SameKeyValues(rows[r].keyValues, table[i].group.keyValues))
  }

  /** Main theorem: a grouped query that returns has one group for every distinct
      tuple of key values, in order of first appearance, and each aggregate of a
      group tells of exactly the rows with its key values: their count, total,
      extreme, first or last value, distinct keys or values in order. */
  lemma GroupByTells(q: Query, rows: seq<RowIn>, n: nat) returns (firsts: seq<nat>)
    requires Shaped(q, rows) && Injective(q.num) && OneArity(rows, n)
    requires AddRows(q, [], rows).Ok?
    ensures TableTells(q, rows, AddRows(q, [], rows).value, firsts)
  {
    GroupByMeans(q, rows);
    firsts := KeysInOrder(q, rows);
    var table, keys := AddRows(q, [], rows).value, KeysOf(q, rows);
    hide AddRows, Groupable, KeysOf, SlotMeans, GroupTells, GroupKey, SameKeyValues, AllKeyValues, Injective;
    forall i | 0 <= i < |table| ensures GroupTells(q, rows, table[i].group, firsts[i]) {
      SlotTells(q, rows, table[i], keys[i], firsts[i], n);
    }
    forall r | 0 <= r < |rows|
      ensures exists i :: 0 <= i < |table| && SameKeyValues(rows[r].keyValues, table[i].group.keyValues)
    {
      assert Listed(q, rows[r], keys);
      var i :| 0 <= i < |keys| && HasKeyOf(q, rows[r], keys[i]);
      assert FirstKeyed(q, rows, keys[i], firsts[i]);
      GroupKeyInjective(q.num, rows[r].keyValues, rows[firsts[i]].keyValues);
      GroupHolds(q, rows, table[i].group, firsts[i]);
    }
  }

  lemma GroupHolds(q: Query, rows: seq<RowIn>, group: Group, first: nat)
    requires Shaped(q, rows) && GroupTells(q, rows, group, first)
    ensures first < |rows| && group.keyValues == rows[first].keyValues
  {
  }

  // ----- The rows of a batch -----

  /** Row `i` of the rows fed is row `at[i]` of the batch: its values in the key
      columns and its aggregate inputs. */
  ghost predicate FeedsRow(batch: KeyedBatch, row: RowIn, at: nat)
    requires ValidBatch(batch)
  {
    && at < batch.rowCount
    && |row.keyValues| == |batch.vectors| && row.inputs == batch.inputs[at]
    && forall c :: 0 <= c < |batch.vectors| ==> row.keyValues[c] == ScalarAt(batch.vectors[c], at)
  }

  predicate EntryIsOne(selection: Option<seq<nat>>, i: nat) {
    selection.None? || (i < |selection.value| && selection.value[i] == 1)
  }

  /** A batch feeds the rows whose selection entry is 1, in row order. */
  lemma {:induction false} BatchFeeds(batch: KeyedBatch, n: nat) returns (at: seq<nat>)
    requires ValidBatch(batch) && n <= batch.rowCount
    ensures |at| == |RowsUpTo(batch, n)|
    ensures forall i :: 0 <= i < |at| ==> at[i] < n && FeedsRow(batch, RowsUpTo(batch, n)[i], at[i])
    ensures forall i, j :: 0 <= i < j < |at| ==> at[i] < at[j]
    ensures forall i :: 0 <= i < n ==> (i in at <==> EntryIsOne(batch.selection, i))
  {
    at := [];
    if n > 0 {
      var before := BatchFeeds(batch, n - 1);
      if EntryIsOne(batch.selection, n - 1) {
        FedRow(batch, n - 1);
        at := before + [n - 1];
      } else {
        at := before;
      }
      hide KeyColumns, FeedsRow, RowAt;
    }
  }

  lemma FedRow(batch: KeyedBatch, index: nat)
    requires ValidBatch(batch) && index < batch.rowCount
    ensures FeedsRow(batch, RowAt(batch, index), index)
  {
  }

  lemma {:induction false} BatchArity(batch: KeyedBatch, n: nat)
    requires ValidBatch(batch) && n <= batch.rowCount
    ensures OneArity(RowsUpTo(batch, n), |batch.vectors|)
  {
    hide KeyColumns;
    if n > 0 {
      BatchArity(batch, n - 1);
    }
  }

  /** What a whole batch leaves in an empty table, through either key path. */
  lemma BatchTells(q: Query, batch: KeyedBatch, groups: seq<Slot>, matched: nat) returns (firsts: seq<nat>)
    requires ValidBatch(batch) && Injective(q.num)
    requires Shaped(q, RowsUpTo(batch, batch.rowCount))
    requires Updates(q, [], RowsUpTo(batch, batch.rowCount), groups, Ok(matched))
    ensures matched == |RowsUpTo(batch, batch.rowCount)|
    ensures TableTells(q, RowsUpTo(batch, batch.rowCount), groups, firsts)
  {
    var rows := RowsUpTo(batch, batch.rowCount);
    BatchArity(batch, batch.rowCount);
    UpdatedTable(q, rows, groups, matched);
    hide *;
    firsts := GroupByTells(q, rows, |batch.vectors|);
  }

  lemma UpdatedTable(q: Query, rows: seq<RowIn>, groups: seq<Slot>, matched: nat)
    requires Updates(q, [], rows, groups, Ok(matched))
    ensures AddRows(q, [], rows) == Ok(groups) && matched == |rows|
  {
  }
}
