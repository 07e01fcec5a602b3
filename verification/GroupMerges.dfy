/** Grouped states of two parts of the input: merging their tables gives the
    table of the whole, and a table survives being stored as plain data. */
module GroupMerges {
  import opened Scalars
  import opened SortedRuns
  import opened Aggregates
  import opened AggregateMerges
  import opened AggregateSnapshots
  import opened GroupKeys
  import opened GroupTables
  import opened GroupBy

  // ----- Merging -----

  function MergeStates(states: seq<State>, more: seq<State>): Result<seq<State>> {
    if states == [] && more == [] then Ok([])
    else if states == [] || more == [] then Err(TypeError)
    else
      var first :- Merge(states[0], more[0]);
      var rest :- MergeStates(states[1..], more[1..]);
      Ok([first] + rest)
  }

  /** One source group: copied if its key is new, otherwise merged state by state. */
  function MergeSlot(q: Query, table: seq<Slot>, slot: Slot): Result<seq<Slot>> {
    var at := FindSlot(table, slot.key);
    if at < |table| then
      var states :- MergeStates(table[at].group.states, slot.group.states);
      Ok(table[at := Slot(slot.key, Group(table[at].group.keyValues, states))])
    else if Full(q, table) then Err(GroupLimitExceeded)
    else Ok(table + [slot])
  }

  function MergeTables(q: Query, table: seq<Slot>, source: seq<Slot>): Result<seq<Slot>>
    decreases |source|
  {
    if source == [] then Ok(table)
    else
      var before :- MergeTables(q, table, source[..|source| - 1]);
      MergeSlot(q, before, source[|source| - 1])
  }

  lemma {:induction false} MergeStatesSucceeds(states: seq<State>, more: seq<State>)
    requires |states| == |more|
    ensures MergeStates(states, more).Ok? <==> forall j :: 0 <= j < |states| ==> Merge(states[j], more[j]).Ok?
    ensures MergeStates(states, more).Ok? ==>
      && |MergeStates(states, more).value| == |states|
      && forall j :: 0 <= j < |states| ==> Merge(states[j], more[j]) == Ok(MergeStates(states, more).value[j])
  {
    hide Merge;
    if states != [] {
      MergeStatesSucceeds(states[1..], more[1..]);
      assert forall j :: 1 <= j < |states| ==> states[j] == states[1..][j - 1] && more[j] == more[1..][j - 1];
      if Merge(states[0], more[0]).Ok? && MergeStates(states[1..], more[1..]).Ok? {
        forall j | 0 <= j < |states| ensures Merge(states[j], more[j]).Ok? {
          assert j > 0 ==> Merge(states[1..][j - 1], more[1..][j - 1]).Ok?;
        }
      }
      if forall j :: 0 <= j < |states| ==> Merge(states[j], more[j]).Ok? {
        forall j | 0 <= j < |states[1..]| ensures Merge(states[1..][j], more[1..][j]).Ok? {
          assert states[1..][j] == states[j + 1];
        }
      }
    }
  }

  /** No minimum or maximum of `b` hides a better value behind a leading NaN. */
  ghost predicate NothingLost(q: Query, a: seq<RowIn>, b: seq<RowIn>)
    requires Shaped(q, a) && Shaped(q, b)
  {
    forall j :: 0 <= j < |q.ops| && q.ops[j].Extreme? ==>
      !Loses(q.key, q.ops[j].isMin, Column(a, j), Column(b, j))
  }

  lemma ColumnAppend(a: seq<RowIn>, b: seq<RowIn>, j: nat)
    requires forall i :: 0 <= i < |a| ==> j < |a[i].inputs|
    requires forall i :: 0 <= i < |b| ==> j < |b[i].inputs|
    requires forall i :: 0 <= i < |a + b| ==> j < |(a + b)[i].inputs|
    ensures Column(a + b, j) == Column(a, j) + Column(b, j)
  {
  }

  /** Merging the states of two lots of rows gives the states of both. */
  lemma MergedStatesAre(q: Query, s: seq<State>, t: seq<State>, a: seq<RowIn>, b: seq<RowIn>)
    requires Shaped(q, a) && Shaped(q, b) && StatesAre(q, s, a) && StatesAre(q, t, b) && NothingLost(q, a, b)
    ensures Shaped(q, a + b)
    ensures MergeStates(s, t).Ok? <==> Accepted(q, a + b)
    ensures MergeStates(s, t).Ok? ==> StatesAre(q, MergeStates(s, t).value, a + b)
  {
    MergeStatesSucceeds(s, t);
    hide MergeStates;
    forall j | 0 <= j < |q.ops| ensures Run(q.key, q.ops[j], Column(a + b, j)) == Merge(s[j], t[j]) {
      ColumnAppend(a, b, j);
      PartsMergeToWhole(q.key, q.ops[j], Column(a, j), Column(b, j));
      hide Run, Merge;
    }
    hide Run, Merge;
  }

  // ----- The rows of both parts -----

  lemma {:induction false} RowsWithAppend(q: Query, a: seq<RowIn>, b: seq<RowIn>, key: string)
    ensures RowsWith(q, a + b, key) == RowsWith(q, a, key) + RowsWith(q, b, key)
    decreases |b|
  {
    if b == [] {
      assert a + b == a;
    } else {
      var front, row := b[..|b| - 1], b[|b| - 1];
      RowsWithAppend(q, a, front, key);
      assert a + b == (a + front) + [row] && b == front + [row];
      hide *;
      RowsWithSnoc(q, a + front, row, key);
      RowsWithSnoc(q, front, row, key);
      Reassociate(RowsWith(q, a, key), RowsWith(q, front, key), [row]);
    }
  }

  function AddKeys(keys: seq<string>, more: seq<string>): seq<string>
    decreases |more|
  {
    if more == [] then keys else AddKey(AddKeys(keys, more[..|more| - 1]), more[|more| - 1])
  }

  lemma AddKeysSnoc(keys: seq<string>, more: seq<string>, key: string)
    ensures AddKeys(keys, more + [key]) == AddKey(AddKeys(keys, more), key)
  {
    assert (more + [key])[..|more|] == more;
  }

  lemma {:induction false} AddKeysHas(keys: seq<string>, more: seq<string>, key: string)
    ensures key in AddKeys(keys, more) <==> key in keys || key in more
    decreases |more|
  {
    if more != [] {
      var front, last := more[..|more| - 1], more[|more| - 1];
      AddKeysHas(keys, front, key);
      KeysGrow(AddKeys(keys, front), last);
      assert more == front + [last];
    }
  }

  lemma AddKnownKey(keys: seq<string>, more: seq<string>, key: string)
    ensures AddKeys(keys, AddKey(more, key)) == AddKey(AddKeys(keys, more), key)
  {
    AddKeysSnoc(keys, more, key);
    AddKeysHas(keys, more, key);
  }

  /** The keys of the whole are those of the first part, then the new ones of the second. */
  lemma {:induction false} KeysAppend(q: Query, a: seq<RowIn>, b: seq<RowIn>)
    requires Keyed(q, b)
    ensures KeysOf(q, a + b) == AddKeys(KeysOf(q, a), KeysOf(q, b))
    decreases |b|
  {
    if b == [] {
      assert a + b == a;
    } else {
      var front, row := b[..|b| - 1], b[|b| - 1];
      assert a + b == (a + front) + [row] && b == front + [row];
      KeyedSnoc(q, front, row);
      KeysAppend(q, a, front);
      GroupKeySucceeds(q.num, row.keyValues);
      var key := GroupKey(q.num, row.keyValues).value;
      KeysSnoc(q, a + front, row, key);
      KeysSnoc(q, front, row, key);
      AddKnownKey(KeysOf(q, a), KeysOf(q, front), key);
    }
  }

  lemma FirstKeyValuesAppend(q: Query, a: seq<RowIn>, b: seq<RowIn>, key: string)
    ensures FirstKeyValues(q, a + b, key)
         == if key in KeysOf(q, a) then FirstKeyValues(q, a, key) else FirstKeyValues(q, b, key)
  {
    RowsWithAppend(q, a, b, key);
    KeysHaveRows(q, a, key);
    if RowsWith(q, a, key) == [] {
      assert [] + RowsWith(q, b, key) == RowsWith(q, b, key);
    }
  }

  // ----- Merging tables -----

  /** The rows of a group once the source groups in `done` have been merged in. */
  ghost function PartRows(q: Query, a: seq<RowIn>, b: seq<RowIn>, done: seq<string>, key: string): seq<RowIn> {
    RowsWith(q, a, key) + if key in done then RowsWith(q, b, key) else []
  }

  ghost predicate SlotMerged(q: Query, slot: Slot, a: seq<RowIn>, b: seq<RowIn>, done: seq<string>, key: string) {
    && slot.key == key
    && slot.group.keyValues == FirstKeyValues(q, a + b, key)
    && Shaped(q, PartRows(q, a, b, done, key))
    && StatesAre(q, slot.group.states, PartRows(q, a, b, done, key))
  }

  ghost predicate PartMerged(q: Query, table: seq<Slot>, a: seq<RowIn>, b: seq<RowIn>, done: seq<string>) {
    var keys := AddKeys(KeysOf(q, a), done);
    && |table| == |keys|
    && forall i :: 0 <= i < |table| ==> SlotMerged(q, table[i], a, b, done, keys[i])
  }

  /** What the merge needs so far: room for the new groups, and groups of both
      parts whose aggregates accept all their rows. */
  ghost predicate PartGroupable(q: Query, a: seq<RowIn>, b: seq<RowIn>, done: seq<string>) {
    && (q.maxGroups.Some? ==> |AddKeys(KeysOf(q, a), done)| <= q.maxGroups.value)
    && forall key :: key in done && key in KeysOf(q, a) ==>
         Shaped(q, RowsWith(q, a + b, key)) && Accepted(q, RowsWith(q, a + b, key))
  }

  ghost predicate NoGroupLoses(q: Query, a: seq<RowIn>, b: seq<RowIn>) {
    forall key :: key in KeysOf(q, a) && key in KeysOf(q, b) ==>
      && Shaped(q, RowsWith(q, a, key)) && Shaped(q, RowsWith(q, b, key))
      && NothingLost(q, RowsWith(q, a, key), RowsWith(q, b, key))
  }

  lemma MergedSlotOfKey(q: Query, table: seq<Slot>, a: seq<RowIn>, b: seq<RowIn>, done: seq<string>, key: string)
    requires PartMerged(q, table, a, b, done)
    ensures var keys, at := AddKeys(KeysOf(q, a), done), FindSlot(table, key);
            && (at < |table| <==> key in keys)
            && (at < |table| ==> keys[at] == key && SlotMerged(q, table[at], a, b, done, key))
  {
    var keys, at := AddKeys(KeysOf(q, a), done), FindSlot(table, key);
    assert forall i :: 0 <= i < |table| ==> SlotMerged(q, table[i], a, b, done, keys[i]);
    if key in keys {
      var i :| 0 <= i < |keys| && keys[i] == key;
      assert table[i].key == key;
    }
  }

  lemma {:induction false} AddKeysUnique(keys: seq<string>, more: seq<string>)
    requires Unique(keys)
    ensures Unique(AddKeys(keys, more))
    decreases |more|
  {
    if more != [] {
      AddKeysUnique(keys, more[..|more| - 1]);
    }
  }

  /** A source group whose key the target already has. */
  lemma MergeKnownSlot(q: Query, table: seq<Slot>, slot: Slot, a: seq<RowIn>, b: seq<RowIn>, done: seq<string>,
                       key: string)
    requires PartMerged(q, table, a, b, done) && key !in done && key in KeysOf(q, a)
    requires Shaped(q, b) && SlotMeans(q, slot, b, key)
    requires Shaped(q, RowsWith(q, a, key)) && NothingLost(q, RowsWith(q, a, key), RowsWith(q, b, key))
    ensures Shaped(q, RowsWith(q, a + b, key))
    ensures MergeSlot(q, table, slot).Ok? <==> Accepted(q, RowsWith(q, a + b, key))
    ensures MergeSlot(q, table, slot).Ok? ==> PartMerged(q, MergeSlot(q, table, slot).value, a, b, done + [key])
  {
    MergedSlotOfKey(q, table, a, b, done, key);
    AddKeysHas(KeysOf(q, a), done, key);
    AddKeysSnoc(KeysOf(q, a), done, key);
    RowsWithAppend(q, a, b, key);
    var at := FindSlot(table, key);
    var rows, more := RowsWith(q, a, key), RowsWith(q, b, key);
    assert rows + [] == rows;
    MergedStatesAre(q, table[at].group.states, slot.group.states, rows, more);
    if MergeSlot(q, table, slot).Ok? {
      var next := MergeSlot(q, table, slot).value;
      var keys := AddKeys(KeysOf(q, a), done);
      KeysUnique(q, a);
      AddKeysUnique(KeysOf(q, a), done);
      assert SlotMerged(q, next[at], a, b, done + [key], key) by {
        assert key in done + [key];
      }
      hide MergeSlot, MergeStates, KeysOf, RowsWith, SlotMerged, FindSlot, AddKeys, AddKey;
      forall i | 0 <= i < |next| ensures SlotMerged(q, next[i], a, b, done + [key], keys[i]) {
        if i != at {
          assert SlotMerged(q, table[i], a, b, done, keys[i]);
        }
      }
    }
  }

  /** A source group whose key is new to the target. */
  lemma MergeNewSlot(q: Query, table: seq<Slot>, slot: Slot, a: seq<RowIn>, b: seq<RowIn>, done: seq<string>,
                     key: string)
    requires PartMerged(q, table, a, b, done) && key !in done && key !in KeysOf(q, a)
    requires Shaped(q, b) && SlotMeans(q, slot, b, key)
    ensures MergeSlot(q, table, slot).Ok? <==> !Full(q, table)
    ensures MergeSlot(q, table, slot).Ok? ==> PartMerged(q, MergeSlot(q, table, slot).value, a, b, done + [key])
  {
    MergedSlotOfKey(q, table, a, b, done, key);
    AddKeysHas(KeysOf(q, a), done, key);
    AddKeysSnoc(KeysOf(q, a), done, key);
    NewSlotMerged(q, slot, a, b, done, key);
    if MergeSlot(q, table, slot).Ok? {
      var keys := AddKeys(KeysOf(q, a), done);
      hide MergeStates, KeysOf, RowsWith, SlotMerged, FindSlot, AddKeys, SlotMeans;
      forall i | 0 <= i < |table| ensures SlotMerged(q, table[i], a, b, done + [key], keys[i]) {
        SlotKeptMerged(q, table[i], a, b, done, key, keys[i]);
      }
    }
  }

  lemma NewSlotMerged(q: Query, slot: Slot, a: seq<RowIn>, b: seq<RowIn>, done: seq<string>, key: string)
    requires key !in KeysOf(q, a) && Shaped(q, b) && SlotMeans(q, slot, b, key)
    ensures SlotMerged(q, slot, a, b, done + [key], key)
  {
    KeysHaveRows(q, a, key);
    FirstKeyValuesAppend(q, a, b, key);
    assert key in done + [key];
    assert [] + RowsWith(q, b, key) == RowsWith(q, b, key);
  }

  lemma SlotKeptMerged(q: Query, slot: Slot, a: seq<RowIn>, b: seq<RowIn>, done: seq<string>, key: string,
                       other: string)
    requires SlotMerged(q, slot, a, b, done, other) && other != key
    ensures SlotMerged(q, slot, a, b, done + [key], other)
  {
    assert other in done + [key] <==> other in done;
  }

  lemma MergeTablesStep(q: Query, table: seq<Slot>, source: seq<Slot>, n: nat)
    requires n < |source|
    ensures MergeTables(q, table, source[..n + 1])
         == (var before := MergeTables(q, table, source[..n]);
             if before.Err? then before else MergeSlot(q, before.value, source[n]))
  {
    assert source[..n + 1][..n] == source[..n];
  }

  lemma NothingMergedYet(q: Query, table: seq<Slot>, a: seq<RowIn>, b: seq<RowIn>)
    requires Shaped(q, a) && Means(q, table, a)
    ensures PartMerged(q, table, a, b, [])
  {
    forall i | 0 <= i < |table| ensures SlotMerged(q, table[i], a, b, [], KeysOf(q, a)[i]) {
      var key := KeysOf(q, a)[i];
      assert SlotMeans(q, table[i], a, key);
      FirstKeyValuesAppend(q, a, b, key);
      assert RowsWith(q, a, key) + [] == RowsWith(q, a, key);
    }
  }

  /** The two parts: their rows, their tables, and nothing lost behind a NaN. */
  ghost predicate Parts(q: Query, s: seq<Slot>, t: seq<Slot>, a: seq<RowIn>, b: seq<RowIn>) {
    && Shaped(q, a) && Shaped(q, b) && Means(q, s, a) && Means(q, t, b) && NoGroupLoses(q, a, b)
  }

  lemma PartGroupableStep(q: Query, a: seq<RowIn>, b: seq<RowIn>, done: seq<string>, key: string)
    ensures PartGroupable(q, a, b, done + [key]) <==>
      && PartGroupable(q, a, b, done)
      && (key !in AddKeys(KeysOf(q, a), done) ==>
            q.maxGroups.Some? ==> |AddKeys(KeysOf(q, a), done)| < q.maxGroups.value)
      && (key in KeysOf(q, a) ==> Shaped(q, RowsWith(q, a + b, key)) && Accepted(q, RowsWith(q, a + b, key)))
  {
    AddKeysSnoc(KeysOf(q, a), done, key);
    KeysGrow(AddKeys(KeysOf(q, a), done), key);
    hide AddKeys, AddKey, KeysOf, RowsWith, Accepted, Shaped;
  }

  /** One more source group: it merges exactly when the parts still fit together. */
  lemma MergePartStep(q: Query, table: seq<Slot>, s: seq<Slot>, t: seq<Slot>, a: seq<RowIn>, b: seq<RowIn>, n: nat)
    requires Parts(q, s, t, a, b) && n < |t| == |KeysOf(q, b)|
    requires PartMerged(q, table, a, b, KeysOf(q, b)[..n]) && PartGroupable(q, a, b, KeysOf(q, b)[..n])
    ensures MergeSlot(q, table, t[n]).Ok? <==> PartGroupable(q, a, b, KeysOf(q, b)[..n + 1])
    ensures MergeSlot(q, table, t[n]).Ok? ==>
      PartMerged(q, MergeSlot(q, table, t[n]).value, a, b, KeysOf(q, b)[..n + 1])
  {
    hide MergeStates, GroupKey;
    var done, key := KeysOf(q, b)[..n], KeysOf(q, b)[n];
    assert KeysOf(q, b)[..n + 1] == done + [key];
    KeysUnique(q, b);
    assert key !in done;
    assert SlotMeans(q, t[n], b, key);
    PartGroupableStep(q, a, b, done, key);
    AddKeysHas(KeysOf(q, a), done, key);
    RowsWithShaped(q, a, key);
    hide MergeSlot, PartGroupable, SlotMeans, AddKeys, KeysOf, RowsWith, SlotMerged;
    if key in KeysOf(q, a) {
      assert key in KeysOf(q, b);
      MergeKnownSlot(q, table, t[n], a, b, done, key);
    } else {
      MergeNewSlot(q, table, t[n], a, b, done, key);
    }
  }

  lemma {:induction false} MergePrefix(q: Query, s: seq<Slot>, t: seq<Slot>, a: seq<RowIn>, b: seq<RowIn>, n: nat)
    requires Parts(q, s, t, a, b) && n <= |t| == |KeysOf(q, b)|
    requires q.maxGroups.Some? ==> |s| <= q.maxGroups.value
    ensures MergeTables(q, s, t[..n]).Ok? <==> PartGroupable(q, a, b, KeysOf(q, b)[..n])
    ensures MergeTables(q, s, t[..n]).Ok? ==>
      PartMerged(q, MergeTables(q, s, t[..n]).value, a, b, KeysOf(q, b)[..n])
  {
    hide *;
    if n == 0 {
      assert t[..0] == [] && KeysOf(q, b)[..0] == [];
      MergeStarts(q, s, t, a, b);
    } else {
      var done, key := KeysOf(q, b)[..n - 1], KeysOf(q, b)[n - 1];
      MergePrefix(q, s, t, a, b, n - 1);
      MergeTablesStep(q, s, t, n - 1);
      assert KeysOf(q, b)[..n] == done + [key];
      PartGroupableStep(q, a, b, done, key);
      if MergeTables(q, s, t[..n - 1]).Ok? {
        MergePartStep(q, MergeTables(q, s, t[..n - 1]).value, s, t, a, b, n - 1);
      }
    }
  }

  lemma MergeStarts(q: Query, s: seq<Slot>, t: seq<Slot>, a: seq<RowIn>, b: seq<RowIn>)
    requires Parts(q, s, t, a, b)
    requires q.maxGroups.Some? ==> |s| <= q.maxGroups.value
    ensures MergeTables(q, s, []) == Ok(s) && PartGroupable(q, a, b, []) && PartMerged(q, s, a, b, [])
  {
    NothingMergedYet(q, s, a, b);
  }

  /** All rows of both parts fit together exactly when they can be grouped at once. */
  lemma PartsGroupable(q: Query, a: seq<RowIn>, b: seq<RowIn>)
    requires Shaped(q, a) && Shaped(q, b) && Shaped(q, a + b)
    requires Groupable(q, a) && Groupable(q, b)
    ensures PartGroupable(q, a, b, KeysOf(q, b)) <==> Groupable(q, a + b)
  {
    KeysAppend(q, a, b);
    if PartGroupable(q, a, b, KeysOf(q, b)) {
      forall key | key in KeysOf(q, a + b)
        ensures Shaped(q, RowsWith(q, a + b, key)) && Accepted(q, RowsWith(q, a + b, key))
      {
        AddKeysHas(KeysOf(q, a), KeysOf(q, b), key);
        OnePartGroup(q, a, b, key);
      }
    }
    forall key | key in KeysOf(q, b) && key in KeysOf(q, a) ensures key in KeysOf(q, a + b) {
      AddKeysHas(KeysOf(q, a), KeysOf(q, b), key);
    }
  }

  lemma OnePartGroup(q: Query, a: seq<RowIn>, b: seq<RowIn>, key: string)
    requires Shaped(q, a) && Shaped(q, b) && Groupable(q, a) && Groupable(q, b)
    requires PartGroupable(q, a, b, KeysOf(q, b)) && (key in KeysOf(q, a) || key in KeysOf(q, b))
    ensures Shaped(q, RowsWith(q, a + b, key)) && Accepted(q, RowsWith(q, a + b, key))
  {
    RowsWithAppend(q, a, b, key);
    KeysHaveRows(q, a, key);
    KeysHaveRows(q, b, key);
    if key !in KeysOf(q, a) {
      assert RowsWith(q, a + b, key) == RowsWith(q, b, key);
    } else if key !in KeysOf(q, b) {
      assert RowsWith(q, a + b, key) == RowsWith(q, a, key);
    }
  }

  lemma MergedMeans(q: Query, table: seq<Slot>, a: seq<RowIn>, b: seq<RowIn>)
    requires Shaped(q, a) && Shaped(q, b) && Shaped(q, a + b) && Keyed(q, a) && Keyed(q, b)
    requires PartMerged(q, table, a, b, KeysOf(q, b))
    ensures Means(q, table, a + b)
  {
    KeysAppend(q, a, b);
    forall i | 0 <= i < |table| ensures SlotMeans(q, table[i], a + b, KeysOf(q, a + b)[i]) {
      var key := KeysOf(q, a + b)[i];
      assert SlotMerged(q, table[i], a, b, KeysOf(q, b), key);
      RowsWithAppend(q, a, b, key);
      KeysHaveRows(q, b, key);
      assert key !in KeysOf(q, b) ==> RowsWith(q, b, key) == [];
    }
  }

  /** Grouping two parts apart and merging the tables succeeds exactly when the
      rows could be grouped in one pass, and gives the same table. */
  lemma MergedTablesAreOnePass(q: Query, a: seq<RowIn>, b: seq<RowIn>)
    requires Shaped(q, a) && Shaped(q, b) && NoGroupLoses(q, a, b)
    requires AddRows(q, [], a).Ok? && AddRows(q, [], b).Ok?
    ensures Shaped(q, a + b)
    ensures MergeTables(q, AddRows(q, [], a).value, AddRows(q, [], b).value).Ok? <==> AddRows(q, [], a + b).Ok?
    ensures AddRows(q, [], a + b).Ok? ==>
      MergeTables(q, AddRows(q, [], a).value, AddRows(q, [], b).value) == AddRows(q, [], a + b)
  {
    var s, t := AddRows(q, [], a).value, AddRows(q, [], b).value;
    GroupByMeans(q, a);
    GroupByMeans(q, b);
    GroupByMeans(q, a + b);
    assert t[..|t|] == t && KeysOf(q, b)[..|t|] == KeysOf(q, b);
    assert q.maxGroups.Some? ==> |s| <= q.maxGroups.value;
    assert Keyed(q, a) && Keyed(q, b);
    MergePrefix(q, s, t, a, b, |t|);
    hide *;
    PartsGroupable(q, a, b);
    if AddRows(q, [], a + b).Ok? {
      var merged := MergeTables(q, s, t).value;
      MergedMeans(q, merged, a, b);
      MeaningIsUnique(q, merged, AddRows(q, [], a + b).value, a + b);
    }
  }

  lemma {:induction false} MergeFails(q: Query, table: seq<Slot>, source: seq<Slot>, n: nat, m: nat)
    requires n <= m <= |source| && MergeTables(q, table, source[..n]).Err?
    ensures MergeTables(q, table, source[..m]) == MergeTables(q, table, source[..n])
  {
    hide MergeTables, MergeSlot;
    if n < m {
      MergeFails(q, table, source, n, m - 1);
      MergeTablesStep(q, table, source, m - 1);
    }
  }

  /** Folds the source's groups into the target, in the source's order. */
  method MergeVectorGroupBy(target: GroupByState, source: GroupByState) returns (r: Result<()>)
    requires target.Valid() && source != target
    modifies target
    ensures target.Valid()
    ensures match MergeTables(target.q, old(target.groups), source.groups)
            case Ok(table) => r == Ok(()) && target.groups == table
            case Err(e) => r == Err(e)
  {
    hide MergeStates;
    var q := target.q;
    ghost var before, slots := target.groups, source.groups;
    assert slots[..0] == [] && slots[..|slots|] == slots;
    assert MergeTables(q, before, []) == Ok(before);
    hide MergeTables, MergeSlot;
    for n := 0 to |source.groups|
      invariant target.Valid() && source.groups == slots
      invariant MergeTables(q, before, slots[..n]) == Ok(target.groups)
    {
      MergeTablesStep(q, before, slots, n);
      var merged := MergeSlot(q, target.groups, source.groups[n]);
      if merged.Err? {
        MergeFails(q, before, slots, n + 1, |slots|);
        return Err(merged.error);
      }
      target.groups := merged.value;
    }
    return Ok(());
  }

  // ----- Snapshots -----

  datatype GroupSnapshot = GroupSnapshot(keyValues: seq<SnapshotValue>, states: seq<Snapshot>)

  function TakeValues(values: seq<Scalar>): (taken: seq<SnapshotValue>)
    ensures |taken| == |values| && forall i :: 0 <= i < |values| ==> taken[i] == TakeValue(values[i])
  {
    seq(|values|, i requires 0 <= i < |values| => TakeValue(values[i]))
  }

  function RestoreValues(taken: seq<SnapshotValue>): Option<seq<Scalar>> {
    if taken == [] then Some([])
    else
      var first := RestoreValue(taken[0]);
      var rest := RestoreValues(taken[1..]);
      if first.Some? && rest.Some? then Some([first.value] + rest.value) else None
  }

  ghost function TakeStates(states: seq<State>): (taken: seq<Snapshot>)
    ensures |taken| == |states| && forall i :: 0 <= i < |states| ==> taken[i] == Take(states[i])
  {
    seq(|states|, i requires 0 <= i < |states| => Take(states[i]))
  }

  ghost function RestoreStates(taken: seq<Snapshot>): Option<seq<State>> {
    if taken == [] then Some([])
    else
      var first := Restore(taken[0]);
      var rest := RestoreStates(taken[1..]);
      if first.Some? && rest.Some? then Some([first.value] + rest.value) else None
  }

  /** Groups are stored without their keys, in table order. */
  ghost function TakeTable(table: seq<Slot>): seq<GroupSnapshot> {
    if table == [] then []
    else
      var group := table[0].group;
      [GroupSnapshot(TakeValues(group.keyValues), TakeStates(group.states))] + TakeTable(table[1..])
  }

  /** The table with keys rebuilt from the key values. */
  ghost function RestoreTable(num: Num -> string, taken: seq<GroupSnapshot>): Option<seq<Slot>> {
    if taken == [] then Some([])
    else
      var values := RestoreValues(taken[0].keyValues);
      var states := RestoreStates(taken[0].states);
      var rest := RestoreTable(num, taken[1..]);
      if values.Some? && states.Some? && rest.Some? && GroupKey(num, values.value).Ok? then
        Some([Slot(GroupKey(num, values.value).value, Group(values.value, states.value))] + rest.value)
      else None
  }

  lemma {:induction false} ValuesRoundTrip(values: seq<Scalar>)
    ensures RestoreValues(TakeValues(values)) == Some(values)
  {
    if values != [] {
      ValueRoundTrip(values[0]);
      ValuesRoundTrip(values[1..]);
      assert TakeValues(values)[1..] == TakeValues(values[1..]);
      assert [values[0]] + values[1..] == values;
    }
  }

  lemma {:induction false} StatesRoundTrip(states: seq<State>)
    ensures RestoreStates(TakeStates(states)) == Some(states)
  {
    if states != [] {
      SnapshotRoundTrip(states[0]);
      StatesRoundTrip(states[1..]);
      hide Take, Restore;
      assert TakeStates(states)[1..] == TakeStates(states[1..]);
      assert [states[0]] + states[1..] == states;
    }
  }

  lemma {:induction false} TableRoundTrip(num: Num -> string, table: seq<Slot>)
    requires forall i :: 0 <= i < |table| ==> GroupKey(num, table[i].group.keyValues) == Ok(table[i].key)
    ensures RestoreTable(num, TakeTable(table)) == Some(table)
  {
    if table != [] {
      TableRoundTrip(num, table[1..]);
      hide *;
      SlotRoundTrip(num, table[0], table[1..]);
      assert [table[0]] + table[1..] == table;
    }
  }

  /** One more slot in front is stored and restored in front. */
  lemma SlotRoundTrip(num: Num -> string, slot: Slot, rest: seq<Slot>)
    requires GroupKey(num, slot.group.keyValues) == Ok(slot.key) && RestoreTable(num, TakeTable(rest)) == Some(rest)
    ensures RestoreTable(num, TakeTable([slot] + rest)) == Some([slot] + rest)
  {
    ValuesRoundTrip(slot.group.keyValues);
    StatesRoundTrip(slot.group.states);
    hide TakeStates, RestoreStates, TakeValues, RestoreValues, GroupKey;
    var taken := GroupSnapshot(TakeValues(slot.group.keyValues), TakeStates(slot.group.states));
    assert ([slot] + rest)[1..] == rest;
    assert TakeTable([slot] + rest) == [taken] + TakeTable(rest);
    assert ([taken] + TakeTable(rest))[1..] == TakeTable(rest);
  }

  lemma {:induction false} RowsWithHaveKey(q: Query, rows: seq<RowIn>, key: string)
    ensures forall i :: 0 <= i < |RowsWith(q, rows, key)| ==> HasKeyOf(q, RowsWith(q, rows, key)[i], key)
    decreases |rows|
  {
    if rows != [] {
      RowsWithHaveKey(q, rows[..|rows| - 1], key);
    }
  }

  /** The key of a slot is the key of its stored key values. */
  lemma SlotKeyFromValues(q: Query, table: seq<Slot>, rows: seq<RowIn>, i: nat)
    requires Shaped(q, rows) && Means(q, table, rows) && i < |table|
    ensures GroupKey(q.num, table[i].group.keyValues) == Ok(table[i].key)
  {
    var key := KeysOf(q, rows)[i];
    assert SlotMeans(q, table[i], rows, key);
    KeysHaveRows(q, rows, key);
    RowsWithHaveKey(q, rows, key);
    assert HasKeyOf(q, RowsWith(q, rows, key)[0], key);
  }

  /** Storing and restoring the table between batches leaves the result of one pass. */
  lemma StoredBatchesAreOnePass(q: Query, a: seq<RowIn>, b: seq<RowIn>)
    requires Shaped(q, a) && AddRows(q, [], a).Ok?
    ensures RestoreTable(q.num, TakeTable(AddRows(q, [], a).value)).Some?
    ensures AddRows(q, RestoreTable(q.num, TakeTable(AddRows(q, [], a).value)).value, b) == AddRows(q, [], a + b)
  {
    var table := AddRows(q, [], a).value;
    GroupByMeans(q, a);
    BatchesAreOnePass(q, [], a, b);
    hide AddRows, Means, KeysOf, GroupKey, RestoreTable, TakeTable;
    forall i | 0 <= i < |table| ensures GroupKey(q.num, table[i].group.keyValues) == Ok(table[i].key) {
      SlotKeyFromValues(q, table, a, i);
    }
    TableRoundTrip(q.num, table);
  }
}
