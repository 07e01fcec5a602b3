/** The late aggregate: groups are opened and `count(*)` is fed on the first
    scan; the other aggregates are fed when their rows are materialised. Both
    scans keep the meaning of the table: after the first the early states are
    complete and the late ones empty, and every row of the second completes
    the late states of its own group. */
module LateAggregates {
  import opened Scalars
  import opened SortedRuns
  import opened Aggregates
  import opened AggregateMerges
  import opened GroupKeys
  import opened GroupTables
  import opened LateColumns
  import opened LateRows

  /** Which aggregates are fed early: those that are `count(*)`. */
  type Mask = seq<bool>

  /** Feeds only the aggregates whose mask entry is `early`. */
  function UpdateMasked(q: Query, states: seq<State>, inputs: seq<Scalar>, mask: Mask, early: bool): Result<seq<State>>
    requires |states| == |inputs| == |mask|
  {
    if states == [] then Ok([])
    else
      var first :- if mask[0] == early then Update(q.key, states[0], inputs[0]) else Ok(states[0]);
      var rest :- UpdateMasked(q, states[1..], inputs[1..], mask[1..], early);
      Ok([first] + rest)
  }

  // ----- The two scans -----

  /** First scan: the row's group is found or opened, and `count(*)` is fed. */
  function OpenRow(q: Query, table: seq<Slot>, row: RowIn, mask: Mask): Result<seq<Slot>>
    requires |row.inputs| == |q.ops| == |mask|
  {
    var key :- GroupKey(q.num, row.keyValues);
    var at := FindSlot(table, key);
    if at < |table| then
      if |table[at].group.states| != |q.ops| then Err(TypeError)
      else
        var states :- UpdateMasked(q, table[at].group.states, row.inputs, mask, true);
        Ok(table[at := Slot(key, Group(table[at].group.keyValues, states))])
    else if Full(q, table) then Err(GroupLimitExceeded)
    else
      var states :- UpdateMasked(q, CreateAll(q.ops), row.inputs, mask, true);
      Ok(table + [Slot(key, Group(row.keyValues, states))])
  }

  /** Second scan: the group the reference remembers is fed the late inputs. */
  function FeedRow(q: Query, table: seq<Slot>, row: RowIn, mask: Mask): Result<seq<Slot>>
    requires |row.inputs| == |q.ops| == |mask|
  {
    var key :- GroupKey(q.num, row.keyValues);
    var at := FindSlot(table, key);
    if at == |table| || |table[at].group.states| != |q.ops| then Err(TypeError)
    else
      var states :- UpdateMasked(q, table[at].group.states, row.inputs, mask, false);
      Ok(table[at := Slot(key, Group(table[at].group.keyValues, states))])
  }

  function OpenRows(q: Query, rows: seq<RowIn>, mask: Mask): Result<seq<Slot>>
    requires Shaped(q, rows) && |mask| == |q.ops|
    decreases |rows|
  {
    if rows == [] then Ok([])
    else
      var before :- OpenRows(q, rows[..|rows| - 1], mask);
      OpenRow(q, before, rows[|rows| - 1], mask)
  }

  function FeedRows(q: Query, table: seq<Slot>, rows: seq<RowIn>, mask: Mask): Result<seq<Slot>>
    requires Shaped(q, rows) && |mask| == |q.ops|
    decreases |rows|
  {
    if rows == [] then Ok(table)
    else
      var before :- FeedRows(q, table, rows[..|rows| - 1], mask);
      FeedRow(q, before, rows[|rows| - 1], mask)
  }

  /** Each early state is the run over `open`, each other one over `fed`. */
  ghost predicate MaskedStatesAre(q: Query, states: seq<State>, mask: Mask, open: seq<RowIn>, fed: seq<RowIn>)
    requires Shaped(q, open) && Shaped(q, fed) && |mask| == |q.ops|
  {
    && |states| == |q.ops|
    && forall j :: 0 <= j < |q.ops| ==>
         Run(q.key, q.ops[j], Column(if mask[j] then open else fed, j)) == Ok(states[j])
  }

  lemma {:induction false} UpdateMaskedMeans(q: Query, states: seq<State>, inputs: seq<Scalar>, mask: Mask, early: bool)
    requires |states| == |inputs| == |mask|
    ensures UpdateMasked(q, states, inputs, mask, early).Ok? <==>
      forall j :: 0 <= j < |states| && mask[j] == early ==> Update(q.key, states[j], inputs[j]).Ok?
    ensures UpdateMasked(q, states, inputs, mask, early).Ok? ==>
      var next := UpdateMasked(q, states, inputs, mask, early).value;
      && |next| == |states|
      && forall j :: 0 <= j < |states| ==>
           if mask[j] == early then Update(q.key, states[j], inputs[j]) == Ok(next[j]) else next[j] == states[j]
  {
    hide Update;
    if states != [] {
      UpdateMaskedMeans(q, states[1..], inputs[1..], mask[1..], early);
      assert forall j :: 1 <= j < |states| ==>
        states[j] == states[1..][j - 1] && inputs[j] == inputs[1..][j - 1] && mask[j] == mask[1..][j - 1];
      if forall j :: 0 <= j < |states| && mask[j] == early ==> Update(q.key, states[j], inputs[j]).Ok? {
        forall j | 0 <= j < |states[1..]| && mask[1..][j] == early
          ensures Update(q.key, states[1..][j], inputs[1..][j]).Ok?
        {
          assert states[1..][j] == states[j + 1];
        }
      }
    }
  }

  /** A row more for the early states, or for the others. */
  lemma MaskedStep(q: Query, states: seq<State>, mask: Mask, open: seq<RowIn>, fed: seq<RowIn>, row: RowIn, early: bool)
    requires Shaped(q, open) && Shaped(q, fed) && |mask| == |q.ops| == |row.inputs|
    requires MaskedStatesAre(q, states, mask, open, fed)
    ensures Shaped(q, open + [row]) && Shaped(q, fed + [row])
    ensures UpdateMasked(q, states, row.inputs, mask, early).Ok? ==>
      MaskedStatesAre(q, UpdateMasked(q, states, row.inputs, mask, early).value, mask,
                      if early then open + [row] else open, if early then fed else fed + [row])
  {
    ShapedSnoc(q, open, row);
    ShapedSnoc(q, fed, row);
    UpdateMaskedMeans(q, states, row.inputs, mask, early);
    if UpdateMasked(q, states, row.inputs, mask, early).Ok? {
      var next := UpdateMasked(q, states, row.inputs, mask, early).value;
      var nextOpen, nextFed := if early then open + [row] else open, if early then fed else fed + [row];
      hide UpdateMasked;
      forall j | 0 <= j < |q.ops|
        ensures Run(q.key, q.ops[j], Column(if mask[j] then nextOpen else nextFed, j)) == Ok(next[j])
      {
        MaskedColumn(q, states[j], next[j], if mask[j] then open else fed, row, j);
        hide Run, Update;
      }
    }
  }

  lemma MaskedColumn(q: Query, s: State, next: State, rows: seq<RowIn>, row: RowIn, j: nat)
    requires Shaped(q, rows) && Shaped(q, rows + [row]) && |row.inputs| == |q.ops| && j < |q.ops|
    requires Run(q.key, q.ops[j], Column(rows, j)) == Ok(s)
    ensures Update(q.key, s, row.inputs[j]) == Ok(next) ==> Run(q.key, q.ops[j], Column(rows + [row], j)) == Ok(next)
  {
    ColumnSnoc(rows, row, j);
    RunSnoc(q.key, q.ops[j], Column(rows, j), row.inputs[j]);
  }

  /** The slot of a key after some rows were opened and some of them fed. */
  ghost predicate LateSlot(q: Query, slot: Slot, mask: Mask, open: seq<RowIn>, fed: seq<RowIn>, key: string)
    requires Shaped(q, open) && Shaped(q, fed) && |mask| == |q.ops|
  {
    && slot.key == key && slot.group.keyValues == FirstKeyValues(q, open, key)
    && Shaped(q, RowsWith(q, open, key)) && Shaped(q, RowsWith(q, fed, key))
    && MaskedStatesAre(q, slot.group.states, mask, RowsWith(q, open, key), RowsWith(q, fed, key))
  }

  ghost predicate LateMeans(q: Query, table: seq<Slot>, mask: Mask, open: seq<RowIn>, fed: seq<RowIn>)
    requires Shaped(q, open) && Shaped(q, fed) && |mask| == |q.ops|
  {
    && Keyed(q, open)
    && |table| == |KeysOf(q, open)|
    && forall i :: 0 <= i < |table| ==> LateSlot(q, table[i], mask, open, fed, KeysOf(q, open)[i])
  }

  lemma LateSlotOfKey(q: Query, table: seq<Slot>, mask: Mask, open: seq<RowIn>, fed: seq<RowIn>, key: string)
    requires Shaped(q, open) && Shaped(q, fed) && |mask| == |q.ops| && LateMeans(q, table, mask, open, fed)
    ensures var at := FindSlot(table, key);
            && (at < |table| <==> key in KeysOf(q, open))
            && (at < |table| ==>
                  && KeysOf(q, open)[at] == key && LateSlot(q, table[at], mask, open, fed, key)
                  && |table[at].group.states| == |q.ops|)
  {
    var at := FindSlot(table, key);
    assert forall i :: 0 <= i < |table| ==> LateSlot(q, table[i], mask, open, fed, KeysOf(q, open)[i]);
    if key in KeysOf(q, open) {
      var i :| 0 <= i < |KeysOf(q, open)| && KeysOf(q, open)[i] == key;
      assert table[i].key == key;
    }
  }

  /** A slot of another key is untouched by opening or feeding the row. */
  lemma LateSlotStays(q: Query, slot: Slot, mask: Mask, open: seq<RowIn>, fed: seq<RowIn>, row: RowIn, early: bool,
                      key: string)
    requires Shaped(q, open) && Shaped(q, fed) && |mask| == |q.ops| == |row.inputs|
    requires LateSlot(q, slot, mask, open, fed, key) && !HasKeyOf(q, row, key)
    ensures Shaped(q, open + [row]) && Shaped(q, fed + [row])
    ensures LateSlot(q, slot, mask, if early then open + [row] else open, if early then fed else fed + [row], key)
  {
    ShapedSnoc(q, open, row);
    ShapedSnoc(q, fed, row);
    RowsWithSnoc(q, open, row, key);
    RowsWithSnoc(q, fed, row, key);
    hide RowsWith, MaskedStatesAre;
  }

  /** The row's own slot takes the row in. */
  lemma LateSlotGrows(q: Query, slot: Slot, mask: Mask, open: seq<RowIn>, fed: seq<RowIn>, row: RowIn, early: bool,
                      key: string)
    requires Shaped(q, open) && Shaped(q, fed) && |mask| == |q.ops| == |row.inputs|
    requires LateSlot(q, slot, mask, open, fed, key) && HasKeyOf(q, row, key) && key in KeysOf(q, open)
    requires |slot.group.states| == |q.ops| && UpdateMasked(q, slot.group.states, row.inputs, mask, early).Ok?
    ensures Shaped(q, open + [row]) && Shaped(q, fed + [row])
    ensures LateSlot(q, Slot(key, Group(slot.group.keyValues,
                                        UpdateMasked(q, slot.group.states, row.inputs, mask, early).value)),
                     mask, if early then open + [row] else open, if early then fed else fed + [row], key)
  {
    ShapedSnoc(q, open, row);
    ShapedSnoc(q, fed, row);
    RowsWithSnoc(q, open, row, key);
    RowsWithSnoc(q, fed, row, key);
    KeysHaveRows(q, open, key);
    MaskedStep(q, slot.group.states, mask, RowsWith(q, open, key), RowsWith(q, fed, key), row, early);
    hide RowsWith, MaskedStatesAre, UpdateMasked;
    assert (RowsWith(q, open, key) + [row])[0] == RowsWith(q, open, key)[0];
  }

  lemma LateSlotOpens(q: Query, mask: Mask, open: seq<RowIn>, row: RowIn, key: string)
    requires Shaped(q, open) && |mask| == |q.ops| == |row.inputs| && HasKeyOf(q, row, key) && key !in KeysOf(q, open)
    requires UpdateMasked(q, CreateAll(q.ops), row.inputs, mask, true).Ok?
    ensures Shaped(q, open + [row]) && Shaped(q, [])
    ensures LateSlot(q,
                     Slot(key, Group(row.keyValues, UpdateMasked(q, CreateAll(q.ops), row.inputs, mask, true).value)),
                     mask, open + [row], [], key)
  {
    ShapedSnoc(q, open, row);
    RowsWithSnoc(q, open, row, key);
    KeysHaveRows(q, open, key);
    NoRowsStates(q);
    assert MaskedStatesAre(q, CreateAll(q.ops), mask, [], []);
    MaskedStep(q, CreateAll(q.ops), mask, [], [], row, true);
    assert RowsWith(q, [], key) == [];
    hide RowsWith, MaskedStatesAre, UpdateMasked;
    assert [] + [row] == [row];
  }

  lemma OpenRowMeans(q: Query, table: seq<Slot>, mask: Mask, open: seq<RowIn>, row: RowIn)
    requires Shaped(q, open) && Shaped(q, []) && |mask| == |q.ops| == |row.inputs|
    requires LateMeans(q, table, mask, open, [])
    requires OpenRow(q, table, row, mask).Ok?
    ensures Shaped(q, open + [row]) && LateMeans(q, OpenRow(q, table, row, mask).value, mask, open + [row], [])
  {
    var key, next := GroupKey(q.num, row.keyValues).value, OpenRow(q, table, row, mask).value;
    ShapedSnoc(q, open, row);
    KeyedSnoc(q, open, row);
    GroupKeySucceeds(q.num, row.keyValues);
    KeysSnoc(q, open, row, key);
    LateSlotOfKey(q, table, mask, open, [], key);
    KeysUnique(q, open);
    var at, keys := FindSlot(table, key), KeysOf(q, open);
    if at < |table| {
      LateSlotGrows(q, table[at], mask, open, [], row, true, key);
    } else {
      LateSlotOpens(q, mask, open, row, key);
    }
    hide OpenRow, UpdateMasked, KeysOf, RowsWith, GroupKey, LateSlot, FindSlot, Keyed, Shaped;
    forall i | 0 <= i < |next| ensures LateSlot(q, next[i], mask, open + [row], [], AddKey(keys, key)[i]) {
      if i < |table| && i != at {
        assert LateSlot(q, table[i], mask, open, [], keys[i]);
        LateSlotStays(q, table[i], mask, open, [], row, true, keys[i]);
      }
    }
  }

  lemma FeedRowMeans(q: Query, table: seq<Slot>, mask: Mask, open: seq<RowIn>, fed: seq<RowIn>, row: RowIn)
    requires Shaped(q, open) && Shaped(q, fed) && |mask| == |q.ops| == |row.inputs|
    requires LateMeans(q, table, mask, open, fed) && FeedRow(q, table, row, mask).Ok?
    ensures Shaped(q, fed + [row]) && LateMeans(q, FeedRow(q, table, row, mask).value, mask, open, fed + [row])
  {
    var key, next := GroupKey(q.num, row.keyValues).value, FeedRow(q, table, row, mask).value;
    ShapedSnoc(q, fed, row);
    LateSlotOfKey(q, table, mask, open, fed, key);
    KeysUnique(q, open);
    var at, keys := FindSlot(table, key), KeysOf(q, open);
    LateSlotGrows(q, table[at], mask, open, fed, row, false, key);
    hide FeedRow, UpdateMasked, KeysOf, RowsWith, GroupKey, LateSlot, FindSlot, Keyed, Shaped;
    forall i | 0 <= i < |next| ensures LateSlot(q, next[i], mask, open, fed + [row], keys[i]) {
      if i != at {
        assert LateSlot(q, table[i], mask, open, fed, keys[i]);
        LateSlotStays(q, table[i], mask, open, fed, row, false, keys[i]);
      }
    }
  }

  lemma {:induction false} OpenedMeans(q: Query, rows: seq<RowIn>, mask: Mask)
    requires Shaped(q, rows) && Shaped(q, []) && |mask| == |q.ops| && OpenRows(q, rows, mask).Ok?
    ensures LateMeans(q, OpenRows(q, rows, mask).value, mask, rows, [])
    decreases |rows|
  {
    if rows != [] {
      var front, row := rows[..|rows| - 1], rows[|rows| - 1];
      assert rows == front + [row];
      OpenedMeans(q, front, mask);
      OpenRowMeans(q, OpenRows(q, front, mask).value, mask, front, row);
    }
  }

  lemma {:induction false} FedMeans(q: Query, table: seq<Slot>, open: seq<RowIn>, rows: seq<RowIn>, mask: Mask)
    requires Shaped(q, open) && Shaped(q, rows) && Shaped(q, []) && |mask| == |q.ops|
    requires LateMeans(q, table, mask, open, []) && FeedRows(q, table, rows, mask).Ok?
    ensures LateMeans(q, FeedRows(q, table, rows, mask).value, mask, open, rows)
    decreases |rows|
  {
    if rows != [] {
      var front, row := rows[..|rows| - 1], rows[|rows| - 1];
      assert rows == front + [row];
      FedMeans(q, table, open, front, mask);
      hide LateMeans, FeedRow;
      FeedRowMeans(q, FeedRows(q, table, front, mask).value, mask, open, front, row);
    }
  }

  /** Opened and fed with the same rows, the table means those rows. */
  lemma AllFedMeans(q: Query, table: seq<Slot>, rows: seq<RowIn>, mask: Mask)
    requires Shaped(q, rows) && |mask| == |q.ops| && LateMeans(q, table, mask, rows, rows)
    ensures Means(q, table, rows)
  {
    forall i | 0 <= i < |table| ensures SlotMeans(q, table[i], rows, KeysOf(q, rows)[i]) {
      assert LateSlot(q, table[i], mask, rows, rows, KeysOf(q, rows)[i]);
    }
  }

  lemma {:induction false} OpenedWithinLimit(q: Query, rows: seq<RowIn>, mask: Mask)
    requires Shaped(q, rows) && |mask| == |q.ops| && OpenRows(q, rows, mask).Ok?
    ensures q.maxGroups.Some? ==> |OpenRows(q, rows, mask).value| <= q.maxGroups.value
    decreases |rows|
  {
    if rows != [] {
      OpenedWithinLimit(q, rows[..|rows| - 1], mask);
      hide UpdateMasked, GroupKey;
    }
  }

  lemma MeaningIsGroupable(q: Query, table: seq<Slot>, rows: seq<RowIn>)
    requires Shaped(q, rows) && Means(q, table, rows) && (q.maxGroups.Some? ==> |table| <= q.maxGroups.value)
    ensures Groupable(q, rows)
  {
    forall key | key in KeysOf(q, rows)
      ensures Shaped(q, RowsWith(q, rows, key)) && Accepted(q, RowsWith(q, rows, key))
    {
      var i :| 0 <= i < |KeysOf(q, rows)| && KeysOf(q, rows)[i] == key;
      assert SlotMeans(q, table[i], rows, KeysOf(q, rows)[i]);
    }
  }

  // ----- When the two scans succeed -----

  lemma MaskedStepSucceeds(q: Query, states: seq<State>, mask: Mask, open: seq<RowIn>, fed: seq<RowIn>, row: RowIn,
                           early: bool)
    requires Shaped(q, open) && Shaped(q, fed) && |mask| == |q.ops| == |row.inputs|
    requires MaskedStatesAre(q, states, mask, open, fed)
    requires Shaped(q, (if early then open else fed) + [row]) && Accepted(q, (if early then open else fed) + [row])
    ensures UpdateMasked(q, states, row.inputs, mask, early).Ok?
  {
    var rows := if early then open else fed;
    forall j | 0 <= j < |states| && mask[j] == early ensures Update(q.key, states[j], row.inputs[j]).Ok? {
      assert Run(q.key, q.ops[j], Column(rows + [row], j)).Ok?;
      ColumnSnoc(rows, row, j);
      RunSnoc(q.key, q.ops[j], Column(rows, j), row.inputs[j]);
      hide Run, Update;
    }
    UpdateMaskedMeans(q, states, row.inputs, mask, early);
  }

  lemma OpenRowSucceeds(q: Query, table: seq<Slot>, mask: Mask, open: seq<RowIn>, row: RowIn)
    requires Shaped(q, open) && Shaped(q, []) && Shaped(q, open + [row]) && |mask| == |q.ops| == |row.inputs|
    requires LateMeans(q, table, mask, open, []) && Groupable(q, open + [row])
    ensures OpenRow(q, table, row, mask).Ok?
  {
    assert (open + [row])[|open|] == row;
    GroupKeySucceeds(q.num, row.keyValues);
    var key := GroupKey(q.num, row.keyValues).value;
    GroupablePrefix(q, open, row, key);
    RowsWithSnoc(q, open, row, key);
    RowsWithShaped(q, open, key);
    LateSlotOfKey(q, table, mask, open, [], key);
    var at := FindSlot(table, key);
    hide Groupable, RowsWith, KeysOf, GroupKey;
    if at < |table| {
      MaskedStepSucceeds(q, table[at].group.states, mask, RowsWith(q, open, key), RowsWith(q, [], key), row, true);
    } else {
      KeysHaveRows(q, open, key);
      NoRowsStates(q);
      assert MaskedStatesAre(q, CreateAll(q.ops), mask, [], []);
      MaskedStepSucceeds(q, CreateAll(q.ops), mask, [], [], row, true);
    }
  }

  lemma FeedRowSucceeds(q: Query, table: seq<Slot>, mask: Mask, open: seq<RowIn>, fed: seq<RowIn>, row: RowIn,
                        key: string)
    requires Shaped(q, open) && Shaped(q, fed) && Shaped(q, fed + [row]) && |mask| == |q.ops| == |row.inputs|
    requires LateMeans(q, table, mask, open, fed) && HasKeyOf(q, row, key) && key in KeysOf(q, open)
    requires Groupable(q, fed + [row])
    ensures FeedRow(q, table, row, mask).Ok?
  {
    GroupablePrefix(q, fed, row, key);
    RowsWithSnoc(q, fed, row, key);
    RowsWithShaped(q, fed, key);
    LateSlotOfKey(q, table, mask, open, fed, key);
    var at := FindSlot(table, key);
    hide Groupable, RowsWith, KeysOf;
    MaskedStepSucceeds(q, table[at].group.states, mask, RowsWith(q, open, key), RowsWith(q, fed, key), row, false);
  }

  lemma {:induction false} OpenSucceeds(q: Query, rows: seq<RowIn>, mask: Mask)
    requires Shaped(q, rows) && |mask| == |q.ops| && Groupable(q, rows)
    ensures OpenRows(q, rows, mask).Ok?
    decreases |rows|
  {
    if rows != [] {
      var front, row := rows[..|rows| - 1], rows[|rows| - 1];
      assert rows == front + [row];
      GroupableFront(q, front, row);
      OpenSucceeds(q, front, mask);
      OpenedMeans(q, front, mask);
      OpenRowSucceeds(q, OpenRows(q, front, mask).value, mask, front, row);
    }
  }

  lemma GroupableFront(q: Query, front: seq<RowIn>, row: RowIn)
    requires Shaped(q, front) && Shaped(q, front + [row]) && Groupable(q, front + [row])
    ensures Groupable(q, front) && GroupKey(q.num, row.keyValues).Ok?
  {
    assert (front + [row])[|front|] == row;
    GroupKeySucceeds(q.num, row.keyValues);
    GroupablePrefix(q, front, row, GroupKey(q.num, row.keyValues).value);
  }

  lemma {:induction false} KeyListed(q: Query, rows: seq<RowIn>, n: nat, key: string)
    requires n < |rows| && HasKeyOf(q, rows[n], key)
    ensures key in KeysOf(q, rows)
    decreases |rows|
  {
    var front := rows[..|rows| - 1];
    if n < |rows| - 1 {
      KeyListed(q, front, n, key);
      KeysGrow(KeysOf(q, front), key);
    } else {
      KeysGrow(KeysOf(q, front), key);
    }
    match GroupKey(q.num, rows[|rows| - 1].keyValues)
    case Ok(last) => KeysGrow(KeysOf(q, front), last);
    case Err(_) =>
  }

  /** Feeding a groupable prefix of the opened rows succeeds. */
  lemma {:induction false} FeedSucceeds(q: Query, table: seq<Slot>, open: seq<RowIn>, rows: seq<RowIn>, mask: Mask)
    requires Shaped(q, open) && Shaped(q, rows) && Shaped(q, []) && |mask| == |q.ops|
    requires LateMeans(q, table, mask, open, []) && Groupable(q, rows)
    requires |rows| <= |open| && rows == open[..|rows|]
    ensures FeedRows(q, table, rows, mask).Ok?
    decreases |rows|
  {
    if rows != [] {
      var n := |rows| - 1;
      var front, row := rows[..n], rows[n];
      assert rows == front + [row];
      GroupableFront(q, front, row);
      FeedSucceeds(q, table, open, front, mask);
      FedMeans(q, table, open, front, mask);
      var key := GroupKey(q.num, row.keyValues).value;
      KeyListed(q, open, n, key);
      FeedRowSucceeds(q, FeedRows(q, table, front, mask).value, mask, open, front, row, key);
    }
  }

  /** The first scan over some rows and the second over others. */
  function TwoScans(q: Query, first: seq<RowIn>, second: seq<RowIn>, mask: Mask): Result<seq<Slot>>
    requires Shaped(q, first) && Shaped(q, second) && |mask| == |q.ops|
  {
    var table :- OpenRows(q, first, mask);
    FeedRows(q, table, second, mask)
  }

  /** Opening every row and then feeding the same rows succeeds exactly when the
      direct grouped aggregate does, and gives the same table. */
  lemma LateIsDirect(q: Query, rows: seq<RowIn>, mask: Mask)
    requires Shaped(q, rows) && |mask| == |q.ops|
    ensures TwoScans(q, rows, rows, mask).Ok? <==> AddRows(q, [], rows).Ok?
    ensures AddRows(q, [], rows).Ok? ==> TwoScans(q, rows, rows, mask) == AddRows(q, [], rows)
  {
    GroupByMeans(q, rows);
    assert rows[..|rows|] == rows && Shaped(q, []);
    hide Groupable, Means, OpenRows, FeedRows, AddRows;
    if AddRows(q, [], rows).Ok? {
      OpenSucceeds(q, rows, mask);
      OpenedMeans(q, rows, mask);
      FeedSucceeds(q, OpenRows(q, rows, mask).value, rows, rows, mask);
    }
    if TwoScans(q, rows, rows, mask).Ok? {
      ScannedTable(q, rows, mask);
    }
  }

  lemma ScannedTable(q: Query, rows: seq<RowIn>, mask: Mask)
    requires Shaped(q, rows) && |mask| == |q.ops| && TwoScans(q, rows, rows, mask).Ok?
    ensures TwoScans(q, rows, rows, mask) == AddRows(q, [], rows)
  {
    var table := OpenRows(q, rows, mask).value;
    var fed := FeedRows(q, table, rows, mask).value;
    OpenedMeans(q, rows, mask);
    FedMeans(q, table, rows, rows, mask);
    AllFedMeans(q, fed, rows, mask);
    OpenedWithinLimit(q, rows, mask);
    assert |fed| == |table|;
    hide *;
    MeaningIsGroupable(q, fed, rows);
    GroupByMeans(q, rows);
    MeaningIsUnique(q, fed, AddRows(q, [], rows).value, rows);
  }

  // ----- What the second scan really feeds -----

  /** The late inputs of a row: objects among them read as null. */
  function LateRow(row: RowIn, mask: Mask): (late: RowIn)
    requires |row.inputs| == |mask|
    ensures |late.inputs| == |row.inputs| && late.keyValues == row.keyValues
    ensures forall j :: 0 <= j < |mask| ==>
      late.inputs[j] == if mask[j] then row.inputs[j] else LateValue(row.inputs[j])
  {
    RowIn(row.keyValues,
          seq(|row.inputs|, j requires 0 <= j < |row.inputs| =>
            if mask[j] then row.inputs[j] else LateValue(row.inputs[j])))
  }

  function LateRowsOf(rows: seq<RowIn>, mask: Mask): (late: seq<RowIn>)
    requires forall i :: 0 <= i < |rows| ==> |rows[i].inputs| == |mask|
    ensures |late| == |rows| && forall i :: 0 <= i < |late| ==> late[i] == LateRow(rows[i], mask)
  {
    seq(|rows|, i requires 0 <= i < |rows| => LateRow(rows[i], mask))
  }

  /** The late aggregate: groups are opened on the rows, then late inputs are fed. */
  function LateTable(q: Query, rows: seq<RowIn>, mask: Mask): Result<seq<Slot>>
    requires Shaped(q, rows) && |mask| == |q.ops|
  {
    TwoScans(q, rows, LateRowsOf(rows, mask), mask)
  }

  lemma {:induction false} MaskedInputsOnly(q: Query, states: seq<State>, a: seq<Scalar>, b: seq<Scalar>, mask: Mask,
                                            early: bool)
    requires |states| == |a| == |b| == |mask| && forall j :: 0 <= j < |mask| && mask[j] == early ==> a[j] == b[j]
    ensures UpdateMasked(q, states, a, mask, early) == UpdateMasked(q, states, b, mask, early)
  {
    hide Update;
    if states != [] {
      assert forall j :: 0 <= j < |mask| - 1 ==>
        mask[1..][j] == mask[j + 1] && a[1..][j] == a[j + 1] && b[1..][j] == b[j + 1];
      MaskedInputsOnly(q, states[1..], a[1..], b[1..], mask[1..], early);
    }
  }

  /** The first scan does not look at late inputs. */
  lemma {:induction false} OpenLate(q: Query, rows: seq<RowIn>, mask: Mask)
    requires Shaped(q, rows) && |mask| == |q.ops|
    ensures OpenRows(q, LateRowsOf(rows, mask), mask) == OpenRows(q, rows, mask)
    decreases |rows|
  {
    hide OpenRow, UpdateMasked, LateRow;
    if rows != [] {
      var front, row := rows[..|rows| - 1], rows[|rows| - 1];
      OpenLate(q, front, mask);
      assert LateRowsOf(rows, mask)[..|rows| - 1] == LateRowsOf(front, mask);
      if OpenRows(q, front, mask).Ok? {
        OpenRowLate(q, OpenRows(q, front, mask).value, row, mask);
      }
    }
  }

  lemma OpenRowLate(q: Query, table: seq<Slot>, row: RowIn, mask: Mask)
    requires |row.inputs| == |q.ops| == |mask|
    ensures OpenRow(q, table, LateRow(row, mask), mask) == OpenRow(q, table, row, mask)
  {
    hide UpdateMasked, GroupKey;
    forall states: seq<State> | |states| == |q.ops|
      ensures UpdateMasked(q, states, LateRow(row, mask).inputs, mask, true)
        == UpdateMasked(q, states, row.inputs, mask, true)
    {
      MaskedInputsOnly(q, states, LateRow(row, mask).inputs, row.inputs, mask, true);
    }
  }

  /** The late aggregate of some rows is the direct aggregate of their late rows. */
  lemma LateTableIsDirect(q: Query, rows: seq<RowIn>, mask: Mask)
    requires Shaped(q, rows) && |mask| == |q.ops|
    ensures LateTable(q, rows, mask).Ok? <==> AddRows(q, [], LateRowsOf(rows, mask)).Ok?
    ensures LateTable(q, rows, mask).Ok? ==> LateTable(q, rows, mask) == AddRows(q, [], LateRowsOf(rows, mask))
  {
    OpenLate(q, rows, mask);
    LateIsDirect(q, LateRowsOf(rows, mask), mask);
  }

  /** No object among the inputs that are fed late. */
  predicate PlainInputs(row: RowIn, mask: Mask)
    requires |row.inputs| == |mask|
  {
    forall j :: 0 <= j < |mask| && !mask[j] ==> PlainValue(row.inputs[j])
  }

  /** Main theorem: without objects among the late inputs the late aggregate
      succeeds exactly when the direct one does, with the same table. */
  lemma PlainLateIsDirect(q: Query, rows: seq<RowIn>, mask: Mask)
    requires Shaped(q, rows) && |mask| == |q.ops|
    requires forall i :: 0 <= i < |rows| ==> PlainInputs(rows[i], mask)
    ensures LateTable(q, rows, mask).Ok? <==> AddRows(q, [], rows).Ok?
    ensures AddRows(q, [], rows).Ok? ==> LateTable(q, rows, mask) == AddRows(q, [], rows)
  {
    forall i | 0 <= i < |rows| ensures LateRow(rows[i], mask) == rows[i] {
      assert LateRow(rows[i], mask).inputs == rows[i].inputs;
    }
    assert LateRowsOf(rows, mask) == rows;
    LateTableIsDirect(q, rows, mask);
  }

  // ----- With timestamps among the late inputs -----

  lemma {:induction false} LateKeysAndRows(q: Query, rows: seq<RowIn>, mask: Mask, key: string)
    requires Shaped(q, rows) && |mask| == |q.ops|
    ensures KeysOf(q, LateRowsOf(rows, mask)) == KeysOf(q, rows)
    ensures Shaped(q, RowsWith(q, rows, key))
    ensures RowsWith(q, LateRowsOf(rows, mask), key) == LateRowsOf(RowsWith(q, rows, key), mask)
    decreases |rows|
  {
    if rows != [] {
      var n := |rows| - 1;
      LateKeysAndRows(q, rows[..n], mask, key);
      assert LateRowsOf(rows, mask)[..n] == LateRowsOf(rows[..n], mask);
    }
  }

  lemma LateColumn(q: Query, rows: seq<RowIn>, mask: Mask, j: nat)
    requires Shaped(q, rows) && |mask| == |q.ops| && j < |mask|
    ensures Column(LateRowsOf(rows, mask), j) == if mask[j] then Column(rows, j) else LateValues(Column(rows, j))
  {
  }

  /** Every late column of every group agrees with the direct one. */
  ghost predicate GroupsAgree(q: Query, rows: seq<RowIn>, mask: Mask)
    requires Shaped(q, rows) && |mask| == |q.ops|
  {
    forall key, j :: key in KeysOf(q, rows) && 0 <= j < |q.ops| && !mask[j] ==>
      Shaped(q, RowsWith(q, rows, key)) && LateAgrees(q.key, q.ops[j], Column(RowsWith(q, rows, key), j))
  }

  lemma LateStatesAre(q: Query, states: seq<State>, rows: seq<RowIn>, mask: Mask)
    requires Shaped(q, rows) && |mask| == |q.ops| && StatesAre(q, states, rows)
    ensures StatesAre(q, states, LateRowsOf(rows, mask)) <==>
      forall j :: 0 <= j < |q.ops| && !mask[j] ==> LateAgrees(q.key, q.ops[j], Column(rows, j))
  {
    hide Run, LateAgrees;
    forall j | 0 <= j < |q.ops|
      ensures Run(q.key, q.ops[j], Column(LateRowsOf(rows, mask), j)) == Ok(states[j])
         <==> mask[j] || LateAgrees(q.key, q.ops[j], Column(rows, j))
    {
      LateColumn(q, rows, mask, j);
      LateColumnExactly(q.key, q.ops[j], Column(rows, j));
    }
  }

  lemma LateMeaning(q: Query, table: seq<Slot>, rows: seq<RowIn>, mask: Mask)
    requires Shaped(q, rows) && |mask| == |q.ops| && Means(q, table, rows)
    ensures Means(q, table, LateRowsOf(rows, mask)) <==> GroupsAgree(q, rows, mask)
  {
    var late, keys := LateRowsOf(rows, mask), KeysOf(q, rows);
    LateKeysAndRows(q, rows, mask, "");
    assert Keyed(q, late);
    hide KeysOf, StatesAre, Keyed, LateAgrees;
    forall i | 0 <= i < |table|
      ensures Shaped(q, RowsWith(q, rows, keys[i]))
      ensures SlotMeans(q, table[i], late, keys[i]) <==>
        forall j :: 0 <= j < |q.ops| && !mask[j] ==> LateAgrees(q.key, q.ops[j], Column(RowsWith(q, rows, keys[i]), j))
    {
      assert SlotMeans(q, table[i], rows, keys[i]);
      LateSlotMeans(q, table[i], rows, mask, keys[i]);
    }
    if GroupsAgree(q, rows, mask) {
      assert forall i :: 0 <= i < |table| ==> SlotMeans(q, table[i], late, KeysOf(q, late)[i]);
    }
    if Means(q, table, late) {
      forall key, j | key in keys && 0 <= j < |q.ops| && !mask[j]
        ensures Shaped(q, RowsWith(q, rows, key)) && LateAgrees(q.key, q.ops[j], Column(RowsWith(q, rows, key), j))
      {
        var i :| 0 <= i < |keys| && keys[i] == key;
        assert SlotMeans(q, table[i], late, KeysOf(q, late)[i]);
      }
    }
  }

  lemma LateSlotMeans(q: Query, slot: Slot, rows: seq<RowIn>, mask: Mask, key: string)
    requires Shaped(q, rows) && |mask| == |q.ops| && SlotMeans(q, slot, rows, key)
    ensures Shaped(q, RowsWith(q, rows, key))
    ensures SlotMeans(q, slot, LateRowsOf(rows, mask), key) <==>
      forall j :: 0 <= j < |q.ops| && !mask[j] ==> LateAgrees(q.key, q.ops[j], Column(RowsWith(q, rows, key), j))
  {
    LateKeysAndRows(q, rows, mask, key);
    LateStatesAre(q, slot.group.states, RowsWith(q, rows, key), mask);
    hide StatesAre, RowsWith, LateAgrees;
  }

  /** Where the direct aggregate succeeds, the late one gives the same table if and
      only if every late column of every group agrees. */
  lemma LateExactly(q: Query, rows: seq<RowIn>, mask: Mask)
    requires Shaped(q, rows) && |mask| == |q.ops| && AddRows(q, [], rows).Ok?
    ensures LateTable(q, rows, mask) == AddRows(q, [], rows) <==> GroupsAgree(q, rows, mask)
  {
    var late, table := LateRowsOf(rows, mask), AddRows(q, [], rows).value;
    GroupByMeans(q, rows);
    GroupByMeans(q, late);
    LateMeaning(q, table, rows, mask);
    LateTableIsDirect(q, rows, mask);
    assert q.maxGroups.Some? ==> |table| <= q.maxGroups.value;
    hide Groupable, Means, AddRows, LateTable, GroupsAgree;
    if GroupsAgree(q, rows, mask) {
      MeaningIsGroupable(q, table, late);
      MeaningIsUnique(q, table, AddRows(q, [], late).value, late);
    }
  }

  /** A minimum over one timestamp: the late aggregate reports null. */
  lemma LateMinimumIsNull(num: Num -> string, key: Scalar -> string, t: Timestamp)
    ensures var q, rows := Query(num, key, [Extreme(true)], None), [RowIn([], [Time(t)])];
      && Shaped(q, rows)
      && AddRows(q, [], rows) == Ok([Slot("", Group([], [ExtremeState(true, Time(t))]))])
      && LateTable(q, rows, [false]) == Ok([Slot("", Group([], [ExtremeState(true, Null)]))])
  {
    var q, row := Query(num, key, [Extreme(true)], None), RowIn([], [Time(t)]);
    assert GroupKey(num, []) == Ok("");
    var created := CreateAll(q.ops);
    assert created == [ExtremeState(true, Null)];
    DirectMinimum(q, row, created);
    LateMinimum(q, row, created);
  }

  lemma DirectMinimum(q: Query, row: RowIn, created: seq<State>)
    requires GroupKey(q.num, row.keyValues) == Ok("") && q.maxGroups.None?
    requires CreateAll(q.ops) == created == [ExtremeState(true, Null)] && |row.inputs| == 1 && row.inputs[0].Time?
    ensures AddRows(q, [], [row]) == Ok([Slot("", Group(row.keyValues, [ExtremeState(true, row.inputs[0])]))])
  {
    assert [row][..0] == [];
    assert created[1..] == [] && row.inputs[1..] == [] && UpdateStates(q, [], []) == Ok([]);
    assert Update(q.key, created[0], row.inputs[0]) == Ok(ExtremeState(true, row.inputs[0]));
    assert [ExtremeState(true, row.inputs[0])] + [] == [ExtremeState(true, row.inputs[0])];
    assert UpdateStates(q, created, row.inputs) == Ok([ExtremeState(true, row.inputs[0])]);
    var slot := Slot("", Group(row.keyValues, [ExtremeState(true, row.inputs[0])]));
    assert [] + [slot] == [slot];
    assert AddRow(q, [], row) == Ok([slot]);
  }

  lemma LateMinimum(q: Query, row: RowIn, created: seq<State>)
    requires GroupKey(q.num, row.keyValues) == Ok("") && q.maxGroups.None? && |q.ops| == 1
    requires CreateAll(q.ops) == created == [ExtremeState(true, Null)] && |row.inputs| == 1 && row.inputs[0].Time?
    ensures LateTable(q, [row], [false]) == Ok([Slot("", Group(row.keyValues, created))])
  {
    var late := LateRow(row, [false]);
    assert [row][..0] == [] && [late][..0] == [] && LateRowsOf([row], [false]) == [late];
    assert late.inputs == [Null];
    assert created[1..] == [] && row.inputs[1..] == [] && [false][1..] == [] && late.inputs[1..] == [];
    assert UpdateMasked(q, [], [], [], true) == Ok([]) && UpdateMasked(q, [], [], [], false) == Ok([]);
    assert [created[0]] + [] == created;
    assert UpdateMasked(q, created, row.inputs, [false], true) == Ok(created);
    var slot := Slot("", Group(row.keyValues, created));
    assert [] + [slot] == [slot];
    assert OpenRow(q, [], row, [false]) == Ok([slot]);
    assert OpenRows(q, [row], [false]) == Ok([slot]);
    assert Update(q.key, created[0], Null) == Ok(created[0]);
    assert UpdateMasked(q, created, late.inputs, [false], false) == Ok(created);
    assert [slot][0 := slot] == [slot];
    assert FeedRow(q, [slot], late, [false]) == Ok([slot]);
    assert FeedRows(q, [slot], [late], [false]) == Ok([slot]);
  }

  // ----- The two scans as they run -----

  /** The rows the references name. */
  function RowsAt(refs: seq<RowRef>, rowOf: RowRef -> RowIn): (rows: seq<RowIn>)
    ensures |rows| == |refs| && forall i :: 0 <= i < |rows| ==> rows[i] == rowOf(refs[i])
  {
    seq(|refs|, i requires 0 <= i < |refs| => rowOf(refs[i]))
  }

  lemma {:induction false} OpenFails(q: Query, rows: seq<RowIn>, mask: Mask, n: nat)
    requires Shaped(q, rows) && |mask| == |q.ops| && n <= |rows| && OpenRows(q, rows[..n], mask).Err?
    ensures OpenRows(q, rows, mask) == OpenRows(q, rows[..n], mask)
    decreases |rows|
  {
    if n == |rows| {
      assert rows[..n] == rows;
    } else {
      assert rows[..|rows| - 1][..n] == rows[..n];
      OpenFails(q, rows[..|rows| - 1], mask, n);
    }
  }

  lemma {:induction false} FeedFails(q: Query, table: seq<Slot>, rows: seq<RowIn>, mask: Mask, n: nat)
    requires Shaped(q, rows) && |mask| == |q.ops| && n <= |rows| && FeedRows(q, table, rows[..n], mask).Err?
    ensures FeedRows(q, table, rows, mask) == FeedRows(q, table, rows[..n], mask)
    decreases |rows|
  {
    if n == |rows| {
      assert rows[..n] == rows;
    } else {
      assert rows[..|rows| - 1][..n] == rows[..n];
      FeedFails(q, table, rows[..|rows| - 1], mask, n);
    }
  }

  lemma NothingScanned(q: Query, table: seq<Slot>, mask: Mask)
    requires |mask| == |q.ops|
    ensures Shaped(q, []) && OpenRows(q, [], mask) == Ok([]) && FeedRows(q, table, [], mask) == Ok(table)
  {
  }

  lemma OpenNext(q: Query, rows: seq<RowIn>, mask: Mask, n: nat, table: seq<Slot>)
    requires Shaped(q, rows) && |mask| == |q.ops| && n < |rows| && OpenRows(q, rows[..n], mask) == Ok(table)
    ensures OpenRows(q, rows[..n + 1], mask) == OpenRow(q, table, rows[n], mask)
  {
    assert rows[..n + 1][..n] == rows[..n];
    hide OpenRow;
  }

  lemma FeedNext(q: Query, started: seq<Slot>, rows: seq<RowIn>, mask: Mask, n: nat, table: seq<Slot>)
    requires Shaped(q, rows) && |mask| == |q.ops| && n < |rows| && FeedRows(q, started, rows[..n], mask) == Ok(table)
    ensures FeedRows(q, started, rows[..n + 1], mask) == FeedRow(q, table, rows[n], mask)
  {
    assert rows[..n + 1][..n] == rows[..n];
    hide FeedRow;
  }

  /** Groups are opened for every reference of the first scan; the windows then
      yield each reference once, in order, and its late inputs are fed. */
  method LateAggregate(q: Query, refs: seq<RowRef>, rowOf: RowRef -> RowIn, limit: nat, mask: Mask)
    returns (r: Result<seq<Slot>>)
    requires ScanOrdered(refs) && limit >= 1 && |mask| == |q.ops| && Shaped(q, RowsAt(refs, rowOf))
    ensures r == LateTable(q, RowsAt(refs, rowOf), mask)
  {
    hide OpenRow, FeedRow, OpenRows, FeedRows, ScanOrdered, LateRow;
    ghost var rows := RowsAt(refs, rowOf);
    ghost var late := LateRowsOf(rows, mask);
    var table: seq<Slot> := [];
    NothingScanned(q, table, mask);
    assert rows[..0] == [] && late[..0] == [];
    for n := 0 to |refs|
      invariant OpenRows(q, rows[..n], mask) == Ok(table)
    {
      OpenNext(q, rows, mask, n, table);
      var next := OpenRow(q, table, rowOf(refs[n]), mask);
      if next.Err? {
        OpenFails(q, rows, mask, n + 1);
        return next;
      }
      table := next.value;
    }
    assert rows[..|rows|] == rows;
    ghost var started := table;
    NothingScanned(q, started, mask);
    var yielded := MaterializeRefs(refs, limit);
    for n := 0 to |yielded|
      invariant FeedRows(q, started, late[..n], mask) == Ok(table)
    {
      FeedNext(q, started, late, mask, n, table);
      var next := FeedRow(q, table, LateRow(rowOf(yielded[n]), mask), mask);
      if next.Err? {
        FeedFails(q, started, late, mask, n + 1);
        return next;
      }
      table := next.value;
    }
    assert late[..|late|] == late;
    r := Ok(table);
  }

  // ----- Queries without group columns -----

  /** Without group columns every row falls in the one group of the empty key. */
  lemma {:induction false} OneGroup(q: Query, rows: seq<RowIn>)
    requires forall i :: 0 <= i < |rows| ==> rows[i].keyValues == []
    ensures KeysOf(q, rows) == if rows == [] then [] else [""]
    decreases |rows|
  {
    if rows != [] {
      OneGroup(q, rows[..|rows| - 1]);
      assert GroupKey(q.num, rows[|rows| - 1].keyValues) == Ok("");
    }
  }

  /** An ungrouped aggregate has one result row; the late one has it if and only
      if some row matched. */
  lemma UngroupedNeedsMatch(q: Query, rows: seq<RowIn>)
    requires Shaped(q, rows) && forall i :: 0 <= i < |rows| ==> rows[i].keyValues == []
    requires AddRows(q, [], rows).Ok?
    ensures |AddRows(q, [], rows).value| == 1 <==> rows != []
  {
    GroupByMeans(q, rows);
    OneGroup(q, rows);
  }
}
