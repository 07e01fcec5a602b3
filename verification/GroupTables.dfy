/** Grouped aggregation as a fold over rows into an insertion-ordered table of
    groups, and what that table means: one group per key, in order of first
    appearance, holding the states of exactly the rows with that key. */
module GroupTables {
  import opened Scalars
  import opened SortedRuns
  import opened Aggregates
  import opened AggregateMerges
  import opened GroupKeys

  /** What one row contributes: its key values and one input per aggregate. */
  datatype RowIn = RowIn(keyValues: seq<Scalar>, inputs: seq<Scalar>)

  datatype Group = Group(keyValues: seq<Scalar>, states: seq<State>)

  datatype Slot = Slot(key: string, group: Group)

  /** The renderings of numbers and values, the aggregates, and the group limit. */
  datatype Query = Query(num: Num -> string, key: Scalar -> string, ops: seq<Op>, maxGroups: Option<nat>)

  function CreateAll(ops: seq<Op>): (states: seq<State>)
    ensures |states| == |ops| && forall j :: 0 <= j < |ops| ==> states[j] == Create(ops[j])
  {
    seq(|ops|, j requires 0 <= j < |ops| => Create(ops[j]))
  }

  /** One row's inputs into one group's states, aggregate by aggregate. */
  function UpdateStates(q: Query, states: seq<State>, inputs: seq<Scalar>): Result<seq<State>> {
    if states == [] && inputs == [] then Ok([])
    else if states == [] || inputs == [] then Err(TypeError)
    else
      var first :- Update(q.key, states[0], inputs[0]);
      var rest :- UpdateStates(q, states[1..], inputs[1..]);
      Ok([first] + rest)
  }

  /** The position of a key's slot, or the table's length. */
  function FindSlot(table: seq<Slot>, key: string): (i: nat)
    ensures i <= |table| && (i < |table| ==> table[i].key == key)
    ensures forall j :: 0 <= j < i ==> table[j].key != key
  {
    if table == [] then 0
    else if table[0].key == key then 0
    else 1 + FindSlot(table[1..], key)
  }

  predicate Full(q: Query, table: seq<Slot>) {
    q.maxGroups.Some? && |table| >= q.maxGroups.value
  }

  function AddRow(q: Query, table: seq<Slot>, row: RowIn): Result<seq<Slot>> {
    var key :- GroupKey(q.num, row.keyValues);
    var at := FindSlot(table, key);
    if at < |table| then
      var states :- UpdateStates(q, table[at].group.states, row.inputs);
      Ok(table[at := Slot(key, Group(table[at].group.keyValues, states))])
    else if Full(q, table) then Err(GroupLimitExceeded)
    else
      var states :- UpdateStates(q, CreateAll(q.ops), row.inputs);
      Ok(table + [Slot(key, Group(row.keyValues, states))])
  }

  function AddRows(q: Query, table: seq<Slot>, rows: seq<RowIn>): Result<seq<Slot>>
    decreases |rows|
  {
    if rows == [] then Ok(table)
    else
      var before :- AddRows(q, table, rows[..|rows| - 1]);
      AddRow(q, before, rows[|rows| - 1])
  }

  function ThenRow(q: Query, r: Result<seq<Slot>>, row: RowIn): Result<seq<Slot>> {
    var table :- r;
    AddRow(q, table, row)
  }

  function ThenRows(q: Query, r: Result<seq<Slot>>, rows: seq<RowIn>): Result<seq<Slot>> {
    var table :- r;
    AddRows(q, table, rows)
  }

  lemma AddRowsSnoc(q: Query, table: seq<Slot>, rows: seq<RowIn>, row: RowIn)
    ensures AddRows(q, table, rows + [row]) == ThenRow(q, AddRows(q, table, rows), row)
  {
    assert (rows + [row])[..|rows|] == rows;
  }

  /** Cutting the rows into batches does not change the table. */
  lemma {:induction false} BatchesAreOnePass(q: Query, table: seq<Slot>, a: seq<RowIn>, b: seq<RowIn>)
    ensures AddRows(q, table, a + b) == ThenRows(q, AddRows(q, table, a), b)
    decreases |b|
  {
    hide AddRow, GroupKey;
    if b == [] {
      assert a + b == a;
    } else {
      var front, row := b[..|b| - 1], b[|b| - 1];
      BatchesAreOnePass(q, table, a, front);
      assert a + b == (a + front) + [row] && b == front + [row];
      hide AddRow, AddRows;
      AddRowsSnoc(q, table, a + front, row);
      if AddRows(q, table, a).Ok? {
        AddRowsSnoc(q, AddRows(q, table, a).value, front, row);
      }
    }
  }

  // ----- What a table means -----

  predicate HasKeyOf(q: Query, row: RowIn, key: string) {
    GroupKey(q.num, row.keyValues) == Ok(key)
  }

  /** The keys of the rows, in order of first appearance. */
  function KeysOf(q: Query, rows: seq<RowIn>): seq<string>
    decreases |rows|
  {
    if rows == [] then []
    else
      var before := KeysOf(q, rows[..|rows| - 1]);
      match GroupKey(q.num, rows[|rows| - 1].keyValues)
      case Ok(key) => AddKey(before, key)
      case Err(_) => before
  }

  /** The rows with a given key. */
  function RowsWith(q: Query, rows: seq<RowIn>, key: string): seq<RowIn>
    decreases |rows|
  {
    if rows == [] then []
    else
      var before := RowsWith(q, rows[..|rows| - 1], key);
      if HasKeyOf(q, rows[|rows| - 1], key) then before + [rows[|rows| - 1]] else before
  }

  /** The key values of the first row with a given key. */
  function FirstKeyValues(q: Query, rows: seq<RowIn>, key: string): seq<Scalar> {
    var those := RowsWith(q, rows, key);
    if those == [] then [] else those[0].keyValues
  }

  ghost predicate Shaped(q: Query, rows: seq<RowIn>) {
    forall i :: 0 <= i < |rows| ==> |rows[i].inputs| == |q.ops|
  }

  /** Input `j` of every row. */
  function Column(rows: seq<RowIn>, j: nat): (s: seq<Scalar>)
    requires forall i :: 0 <= i < |rows| ==> j < |rows[i].inputs|
    ensures |s| == |rows| && forall i :: 0 <= i < |rows| ==> s[i] == rows[i].inputs[j]
  {
    seq(|rows|, i requires 0 <= i < |rows| => rows[i].inputs[j])
  }

  /** Each state is the run of its aggregate over the rows' inputs. */
  ghost predicate StatesAre(q: Query, states: seq<State>, rows: seq<RowIn>)
    requires Shaped(q, rows)
  {
    && |states| == |q.ops|
    && forall j :: 0 <= j < |q.ops| ==> Run(q.key, q.ops[j], Column(rows, j)) == Ok(states[j])
  }

  /** Every aggregate accepts the rows' inputs. */
  ghost predicate Accepted(q: Query, rows: seq<RowIn>)
    requires Shaped(q, rows)
  {
    forall j :: 0 <= j < |q.ops| ==> Run(q.key, q.ops[j], Column(rows, j)).Ok?
  }

  ghost predicate SlotMeans(q: Query, slot: Slot, rows: seq<RowIn>, key: string)
    requires Shaped(q, rows)
  {
    && slot.key == key
    && slot.group.keyValues == FirstKeyValues(q, rows, key)
    && Shaped(q, RowsWith(q, rows, key))
    && StatesAre(q, slot.group.states, RowsWith(q, rows, key))
  }

  ghost predicate Keyed(q: Query, rows: seq<RowIn>) {
    forall i :: 0 <= i < |rows| ==> AllKeyValues(rows[i].keyValues)
  }

  ghost predicate Means(q: Query, table: seq<Slot>, rows: seq<RowIn>)
    requires Shaped(q, rows)
  {
    && Keyed(q, rows)
    && |table| == |KeysOf(q, rows)|
    && forall i :: 0 <= i < |table| ==> SlotMeans(q, table[i], rows, KeysOf(q, rows)[i])
  }

  /** A table that means these rows is determined by them. */
  lemma MeaningIsUnique(q: Query, s: seq<Slot>, t: seq<Slot>, rows: seq<RowIn>)
    requires Shaped(q, rows) && Means(q, s, rows) && Means(q, t, rows)
    ensures s == t
  {
    forall i | 0 <= i < |s| ensures s[i] == t[i] {
      assert SlotMeans(q, s[i], rows, KeysOf(q, rows)[i]) && SlotMeans(q, t[i], rows, KeysOf(q, rows)[i]);
      assert s[i].group.states == t[i].group.states;
    }
  }

  // ----- Lemmas about keys and rows -----

  lemma KeysSnoc(q: Query, rows: seq<RowIn>, row: RowIn, key: string)
    requires HasKeyOf(q, row, key)
    ensures KeysOf(q, rows + [row]) == AddKey(KeysOf(q, rows), key)
  {
    assert (rows + [row])[..|rows|] == rows;
  }

  lemma RowsWithSnoc(q: Query, rows: seq<RowIn>, row: RowIn, key: string)
    ensures RowsWith(q, rows + [row], key)
         == if HasKeyOf(q, row, key) then RowsWith(q, rows, key) + [row] else RowsWith(q, rows, key)
  {
    assert (rows + [row])[..|rows|] == rows;
  }

  lemma {:induction false} RowsWithShaped(q: Query, rows: seq<RowIn>, key: string)
    requires Shaped(q, rows)
    ensures Shaped(q, RowsWith(q, rows, key))
    decreases |rows|
  {
    if rows != [] {
      RowsWithShaped(q, rows[..|rows| - 1], key);
    }
  }

  lemma {:induction false} KeysUnique(q: Query, rows: seq<RowIn>)
    ensures Unique(KeysOf(q, rows))
    decreases |rows|
  {
    if rows != [] {
      KeysUnique(q, rows[..|rows| - 1]);
    }
  }

  /** A key has rows exactly when it is listed. */
  lemma {:induction false} KeysHaveRows(q: Query, rows: seq<RowIn>, key: string)
    ensures key in KeysOf(q, rows) <==> RowsWith(q, rows, key) != []
    decreases |rows|
  {
    if rows != [] {
      KeysHaveRows(q, rows[..|rows| - 1], key);
    }
  }

  // ----- The states of one group -----

  lemma {:induction false} UpdateStatesSucceeds(q: Query, states: seq<State>, inputs: seq<Scalar>)
    requires |states| == |inputs|
    ensures UpdateStates(q, states, inputs).Ok? <==>
      forall j :: 0 <= j < |states| ==> Update(q.key, states[j], inputs[j]).Ok?
    ensures UpdateStates(q, states, inputs).Ok? ==>
      && |UpdateStates(q, states, inputs).value| == |states|
      && forall j :: 0 <= j < |states| ==>
           Update(q.key, states[j], inputs[j]) == Ok(UpdateStates(q, states, inputs).value[j])
    ensures UpdateStates(q, states, inputs).Err? ==> UpdateStates(q, states, inputs).error == TypeError
  {
    if states != [] {
      UpdateStatesSucceeds(q, states[1..], inputs[1..]);
      UpdateKeepsOp(q.key, states[0], inputs[0]);
      hide Update;
      assert forall j :: 1 <= j < |states| ==> states[j] == states[1..][j - 1] && inputs[j] == inputs[1..][j - 1];
      if Update(q.key, states[0], inputs[0]).Ok? && UpdateStates(q, states[1..], inputs[1..]).Ok? {
        forall j | 0 <= j < |states| ensures Update(q.key, states[j], inputs[j]).Ok? {
          assert j > 0 ==> Update(q.key, states[1..][j - 1], inputs[1..][j - 1]).Ok?;
        }
      }
      if forall j :: 0 <= j < |states| ==> Update(q.key, states[j], inputs[j]).Ok? {
        forall j | 0 <= j < |states[1..]| ensures Update(q.key, states[1..][j], inputs[1..][j]).Ok? {
          assert states[1..][j] == states[j + 1];
        }
      }
    }
  }

  lemma ColumnSnoc(rows: seq<RowIn>, row: RowIn, j: nat)
    requires forall i :: 0 <= i < |rows + [row]| ==> j < |(rows + [row])[i].inputs|
    requires forall i :: 0 <= i < |rows| ==> j < |rows[i].inputs|
    requires j < |row.inputs|
    ensures Column(rows + [row], j) == Column(rows, j) + [row.inputs[j]]
  {
  }

  lemma ShapedSnoc(q: Query, rows: seq<RowIn>, row: RowIn)
    requires Shaped(q, rows) && |row.inputs| == |q.ops|
    ensures Shaped(q, rows + [row])
  {
  }

  /** One more row into the states of some rows gives the states of one row more. */
  lemma StatesStep(q: Query, states: seq<State>, rows: seq<RowIn>, row: RowIn)
    requires Shaped(q, rows) && |row.inputs| == |q.ops| && StatesAre(q, states, rows)
    ensures Shaped(q, rows + [row])
    ensures UpdateStates(q, states, row.inputs).Ok? <==> Accepted(q, rows + [row])
    ensures UpdateStates(q, states, row.inputs).Ok? ==>
      StatesAre(q, UpdateStates(q, states, row.inputs).value, rows + [row])
    ensures UpdateStates(q, states, row.inputs).Err? ==> UpdateStates(q, states, row.inputs).error == TypeError
  {
    ShapedSnoc(q, rows, row);
    UpdateStatesSucceeds(q, states, row.inputs);
    hide UpdateStates;
    forall j | 0 <= j < |q.ops|
      ensures Run(q.key, q.ops[j], Column(rows + [row], j)) == Update(q.key, states[j], row.inputs[j])
    {
      ColumnSnoc(rows, row, j);
      RunSnoc(q.key, q.ops[j], Column(rows, j), row.inputs[j]);
      hide Run, Update;
    }
    hide Run, Update;
  }

  lemma NoRowsStates(q: Query)
    ensures Shaped(q, []) && StatesAre(q, CreateAll(q.ops), [])
  {
    forall j | 0 <= j < |q.ops| ensures Run(q.key, q.ops[j], Column([], j)) == Ok(Create(q.ops[j])) {
      assert Column([], j) == [];
      RunOfNone(q.key, q.ops[j]);
    }
  }

  // ----- The table of all rows -----

  /** Every key exists, there are no more groups than allowed, and every
      aggregate accepts the inputs of every group. */
  ghost predicate Groupable(q: Query, rows: seq<RowIn>)
    requires Shaped(q, rows)
  {
    && Keyed(q, rows)
    && (q.maxGroups.Some? ==> |KeysOf(q, rows)| <= q.maxGroups.value)
    && forall key :: key in KeysOf(q, rows) ==>
         Shaped(q, RowsWith(q, rows, key)) && Accepted(q, RowsWith(q, rows, key))
  }

  lemma SlotGrows(q: Query, slot: Slot, rows: seq<RowIn>, row: RowIn, key: string)
    requires Shaped(q, rows) && Shaped(q, rows + [row]) && |row.inputs| == |q.ops|
    requires SlotMeans(q, slot, rows, key) && HasKeyOf(q, row, key) && key in KeysOf(q, rows)
    requires UpdateStates(q, slot.group.states, row.inputs).Ok?
    ensures SlotMeans(q, Slot(key, Group(slot.group.keyValues, UpdateStates(q, slot.group.states, row.inputs).value)),
                      rows + [row], key)
  {
    var those := RowsWith(q, rows, key);
    RowsWithSnoc(q, rows, row, key);
    KeysHaveRows(q, rows, key);
    StatesStep(q, slot.group.states, those, row);
    hide RowsWith, StatesAre, UpdateStates;
    assert (those + [row])[0] == those[0];
  }

  lemma KeyedSnoc(q: Query, rows: seq<RowIn>, row: RowIn)
    ensures Keyed(q, rows + [row]) <==> Keyed(q, rows) && AllKeyValues(row.keyValues)
  {
    if Keyed(q, rows + [row]) {
      assert forall i :: 0 <= i < |rows| ==> rows[i] == (rows + [row])[i];
      assert (rows + [row])[|rows|] == row;
    }
  }

  /** One row: what makes it fail, and what the table means afterwards. */
  lemma AddRowMeans(q: Query, table: seq<Slot>, rows: seq<RowIn>, row: RowIn, key: string)
    requires Shaped(q, rows) && Means(q, table, rows) && |row.inputs| == |q.ops| && HasKeyOf(q, row, key)
    ensures Shaped(q, rows + [row]) && Shaped(q, RowsWith(q, rows + [row], key))
    ensures AddRow(q, table, row).Ok? <==>
      (key in KeysOf(q, rows) || !Full(q, table)) && Accepted(q, RowsWith(q, rows + [row], key))
    ensures AddRow(q, table, row).Ok? ==> Means(q, AddRow(q, table, row).value, rows + [row])
  {
    ShapedSnoc(q, rows, row);
    KeyedSnoc(q, rows, row);
    GroupKeySucceeds(q.num, row.keyValues);
    KeysSnoc(q, rows, row, key);
    RowsWithSnoc(q, rows, row, key);
    RowsWithShaped(q, rows, key);
    RowsWithShaped(q, rows + [row], key);
    var at := FindSlot(table, key);
    if at < |table| {
      KnownKeyRow(q, table, rows, row, key);
    } else {
      NewKeyRow(q, table, rows, row, key);
    }
  }

  lemma KnownKeyRow(q: Query, table: seq<Slot>, rows: seq<RowIn>, row: RowIn, key: string)
    requires Shaped(q, rows) && Shaped(q, rows + [row]) && Shaped(q, RowsWith(q, rows, key) + [row])
    requires Means(q, table, rows) && Keyed(q, rows + [row]) && |row.inputs| == |q.ops| && HasKeyOf(q, row, key)
    requires KeysOf(q, rows + [row]) == AddKey(KeysOf(q, rows), key)
    requires FindSlot(table, key) < |table| && key in KeysOf(q, rows)
    requires SlotMeans(q, table[FindSlot(table, key)], rows, key) && KeysOf(q, rows)[FindSlot(table, key)] == key
    ensures AddRow(q, table, row).Ok? <==> Accepted(q, RowsWith(q, rows, key) + [row])
    ensures AddRow(q, table, row).Ok? ==> Means(q, AddRow(q, table, row).value, rows + [row])
  {
    var at := FindSlot(table, key);
    var slot := table[at];
    StatesStep(q, slot.group.states, RowsWith(q, rows, key), row);
    if AddRow(q, table, row).Ok? {
      var next := AddRow(q, table, row).value;
      SlotGrows(q, slot, rows, row, key);
      KeysUnique(q, rows);
      var fed := UpdateStates(q, slot.group.states, row.inputs).value;
      assert next == table[at := Slot(key, Group(slot.group.keyValues, fed))];
      hide AddRow, UpdateStates, KeysOf, RowsWith, GroupKey, SlotMeans, FindSlot, Keyed;
      forall i | 0 <= i < |next| ensures SlotMeans(q, next[i], rows + [row], KeysOf(q, rows)[i]) {
        if i != at {
          assert SlotMeans(q, table[i], rows, KeysOf(q, rows)[i]);
        }
      }
    }
  }

  lemma NewKeyRow(q: Query, table: seq<Slot>, rows: seq<RowIn>, row: RowIn, key: string)
    requires Shaped(q, rows) && Shaped(q, rows + [row]) && Shaped(q, RowsWith(q, rows, key) + [row])
    requires Means(q, table, rows) && Keyed(q, rows + [row]) && |row.inputs| == |q.ops| && HasKeyOf(q, row, key)
    requires KeysOf(q, rows + [row]) == AddKey(KeysOf(q, rows), key)
    requires FindSlot(table, key) == |table| && key !in KeysOf(q, rows)
    ensures AddRow(q, table, row).Ok? <==> !Full(q, table) && Accepted(q, RowsWith(q, rows, key) + [row])
    ensures AddRow(q, table, row).Ok? ==> Means(q, AddRow(q, table, row).value, rows + [row])
  {
    NoRowsStates(q);
    KeysHaveRows(q, rows, key);
    StatesStep(q, CreateAll(q.ops), [], row);
    if AddRow(q, table, row).Ok? {
      var next := AddRow(q, table, row).value;
      var added := Slot(key, Group(row.keyValues, UpdateStates(q, CreateAll(q.ops), row.inputs).value));
      assert next == table + [added];
      var keys := KeysOf(q, rows);
      hide AddRow, UpdateStates, KeysOf, RowsWith, GroupKey, SlotMeans, FindSlot, Keyed;
      forall i | 0 <= i < |next| ensures SlotMeans(q, next[i], rows + [row], (keys + [key])[i]) {
        if i < |table| {
          assert SlotMeans(q, table[i], rows, keys[i]);
        }
      }
    }
  }

  lemma AcceptedPrefix(q: Query, rows: seq<RowIn>, row: RowIn)
    requires Shaped(q, rows) && Shaped(q, rows + [row]) && Accepted(q, rows + [row])
    ensures Accepted(q, rows)
  {
    forall j | 0 <= j < |q.ops| ensures Run(q.key, q.ops[j], Column(rows, j)).Ok? {
      assert (rows + [row])[|rows|] == row;
      ColumnSnoc(rows, row, j);
      RunSnoc(q.key, q.ops[j], Column(rows, j), row.inputs[j]);
    }
  }

  lemma KeysGrow(keys: seq<string>, key: string)
    ensures key in AddKey(keys, key) && forall k :: k in keys ==> k in AddKey(keys, key)
    ensures forall k :: k in AddKey(keys, key) ==> k in keys || k == key
    ensures |keys| <= |AddKey(keys, key)| <= |keys| + 1
    ensures |AddKey(keys, key)| == |keys| <==> key in keys
  {
    var added := keys + [key];
    assert added[|keys|] == key;
    assert forall i :: 0 <= i < |keys| ==> added[i] == keys[i];
  }

  /** Rows that can be grouped can be grouped without the last one, whose group
      accepts it and, if it opens one, is within the limit. */
  lemma GroupablePrefix(q: Query, rows: seq<RowIn>, row: RowIn, key: string)
    requires Shaped(q, rows) && Shaped(q, rows + [row]) && HasKeyOf(q, row, key) && Groupable(q, rows + [row])
    ensures Groupable(q, rows) && Shaped(q, RowsWith(q, rows + [row], key))
      && Accepted(q, RowsWith(q, rows + [row], key))
    ensures key in KeysOf(q, rows) || (q.maxGroups.Some? ==> |KeysOf(q, rows)| < q.maxGroups.value)
  {
    KeyedSnoc(q, rows, row);
    KeysSnoc(q, rows, row, key);
    KeysGrow(KeysOf(q, rows), key);
    forall k | k in KeysOf(q, rows)
      ensures Shaped(q, RowsWith(q, rows, k)) && Accepted(q, RowsWith(q, rows, k))
    {
      RowsWithSnoc(q, rows, row, k);
      RowsWithShaped(q, rows, k);
      hide Groupable, RowsWith, Accepted, KeysOf;
      if HasKeyOf(q, row, k) {
        AcceptedPrefix(q, RowsWith(q, rows, k), row);
      }
    }
  }

  /** And conversely. */
  lemma GroupableSnoc(q: Query, rows: seq<RowIn>, row: RowIn, key: string)
    requires Shaped(q, rows) && Shaped(q, rows + [row]) && HasKeyOf(q, row, key) && Groupable(q, rows)
    requires Shaped(q, RowsWith(q, rows + [row], key)) && Accepted(q, RowsWith(q, rows + [row], key))
    requires key in KeysOf(q, rows) || (q.maxGroups.Some? ==> |KeysOf(q, rows)| < q.maxGroups.value)
    ensures Groupable(q, rows + [row])
  {
    KeyedSnoc(q, rows, row);
    GroupKeySucceeds(q.num, row.keyValues);
    KeysSnoc(q, rows, row, key);
    KeysGrow(KeysOf(q, rows), key);
    hide Accepted, RowsWith, KeysOf, GroupKey, Keyed;
    forall k | k in KeysOf(q, rows + [row])
      ensures Shaped(q, RowsWith(q, rows + [row], k)) && Accepted(q, RowsWith(q, rows + [row], k))
    {
      if k != key {
        RowsWithSnoc(q, rows, row, k);
      }
    }
  }

  /** Grouping succeeds exactly on groupable rows, and the table then means them:
      one group per key in order of first appearance, each state the run of its
      aggregate over that key's rows. */
  lemma {:induction false} GroupByMeans(q: Query, rows: seq<RowIn>)
    requires Shaped(q, rows)
    ensures AddRows(q, [], rows).Ok? <==> Groupable(q, rows)
    ensures AddRows(q, [], rows).Ok? ==> Means(q, AddRows(q, [], rows).value, rows)
    decreases |rows|
  {
    if rows != [] {
      var front, row := rows[..|rows| - 1], rows[|rows| - 1];
      assert rows == front + [row];
      GroupByMeans(q, front);
      hide Groupable, Means, AddRows;
      GroupByStep(q, front, row);
    }
  }

  lemma GroupByStep(q: Query, front: seq<RowIn>, row: RowIn)
    requires Shaped(q, front) && Shaped(q, front + [row])
    requires AddRows(q, [], front).Ok? <==> Groupable(q, front)
    requires AddRows(q, [], front).Ok? ==> Means(q, AddRows(q, [], front).value, front)
    ensures AddRows(q, [], front + [row]).Ok? <==> Groupable(q, front + [row])
    ensures AddRows(q, [], front + [row]).Ok? ==> Means(q, AddRows(q, [], front + [row]).value, front + [row])
  {
    assert |row.inputs| == |q.ops| by { assert (front + [row])[|front|] == row; }
    hide AddRow, AddRows, Groupable, Means, KeysOf, RowsWith, Accepted, GroupKey, Shaped;
    AddRowsSnoc(q, [], front, row);
    if !AllKeyValues(row.keyValues) {
      UnkeyedRow(q, AddRows(q, [], front), front, row);
      return;
    }
    GroupKeySucceeds(q.num, row.keyValues);
    var key := GroupKey(q.num, row.keyValues).value;
    if Groupable(q, front + [row]) {
      GroupablePrefix(q, front, row, key);
    }
    if AddRows(q, [], front).Ok? {
      var table := AddRows(q, [], front).value;
      AddRowMeans(q, table, front, row, key);
      AsManyGroups(q, table, front);
      if AddRow(q, table, row).Ok? {
        GroupableSnoc(q, front, row, key);
      }
    }
  }

  lemma UnkeyedRow(q: Query, before: Result<seq<Slot>>, front: seq<RowIn>, row: RowIn)
    requires Shaped(q, front + [row]) && !AllKeyValues(row.keyValues)
    ensures ThenRow(q, before, row).Err? && !Groupable(q, front + [row])
  {
    GroupKeySucceeds(q.num, row.keyValues);
    KeyedSnoc(q, front, row);
  }

  lemma AsManyGroups(q: Query, table: seq<Slot>, rows: seq<RowIn>)
    requires Shaped(q, rows) && Means(q, table, rows)
    ensures |table| == |KeysOf(q, rows)|
  {
  }
}
