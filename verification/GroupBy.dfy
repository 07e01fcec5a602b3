/** The grouped update of one batch, through the key reader and through encoded
    group ids: both leave the table that adding the selected rows one by one
    leaves. */
module GroupBy {
  import opened Scalars
  import opened Vectors
  import opened Aggregates
  import opened GroupKeys
  import opened GroupTables

  /** One batch as the update sees it: key columns, and row by row the inputs of
      the aggregates; a row takes part when its selection entry is 1. */
  datatype KeyedBatch = KeyedBatch(
    rowCount: nat, vectors: seq<Vector>, inputs: seq<seq<Scalar>>, selection: Option<seq<nat>>)

  ghost predicate ValidBatch(batch: KeyedBatch) {
    && KeyColumns(batch.vectors, batch.rowCount)
    && |batch.inputs| == batch.rowCount
    && (batch.selection.Some? ==> |batch.selection.value| == batch.rowCount)
  }

  predicate IsSelected(batch: KeyedBatch, index: nat)
    requires ValidBatch(batch) && index < batch.rowCount
  {
    batch.selection.None? || batch.selection.value[index] == 1
  }

  function RowAt(batch: KeyedBatch, index: nat): RowIn
    requires ValidBatch(batch) && index < batch.rowCount
  {
    RowIn(ValuesAt(batch.vectors, batch.rowCount, index), batch.inputs[index])
  }

  /** The selected rows among the first `n`. */
  function RowsUpTo(batch: KeyedBatch, n: nat): seq<RowIn>
    requires ValidBatch(batch) && n <= batch.rowCount
  {
    if n == 0 then []
    else if IsSelected(batch, n - 1) then RowsUpTo(batch, n - 1) + [RowAt(batch, n - 1)]
    else RowsUpTo(batch, n - 1)
  }

  // ----- How far an update gets -----

  /** The states after the inputs were fed one by one, up to the first error. */
  function Fed(q: Query, states: seq<State>, inputs: seq<Scalar>): seq<State> {
    if states == [] || inputs == [] then states
    else
      match Update(q.key, states[0], inputs[0])
      case Ok(next) => [next] + Fed(q, states[1..], inputs[1..])
      case Err(_) => states
  }

  lemma {:induction false} FedAll(q: Query, states: seq<State>, inputs: seq<Scalar>)
    requires UpdateStates(q, states, inputs).Ok?
    ensures Fed(q, states, inputs) == UpdateStates(q, states, inputs).value
  {
    hide Update;
    if states != [] {
      FedAll(q, states[1..], inputs[1..]);
    }
  }

  function WithStates(slot: Slot, states: seq<State>): Slot {
    slot.(group := slot.group.(states := states))
  }

  /** The table after one row, even one that fails: its group may have been
      opened, and its first aggregates fed. */
  function Reached(q: Query, table: seq<Slot>, row: RowIn): seq<Slot> {
    match GroupKey(q.num, row.keyValues)
    case Err(_) => table
    case Ok(key) =>
      var p := FindSlot(table, key);
      if p == |table| && Full(q, table) then table
      else
        var ready := Ready(q, table, key, row.keyValues);
        ready[p := WithStates(ready[p], Fed(q, ready[p].group.states, row.inputs))]
  }

  /** The table after all rows, or after the first one that fails. */
  function ReachedRows(q: Query, table: seq<Slot>, rows: seq<RowIn>): seq<Slot>
    decreases |rows|
  {
    if rows == [] then table
    else
      var front := rows[..|rows| - 1];
      match AddRows(q, table, front)
      case Ok(before) => Reached(q, before, rows[|rows| - 1])
      case Err(_) => ReachedRows(q, table, front)
  }

  /** An update that succeeds reaches the table it specifies. */
  lemma ReachedAll(q: Query, table: seq<Slot>, rows: seq<RowIn>)
    ensures AddRows(q, table, rows).Ok? ==> ReachedRows(q, table, rows) == AddRows(q, table, rows).value
  {
    if rows != [] && AddRows(q, table, rows).Ok? {
      RowReached(q, AddRows(q, table, rows[..|rows| - 1]).value, rows[|rows| - 1]);
    }
  }

  lemma NextRow(q: Query, table: seq<Slot>, batch: KeyedBatch, n: nat)
    requires ValidBatch(batch) && n < batch.rowCount
    ensures AddRows(q, table, RowsUpTo(batch, n + 1))
         == if IsSelected(batch, n) then ThenRow(q, AddRows(q, table, RowsUpTo(batch, n)), RowAt(batch, n))
            else AddRows(q, table, RowsUpTo(batch, n))
    ensures |RowsUpTo(batch, n + 1)| == |RowsUpTo(batch, n)| + if IsSelected(batch, n) then 1 else 0
    ensures IsSelected(batch, n) && AddRows(q, table, RowsUpTo(batch, n)).Ok? ==>
      ReachedRows(q, table, RowsUpTo(batch, n + 1))
        == Reached(q, AddRows(q, table, RowsUpTo(batch, n)).value, RowAt(batch, n))
    ensures !IsSelected(batch, n) || AddRows(q, table, RowsUpTo(batch, n)).Err? ==>
      ReachedRows(q, table, RowsUpTo(batch, n + 1)) == ReachedRows(q, table, RowsUpTo(batch, n))
  {
    AddRowsSnoc(q, table, RowsUpTo(batch, n), RowAt(batch, n));
    assert (RowsUpTo(batch, n) + [RowAt(batch, n)])[..|RowsUpTo(batch, n)|] == RowsUpTo(batch, n);
    hide AddRows, AddRow, Reached, RowAt;
  }

  lemma {:induction false} FailureLasts(q: Query, table: seq<Slot>, batch: KeyedBatch, n: nat, m: nat)
    requires ValidBatch(batch) && n <= m <= batch.rowCount
    requires AddRows(q, table, RowsUpTo(batch, n)).Err?
    ensures AddRows(q, table, RowsUpTo(batch, m)) == AddRows(q, table, RowsUpTo(batch, n))
    ensures ReachedRows(q, table, RowsUpTo(batch, m)) == ReachedRows(q, table, RowsUpTo(batch, n))
  {
    hide AddRows, AddRow, RowsUpTo, ValidBatch, RowAt, ReachedRows, Reached;
    if n < m {
      FailureLasts(q, table, batch, n, m - 1);
      NextRow(q, table, batch, m - 1);
    }
  }

  ghost predicate DistinctKeys(table: seq<Slot>) {
    forall i, j :: 0 <= i < j < |table| ==> table[i].key != table[j].key
  }

  lemma SlotAt(table: seq<Slot>, p: nat)
    requires DistinctKeys(table) && p < |table|
    ensures FindSlot(table, table[p].key) == p
  {
  }

  lemma SetKeepsKeys(table: seq<Slot>, p: nat, slot: Slot)
    requires DistinctKeys(table) && p < |table| && slot.key == table[p].key
    ensures DistinctKeys(table[p := slot]) && forall i :: 0 <= i < |table| ==> table[p := slot][i].key == table[i].key
  {
  }

  lemma UpdatedKeeps(table: seq<Slot>, p: nat, states: seq<State>)
    requires DistinctKeys(table) && p < |table|
    ensures DistinctKeys(table[p := WithStates(table[p], states)])
    ensures forall i :: 0 <= i < |table| ==> table[p := WithStates(table[p], states)][i].key == table[i].key
  {
    SetKeepsKeys(table, p, WithStates(table[p], states));
  }

  lemma FeedOne(q: Query, states: seq<State>, inputs: seq<Scalar>)
    ensures states == [] || inputs == [] ==>
      Fed(q, states, inputs) == states
      && UpdateStates(q, states, inputs) == if states == [] && inputs == [] then Ok([]) else Err(TypeError)
    ensures states != [] && inputs != [] ==>
      match Update(q.key, states[0], inputs[0])
      case Err(e) => Fed(q, states, inputs) == states && UpdateStates(q, states, inputs) == Err(e)
      case Ok(next) =>
        && (Fed(q, states, inputs) == [next] + Fed(q, states[1..], inputs[1..]))
        && (UpdateStates(q, states, inputs).Ok? <==> UpdateStates(q, states[1..], inputs[1..]).Ok?)
        && (UpdateStates(q, states, inputs).Err? ==>
              UpdateStates(q, states, inputs).error == UpdateStates(q, states[1..], inputs[1..]).error)
  {
    hide Update;
  }

  lemma PutNext<T>(done: seq<T>, rest: seq<T>, x: T, more: seq<T>)
    requires rest != []
    ensures (done + rest)[|done| := x] == (done + [x]) + rest[1..]
    ensures done + ([x] + more) == (done + [x]) + more
  {
  }

  lemma TailOfTail<T>(s: seq<T>, j: nat)
    requires j < |s|
    ensures s[j..][0] == s[j] && s[j..][1..] == s[j + 1..]
  {
  }

  /** Updates the states one after another, up to the first error. */
  method FeedStates(q: Query, states: seq<State>, inputs: seq<Scalar>) returns (after: seq<State>, r: Result<()>)
    ensures after == Fed(q, states, inputs)
    ensures match UpdateStates(q, states, inputs)
            case Ok(_) => r == Ok(())
            case Err(e) => r == Err(e)
  {
    hide Update, Fed, UpdateStates;
    after := states;
    var j := 0;
    ghost var done, rest, more := [], states, inputs;
    assert done + rest == states;
    while j < |states| && j < |inputs|
      invariant j <= |states| && j <= |inputs| && |done| == j
      invariant rest == states[j..] && more == inputs[j..] && after == done + rest
      invariant Fed(q, states, inputs) == done + Fed(q, rest, more)
      invariant UpdateStates(q, states, inputs).Ok? <==> UpdateStates(q, rest, more).Ok?
      invariant UpdateStates(q, states, inputs).Err? ==>
        UpdateStates(q, states, inputs).error == UpdateStates(q, rest, more).error
    {
      FeedOne(q, rest, more);
      var next := Update(q.key, states[j], inputs[j]);
      if next.Err? {
        return after, Err(next.error);
      }
      PutNext(done, rest, next.value, Fed(q, rest[1..], more[1..]));
      TailOfTail(states, j);
      TailOfTail(inputs, j);
      after := after[j := next.value];
      done, rest, more := done + [next.value], rest[1..], more[1..];
      j := j + 1;
    }
    FeedOne(q, rest, more);
    r := if |states| == |inputs| then Ok(()) else Err(TypeError);
  }

  class GroupByState {
    const q: Query
    var groups: seq<Slot>

    /** Keys are distinct, as in any map. */
    ghost predicate Valid()
      reads this
    {
      DistinctKeys(groups)
    }

    constructor (q: Query)
      ensures Valid() && this.q == q && groups == []
    {
      this.q, groups := q, [];
    }

    /** The position of the group with these key values, opening it if needed. */
    method GetOrCreate(keyValues: seq<Scalar>) returns (r: Result<nat>)
      requires Valid()
      modifies this
      ensures Valid()
      ensures GroupKey(q.num, keyValues).Err? ==> groups == old(groups) && r == Err(GroupKey(q.num, keyValues).error)
      ensures GroupKey(q.num, keyValues).Ok? ==>
        Opened(q, old(groups), GroupKey(q.num, keyValues).value, keyValues, groups, r)
    {
      var key := GroupKey(q.num, keyValues);
      if key.Err? {
        return Err(key.error);
      }
      r := FindOrOpen(key.value, keyValues);
    }

    /** The position of the group with this key, opening it with these key values
        if needed. A new group is refused exactly at the limit. */
    method FindOrOpen(key: string, keyValues: seq<Scalar>) returns (r: Result<nat>)
      requires Valid()
      modifies this
      ensures Valid()
      ensures Opened(q, old(groups), key, keyValues, groups, r)
    {
      var at := FindSlot(groups, key);
      if at < |groups| {
        return Ok(at);
      }
      if Full(q, groups) {
        return Err(GroupLimitExceeded);
      }
      groups := groups + [Slot(key, Group(keyValues, CreateAll(q.ops)))];
      return Ok(at);
    }

    /** Feeds one row's inputs to the group at `p`, aggregate by aggregate. An error
        leaves the aggregates before it updated. */
    method UpdateGroup(p: nat, inputs: seq<Scalar>) returns (r: Result<()>)
      requires Valid() && p < |groups|
      modifies this
      ensures Valid()
      ensures groups == old(groups)[p := WithStates(old(groups)[p], Fed(q, old(groups)[p].group.states, inputs))]
      ensures match UpdateStates(q, old(groups)[p].group.states, inputs)
              case Ok(_) => r == Ok(())
              case Err(e) => r == Err(e)
    {
      var states, fed := FeedStates(q, groups[p].group.states, inputs);
      SetKeepsKeys(groups, p, WithStates(groups[p], states));
      groups := groups[p := WithStates(groups[p], states)];
      r := fed;
    }

    /** One row under its key: its group is found or opened, then updated. */
    method AddSelected(key: string, row: RowIn) returns (r: Result<()>)
      requires Valid() && GroupKey(q.num, row.keyValues) == Ok(key)
      modifies this
      ensures Valid()
      ensures groups == Reached(q, old(groups), row)
      ensures match AddRow(q, old(groups), row)
              case Ok(_) => r == Ok(())
              case Err(e) => r == Err(e)
    {
      hide AddRow, UpdateStates, GroupKey, FindSlot, Ready, Full, Reached, Fed, WithStates;
      AddRowRefused(q, groups, row);
      ghost var before := groups;
      var p := FindOrOpen(key, row.keyValues);
      if p.Err? {
        return Err(p.error);
      }
      AddRowInSteps(q, before, row, key, p.value);
      r := UpdateGroup(p.value, row.inputs);
    }
  }

  /** What finding or opening a group does. */
  predicate Opened(q: Query, before: seq<Slot>, key: string, keyValues: seq<Scalar>, after: seq<Slot>, r: Result<nat>) {
    match r
    case Err(e) => after == before && e == GroupLimitExceeded && Full(q, before) && FindSlot(before, key) == |before|
    case Ok(p) =>
      && p == FindSlot(before, key) && after == Ready(q, before, key, keyValues)
      && (p == |before| ==> !Full(q, before)) && p < |after| && after[p].key == key
  }

  /** The table in which the row's group is open. */
  function Ready(q: Query, table: seq<Slot>, key: string, keyValues: seq<Scalar>): seq<Slot> {
    if FindSlot(table, key) < |table| then table else table + [Slot(key, Group(keyValues, CreateAll(q.ops)))]
  }

  /** Opening a group if needed and updating it is adding the row. */
  lemma AddRowInSteps(q: Query, table: seq<Slot>, row: RowIn, key: string, p: nat)
    requires GroupKey(q.num, row.keyValues) == Ok(key) && p == FindSlot(table, key)
    requires p == |table| ==> !Full(q, table)
    ensures p < |Ready(q, table, key, row.keyValues)|
    ensures var ready := Ready(q, table, key, row.keyValues);
            && Reached(q, table, row) == ready[p := WithStates(ready[p], Fed(q, ready[p].group.states, row.inputs))]
            && match UpdateStates(q, ready[p].group.states, row.inputs)
               case Ok(_) => AddRow(q, table, row) == Ok(Reached(q, table, row))
               case Err(e) => AddRow(q, table, row) == Err(e)
  {
    var ready := Ready(q, table, key, row.keyValues);
    if p == |table| {
      var slot := Slot(key, Group(row.keyValues, CreateAll(q.ops)));
      assert (table + [slot])[p] == slot;
      assert forall t: Slot :: (table + [slot])[p := t] == table + [t];
    }
    if UpdateStates(q, ready[p].group.states, row.inputs).Ok? {
      FedAll(q, ready[p].group.states, row.inputs);
    }
  }

  lemma AddRowRefused(q: Query, table: seq<Slot>, row: RowIn)
    ensures GroupKey(q.num, row.keyValues).Err? ==>
      AddRow(q, table, row) == Err(GroupKey(q.num, row.keyValues).error) && Reached(q, table, row) == table
    ensures GroupKey(q.num, row.keyValues).Ok? && Full(q, table)
            && FindSlot(table, GroupKey(q.num, row.keyValues).value) == |table| ==>
      AddRow(q, table, row) == Err(GroupLimitExceeded) && Reached(q, table, row) == table
  {
  }

  /** What the update of a batch leaves: the table of its rows, or of those
      before the first error and as much of that row as was done. */
  ghost predicate Updates(q: Query, before: seq<Slot>, rows: seq<RowIn>, after: seq<Slot>, r: Result<nat>) {
    && after == ReachedRows(q, before, rows)
    && match AddRows(q, before, rows)
       case Ok(table) => after == table && r == Ok(|rows|)
       case Err(e) => r == Err(e)
  }

  /** The reader path: the key of every selected row is read from its columns. */
  method UpdateByReader(state: GroupByState, batch: KeyedBatch) returns (r: Result<nat>)
    requires state.Valid() && ValidBatch(batch)
    modifies state
    ensures state.Valid()
    ensures Updates(state.q, old(state.groups), RowsUpTo(batch, batch.rowCount), state.groups, r)
  {
    var q := state.q;
    ghost var before := state.groups;
    var matched := 0;
    hide AddRows, AddRow, GroupKey, KeyColumns, FindSlot, RowsUpTo, Reached, ReachedRows, Updates, UpdateStates;
    NoRows(q, before, batch);
    for index := 0 to batch.rowCount
      invariant state.Valid() && matched == |RowsUpTo(batch, index)|
      invariant AddRows(q, before, RowsUpTo(batch, index)) == Ok(state.groups)
    {
      NextRow(q, before, batch, index);
      if IsSelected(batch, index) {
        matched := matched + 1;
        var row := RowAt(batch, index);
        ghost var table := state.groups;
        AddRowRefused(q, table, row);
        StopsAt(q, before, batch, index, table);
        var key := KeyAt(q.num, batch.vectors, batch.rowCount, index);
        if key.Err? {
          return Err(key.error);
        }
        var added := state.AddSelected(key.value, row);
        if added.Err? {
          return Err(added.error);
        }
      }
    }
    UpdatesAll(q, before, RowsUpTo(batch, batch.rowCount));
    return Ok(matched);
  }

  lemma UpdatesAll(q: Query, before: seq<Slot>, rows: seq<RowIn>)
    ensures AddRows(q, before, rows).Ok? ==> Updates(q, before, rows, AddRows(q, before, rows).value, Ok(|rows|))
  {
    ReachedAll(q, before, rows);
  }

  /** Row `index` is added, or the update ends with it. */
  lemma StopsAt(q: Query, before: seq<Slot>, batch: KeyedBatch, index: nat, table: seq<Slot>)
    requires ValidBatch(batch) && index < batch.rowCount && IsSelected(batch, index)
    requires AddRows(q, before, RowsUpTo(batch, index)) == Ok(table)
    ensures match AddRow(q, table, RowAt(batch, index))
            case Ok(_) => AddRows(q, before, RowsUpTo(batch, index + 1)) == Ok(Reached(q, table, RowAt(batch, index)))
            case Err(e) =>
              Updates(q, before, RowsUpTo(batch, batch.rowCount), Reached(q, table, RowAt(batch, index)), Err(e))
  {
    hide AddRow, Reached, ReachedRows, AddRows, RowsUpTo;
    NextRow(q, before, batch, index);
    if AddRow(q, table, RowAt(batch, index)).Ok? {
      RowReached(q, table, RowAt(batch, index));
    } else {
      FailureLasts(q, before, batch, index + 1, batch.rowCount);
    }
  }

  lemma RowReached(q: Query, table: seq<Slot>, row: RowIn)
    requires AddRow(q, table, row).Ok?
    ensures AddRow(q, table, row) == Ok(Reached(q, table, row))
  {
    var key := GroupKey(q.num, row.keyValues).value;
    AddRowInSteps(q, table, row, key, FindSlot(table, key));
  }

  lemma NoRows(q: Query, table: seq<Slot>, batch: KeyedBatch)
    requires ValidBatch(batch)
    ensures RowsUpTo(batch, 0) == [] && AddRows(q, table, []) == Ok(table)
  {
  }
}
