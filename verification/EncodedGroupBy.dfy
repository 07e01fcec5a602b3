/** The encoded path of the grouped update: rows are first mapped to small group
    ids, and a group is looked up by its key only the first time its id appears. */
module EncodedGroupBy {
  import opened Scalars
  import opened Vectors
  import opened Aggregates
  import opened GroupKeys
  import opened GroupTables
  import opened GroupBy

  predicate CanEncodeScalarVector(v: Vector) {
    !v.BinaryVector? && !v.ListVector?
  }

  predicate CanEncode(vectors: seq<Vector>) {
    vectors != [] && forall c :: 0 <= c < |vectors| ==> CanEncodeScalarVector(vectors[c])
  }

  /** Gives rows ids so that rows of one id have one key. A single dictionary
      column uses its codes as ids; other columns number keys as they appear. */
  class KeyEncoder {
    const num: Num -> string
    const vectors: seq<Vector>
    const rowCount: nat
    var ids: map<string, nat>
    var values: seq<seq<Scalar>>

    predicate ByCode() {
      |vectors| == 1 && vectors[0].DictVector?
    }

    ghost predicate Valid()
      reads this
    {
      && KeyColumns(vectors, rowCount) && vectors != []
      && (ByCode() ==> ids == map[] && values == [])
      && (forall id :: 0 <= id < |values| ==> Numbered(id))
      && (forall key :: key in ids ==> ids[key] < |values| && GroupKey(num, values[ids[key]]) == Ok(key))
    }

    /** The id's key is known, and maps back to the id. */
    ghost predicate Numbered(id: nat)
      requires id < |values|
      reads this
    {
      GroupKey(num, values[id]).Ok? && GroupKey(num, values[id]).value in ids
      && ids[GroupKey(num, values[id]).value] == id
    }

    constructor (num: Num -> string, vectors: seq<Vector>, rowCount: nat)
      requires KeyColumns(vectors, rowCount) && vectors != []
      ensures Valid() && this.num == num && this.vectors == vectors && this.rowCount == rowCount
      ensures values == []
    {
      this.num, this.vectors, this.rowCount := num, vectors, rowCount;
      ids, values := map[], [];
    }

    /** Which ids stand for a key so far. */
    predicate IsId(id: nat)
      reads this
    {
      if ByCode() then id <= Length(vectors[0].dictionary) else id < |values|
    }

    /** The key values an id stands for; the id past the dictionary is null. */
    function KeyValues(id: nat): seq<Scalar>
      requires Valid() && IsId(id)
      reads this
    {
      if ByCode() then
        [if id == Length(vectors[0].dictionary) then Null else ScalarAt(vectors[0].dictionary, id)]
      else values[id]
    }

    /** The id of a row: it stands for the row's key, and if it is new, for the
        row's own key values. Earlier ids keep their meaning. */
    method GroupIdAt(index: nat) returns (r: Result<nat>)
      requires Valid() && index < rowCount
      modifies this
      ensures Valid()
      ensures forall id: nat :: old(IsId(id)) ==> IsId(id) && KeyValues(id) == old(KeyValues(id))
      ensures var row := ValuesAt(vectors, rowCount, index);
              match r
              case Err(e) => GroupKey(num, row) == Err(e)
              case Ok(id) =>
                && IsId(id)
                && (GroupKey(num, KeyValues(id)) == GroupKey(num, row))
                && (ByCode() || !old(IsId(id)) ==> KeyValues(id) == row)
                && (!ByCode() && !old(IsId(id)) ==> id == old(|values|) && |values| == old(|values|) + 1)
                && (!ByCode() && old(IsId(id)) ==> |values| == old(|values|))
    {
      if ByCode() {
        var id :=
          if !Present(vectors[0].valid, index) then Length(vectors[0].dictionary) else vectors[0].indices[index];
        return Ok(id);
      }
      var row := ValuesAt(vectors, rowCount, index);
      var key := GroupKey(num, row);
      if key.Err? {
        return Err(key.error);
      }
      if key.value in ids {
        return Ok(ids[key.value]);
      }
      var next := |values|;
      ids := ids[key.value := next];
      values := values + [row];
      forall id | 0 <= id < |values| ensures Numbered(id) {
        if id < next {
          assert old(Numbered(id)) && values[id] == old(values)[id];
        }
      }
      return Ok(next);
    }
  }

  /** Ids seen so far and the positions of their groups. */
  ghost predicate Registered(encoder: KeyEncoder, table: seq<Slot>, groupsById: map<nat, nat>)
    reads encoder
    requires encoder.Valid()
  {
    && (forall id :: id in groupsById ==>
          && encoder.IsId(id) && groupsById[id] < |table|
          && GroupKey(encoder.num, encoder.KeyValues(id)) == Ok(table[groupsById[id]].key))
    && (!encoder.ByCode() ==> forall id: nat :: encoder.IsId(id) ==> id in groupsById)
  }

  lemma GroupOfId(encoder: KeyEncoder, table: seq<Slot>, groupsById: map<nat, nat>, id: nat)
    requires encoder.Valid() && Registered(encoder, table, groupsById) && id in groupsById && DistinctKeys(table)
    ensures encoder.IsId(id) && groupsById[id] < |table|
    ensures GroupKey(encoder.num, encoder.KeyValues(id)) == Ok(table[groupsById[id]].key)
    ensures FindSlot(table, table[groupsById[id]].key) == groupsById[id]
  {
    SlotAt(table, groupsById[id]);
  }

  /** Only the keys of the slots matter, and they keep their places. */
  lemma StillRegistered(encoder: KeyEncoder, table: seq<Slot>, later: seq<Slot>, groupsById: map<nat, nat>)
    requires encoder.Valid() && Registered(encoder, table, groupsById) && |table| <= |later|
    requires forall i :: 0 <= i < |table| ==> later[i].key == table[i].key
    ensures Registered(encoder, later, groupsById)
  {
  }

  /** Everything but the newest id is registered. */
  ghost predicate RegisteredBut(encoder: KeyEncoder, table: seq<Slot>, groupsById: map<nat, nat>, newest: nat)
    reads encoder
    requires encoder.Valid()
  {
    && (forall id :: id in groupsById ==>
          && encoder.IsId(id) && groupsById[id] < |table|
          && GroupKey(encoder.num, encoder.KeyValues(id)) == Ok(table[groupsById[id]].key))
    && (!encoder.ByCode() ==> forall id: nat :: encoder.IsId(id) && id != newest ==> id in groupsById)
  }

  lemma RegisterNewest(encoder: KeyEncoder, table: seq<Slot>, later: seq<Slot>, groupsById: map<nat, nat>, id: nat,
                       p: nat)
    requires encoder.Valid() && RegisteredBut(encoder, table, groupsById, id) && encoder.IsId(id)
    requires |table| <= |later| && forall i :: 0 <= i < |table| ==> later[i].key == table[i].key
    requires p < |later| && GroupKey(encoder.num, encoder.KeyValues(id)) == Ok(later[p].key)
    ensures Registered(encoder, later, groupsById[id := p])
  {
  }

  /** The id of a row, with every older id still registered. */
  method NextId(encoder: KeyEncoder, ghost table: seq<Slot>, ghost groupsById: map<nat, nat>, index: nat)
    returns (r: Result<nat>)
    requires encoder.Valid() && index < encoder.rowCount && Registered(encoder, table, groupsById)
    modifies encoder
    ensures encoder.Valid()
    ensures var key := GroupKey(encoder.num, ValuesAt(encoder.vectors, encoder.rowCount, index));
            match r
            case Err(e) => key == Err(e)
            case Ok(id) =>
              && encoder.IsId(id) && GroupKey(encoder.num, encoder.KeyValues(id)) == key
              && RegisteredBut(encoder, table, groupsById, id)
              && (id in groupsById ==> Registered(encoder, table, groupsById))
              && (id !in groupsById ==>
                    encoder.KeyValues(id) == ValuesAt(encoder.vectors, encoder.rowCount, index))
  {
    hide GroupKey, KeyColumns, ValuesAt;
    r := encoder.GroupIdAt(index);
  }

  /** The group of a row, found by id, or by key the first time the id appears. */
  method FindGroup(state: GroupByState, encoder: KeyEncoder, groupsById: map<nat, nat>, row: RowIn, index: nat)
    returns (r: Result<nat>, next: map<nat, nat>)
    requires state.Valid() && encoder.Valid() && encoder.num == state.q.num && index < encoder.rowCount
    requires row.keyValues == ValuesAt(encoder.vectors, encoder.rowCount, index)
    requires Registered(encoder, state.groups, groupsById)
    modifies state, encoder
    ensures state.Valid() && encoder.Valid()
    ensures match r
            case Err(e) =>
              && AddRow(state.q, old(state.groups), row) == Err(e)
              && state.groups == old(state.groups) && Reached(state.q, old(state.groups), row) == old(state.groups)
            case Ok(p) =>
              && GroupKey(state.q.num, row.keyValues).Ok?
              && p == FindSlot(old(state.groups), GroupKey(state.q.num, row.keyValues).value) < |state.groups|
              && state.groups
                == Ready(state.q, old(state.groups), GroupKey(state.q.num, row.keyValues).value, row.keyValues)
              && (p == |old(state.groups)| ==> !Full(state.q, old(state.groups)))
              && Registered(encoder, state.groups, next)
  {
    hide *;
    ghost var table := state.groups;
    next := groupsById;
    AddRowRefused(state.q, table, row);
    StateKeys(state);
    var id := NextId(encoder, table, groupsById, index);
    if id.Err? {
      r := Err(id.error);
      return;
    }
    if id.value in groupsById {
      GroupOfId(encoder, table, groupsById, id.value);
      ReadyKnown(state.q, table, GroupKey(state.q.num, row.keyValues).value, row.keyValues);
      r := Ok(groupsById[id.value]);
    } else {
      r := state.GetOrCreate(encoder.KeyValues(id.value));
      if r.Ok? {
        ReadyKeys(state.q, table, GroupKey(state.q.num, row.keyValues).value, row.keyValues);
        RegisterNewest(encoder, table, state.groups, groupsById, id.value, r.value);
        next := groupsById[id.value := r.value];
      }
    }
  }

  lemma StateKeys(state: GroupByState)
    requires state.Valid()
    ensures DistinctKeys(state.groups)
  {
  }

  lemma ReadyKnown(q: Query, table: seq<Slot>, key: string, keyValues: seq<Scalar>)
    ensures FindSlot(table, key) < |table| ==> Ready(q, table, key, keyValues) == table
  {
  }

  lemma ReadyKeys(q: Query, table: seq<Slot>, key: string, keyValues: seq<Scalar>)
    ensures var ready := Ready(q, table, key, keyValues);
            |table| <= |ready| && forall i :: 0 <= i < |table| ==> ready[i] == table[i]
  {
  }

  /** One selected row through the encoded path is one added row. */
  method AddEncoded(state: GroupByState, encoder: KeyEncoder, groupsById: map<nat, nat>, row: RowIn, index: nat)
    returns (r: Result<map<nat, nat>>)
    requires state.Valid() && encoder.Valid() && encoder.num == state.q.num && index < encoder.rowCount
    requires row.keyValues == ValuesAt(encoder.vectors, encoder.rowCount, index)
    requires Registered(encoder, state.groups, groupsById)
    modifies state, encoder
    ensures state.Valid() && encoder.Valid()
    ensures state.groups == Reached(state.q, old(state.groups), row)
    ensures match AddRow(state.q, old(state.groups), row)
            case Ok(_) => r.Ok? && Registered(encoder, state.groups, r.value)
            case Err(e) => r == Err(e)
  {
    hide *;
    ghost var table := state.groups;
    var p, next := FindGroup(state, encoder, groupsById, row, index);
    if p.Err? {
      return Err(p.error);
    }
    ghost var ready := state.groups;
    AddRowInSteps(state.q, table, row, GroupKey(state.q.num, row.keyValues).value, p.value);
    StateKeys(state);
    var updated := state.UpdateGroup(p.value, row.inputs);
    if updated.Err? {
      return Err(updated.error);
    }
    UpdatedKeeps(ready, p.value, Fed(state.q, ready[p.value].group.states, row.inputs));
    StillRegistered(encoder, ready, state.groups, next);
    return Ok(next);
  }

  /** The encoded path over a batch. */
  method UpdateEncoded(state: GroupByState, batch: KeyedBatch) returns (r: Result<nat>)
    requires state.Valid() && ValidBatch(batch) && CanEncode(batch.vectors)
    modifies state
    ensures state.Valid()
    ensures Updates(state.q, old(state.groups), RowsUpTo(batch, batch.rowCount), state.groups, r)
  {
    ghost var before := state.groups;
    var encoder := new KeyEncoder(state.q.num, batch.vectors, batch.rowCount);
    NothingRegistered(encoder, before);
    var groupsById: map<nat, nat> := map[];
    var matched := 0;
    hide *;
    NoRows(state.q, before, batch);
    for index := 0 to batch.rowCount
      invariant state.Valid() && matched == |RowsUpTo(batch, index)|
      invariant encoder.Valid() && fresh(encoder) && Registered(encoder, state.groups, groupsById)
      invariant AddRows(state.q, before, RowsUpTo(batch, index)) == Ok(state.groups)
    {
      NextRow(state.q, before, batch, index);
      if IsSelected(batch, index) {
        matched := matched + 1;
        ghost var table := state.groups;
        StopsAt(state.q, before, batch, index, table);
        var next := AddEncoded(state, encoder, groupsById, RowAt(batch, index), index);
        if next.Err? {
          return Err(next.error);
        }
        groupsById := next.value;
      }
    }
    UpdatesAll(state.q, before, RowsUpTo(batch, batch.rowCount));
    return Ok(matched);
  }

  lemma NothingRegistered(encoder: KeyEncoder, table: seq<Slot>)
    requires encoder.Valid() && encoder.values == []
    ensures Registered(encoder, table, map[])
  {
  }

  /** The grouped update of a batch: encoded where the columns allow it, through
      the key reader otherwise, with one meaning. */
  method UpdateVectorGroupBy(state: GroupByState, batch: KeyedBatch) returns (r: Result<nat>)
    requires state.Valid() && ValidBatch(batch)
    modifies state
    ensures state.Valid()
    ensures Updates(state.q, old(state.groups), RowsUpTo(batch, batch.rowCount), state.groups, r)
  {
    if CanEncode(batch.vectors) {
      r := UpdateEncoded(state, batch);
    } else {
      r := UpdateByReader(state, batch);
    }
  }

  // ----- Inputs read straight from vectors -----

  /** The shortcuts: `count(*)` adds one, `sum` and `avg` of a number column add
      its entry unless it is null. */
  function DirectUpdate(s: State, v: Vector, index: nat): State
    requires WellFormed(v) && index < Length(v)
    requires s.CountState? || ((s.SumState? || s.AvgState?) && v.NumberVector?)
  {
    match s
    case CountState(count) => CountState(count + 1)
    case SumState(sum) => if !Present(v.valid, index) then s else SumState(Add(sum, v.numbers[index]))
    case AvgState(sum, count) => if !Present(v.valid, index) then s else AvgState(Add(sum, v.numbers[index]), count + 1)
  }

  /** Each shortcut is the general update with the row's scalar (`true` for `count(*)`). */
  lemma DirectUpdateIsGeneral(key: Scalar -> string, s: State, v: Vector, index: nat)
    requires WellFormed(v) && IsScalarVector(v) && index < Length(v)
    requires s.CountState? || ((s.SumState? || s.AvgState?) && v.NumberVector?)
    ensures Ok(DirectUpdate(s, v, index)) == Update(key, s, if s.CountState? then Bool(true) else ScalarAt(v, index))
  {
  }
}
