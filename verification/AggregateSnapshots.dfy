/** Snapshots of aggregate states: plain data from which the state is rebuilt. */
module AggregateSnapshots {
  import opened Scalars
  import opened Decimals
  import opened SortedRuns
  import opened Aggregates
  import opened AggregateMerges

  /** A value as plain data: integers and instants travel as decimal text. */
  datatype SnapshotValue =
    | PlainValue(value: Scalar)
    | BigIntText(text: string)
    | TimestampText(nanos: string, unit: TimestampUnit, utc: bool)

  datatype SnapshotEntry = SnapshotEntry(key: string, value: SnapshotValue, count: nat)

  datatype Snapshot =
    | CountSnapshot(count: nat)
    | SumSnapshot(sum: Num)
    | AvgSnapshot(sum: Num, count: nat)
    | VarianceSnapshot(kind: VarianceKind, count: nat, mean: Num, m2: Num)
    | MedianSnapshot(values: seq<Scalar>)
    | QuantileSnapshot(q: real, numbers: seq<Num>)
    | ExtremeSnapshot(isMin: bool, value: SnapshotValue)
    | DistinctSnapshot(approx: bool, listed: seq<string>)
    | ModeSnapshot(entries: seq<SnapshotEntry>)
    | FirstSnapshot(seen: bool, value: SnapshotValue)
    | LastSnapshot(seen: bool, value: SnapshotValue)
    | AnySnapshot(seen: bool, value: SnapshotValue)

  function TakeValue(v: Scalar): SnapshotValue {
    match v
    case Time(t) => TimestampText(IntText(t.nanos), t.unit, t.utc)
    case BigInt(i) => BigIntText(IntText(i))
    case _ => PlainValue(v)
  }

  /** `None` where the runtime's integer parser throws. */
  function RestoreValue(v: SnapshotValue): Option<Scalar> {
    match v
    case PlainValue(value) => Some(value)
    case BigIntText(text) =>
      var i := ParseInt(text);
      if i.Some? then Some(BigInt(i.value)) else None
    case TimestampText(nanos, unit, utc) =>
      var i := ParseInt(nanos);
      if i.Some? then Some(Time(Timestamp(i.value, unit, utc))) else None
  }

  lemma ValueRoundTrip(v: Scalar)
    ensures RestoreValue(TakeValue(v)) == Some(v)
  {
    match v
    case Time(t) => IntRoundTrip(t.nanos);
    case BigInt(i) => IntRoundTrip(i);
    case _ =>
  }

  function TakeEntries(entries: seq<Entry>): seq<SnapshotEntry> {
    if entries == [] then []
    else [SnapshotEntry(entries[0].key, TakeValue(entries[0].value), entries[0].count)] + TakeEntries(entries[1..])
  }

  /** The map rebuilt from the listed entries, whose keys a map has made distinct. */
  function RestoreEntries(entries: seq<SnapshotEntry>): Option<seq<Entry>> {
    if entries == [] then Some([])
    else
      var value := RestoreValue(entries[0].value);
      var rest := RestoreEntries(entries[1..]);
      if value.Some? && rest.Some? then
        Some([Entry(entries[0].key, value.value, entries[0].count)] + rest.value)
      else None
  }

  lemma {:induction false} EntriesRoundTrip(entries: seq<Entry>)
    ensures RestoreEntries(TakeEntries(entries)) == Some(entries)
  {
    if entries != [] {
      EntriesRoundTrip(entries[1..]);
      ValueRoundTrip(entries[0].value);
      assert TakeEntries(entries)[1..] == TakeEntries(entries[1..]);
      assert [entries[0]] + entries[1..] == entries;
    }
  }

  ghost function Take(s: State): Snapshot {
    match s
    case CountState(count) => CountSnapshot(count)
    case SumState(sum) => SumSnapshot(sum)
    case AvgState(sum, count) => AvgSnapshot(sum, count)
    case VarianceState(kind, count, mean, m2) => VarianceSnapshot(kind, count, mean, m2)
    case MedianState(values) => MedianSnapshot(values)
    case QuantileState(q, numbers) => QuantileSnapshot(q, numbers)
    case ExtremeState(isMin, value) => ExtremeSnapshot(isMin, TakeValue(value))
    case DistinctState(approx, keys) => DistinctSnapshot(approx, Listing(keys))
    case ModeState(entries) => ModeSnapshot(TakeEntries(entries))
    case FirstState(seen, value) => FirstSnapshot(seen, TakeValue(value))
    case LastState(seen, value) => LastSnapshot(seen, TakeValue(value))
    case AnyState(seen, value) => AnySnapshot(seen, TakeValue(value))
  }

  ghost function Restore(snapshot: Snapshot): Option<State> {
    match snapshot
    case CountSnapshot(count) => Some(CountState(count))
    case SumSnapshot(sum) => Some(SumState(sum))
    case AvgSnapshot(sum, count) => Some(AvgState(sum, count))
    case VarianceSnapshot(kind, count, mean, m2) => Some(VarianceState(kind, count, mean, m2))
    case MedianSnapshot(values) => Some(MedianState(values))
    case QuantileSnapshot(q, numbers) => Some(QuantileState(q, numbers))
    case ExtremeSnapshot(isMin, value) =>
      var v := RestoreValue(value);
      if v.Some? then Some(ExtremeState(isMin, v.value)) else None
    case DistinctSnapshot(approx, listed) => Some(DistinctState(approx, SetOf(listed)))
    case ModeSnapshot(entries) =>
      var es := RestoreEntries(entries);
      if es.Some? then Some(ModeState(es.value)) else None
    case FirstSnapshot(seen, value) =>
      var v := RestoreValue(value);
      if v.Some? then Some(FirstState(seen, v.value)) else None
    case LastSnapshot(seen, value) =>
      var v := RestoreValue(value);
      if v.Some? then Some(LastState(seen, v.value)) else None
    case AnySnapshot(seen, value) =>
      var v := RestoreValue(value);
      if v.Some? then Some(AnyState(seen, v.value)) else None
  }

  /** Restoring a snapshot gives back the state it was taken from. */
  lemma SnapshotRoundTrip(s: State)
    ensures Restore(Take(s)) == Some(s)
  {
    match s
    case ExtremeState(_, value) => ValueRoundTrip(value);
    case ModeState(entries) => EntriesRoundTrip(entries);
    case FirstState(_, value) => ValueRoundTrip(value);
    case LastState(_, value) => ValueRoundTrip(value);
    case AnyState(_, value) => ValueRoundTrip(value);
    case _ =>
  }

  /** A run may be cut anywhere, its state stored and restored, and resumed. */
  lemma ResumedRunIsWhole(key: Scalar -> string, op: Op, a: seq<Scalar>, b: seq<Scalar>)
    requires Run(key, op, a).Ok?
    ensures Restore(Take(Run(key, op, a).value)).Some?
    ensures RunFrom(key, Restore(Take(Run(key, op, a).value)).value, b) == Run(key, op, a + b)
  {
    SnapshotRoundTrip(Run(key, op, a).value);
    RunFromAppend(key, Create(op), a, b);
  }
}
