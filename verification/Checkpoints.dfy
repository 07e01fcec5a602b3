/** The task checkpoint protocol: which transitions are accepted, what fences
    one worker's key from another's, and what happens to recorded outputs. */
module Checkpoints {
  import opened Scalars
  import opened Orders

  datatype TaskState = Planned | Running | OutputWritten | ManifestRecorded | Complete

  datatype IcebergMetrics = IcebergMetrics(recordCount: nat, fileSizeInBytes: nat, partitionValues: map<string, string>)

  datatype OutputEntry = OutputEntry(
    taskId: string, outputPath: string, partitionValues: map<string, string>, rowCount: nat, byteSize: nat,
    contentHash: Option<string>, etag: Option<string>, iceberg: Option<IcebergMetrics>)

  datatype Checkpoint = Checkpoint(
    taskId: string, state: TaskState, idempotencyKey: string, updatedAtMs: int,
    output: Option<OutputEntry>, outputs: Option<seq<OutputEntry>>)

  datatype Transition = Transition(
    taskId: string, nextState: TaskState, idempotencyKey: string, nowMs: int, staleTimeoutMs: Option<int>,
    output: Option<OutputEntry>, outputs: Option<seq<OutputEntry>>)

  function StateRank(s: TaskState): nat {
    match s
    case Planned => 0
    case Running => 1
    case OutputWritten => 2
    case ManifestRecorded => 3
    case Complete => 4
  }

  predicate TransitionAllowed(from: TaskState, to: TaskState, stale: bool) {
    (stale && to == Running) || StateRank(to) == StateRank(from) + 1
  }

  function CreateCheckpoint(t: Transition): Checkpoint {
    Checkpoint(t.taskId, t.nextState, t.idempotencyKey, t.nowMs, t.output, t.outputs)
  }

  predicate IsStale(existing: Checkpoint, t: Transition) {
    t.staleTimeoutMs.Some? && t.nowMs - existing.updatedAtMs > t.staleTimeoutMs.value
  }

  predicate IsReplay(existing: Checkpoint, t: Transition) {
    existing.state == t.nextState && existing.idempotencyKey == t.idempotencyKey
  }

  /** A later state takes over the outputs already recorded, unless it brings its own. */
  function CarryOutputs(existing: Checkpoint, t: Transition): Checkpoint {
    var created := CreateCheckpoint(t);
    var forward := StateRank(t.nextState) > StateRank(existing.state);
    var one := if created.output.None? && created.outputs.None? && existing.output.Some? && forward
               then created.(output := existing.output) else created;
    if one.output.None? && one.outputs.None? && existing.outputs.Some? && forward
    then one.(outputs := existing.outputs) else one
  }

  function TransitionTaskCheckpoint(existing: Option<Checkpoint>, t: Transition): Result<Checkpoint> {
    match existing
    case None => Ok(CreateCheckpoint(t))
    case Some(c) =>
      if c.taskId != t.taskId then Err(ValidationError)
      else if IsReplay(c, t) then Ok(c)
      else if c.idempotencyKey != t.idempotencyKey && !IsStale(c, t) then Err(ValidationError)
      else if !TransitionAllowed(c.state, t.nextState, IsStale(c, t)) then Err(ValidationError)
      else Ok(CarryOutputs(c, t))
  }

  // ----- One step -----

  /** The four steps forward. */
  predicate NextState(from: TaskState, to: TaskState) {
    || (from == Planned && to == Running)
    || (from == Running && to == OutputWritten)
    || (from == OutputWritten && to == ManifestRecorded)
    || (from == ManifestRecorded && to == Complete)
  }

  /** Reached by any number of steps forward. */
  predicate NotBefore(from: TaskState, to: TaskState) {
    match from
    case Planned => true
    case Running => to != Planned
    case OutputWritten => to == OutputWritten || to == ManifestRecorded || to == Complete
    case ManifestRecorded => to == ManifestRecorded || to == Complete
    case Complete => to == Complete
  }

  /** After an existing checkpoint, an accepted transition is a replay under the
      same key, one state forward, or a stale return to running; the key changes
      only when the checkpoint is stale. */
  lemma AcceptedExactly(c: Checkpoint, t: Transition)
    ensures TransitionTaskCheckpoint(Some(c), t).Ok? <==>
      && c.taskId == t.taskId
      && (IsReplay(c, t)
          || ((c.idempotencyKey == t.idempotencyKey || IsStale(c, t))
              && (NextState(c.state, t.nextState) || (IsStale(c, t) && t.nextState == Running))))
    ensures TransitionTaskCheckpoint(Some(c), t).Ok? ==>
      var next := TransitionTaskCheckpoint(Some(c), t).value;
      && next.taskId == c.taskId && next.state == t.nextState && next.idempotencyKey == t.idempotencyKey
      && (next.idempotencyKey != c.idempotencyKey ==> IsStale(c, t))
      && next.updatedAtMs == (if IsReplay(c, t) then c.updatedAtMs else t.nowMs)
  {
  }

  // ----- Whole runs -----

  /** The stored checkpoint after a list of attempts; a refused one changes nothing. */
  function After(stored: Option<Checkpoint>, attempts: seq<Transition>): Option<Checkpoint>
    decreases |attempts|
  {
    if attempts == [] then stored
    else
      var before := After(stored, attempts[..|attempts| - 1]);
      var step := TransitionTaskCheckpoint(before, attempts[|attempts| - 1]);
      if step.Ok? then Some(step.value) else before
  }

  ghost predicate ClockForward(from: int, attempts: seq<Transition>) {
    && (forall i :: 0 <= i < |attempts| ==> from <= attempts[i].nowMs)
    && (forall i, j :: 0 <= i < j < |attempts| ==> attempts[i].nowMs <= attempts[j].nowMs)
  }

  /** Every attempt that sets a timeout waits at least `timeout`. */
  ghost predicate WaitAtLeast(timeout: int, attempts: seq<Transition>) {
    forall i :: 0 <= i < |attempts| && attempts[i].staleTimeoutMs.Some? ==> attempts[i].staleTimeoutMs.value >= timeout
  }

  /** Fencing: on a clock that does not go back, within the timeout of a recorded
      step no attempt under another key is accepted, whatever is attempted in
      between, and the state only moves forward. */
  lemma {:induction false} Fenced(c: Checkpoint, attempts: seq<Transition>, timeout: int)
    requires ClockForward(c.updatedAtMs, attempts) && WaitAtLeast(timeout, attempts)
    requires forall i :: 0 <= i < |attempts| ==> attempts[i].nowMs - c.updatedAtMs <= timeout
    ensures var last := After(Some(c), attempts);
            && last.Some? && last.value.taskId == c.taskId && last.value.idempotencyKey == c.idempotencyKey
            && NotBefore(c.state, last.value.state)
            && c.updatedAtMs <= last.value.updatedAtMs
            && (attempts != [] ==> last.value.updatedAtMs <= Later(c.updatedAtMs, attempts[|attempts| - 1].nowMs))
    ensures forall i :: 0 <= i < |attempts| && attempts[i].idempotencyKey != c.idempotencyKey ==>
              TransitionTaskCheckpoint(After(Some(c), attempts[..i]), attempts[i]) == Err(ValidationError)
    decreases |attempts|
  {
    if attempts != [] {
      var front, t := attempts[..|attempts| - 1], attempts[|attempts| - 1];
      Fenced(c, front, timeout);
      var before := After(Some(c), front).value;
      assert attempts[..|attempts| - 1] == front;
      assert !IsStale(before, t);
      AcceptedExactly(before, t);
      forall i | 0 <= i < |attempts| && attempts[i].idempotencyKey != c.idempotencyKey
        ensures TransitionTaskCheckpoint(After(Some(c), attempts[..i]), attempts[i]) == Err(ValidationError)
      {
        if i < |front| {
          assert front[..i] == attempts[..i] && front[i] == attempts[i];
        }
      }
    }
  }

  function Later(a: int, b: int): int {
    if a >= b then a else b
  }

  /** A key can be replaced once, and only once, the timeout has passed. */
  lemma TakeoverNeedsTimeout(c: Checkpoint, t: Transition)
    requires t.taskId == c.taskId && t.idempotencyKey != c.idempotencyKey && t.nextState == Running
    ensures TransitionTaskCheckpoint(Some(c), t).Ok? <==> IsStale(c, t)
  {
  }

  // ----- Outputs -----

  /** The outputs a checkpoint contributes to the manifest: the list if there is one. */
  function OutputsOf(c: Checkpoint): seq<OutputEntry> {
    if c.outputs.Some? then c.outputs.value else if c.output.Some? then [c.output.value] else []
  }

  predicate SuppliesNone(t: Transition) {
    t.output.None? && t.outputs.None?
  }

  predicate OneForm(c: Checkpoint) {
    c.output.None? || c.outputs.None?
  }

  /** A step that brings no outputs keeps the recorded ones exactly when it moves
      forward from a checkpoint whose two forms do not disagree, or there are none. */
  lemma OutputsKeptExactly(c: Checkpoint, t: Transition)
    requires TransitionTaskCheckpoint(Some(c), t).Ok? && !IsReplay(c, t) && SuppliesNone(t)
    ensures OutputsOf(TransitionTaskCheckpoint(Some(c), t).value) == OutputsOf(c) <==>
      if NextState(c.state, t.nextState)
      then (OneForm(c) || c.outputs.value == [c.output.value])
      else OutputsOf(c) == []
  {
  }

  lemma SuppliedOutputsWin(c: Checkpoint, t: Transition)
    requires TransitionTaskCheckpoint(Some(c), t).Ok? && !IsReplay(c, t) && !SuppliesNone(t)
    ensures OutputsOf(TransitionTaskCheckpoint(Some(c), t).value) == OutputsOf(CreateCheckpoint(t))
  {
  }

  /** Along a fenced run that supplies nothing new, recorded outputs survive. */
  lemma {:induction false} OutputsSurvive(c: Checkpoint, attempts: seq<Transition>, timeout: int)
    requires ClockForward(c.updatedAtMs, attempts) && WaitAtLeast(timeout, attempts)
    requires forall i :: 0 <= i < |attempts| ==>
      attempts[i].nowMs - c.updatedAtMs <= timeout && SuppliesNone(attempts[i])
    requires OneForm(c)
    ensures After(Some(c), attempts).Some? && OneForm(After(Some(c), attempts).value)
    ensures OutputsOf(After(Some(c), attempts).value) == OutputsOf(c)
    decreases |attempts|
  {
    if attempts != [] {
      var front, t := attempts[..|attempts| - 1], attempts[|attempts| - 1];
      Fenced(c, front, timeout);
      OutputsSurvive(c, front, timeout);
      var before := After(Some(c), front).value;
      AcceptedExactly(before, t);
      if TransitionTaskCheckpoint(Some(before), t).Ok? && !IsReplay(before, t) {
        assert !IsStale(before, t);
        OutputsKeptExactly(before, t);
      }
    }
  }

  /** A checkpoint recorded with both forms loses its list on the next step. */
  lemma BothFormsLoseList(a: OutputEntry, b: OutputEntry)
    requires a != b
    ensures var c := Checkpoint("t", OutputWritten, "k", 0, Some(a), Some([b]));
            var t := Transition("t", ManifestRecorded, "k", 1, None, None, None);
            && OutputsOf(c) == [b]
            && TransitionTaskCheckpoint(Some(c), t).Ok?
            && OutputsOf(TransitionTaskCheckpoint(Some(c), t).value) == [a]
  {
  }
}
