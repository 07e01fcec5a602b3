/** The in-memory checkpoint store, and the output manifest built from it. */
module CheckpointStore {
  import opened Scalars
  import opened Orders
  import opened Checkpoints

  const MARKER: string := "-task-"

  /** Does `marker` occur in `s` at `i`? */
  predicate OccursAt(s: string, marker: string, i: nat) {
    i + |marker| <= |s| && s[i..i + |marker|] == marker
  }

  /** The first occurrence at or after `from`, or `|s| + 1`. */
  function IndexFrom(s: string, marker: string, from: nat): (i: nat)
    requires from <= |s| + 1
    ensures from <= i <= |s| + 1 && (i <= |s| ==> OccursAt(s, marker, i))
    ensures forall j :: from <= j < i ==> !OccursAt(s, marker, j)
    decreases |s| + 1 - from
  {
    if from > |s| || OccursAt(s, marker, from) then from else IndexFrom(s, marker, from + 1)
  }

  /** The job part of a task id: what precedes the first marker. */
  function JobIdFromTaskId(taskId: string): string {
    var index := IndexFrom(taskId, MARKER, 0);
    if index > |taskId| then "" else taskId[..index]
  }

  function TaskId(jobId: string, suffix: string): string {
    jobId + MARKER + suffix
  }

  /** A task id gives its job back if and only if the marker first occurs right
      after the job id: a job id may not contain it, nor run into it. */
  lemma JobIdRoundTrip(jobId: string, suffix: string)
    ensures JobIdFromTaskId(TaskId(jobId, suffix)) == jobId <==>
      forall j :: 0 <= j < |jobId| ==> !OccursAt(jobId + MARKER, MARKER, j)
  {
    var id := TaskId(jobId, suffix);
    var index := IndexFrom(id, MARKER, 0);
    assert id[|jobId|..|jobId| + |MARKER|] == MARKER;
    assert OccursAt(id, MARKER, |jobId|);
    assert index <= |jobId|;
    assert id[..|jobId|] == jobId;
    forall j | 0 <= j < |jobId| ensures OccursAt(id, MARKER, j) <==> OccursAt(jobId + MARKER, MARKER, j) {
      assert id[j..j + |MARKER|] == (jobId + MARKER)[j..j + |MARKER|];
    }
    if index < |jobId| {
      assert OccursAt(jobId + MARKER, MARKER, index);
      assert |id[..index]| == index;
    }
  }

  /** The job "x-task" is taken for the job "x". */
  lemma MarkerInJobIdIsLost(suffix: string)
    ensures JobIdFromTaskId(TaskId("x-task", suffix)) == "x"
  {
    var id := TaskId("x-task", suffix);
    assert id == "x-task-task-" + suffix;
    assert id[0..6] == "x-task" && id[0] == 'x';
    assert !OccursAt(id, MARKER, 0);
    assert id[1..7] == MARKER;
    assert OccursAt(id, MARKER, 1);
    assert IndexFrom(id, MARKER, 0) == 1;
    assert id[..1] == "x";
  }

  // ----- The store -----

  /** The position of a task's checkpoint, or the number of checkpoints. */
  function Find(entries: seq<Checkpoint>, taskId: string): (i: nat)
    ensures i <= |entries| && (i < |entries| ==> entries[i].taskId == taskId)
    ensures forall j :: 0 <= j < i ==> entries[j].taskId != taskId
  {
    if entries == [] || entries[0].taskId == taskId then 0 else 1 + Find(entries[1..], taskId)
  }

  ghost predicate DistinctTasks(entries: seq<Checkpoint>) {
    forall i, j :: 0 <= i < j < |entries| ==> entries[i].taskId != entries[j].taskId
  }

  function TaskCmp(compareIds: (string, string) -> int): (Checkpoint, Checkpoint) -> int {
    (a: Checkpoint, b: Checkpoint) => compareIds(a.taskId, b.taskId)
  }

  /** The checkpoints of a job, or of all jobs, among a list. */
  function OfJob(entries: seq<Checkpoint>, jobId: Option<string>): seq<Checkpoint>
    decreases |entries|
  {
    if entries == [] then []
    else
      var before := OfJob(entries[..|entries| - 1], jobId);
      var last := entries[|entries| - 1];
      if jobId.None? || JobIdFromTaskId(last.taskId) == jobId.value then before + [last] else before
  }

  class MemoryCheckpointAdapter {
    var checkpoints: seq<Checkpoint>
    var taskJobs: map<string, string>

    /** One checkpoint a task, each filed under the job its id names. */
    ghost predicate Valid()
      reads this
    {
      && DistinctTasks(checkpoints)
      && (forall i :: 0 <= i < |checkpoints| ==>
            && checkpoints[i].taskId in taskJobs
            && taskJobs[checkpoints[i].taskId] == JobIdFromTaskId(checkpoints[i].taskId))
    }

    constructor ()
      ensures Valid() && checkpoints == []
    {
      checkpoints, taskJobs := [], map[];
    }

    function Stored(taskId: string): Option<Checkpoint>
      reads this
    {
      var at := Find(checkpoints, taskId);
      if at < |checkpoints| then Some(checkpoints[at]) else None
    }

    method Put(c: Checkpoint)
      requires Valid()
      modifies this
      ensures Valid() && Stored(c.taskId) == Some(c)
      ensures forall id :: id != c.taskId ==> Stored(id) == old(Stored(id))
      ensures multiset(checkpoints)
           == (if old(Stored(c.taskId)).Some? then old(multiset(checkpoints)) - multiset{old(Stored(c.taskId)).value}
               else old(multiset(checkpoints))) + multiset{c}
    {
      hide DistinctTasks, Find, JobIdFromTaskId;
      var at := Find(checkpoints, c.taskId);
      ghost var before := checkpoints;
      if at < |checkpoints| {
        checkpoints := checkpoints[at := c];
      } else {
        checkpoints := checkpoints + [c];
      }
      taskJobs := taskJobs[c.taskId := JobIdFromTaskId(c.taskId)];
      FindPut(before, checkpoints, c);
      forall id | id != c.taskId ensures Stored(id) == old(Stored(id)) {
        FindOther(before, checkpoints, c, id);
      }
    }

    /** Reads, decides and stores; a refused transition stores nothing. */
    method AdvanceTaskCheckpoint(t: Transition) returns (r: Result<Checkpoint>)
      requires Valid()
      modifies this
      ensures Valid()
      ensures r == TransitionTaskCheckpoint(old(Stored(t.taskId)), t)
      ensures Stored(t.taskId) == After(old(Stored(t.taskId)), [t])
      ensures forall id :: id != t.taskId ==> Stored(id) == old(Stored(id))
    {
      r := TransitionTaskCheckpoint(Stored(t.taskId), t);
      assert [t][..0] == [];
      assert After(Stored(t.taskId), []) == Stored(t.taskId);
      if r.Ok? {
        assert r.value.taskId == t.taskId;
        Put(r.value);
      }
    }

    lemma FiledUnderJob(c: Checkpoint)
      requires Valid() && c in multiset(checkpoints)
      ensures c.taskId in taskJobs && taskJobs[c.taskId] == JobIdFromTaskId(c.taskId)
    {
      hide JobIdFromTaskId;
      assert c in checkpoints;
    }

    /** The job's checkpoints in task order. */
    method List(compareIds: (string, string) -> int, jobId: Option<string>) returns (listed: seq<Checkpoint>)
      requires Valid()
      ensures listed == OfJob(Sort(TaskCmp(compareIds), checkpoints), jobId)
    {
      hide *;
      var sorted := Sort(TaskCmp(compareIds), checkpoints);
      SortContents(TaskCmp(compareIds), checkpoints);
      listed := [];
      NoneOfJob(jobId);
      assert sorted[..0] == [];
      for n := 0 to |sorted|
        invariant listed == OfJob(sorted[..n], jobId)
      {
        assert sorted[..n + 1] == sorted[..n] + [sorted[n]];
        OfJobSnoc(sorted[..n], sorted[n], jobId);
        assert sorted[n] in multiset(sorted);
        FiledUnderJob(sorted[n]);
        if jobId.None? || taskJobs[sorted[n].taskId] == jobId.value {
          listed := listed + [sorted[n]];
        }
      }
      assert sorted[..|sorted|] == sorted;
    }
  }

  lemma NoneOfJob(jobId: Option<string>)
    ensures OfJob([], jobId) == []
  {
  }

  lemma OfJobSnoc(entries: seq<Checkpoint>, c: Checkpoint, jobId: Option<string>)
    ensures OfJob(entries + [c], jobId)
         == if jobId.None? || JobIdFromTaskId(c.taskId) == jobId.value then OfJob(entries, jobId) + [c]
            else OfJob(entries, jobId)
  {
    assert (entries + [c])[..|entries|] == entries;
  }

  /** Storing one task's checkpoint leaves the other tasks' alone. */
  lemma FindOther(before: seq<Checkpoint>, after: seq<Checkpoint>, c: Checkpoint, id: string)
    requires id != c.taskId && DistinctTasks(before)
    requires var at := Find(before, c.taskId);
             after == if at < |before| then before[at := c] else before + [c]
    ensures var i, j := Find(before, id), Find(after, id);
            (i < |before| <==> j < |after|) && (i < |before| ==> before[i] == after[j])
  {
    hide *;
    var at, i := Find(before, c.taskId), Find(before, id);
    var j := if i < |before| then i else |after|;
    forall k | 0 <= k < j ensures after[k].taskId != id {
      assert k < |before| && k != at ==> after[k] == before[k];
    }
  }

  lemma FindPut(before: seq<Checkpoint>, after: seq<Checkpoint>, c: Checkpoint)
    requires DistinctTasks(before)
    requires var at := Find(before, c.taskId);
             after == if at < |before| then before[at := c] else before + [c]
    ensures DistinctTasks(after) && Find(after, c.taskId) < |after| && after[Find(after, c.taskId)] == c
  {
    var at := Find(before, c.taskId);
    assert after[if at < |before| then at else |before|] == c;
  }

  // ----- The manifest -----

  predicate InJob(c: Checkpoint, jobId: string) {
    JobIdFromTaskId(c.taskId) == jobId
  }

  /** What one checkpoint contributes to a job's manifest. */
  function Contribution(c: Checkpoint, jobId: string): multiset<OutputEntry> {
    if InJob(c, jobId) then multiset(OutputsOf(c)) else multiset{}
  }

  /** Everything the checkpoints of a job have recorded, each entry as often as recorded. */
  ghost function Recorded(entries: seq<Checkpoint>, jobId: string): multiset<OutputEntry>
    decreases |entries|
  {
    if entries == [] then multiset{}
    else Recorded(entries[1..], jobId) + Contribution(entries[0], jobId)
  }

  lemma {:induction false} RecordedAppend(a: seq<Checkpoint>, b: seq<Checkpoint>, jobId: string)
    ensures Recorded(a + b, jobId) == Recorded(a, jobId) + Recorded(b, jobId)
    decreases |a|
  {
    if a == [] {
      assert a + b == b;
    } else {
      assert (a + b)[1..] == a[1..] + b;
      RecordedAppend(a[1..], b, jobId);
    }
  }

  lemma RecordedRemove(s: seq<Checkpoint>, i: nat, jobId: string)
    requires i < |s|
    ensures Recorded(s, jobId) == Recorded(s[..i] + s[i + 1..], jobId) + Contribution(s[i], jobId)
  {
    assert s == s[..i] + ([s[i]] + s[i + 1..]);
    RecordedAppend(s[..i], [s[i]] + s[i + 1..], jobId);
    RecordedAppend(s[..i], s[i + 1..], jobId);
    assert ([s[i]] + s[i + 1..])[1..] == s[i + 1..];
  }

  /** The order in which checkpoints were stored does not matter. */
  lemma {:induction false} RecordedPermutation(s: seq<Checkpoint>, t: seq<Checkpoint>, jobId: string)
    requires multiset(s) == multiset(t)
    ensures Recorded(s, jobId) == Recorded(t, jobId)
    decreases |s|
  {
    if s == [] {
      assert |multiset(t)| == |t|;
    } else {
      var i := Locate(s[0], s, t);
      TailMultiset(s);
      RecordedPermutation(s[1..], t[..i] + t[i + 1..], jobId);
      RecordedRemove(t, i, jobId);
    }
  }

  function AllOutputs(cs: seq<Checkpoint>): seq<OutputEntry>
    decreases |cs|
  {
    if cs == [] then [] else AllOutputs(cs[..|cs| - 1]) + OutputsOf(cs[|cs| - 1])
  }

  lemma RecordedSnoc(entries: seq<Checkpoint>, c: Checkpoint, jobId: string)
    ensures Recorded(entries + [c], jobId) == Recorded(entries, jobId) + Contribution(c, jobId)
  {
    RecordedAppend(entries, [c], jobId);
    assert [c][1..] == [];
    assert Recorded([c], jobId) == Contribution(c, jobId);
  }

  lemma {:induction false} ListedOutputs(entries: seq<Checkpoint>, jobId: string)
    ensures multiset(AllOutputs(OfJob(entries, Some(jobId)))) == Recorded(entries, jobId)
    decreases |entries|
  {
    if entries != [] {
      var front, last := entries[..|entries| - 1], entries[|entries| - 1];
      ListedOutputs(front, jobId);
      assert entries == front + [last];
      hide AllOutputs, OfJob, Recorded, OutputsOf, JobIdFromTaskId;
      RecordedSnoc(front, last, jobId);
      OfJobSnoc(front, last, Some(jobId));
    }
  }

  function EntryCmp(compareIds: (string, string) -> int): (OutputEntry, OutputEntry) -> int {
    (a: OutputEntry, b: OutputEntry) =>
      if compareIds(a.taskId, b.taskId) != 0 then compareIds(a.taskId, b.taskId)
      else compareIds(a.outputPath, b.outputPath)
  }

  /** The manifest holds exactly what the job's checkpoints recorded, ordered by
      task and path, however the checkpoints were stored. */
  method CreateOutputManifest(adapter: MemoryCheckpointAdapter, compareIds: (string, string) -> int, jobId: string)
    returns (entries: seq<OutputEntry>)
    requires adapter.Valid()
    ensures multiset(entries) == Recorded(adapter.checkpoints, jobId)
    ensures TotalPreorder(compareIds) ==> Sorted(EntryCmp(compareIds), entries)
  {
    var listed := adapter.List(compareIds, Some(jobId));
    ghost var sorted := Sort(TaskCmp(compareIds), adapter.checkpoints);
    SortContents(TaskCmp(compareIds), adapter.checkpoints);
    RecordedPermutation(adapter.checkpoints, sorted, jobId);
    ListedOutputs(sorted, jobId);
    var collected: seq<OutputEntry> := [];
    for n := 0 to |listed|
      invariant collected == AllOutputs(listed[..n])
    {
      assert listed[..n + 1][..n] == listed[..n];
      collected := collected + OutputsOf(listed[n]);
    }
    assert listed[..|listed|] == listed;
    entries := Sort(EntryCmp(compareIds), collected);
    SortContents(EntryCmp(compareIds), collected);
    if TotalPreorder(compareIds) {
      EntryCmpPreorder(compareIds);
      SortSorted(EntryCmp(compareIds), collected);
    }
  }

  lemma EntryCmpTransitive(compareIds: (string, string) -> int, x: OutputEntry, y: OutputEntry, z: OutputEntry)
    requires TotalPreorder(compareIds) && EntryCmp(compareIds)(x, y) <= 0 && EntryCmp(compareIds)(y, z) <= 0
    ensures EntryCmp(compareIds)(x, z) <= 0
  {
    Transitive(compareIds, x.taskId, y.taskId, z.taskId);
    Transitive(compareIds, x.outputPath, y.outputPath, z.outputPath);
    Transitive(compareIds, z.taskId, x.taskId, y.taskId);
  }

  lemma EntryCmpPreorder(compareIds: (string, string) -> int)
    requires TotalPreorder(compareIds)
    ensures TotalPreorder(EntryCmp(compareIds))
  {
    var cmp := EntryCmp(compareIds);
    forall x, y ensures cmp(x, y) < 0 <==> cmp(y, x) > 0 {
      assert compareIds(x.taskId, y.taskId) < 0 <==> compareIds(y.taskId, x.taskId) > 0;
      assert compareIds(y.taskId, x.taskId) < 0 <==> compareIds(x.taskId, y.taskId) > 0;
      assert compareIds(x.outputPath, y.outputPath) < 0 <==> compareIds(y.outputPath, x.outputPath) > 0;
    }
    forall x, y, z | cmp(x, y) <= 0 && cmp(y, z) <= 0 ensures cmp(x, z) <= 0 {
      EntryCmpTransitive(compareIds, x, y, z);
    }
  }
}
