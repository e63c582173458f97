/** Renumbering the task records to the dense range 0 .. n-1 before an
    export (`cleanTasks`, scheduler.js:104-117), as written and as evidently
    intended. */
module Compaction {

  import opened Records
  import opened Keys
  import opened KeyValueStore
  import Sorting
  import Collections

  predicate Distinct(ids: seq<int>)
  {
    forall i, j :: 0 <= i < j < |ids| ==> ids[i] != ids[j]
  }

  predicate Increasing(ids: seq<int>)
  {
    forall i, j :: 0 <= i < j < |ids| ==> ids[i] < ids[j]
  }

  /** Every id from position `i` on names a task record of `d`. */
  predicate PresentFrom(d: Data, ids: seq<int>, i: nat)
  {
    forall k :: i <= k < |ids| ==> TaskKey(ids[k]) in d
  }

  /** The `oldToNewIds` table: old id `ids[i]` becomes `i`. */
  predicate IsRenumbering(ids: seq<int>, oldToNew: map<int, int>)
  {
    && oldToNew.Keys == (set i | 0 <= i < |ids| :: ids[i])
    && forall i :: 0 <= i < |ids| ==> oldToNew[ids[i]] == i
  }

  // ---------------------------------------------------------------------
  // The specification: what a renumbering should leave in the store

  /** `d` without the task records named in `ids`. */
  ghost function WithoutTasks(d: Data, ids: seq<int>): (e: Data)
    ensures forall k :: k in e <==> k in d && !(k.TaskKey? && k.taskId in ids)
  {
    map k | k in d && !(k.TaskKey? && k.taskId in ids) :: d[k]
  }

  /** Task records numbered 0, 1, ... in the order given. */
  function TaskRange(ts: seq<Task>): (e: Data)
    ensures forall k :: k in e <==> k.TaskKey? && 0 <= k.taskId < |ts|
  {
    map j | 0 <= j < |ts| :: TaskKey(j) := TaskEntry(ts[j])
  }

  /** The records of the tasks named in `ids`, in that order. */
  ghost function RecordsAt(d: Data, ids: seq<int>): (ts: seq<Task>)
    requires PresentFrom(d, ids, 0)
    ensures |ts| == |ids|
  {
    seq(|ids|, j requires 0 <= j < |ids| => d[TaskKey(ids[j])].task)
  }

  /** The store after the renumbering: the task records named in `ids` are
      gone and the i-th of them is stored under id i; nothing else changes. */
  ghost function CompactedData(d: Data, ids: seq<int>): Data
    requires PresentFrom(d, ids, 0)
  {
    WithoutTasks(d, ids) + TaskRange(RecordsAt(d, ids))
  }

  /** When `ids` lists every task of the store, the renumbered store holds the
      i-th task record under id i and no other task. */
  lemma CompactedTasks(d: Data, ids: seq<int>)
    requires PresentFrom(d, ids, 0)
    requires forall n :: n in TasksOf(d) ==> n in ids
    ensures forall n :: n in TasksOf(CompactedData(d, ids)) <==> 0 <= n < |ids|
    ensures forall j :: 0 <= j < |ids| ==> TasksOf(CompactedData(d, ids))[j] == TasksOf(d)[ids[j]]
  {
    var e := CompactedData(d, ids);
    var r := TaskRange(RecordsAt(d, ids));
    forall n | n in TasksOf(e) ensures 0 <= n < |ids| {
      assert TaskKey(n) in e;
    }
    forall j | 0 <= j < |ids|
      ensures j in TasksOf(e) && TasksOf(e)[j] == TasksOf(d)[ids[j]]
    {
      assert TaskKey(j) in r;
      assert TaskKey(ids[j]) in d;
    }
  }

  /** Renumbering leaves the role records alone. */
  lemma CompactedRoles(d: Data, ids: seq<int>)
    requires PresentFrom(d, ids, 0)
    ensures RolesOf(CompactedData(d, ids)) == RolesOf(d)
  {
    var e := CompactedData(d, ids);
    forall x | x in RolesOf(d) ensures x in RolesOf(e) && RolesOf(e)[x] == RolesOf(d)[x] {
      assert RoleKey(x) in d;
    }
    forall x | x in RolesOf(e) ensures x in RolesOf(d) {
      assert RoleKey(x) in e;
    }
  }

  /** Renumbering a store whose task ids already are 0 .. n-1 changes
      nothing. */
  lemma CompactedIdempotent(d: Data, ids: seq<int>)
    requires PresentFrom(d, ids, 0)
    requires forall n :: n in TasksOf(d) ==> n in ids
    requires forall i :: 0 <= i < |ids| ==> ids[i] == i
    ensures CompactedData(d, ids) == d
  {
    var e := CompactedData(d, ids);
    var ts := RecordsAt(d, ids);
    forall k | k in d ensures k in e && e[k] == d[k] {
      if k.TaskKey? {
        assert k.taskId in TasksOf(d);
        assert ids[k.taskId] == k.taskId;
        assert ts[k.taskId] == d[k].task;
      }
    }
    forall k | k in e ensures k in d {
      if k.TaskKey? && 0 <= k.taskId < |ids| {
        assert ids[k.taskId] == k.taskId;
      }
    }
  }

  // ---------------------------------------------------------------------
  // The loop as written

  /** One round of the second `forEach`: copy the record of old id `ids[i]`
      to new id `i`, then delete old id `ids[i]`. */
  function Step(d: Data, ids: seq<int>, i: nat): (e: Data)
    requires i < |ids| && TaskKey(ids[i]) in d
    ensures forall k :: k in e <==> (k in d || k == TaskKey(i)) && k != TaskKey(ids[i])
  {
    var w: Data := d[TaskKey(i) := d[TaskKey(ids[i])]];
    w - {TaskKey(ids[i])}
  }

  /** Rounds i, i+1, ... of that loop. */
  ghost function CleanFrom(d: Data, ids: seq<int>, i: nat): Data
    requires i <= |ids| && Distinct(ids) && PresentFrom(d, ids, i)
    decreases |ids| - i
  {
    if i == |ids| then d else CleanFrom(Step(d, ids, i), ids, i + 1)
  }

  /** The state after the first `i` rounds when every old id exceeds its new
      index: the first `i` old ids are gone and their records sit at 0 .. i-1. */
  ghost function Partial(d: Data, ids: seq<int>, i: nat): Data
    requires i <= |ids| && PresentFrom(d, ids, 0)
  {
    WithoutTasks(d, ids[..i]) + TaskRange(RecordsAt(d, ids[..i]))
  }

  /** Where each key of `Partial` comes from. */
  lemma PartialAt(d: Data, ids: seq<int>, i: nat)
    requires i <= |ids| && PresentFrom(d, ids, 0)
    ensures forall k :: k in Partial(d, ids, i) <==>
      (k in d && !(k.TaskKey? && k.taskId in ids[..i])) || (k.TaskKey? && 0 <= k.taskId < i)
    ensures forall j :: 0 <= j < i ==> Partial(d, ids, i)[TaskKey(j)] == d[TaskKey(ids[j])]
    ensures forall k :: k in d && !k.TaskKey? ==> Partial(d, ids, i)[k] == d[k]
    ensures forall n :: TaskKey(n) in d && n !in ids[..i] && !(0 <= n < i) ==> Partial(d, ids, i)[TaskKey(n)] == d[TaskKey(n)]
  {
    var ts := RecordsAt(d, ids[..i]);
    forall j | 0 <= j < i ensures Partial(d, ids, i)[TaskKey(j)] == d[TaskKey(ids[j])] {
      assert ts[j] == d[TaskKey(ids[j])].task;
    }
  }

  lemma PartialStep(d: Data, ids: seq<int>, i: nat)
    requires i < |ids| && Increasing(ids) && PresentFrom(d, ids, 0)
    requires forall k :: 0 <= k < |ids| ==> ids[k] > k
    ensures PresentFrom(Partial(d, ids, i), ids, i)
    ensures Step(Partial(d, ids, i), ids, i) == Partial(d, ids, i + 1)
  {
    PartialPresent(d, ids, i);
    PartialStepKeys(d, ids, i);
    PartialStepValues(d, ids, i);
    var s := Step(Partial(d, ids, i), ids, i);
    Collections.SameMap(s, Partial(d, ids, i + 1));
  }

  /** The old ids not yet visited still name records after `i` rounds. */
  lemma PartialPresent(d: Data, ids: seq<int>, i: nat)
    requires i < |ids| && Increasing(ids) && PresentFrom(d, ids, 0)
    requires forall k :: 0 <= k < |ids| ==> ids[k] > k
    ensures PresentFrom(Partial(d, ids, i), ids, i)
  {
    PartialAt(d, ids, i);
    var p := Partial(d, ids, i);
    forall k | i <= k < |ids| ensures TaskKey(ids[k]) in p {
      assert ids[k] !in ids[..i];
    }
  }

  /** One more round has the keys of `Partial` one round on. */
  lemma PartialStepKeys(d: Data, ids: seq<int>, i: nat)
    requires i < |ids| && Increasing(ids) && PresentFrom(d, ids, 0)
    requires forall k :: 0 <= k < |ids| ==> ids[k] > k
    requires PresentFrom(Partial(d, ids, i), ids, i)
    ensures forall k :: k in Step(Partial(d, ids, i), ids, i) <==> k in Partial(d, ids, i + 1)
  {
    assert ids[..i + 1] == ids[..i] + [ids[i]];
    PartialAt(d, ids, i);
    PartialAt(d, ids, i + 1);
    var p := Partial(d, ids, i);
    var q := Partial(d, ids, i + 1);
    var s := Step(p, ids, i);
    forall k ensures k in s <==> k in q {
      assert k in s <==> (k in p || k == TaskKey(i)) && k != TaskKey(ids[i]);
      if k.TaskKey? {
        var n := k.taskId;
        assert n in ids[..i + 1] <==> n in ids[..i] || n == ids[i];
        if n == ids[i] {
          assert k !in s && k !in q;
        } else if n == i {
          assert k in s && k in q;
        } else {
          assert k in s <==> k in p;
        }
      } else {
        assert k in s <==> k in d;
      }
    }
  }

  /** One more round has the records of `Partial` one round on. */
  lemma PartialStepValues(d: Data, ids: seq<int>, i: nat)
    requires i < |ids| && Increasing(ids) && PresentFrom(d, ids, 0)
    requires forall k :: 0 <= k < |ids| ==> ids[k] > k
    requires PresentFrom(Partial(d, ids, i), ids, i)
    requires forall k :: k in Step(Partial(d, ids, i), ids, i) <==> k in Partial(d, ids, i + 1)
    ensures forall k :: k in Step(Partial(d, ids, i), ids, i) ==>
      Step(Partial(d, ids, i), ids, i)[k] == Partial(d, ids, i + 1)[k]
  {
    assert ids[..i + 1] == ids[..i] + [ids[i]];
    PartialAt(d, ids, i);
    PartialAt(d, ids, i + 1);
    forall k | k in Step(Partial(d, ids, i), ids, i)
      ensures Step(Partial(d, ids, i), ids, i)[k] == Partial(d, ids, i + 1)[k]
    {
      StepValueAt(d, ids, i, k);
    }
  }

  /** The record under one key after one more round. */
  lemma StepValueAt(d: Data, ids: seq<int>, i: nat, k: Key)
    requires i < |ids| && Increasing(ids) && PresentFrom(d, ids, 0)
    requires forall k :: 0 <= k < |ids| ==> ids[k] > k
    requires PresentFrom(Partial(d, ids, i), ids, i)
    requires k in Step(Partial(d, ids, i), ids, i) && k in Partial(d, ids, i + 1)
    requires ids[..i + 1] == ids[..i] + [ids[i]]
    ensures Step(Partial(d, ids, i), ids, i)[k] == Partial(d, ids, i + 1)[k]
  {
    PartialAt(d, ids, i);
    PartialAt(d, ids, i + 1);
    var p := Partial(d, ids, i);
    var q := Partial(d, ids, i + 1);
    var s := Step(p, ids, i);
    if k == TaskKey(i) {
      assert ids[i] !in ids[..i];
      assert s[k] == p[TaskKey(ids[i])];
    } else if k.TaskKey? {
      var n := k.taskId;
      assert s[k] == p[k];
      if n < 0 || n > i {
        assert n != ids[i] && k in p;
        assert n !in ids[..i + 1];
      }
    } else {
      assert s[k] == p[k];
    }
  }

  lemma CleanFromPartial(d: Data, ids: seq<int>, i: nat)
    requires i <= |ids| && Increasing(ids) && PresentFrom(d, ids, 0)
    requires forall k :: 0 <= k < |ids| ==> ids[k] > k
    requires PresentFrom(Partial(d, ids, i), ids, i)
    ensures CleanFrom(Partial(d, ids, i), ids, i) == CompactedData(d, ids)
    decreases |ids| - i
  {
    if i == |ids| {
      assert ids[..i] == ids;
    } else {
      PartialStep(d, ids, i);
      if i + 1 < |ids| {
        PartialStep(d, ids, i + 1);
      } else {
        assert ids[..i + 1] == ids;
      }
      CleanFromPartial(d, ids, i + 1);
    }
  }

  /** When the smallest old id is at least 1, the loop as written does
      renumber the store. */
  lemma {:induction false} CleanAsWrittenCompacts(d: Data, ids: seq<int>)
    requires Increasing(ids) && PresentFrom(d, ids, 0)
    requires |ids| == 0 || ids[0] >= 1
    ensures CleanFrom(d, ids, 0) == CompactedData(d, ids)
  {
    forall k | 0 <= k < |ids| ensures ids[k] > k {
      LowerBound(ids, k);
    }
    assert ids[..0] == [];
    assert Partial(d, ids, 0) == d by {
      assert WithoutTasks(d, []) == d;
      assert TaskRange([]) == map[];
    }
    CleanFromPartial(d, ids, 0);
  }

  lemma {:induction false} LowerBound(ids: seq<int>, k: nat)
    requires Increasing(ids) && k < |ids| && ids[0] >= 1
    ensures ids[k] > k
  {
    if k > 0 {
      LowerBound(ids, k - 1);
    }
  }

  /** Rounds run on ids equal to their own index delete those tasks. */
  lemma {:induction false} CleanFromDeletesFixedIds(d: Data, ids: seq<int>, i: nat)
    requires i <= |ids| && Distinct(ids) && PresentFrom(d, ids, i)
    requires forall k :: 0 <= k < |ids| ==> ids[k] == k
    ensures forall k :: k in CleanFrom(d, ids, i) <==> k in d && !(k.TaskKey? && i <= k.taskId < |ids|)
    decreases |ids| - i
  {
    if i < |ids| {
      var s := Step(d, ids, i);
      assert PresentFrom(s, ids, i + 1);
      CleanFromDeletesFixedIds(s, ids, i + 1);
    }
  }

  /** A task key below the rounds still to run that is absent stays absent:
      each round writes only its own index and deletes. */
  lemma {:induction false} AbsentStays(d: Data, ids: seq<int>, i: nat, n: int)
    requires i <= |ids| && Distinct(ids) && PresentFrom(d, ids, i)
    requires n < i && TaskKey(n) !in d
    ensures TaskKey(n) !in CleanFrom(d, ids, i)
    decreases |ids| - i
  {
    if i < |ids| {
      var s := Step(d, ids, i);
      assert PresentFrom(s, ids, i + 1);
      AbsentStays(s, ids, i + 1, n);
    }
  }

  /** One round keeps the keys the later rounds read. */
  lemma StepPresent(d: Data, ids: seq<int>, i: nat)
    requires i < |ids| && Distinct(ids) && PresentFrom(d, ids, i)
    ensures PresentFrom(Step(d, ids, i), ids, i + 1)
  {
  }

  /** The round for a fixed id writes its record under that id and then
      deletes it, and no later round brings it back. */
  lemma FixedIdLostAt(d: Data, ids: seq<int>, k: nat)
    requires k < |ids| && Distinct(ids) && PresentFrom(d, ids, k)
    requires ids[k] == k
    ensures TaskKey(k) !in CleanFrom(d, ids, k)
  {
    StepPresent(d, ids, k);
    AbsentStays(Step(d, ids, k), ids, k + 1, k);
  }

  /** The slip in general: whenever the k-th smallest old id is k itself,
      whatever the other ids are, its record is written under k and then
      deleted, and it is missing after the loop. */
  lemma {:induction false} FixedIdLostFrom(d: Data, ids: seq<int>, i: nat, k: nat)
    requires i <= k < |ids| && Distinct(ids) && PresentFrom(d, ids, i)
    requires ids[k] == k
    ensures TaskKey(k) !in CleanFrom(d, ids, i)
    decreases |ids| - i
  {
    if i == k {
      FixedIdLostAt(d, ids, k);
    } else {
      StepPresent(d, ids, i);
      FixedIdLostFrom(Step(d, ids, i), ids, i + 1, k);
    }
  }

  /** Deleting a task from an exported store and exporting again: with
      tasks under 0 and 2 the loop as written loses the first task's record
      and moves the second to 1. */
  lemma ExportAfterDeletion(a: Task, b: Task)
    ensures CleanFrom(map[TaskKey(0) := TaskEntry(a), TaskKey(2) := TaskEntry(b)], [0, 2], 0)
         == map[TaskKey(1) := TaskEntry(b)]
  {
    var d: Data := map[TaskKey(0) := TaskEntry(a), TaskKey(2) := TaskEntry(b)];
    var ids := [0, 2];
    var s0 := Step(d, ids, 0);
    assert s0 == map[TaskKey(2) := TaskEntry(b)];
    var s1 := Step(s0, ids, 1);
    assert s1 == map[TaskKey(1) := TaskEntry(b)];
    assert CleanFrom(s1, ids, 2) == s1;
  }

  /** One round of the loop as written leaves the role records alone. */
  lemma StepRoles(d: Data, ids: seq<int>, i: nat)
    requires i < |ids| && TaskKey(ids[i]) in d
    ensures RolesOf(Step(d, ids, i)) == RolesOf(d)
  {
    var t := d[TaskKey(ids[i])].task;
    assert d[TaskKey(ids[i])] == TaskEntry(t);
    PutTaskView(d, i, t);
    var w: Data := d[TaskKey(i) := TaskEntry(t)];
    RemoveTaskView(w, ids[i]);
  }

  /** The loop as written leaves the role records alone. */
  lemma {:induction false} CleanFromRoles(d: Data, ids: seq<int>, i: nat)
    requires i <= |ids| && Distinct(ids) && PresentFrom(d, ids, i)
    ensures RolesOf(CleanFrom(d, ids, i)) == RolesOf(d)
    decreases |ids| - i
  {
    if i < |ids| {
      var s := Step(d, ids, i);
      StepRoles(d, ids, i);
      assert PresentFrom(s, ids, i + 1);
      CleanFromRoles(s, ids, i + 1);
    }
  }

  /** The slip: on a store whose task ids already are 0 .. n-1 -- the state
      the first export leaves behind -- the loop as written deletes every
      task, so the next export writes no tasks at all. */
  lemma CleanAsWrittenDeletesCompactStore(d: Data, ids: seq<int>)
    requires PresentFrom(d, ids, 0) && Distinct(ids)
    requires forall n :: n in TasksOf(d) ==> n in ids
    requires forall i :: 0 <= i < |ids| ==> ids[i] == i
    ensures TasksOf(CleanFrom(d, ids, 0)) == map[]
  {
    CleanFromDeletesFixedIds(d, ids, 0);
    var e := CleanFrom(d, ids, 0);
    forall n ensures TaskKey(n) in d ==> 0 <= n < |ids| {
      if TaskKey(n) in d {
        assert n in TasksOf(d);
      }
    }
    forall n ensures n !in TasksOf(e) {
      assert TaskKey(n) !in e;
    }
  }

  /** `oldIds.forEach((oldId, newId) => oldToNewIds[oldId] = newId)` */
  method RenumberingOf(oldIds: seq<int>) returns (oldToNew: map<int, int>)
    requires Distinct(oldIds)
    ensures IsRenumbering(oldIds, oldToNew)
  {
    oldToNew := map[];
    for i := 0 to |oldIds|
      invariant oldToNew.Keys == (set j | 0 <= j < i :: oldIds[j])
      invariant forall j :: 0 <= j < i ==> oldToNew[oldIds[j]] == j
    {
      oldToNew := oldToNew[oldIds[i] := i];
    }
  }

  lemma TaskIdsPresent(s: Store, ids: seq<int>)
    requires forall i :: 0 <= i < |ids| ==> ids[i] in TasksOf(s.data)
    ensures PresentFrom(s.data, ids, 0)
  {
    forall k | 0 <= k < |ids| ensures TaskKey(ids[k]) in s.data {
      var n := ids[k];
      assert n in TasksOf(s.data);
    }
  }

  /** `cleanTasks` as written: for each old id in ascending order, the
      record is copied to its index and the old id deleted; an old id equal
      to its index is therefore written and then deleted. */
  method CleanTasksAsWritten(store: Store) returns (oldIds: seq<int>, oldToNew: map<int, int>)
    modifies store
    ensures Increasing(oldIds) && multiset(oldIds) == multiset(old(store.Tasks()).Keys)
    ensures IsRenumbering(oldIds, oldToNew)
    ensures PresentFrom(old(store.data), oldIds, 0)
    ensures store.data == CleanFrom(old(store.data), oldIds, 0)
  {
    oldIds := store.TaskIds();
    TaskIdsPresent(store, oldIds);
    oldToNew := RenumberingOf(oldIds);
    RunSteps(store, oldIds);
  }

  /** The second `forEach` as written, round by round. */
  method RunSteps(store: Store, ids: seq<int>)
    requires Distinct(ids) && PresentFrom(store.data, ids, 0)
    modifies store
    ensures store.data == CleanFrom(old(store.data), ids, 0)
  {
    for i := 0 to |ids|
      invariant PresentFrom(store.data, ids, i)
      invariant CleanFrom(store.data, ids, i) == CleanFrom(old(store.data), ids, 0)
    {
      RunStep(store, ids, i);
    }
  }

  /** One round of the loop as written on the store. */
  method RunStep(store: Store, ids: seq<int>, i: nat)
    requires i < |ids| && Distinct(ids) && PresentFrom(store.data, ids, i)
    modifies store
    ensures store.data == Step(old(store.data), ids, i)
    ensures PresentFrom(store.data, ids, i + 1)
  {
    assert ids[i] in TasksOf(store.data) by {
      assert TaskKey(ids[i]) in store.data;
    }
    ghost var before := store.data;
    var t := store.GetTask(ids[i]).value;
    store.UpdateTask(i, t);
    store.DeleteTask(ids[i]);
    assert store.data == Step(before, ids, i);
    StepPresent(before, ids, i);
  }

  // ---------------------------------------------------------------------
  // The corrected renumbering: read every record first, then delete the old
  // ids, then write the new ones.

  /** Reads the records of `ids` without changing the store. */
  method ReadTasks(store: Store, ids: seq<int>) returns (ts: seq<Task>)
    requires PresentFrom(store.data, ids, 0)
    ensures ts == RecordsAt(store.data, ids)
  {
    ts := [];
    for i := 0 to |ids|
      invariant ts == RecordsAt(store.data, ids[..i])
    {
      assert ids[i] in TasksOf(store.data) by {
        assert TaskKey(ids[i]) in store.data;
      }
      ts := ts + [store.GetTask(ids[i]).value];
      assert ids[..i + 1] == ids[..i] + [ids[i]];
    }
    assert ids[..|ids|] == ids;
  }

  lemma WithoutOneMore(d: Data, s: seq<int>, x: int)
    ensures WithoutTasks(d, s) - {TaskKey(x)} == WithoutTasks(d, s + [x])
  {
    var a := WithoutTasks(d, s) - {TaskKey(x)};
    var b := WithoutTasks(d, s + [x]);
    forall k | k in a ensures k in b && b[k] == a[k] {
      if k.TaskKey? { assert k.taskId in s + [x] <==> k.taskId in s || k.taskId == x; }
    }
    forall k | k in b ensures k in a {
      if k.TaskKey? { assert k.taskId in s + [x] <==> k.taskId in s || k.taskId == x; }
    }
  }

  /** Deletes the task records named in `ids`. */
  method DeleteTasks(store: Store, ids: seq<int>)
    modifies store
    ensures store.data == WithoutTasks(old(store.data), ids)
  {
    assert ids[..0] == [];
    assert WithoutTasks(store.data, []) == store.data;
    for i := 0 to |ids|
      invariant store.data == WithoutTasks(old(store.data), ids[..i])
    {
      store.DeleteTask(ids[i]);
      WithoutOneMore(old(store.data), ids[..i], ids[i]);
      assert ids[..i + 1] == ids[..i] + [ids[i]];
    }
    assert ids[..|ids|] == ids;
  }

  lemma RangeOneMore(base: Data, ts: seq<Task>, t: Task)
    ensures (base + TaskRange(ts))[TaskKey(|ts|) := TaskEntry(t)] == base + TaskRange(ts + [t])
  {
    var a := TaskRange(ts)[TaskKey(|ts|) := TaskEntry(t)];
    var b := TaskRange(ts + [t]);
    forall k | k in a ensures k in b && b[k] == a[k] {
    }
    forall k | k in b ensures k in a {
    }
    Collections.SameMap(a, b);
    Collections.UnionUpdate(base, TaskRange(ts), TaskKey(|ts|), TaskEntry(t));
  }

  /** Writes the i-th record under task id i. */
  method WriteTasks(store: Store, ts: seq<Task>)
    modifies store
    ensures store.data == old(store.data) + TaskRange(ts)
  {
    assert TaskRange([]) == map[];
    assert store.data + TaskRange([]) == store.data;
    for i := 0 to |ts|
      invariant store.data == old(store.data) + TaskRange(ts[..i])
    {
      Collections.SliceOneMore(ts, i);
      RangeOneMore(old(store.data), ts[..i], ts[i]);
      store.UpdateTask(i, ts[i]);
    }
    Collections.WholeSlice(ts);
  }

  /** `cleanTasks` with the slip corrected: the task records end up under
      0 .. n-1 in ascending order of their old ids, whatever the old ids
      were; role records and other keys stay. */
  method CleanTasks(store: Store) returns (oldIds: seq<int>, oldToNew: map<int, int>)
    modifies store
    ensures Increasing(oldIds) && multiset(oldIds) == multiset(old(store.Tasks()).Keys)
    ensures IsRenumbering(oldIds, oldToNew)
    ensures PresentFrom(old(store.data), oldIds, 0)
    ensures store.data == CompactedData(old(store.data), oldIds)
  {
    oldIds := store.TaskIds();
    TaskIdsPresent(store, oldIds);
    oldToNew := RenumberingOf(oldIds);
    var ts := ReadTasks(store, oldIds);
    DeleteTasks(store, oldIds);
    WriteTasks(store, ts);
  }

  /** Ids listing the stored task ids cover every stored task. */
  lemma IdsCover(d: Data, ids: seq<int>)
    requires multiset(ids) == multiset(TasksOf(d).Keys)
    ensures forall n :: n in TasksOf(d) ==> n in ids
  {
    forall n | n in TasksOf(d) ensures n in ids {
      assert n in multiset(ids);
    }
  }

  /** The snapshot an export should give: the roles as they were, and the
      tasks under 0 .. n-1, the j-th being the task with old id `ids[j]`. */
  predicate CompactSnapshot(snap: Snapshot, roles: map<string, Role>, tasks: map<int, Task>, ids: seq<int>)
  {
    && snap.roles == roles
    && (forall n :: n in snap.tasks ==> 0 <= n < |ids|)
    && (forall j :: 0 <= j < |ids| ==> j in snap.tasks && ids[j] in tasks && snap.tasks[j] == tasks[ids[j]])
  }

  /** What the corrected renumbering leaves for the export. */
  lemma CompactedSnapshot(d: Data, ids: seq<int>)
    requires PresentFrom(d, ids, 0)
    requires forall n :: n in TasksOf(d) ==> n in ids
    ensures CompactSnapshot(SnapshotOf(CompactedData(d, ids)), RolesOf(d), TasksOf(d), ids)
  {
    CompactedTasks(d, ids);
    CompactedRoles(d, ids);
  }

  /** What the loop as written leaves for the export: the old roles; no
      task at all when the old ids already are 0 .. n-1; and the corrected
      result when the smallest old id is at least 1. */
  lemma CleanedSnapshot(d: Data, ids: seq<int>)
    requires Increasing(ids) && PresentFrom(d, ids, 0)
    requires forall n :: n in TasksOf(d) ==> n in ids
    ensures SnapshotOf(CleanFrom(d, ids, 0)).roles == RolesOf(d)
    ensures (forall j :: 0 <= j < |ids| ==> ids[j] == j) ==> SnapshotOf(CleanFrom(d, ids, 0)).tasks == map[]
    ensures (|ids| == 0 || ids[0] >= 1) ==> CleanFrom(d, ids, 0) == CompactedData(d, ids)
  {
    CleanFromRoles(d, ids, 0);
    if forall j :: 0 <= j < |ids| ==> ids[j] == j {
      CleanAsWrittenDeletesCompactStore(d, ids);
    }
    if |ids| == 0 || ids[0] >= 1 {
      CleanAsWrittenCompacts(d, ids);
    }
  }

  /** `exportData` without the download, as written: `cleanTasks` as
      written runs first, then everything is read out. The snapshot holds
      the roles as they were; when the old ids already are 0 .. n-1 it holds
      no task, and when the smallest old id is at least 1 it holds what the
      corrected export gives. */
  method ExportDataAsWritten(store: Store, le: (string, string) -> bool) returns (snap: Snapshot, oldIds: seq<int>)
    requires Sorting.TotalPreorder(le)
    modifies store
    ensures Increasing(oldIds) && multiset(oldIds) == multiset(old(store.Tasks()).Keys)
    ensures PresentFrom(old(store.data), oldIds, 0)
    ensures store.data == CleanFrom(old(store.data), oldIds, 0)
    ensures snap == SnapshotOf(store.data)
    ensures snap.roles == old(store.Roles())
    ensures (forall j :: 0 <= j < |oldIds| ==> oldIds[j] == j) ==> snap.tasks == map[]
    ensures (|oldIds| == 0 || oldIds[0] >= 1) ==> store.data == CompactedData(old(store.data), oldIds)
  {
    var renumbering;
    oldIds, renumbering := CleanTasksAsWritten(store);
    IdsCover(old(store.data), oldIds);
    CleanedSnapshot(old(store.data), oldIds);
    snap := store.GetAllData(le);
  }

  /** `exportData` with the renumbering corrected: the task ids are
      compacted first, then everything is read out. The snapshot holds the
      roles as they were and the tasks under 0 .. n-1, the j-th being the
      task with the j-th smallest old id. */
  method ExportData(store: Store, le: (string, string) -> bool) returns (snap: Snapshot, oldIds: seq<int>)
    requires Sorting.TotalPreorder(le)
    modifies store
    ensures Increasing(oldIds) && multiset(oldIds) == multiset(old(store.Tasks()).Keys)
    ensures PresentFrom(old(store.data), oldIds, 0)
    ensures store.data == CompactedData(old(store.data), oldIds)
    ensures snap == SnapshotOf(store.data)
    ensures CompactSnapshot(snap, old(store.Roles()), old(store.Tasks()), oldIds)
  {
    var renumbering;
    oldIds, renumbering := CleanTasks(store);
    IdsCover(old(store.data), oldIds);
    CompactedSnapshot(old(store.data), oldIds);
    snap := store.GetAllData(le);
  }
}
