/** The load a role carries: the sum of the values of the tasks assigned to
    it (scheduler.js:21-25), and how that sum changes when one task record is
    written or removed. */
module Loads {

  import opened Records
  import Collections

  /** The sum of the contributions of the tasks with the given ids. */
  ghost function SumSet(tasks: map<int, Task>, ids: set<int>, roleType: string, roleId: string): int
    requires ids <= tasks.Keys
    decreases ids
  {
    if ids == {} then 0
    else
      Collections.NonEmptyInts(ids);
      var i :| i in ids;
      Contribution(tasks[i], roleType, roleId) + SumSet(tasks, ids - {i}, roleType, roleId)
  }

  /** `usedValue` of a role: the sum of `task.value` over all tasks with
      `task[role.type] === roleId`. */
  ghost function Used(tasks: map<int, Task>, roleType: string, roleId: string): int
  {
    SumSet(tasks, tasks.Keys, roleType, roleId)
  }

  /** The same sum, taken along a sequence of ids from left to right, as the
      scheduler's loop over `dbTaskIds()` does. */
  function SumSeq(tasks: map<int, Task>, ids: seq<int>, roleType: string, roleId: string): int
    requires forall i :: 0 <= i < |ids| ==> ids[i] in tasks
  {
    if |ids| == 0 then 0
    else SumSeq(tasks, ids[..|ids| - 1], roleType, roleId) + Contribution(tasks[ids[|ids| - 1]], roleType, roleId)
  }

  /** Any element may be taken out of the sum first. */
  lemma {:induction false} SumSetRemove(tasks: map<int, Task>, ids: set<int>, x: int, roleType: string, roleId: string)
    requires ids <= tasks.Keys && x in ids
    ensures SumSet(tasks, ids, roleType, roleId)
         == Contribution(tasks[x], roleType, roleId) + SumSet(tasks, ids - {x}, roleType, roleId)
    decreases ids
  {
    var i :| i in ids && SumSet(tasks, ids, roleType, roleId)
      == Contribution(tasks[i], roleType, roleId) + SumSet(tasks, ids - {i}, roleType, roleId);
    if i != x {
      SumSetRemove(tasks, ids - {i}, x, roleType, roleId);
      SumSetRemove(tasks, ids - {x}, i, roleType, roleId);
      assert ids - {i} - {x} == ids - {x} - {i};
    }
  }

  /** The sum only depends on the contributions of the tasks it ranges over. */
  lemma {:induction false} SumSetFrame(t1: map<int, Task>, t2: map<int, Task>, ids: set<int>, roleType: string, roleId: string)
    requires ids <= t1.Keys && ids <= t2.Keys
    requires forall i :: i in ids ==> Contribution(t1[i], roleType, roleId) == Contribution(t2[i], roleType, roleId)
    ensures SumSet(t1, ids, roleType, roleId) == SumSet(t2, ids, roleType, roleId)
    decreases ids
  {
    if ids != {} {
      Collections.NonEmptyInts(ids);
      var i :| i in ids;
      SumSetRemove(t1, ids, i, roleType, roleId);
      SumSetRemove(t2, ids, i, roleType, roleId);
      SumSetFrame(t1, t2, ids - {i}, roleType, roleId);
    }
  }

  /** Summing along a repetition-free sequence of ids is summing over the set
      of those ids. */
  lemma {:induction false} SumSeqIsSumSet(tasks: map<int, Task>, ids: seq<int>, roleType: string, roleId: string)
    requires forall i :: 0 <= i < |ids| ==> ids[i] in tasks
    requires forall i, j :: 0 <= i < j < |ids| ==> ids[i] != ids[j]
    ensures (set i | i in ids) <= tasks.Keys
    ensures SumSeq(tasks, ids, roleType, roleId) == SumSet(tasks, (set i | i in ids), roleType, roleId)
  {
    if |ids| > 0 {
      var n := |ids| - 1;
      var front := ids[..n];
      SumSeqIsSumSet(tasks, front, roleType, roleId);
      var all := set i | i in ids;
      assert ids[n] in all;
      assert all - {ids[n]} == (set i | i in front) by {
        forall y | y in all - {ids[n]} ensures y in front {
          var k :| 0 <= k < |ids| && ids[k] == y;
          assert k != n;
          assert front[k] == y;
        }
      }
      SumSetRemove(tasks, all, ids[n], roleType, roleId);
    }
  }

  /** Writing one task record changes a role's load by the difference of the
      old and the new record's contributions. */
  lemma UsedAfterPut(tasks: map<int, Task>, id: int, t: Task, roleType: string, roleId: string)
    ensures Used(tasks[id := t], roleType, roleId)
         == Used(tasks, roleType, roleId)
            - (if id in tasks then Contribution(tasks[id], roleType, roleId) else 0)
            + Contribution(t, roleType, roleId)
  {
    var after := tasks[id := t];
    var rest := tasks.Keys - {id};
    SumSetRemove(after, after.Keys, id, roleType, roleId);
    assert after.Keys - {id} == rest;
    SumSetFrame(after, tasks, rest, roleType, roleId);
    if id in tasks {
      SumSetRemove(tasks, tasks.Keys, id, roleType, roleId);
    } else {
      assert tasks.Keys == rest;
    }
  }

  /** Removing one task record takes its contribution off every load. */
  lemma UsedAfterRemove(tasks: map<int, Task>, id: int, roleType: string, roleId: string)
    ensures Used(tasks - {id}, roleType, roleId)
         == Used(tasks, roleType, roleId) - (if id in tasks then Contribution(tasks[id], roleType, roleId) else 0)
  {
    var after := tasks - {id};
    SumSetFrame(after, tasks, after.Keys, roleType, roleId);
    if id in tasks {
      SumSetRemove(tasks, tasks.Keys, id, roleType, roleId);
      assert tasks.Keys - {id} == after.Keys;
    } else {
      assert tasks.Keys == after.Keys;
    }
  }
}
