/** What the board shows for a role (`updateRoles`, scheduler.js:11-30, and
    `displaySign`, scheduler.js:505-507), and the task deletion that
    refreshes it (`deleteTask`, scheduler.js:56-64). */
module Display {

  import opened Optional
  import opened Records
  import opened KeyValueStore
  import Text
  import Loads

  /** `Math.round(p / q)` for q > 0: the nearest integer, halves rounded up. */
  function RoundDiv(p: int, q: int): (r: int)
    requires q > 0
    ensures q * (2 * r - 1) <= 2 * p < q * (2 * r + 1)
  {
    var r := (2 * p + q) / (2 * q);
    assert 2 * q * r <= 2 * p + q < 2 * q * r + 2 * q;
    r
  }

  /** `usedPercent`: 0 when the target is not positive, otherwise the used
      value as a percentage of the target, rounded. */
  function UsedPercent(used: int, total: int): (r: int)
    ensures total <= 0 ==> r == 0
    ensures total > 0 ==> total * (2 * r - 1) <= 200 * used < total * (2 * r + 1)
  {
    if total <= 0 then 0 else RoundDiv(100 * used, total)
  }

  /** A role loaded within its target shows a percentage from 0 to 100. */
  lemma UsedPercentWithinTarget(used: int, total: int)
    requires total > 0 && 0 <= used <= total
    ensures 0 <= UsedPercent(used, total) <= 100
  {
    var r := UsedPercent(used, total);
    assert total * (2 * r - 1) <= total * 200;
    CancelFactor(total, 2 * r - 1, 200);
    PositiveFactor(total, 2 * r + 1);
  }

  lemma CancelFactor(a: int, b: int, c: int)
    requires a > 0 && a * b <= a * c
    ensures b <= c
  {
    assert a * c - a * b == a * (c - b);
  }

  lemma PositiveFactor(a: int, b: int)
    requires a > 0 && a * b > 0
    ensures b > 0
  {
  }

  /** Exactly the target shows 100 percent; nothing used shows 0. */
  lemma UsedPercentEnds(total: int)
    requires total > 0
    ensures UsedPercent(total, total) == 100 && UsedPercent(0, total) == 0
  {
  }

  const EnDash: char := '\U{2013}'
  const PlusMinus: char := '\U{00B1}'

  /** `displaySign`: "+n" above the target, an en dash and n below it,
      "±0" on it. */
  function DisplaySign(n: int): (s: string)
    ensures |s| >= 2 && (s[0] == '+' <==> n > 0)
    ensures s[0] == EnDash <==> n < 0
    ensures s == [PlusMinus, '0'] <==> n == 0
  {
    var sign := if n > 0 then '+' else if n < 0 then EnDash else PlusMinus;
    var mag := if n < 0 then -n else n;
    [sign] + Text.NatToDecimal(mag)
  }

  /** Reads a deviation text back. */
  function ParseDeviation(s: string): Option<int>
  {
    if |s| < 2 || !Text.AllDigits(s[1..]) then None
    else if s[0] == '+' || s[0] == PlusMinus then Some(Text.DecimalToNat(s[1..]))
    else if s[0] == EnDash then Some(0 - Text.DecimalToNat(s[1..]))
    else None
  }

  /** The deviation text determines the deviation. */
  lemma DisplaySignRoundTrip(n: int)
    ensures ParseDeviation(DisplaySign(n)) == Some(n)
  {
    var mag := if n < 0 then -n else n;
    assert DisplaySign(n)[1..] == Text.NatToDecimal(mag);
    Text.DecimalRoundTrip(mag);
  }

  /** What a role element shows: its target, the used value, the percentage
      and the deviation text. */
  datatype RoleDisplay = RoleDisplay(total: int, used: int, percent: int, deviation: string)

  /** The display of a role with a given used value. */
  function DisplayOf(role: Role, used: int): RoleDisplay
  {
    RoleDisplay(role.value, used, UsedPercent(used, role.value), DisplaySign(used - role.value))
  }

  /** The display a role should have for the records in the store: its load
      is the sum over all tasks assigned to it. */
  ghost function ExpectedDisplay(s: Store, roleId: string): Option<RoleDisplay>
    reads s
  {
    if roleId in s.Roles() then
      var role := s.Roles()[roleId];
      Some(DisplayOf(role, Loads.Used(s.Tasks(), role.roleType, roleId)))
    else None
  }

  lemma IdsCoverTasks(s: Store, ids: seq<int>)
    requires multiset(ids) == multiset(s.Tasks().Keys)
    ensures (set i | i in ids) == s.Tasks().Keys
  {
    forall x | x in s.Tasks().Keys ensures x in ids {
      assert x in multiset(s.Tasks().Keys);
    }
    forall x | x in ids ensures x in s.Tasks().Keys {
      assert x in multiset(ids);
    }
  }

  /** The body of `updateRoles` for one role element: total, used value,
      percentage and deviation. A role id with no record is None (the
      script fails there). */
  method RoleLoad(store: Store, roleId: string) returns (r: Option<RoleDisplay>)
    ensures r == ExpectedDisplay(store, roleId)
  {
    var found := store.GetRole(roleId);
    if found.None? {
      return None;
    }
    var role := found.value;
    var ids := store.TaskIds();
    var used := 0;
    for i := 0 to |ids|
      invariant used == Loads.SumSeq(store.Tasks(), ids[..i], role.roleType, roleId)
    {
      var task := store.GetTask(ids[i]);
      assert ids[..i + 1][..i] == ids[..i];
      if task.Some? && AssignedTo(task.value, role.roleType, roleId) {
        used := used + task.value.value;
      }
    }
    assert ids[..|ids|] == ids;
    Loads.SumSeqIsSumSet(store.Tasks(), ids, role.roleType, roleId);
    IdsCoverTasks(store, ids);
    r := Some(DisplayOf(role, used));
  }

  /** `updateRoles(...roleElems)`: refreshes the given role elements, or all
      role elements on the page when none are given. */
  method UpdateRoles(store: Store, roleIds: seq<string>, pageRoleIds: seq<string>)
    returns (shown: seq<Option<RoleDisplay>>)
    ensures |roleIds| > 0 ==> |shown| == |roleIds|
    ensures |roleIds| > 0 ==> forall k :: 0 <= k < |roleIds| ==> shown[k] == ExpectedDisplay(store, roleIds[k])
    ensures |roleIds| == 0 ==> |shown| == |pageRoleIds|
    ensures |roleIds| == 0 ==> forall k :: 0 <= k < |pageRoleIds| ==> shown[k] == ExpectedDisplay(store, pageRoleIds[k])
  {
    var targets := if |roleIds| == 0 then pageRoleIds else roleIds;
    shown := [];
    for i := 0 to |targets|
      invariant |shown| == i
      invariant forall k :: 0 <= k < i ==> shown[k] == ExpectedDisplay(store, targets[k])
    {
      var r := RoleLoad(store, targets[i]);
      shown := shown + [r];
    }
  }

  /** `deleteTask` as written: the role elements showing the task are
      refreshed first and the record is removed afterwards. The task editor
      that deletes is opened from an element of the task, so there is at
      least one role element to refresh. */
  method DeleteTaskAsWritten(store: Store, taskId: int, roleIds: seq<string>)
    returns (shown: seq<Option<RoleDisplay>>)
    requires |roleIds| > 0
    modifies store
    ensures store.data == old(store.data) - {Keys.TaskKey(taskId)}
    ensures |shown| == |roleIds|
    ensures forall k :: 0 <= k < |roleIds| ==> shown[k] == old(ExpectedDisplay(store, roleIds[k]))
  {
    shown := UpdateRoles(store, roleIds, roleIds);
    store.DeleteTask(taskId);
  }

  /** `deleteTask` with the order corrected: the record goes first, so the
      refreshed displays reflect the store without it. */
  method DeleteTask(store: Store, taskId: int, roleIds: seq<string>)
    returns (shown: seq<Option<RoleDisplay>>)
    requires |roleIds| > 0
    modifies store
    ensures store.data == old(store.data) - {Keys.TaskKey(taskId)}
    ensures |shown| == |roleIds|
    ensures forall k :: 0 <= k < |roleIds| ==> shown[k] == ExpectedDisplay(store, roleIds[k])
  {
    store.DeleteTask(taskId);
    shown := UpdateRoles(store, roleIds, roleIds);
  }

  /** After a deletion, a role's load drops by what the task contributed to
      it, so an assigned task with a non-zero value changes what the role
      should show. */
  lemma LoadAfterDelete(d: Data, taskId: int, roleType: string, roleId: string)
    ensures Loads.Used(TasksOf(d - {Keys.TaskKey(taskId)}), roleType, roleId)
         == Loads.Used(TasksOf(d), roleType, roleId)
            - (if taskId in TasksOf(d) then Contribution(TasksOf(d)[taskId], roleType, roleId) else 0)
  {
    RemoveTaskView(d, taskId);
    Loads.UsedAfterRemove(TasksOf(d), taskId, roleType, roleId);
  }

  /** The slip in `deleteTask`: the used value it shows for a role the
      deleted task was assigned to still counts that task. */
  lemma DeleteAsWrittenShowsStaleLoad(before: Data, taskId: int, roleId: string)
    requires taskId in TasksOf(before) && roleId in RolesOf(before)
    requires AssignedTo(TasksOf(before)[taskId], RolesOf(before)[roleId].roleType, roleId)
    ensures var role := RolesOf(before)[roleId];
      Loads.Used(TasksOf(before), role.roleType, roleId)
      == Loads.Used(TasksOf(before - {Keys.TaskKey(taskId)}), role.roleType, roleId) + TasksOf(before)[taskId].value
  {
    LoadAfterDelete(before, taskId, RolesOf(before)[roleId].roleType, roleId);
  }
}
