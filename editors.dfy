/** The guarded writes of the editing dialogs and task elements: the role
    editor (`showRoleEditor`, scheduler.js:343-380), the task editor
    (`showTaskEditor`, scheduler.js:277-317), the target field of a role
    element (scheduler.js:156-162), the resize rule of a task element
    (scheduler.js:245-259) and the add-task dropdown
    (`populateAddTaskDropdown`, scheduler.js:180-203). A dialog's answer
    and the user's confirmation are inputs. */
module Editors {

  import opened Optional
  import opened Records
  import opened Keys
  import opened KeyValueStore
  import Text
  import Settings
  import Loads
  import Display
  import DragDrop
  import Grid

  // ---------------------------------------------------------------------
  // Referential consistency: every field of a task names an existing role
  // of that field's type. The delete guard is there to keep it.

  predicate RefsOk(roles: map<string, Role>, t: Task)
  {
    forall ty :: ty in t.roles ==> t.roles[ty] in roles && roles[t.roles[ty]].roleType == ty
  }

  predicate Consistent(roles: map<string, Role>, tasks: map<int, Task>)
  {
    forall n :: n in tasks ==> RefsOk(roles, tasks[n])
  }

  /** Some task is assigned to the role through the field `roleType`. */
  predicate Referenced(tasks: map<int, Task>, roleType: string, roleId: string)
  {
    exists n :: n in tasks && AssignedTo(tasks[n], roleType, roleId)
  }

  /** Removing a role keeps the records consistent exactly when no task is
      assigned to it: that is the case the delete guard lets through. */
  lemma DeleteKeepsConsistent(roles: map<string, Role>, tasks: map<int, Task>, roleId: string)
    requires Consistent(roles, tasks) && roleId in roles
    ensures Consistent(roles - {roleId}, tasks) <==> !Referenced(tasks, roles[roleId].roleType, roleId)
  {
    var ty := roles[roleId].roleType;
    if Referenced(tasks, ty, roleId) {
      var n :| n in tasks && AssignedTo(tasks[n], ty, roleId);
      assert !RefsOk(roles - {roleId}, tasks[n]);
    } else {
      forall n | n in tasks ensures RefsOk(roles - {roleId}, tasks[n]) {
        forall f | f in tasks[n].roles ensures tasks[n].roles[f] != roleId {
          assert !AssignedTo(tasks[n], ty, roleId);
        }
      }
    }
  }

  /** Writing a role keeps the records consistent when the role is new or
      keeps its type, as the role editor's record always does. */
  lemma PutRoleKeepsConsistent(roles: map<string, Role>, tasks: map<int, Task>, roleId: string, r: Role)
    requires Consistent(roles, tasks)
    requires roleId !in roles || roles[roleId].roleType == r.roleType
    ensures Consistent(roles[roleId := r], tasks)
  {
    forall n | n in tasks ensures RefsOk(roles[roleId := r], tasks[n]) {
      assert RefsOk(roles, tasks[n]);
    }
  }

  /** Writing a task whose fields name roles of their type keeps the records
      consistent. */
  lemma PutTaskKeepsConsistent(roles: map<string, Role>, tasks: map<int, Task>, id: int, t: Task)
    requires Consistent(roles, tasks) && RefsOk(roles, t)
    ensures Consistent(roles, tasks[id := t])
  {
  }

  /** A drop onto a role of the dragged field's type keeps the records
      consistent. */
  lemma DropKeepsConsistent(roles: map<string, Role>, tasks: map<int, Task>, id: int, roleType: string, roleId: string)
    requires Consistent(roles, tasks) && id in tasks
    requires roleId in roles && roles[roleId].roleType == roleType
    ensures Consistent(roles, tasks[id := DragDrop.Dropped(tasks[id], roleType, roleId)])
  {
    var t := DragDrop.Dropped(tasks[id], roleType, roleId);
    assert RefsOk(roles, tasks[id]);
    forall ty | ty in t.roles ensures t.roles[ty] in roles && roles[t.roles[ty]].roleType == ty {
      if ty != roleType {
        assert ty in tasks[id].roles;
      }
    }
    PutTaskKeepsConsistent(roles, tasks, id, t);
  }

  // ---------------------------------------------------------------------
  // Dialogs

  /** `returnValue` of a dialog: "ok", "delete", or anything else. */
  datatype DialogResult = Ok | Delete | Dismissed

  // ---------------------------------------------------------------------
  // The role editor

  /** What the role editor edits: a stored role, or the new-role object of
      `addNewRole`, which has a type and nothing else. The id is chosen by
      the caller (`Math.random` in the script). */
  datatype RoleDraft = Existing(role: Role) | Fresh(freshType: string)

  function DraftType(d: RoleDraft): string
  {
    match d
    case Existing(r) => r.roleType
    case Fresh(ty) => ty
  }

  /** The form fields of the role editor; the value already parsed. */
  datatype RoleForm = RoleForm(name: string, nickname: string, group: string, value: int, comments: string)

  /** The `updated` object: the draft's type and every form field. */
  function EditedRole(roleType: string, f: RoleForm): Role
  {
    Role(roleType, f.name, Some(f.nickname), Some(f.group), f.value, Some(f.comments))
  }

  /** The `some` over the keys of `updated`: some field differs from the
      draft. A new role has no name, so it always differs. */
  predicate RoleChanged(updated: Role, draft: RoleDraft): (b: bool)
    ensures draft.Existing? ==> (b <==> updated != draft.role)
    ensures draft.Fresh? ==> b
  {
    match draft
    case Fresh(_) => true
    case Existing(r) =>
      || updated.roleType != r.roleType
      || updated.name != r.name
      || updated.nickname != r.nickname
      || updated.group != r.group
      || updated.value != r.value
      || updated.comments != r.comments
  }

  /** `dbTaskIds().some((id) => dbGetTask(id)[role.type] === roleId)`,
      stopping at the first assigned task. */
  method AnyTaskAssigned(store: Store, roleType: string, roleId: string) returns (found: bool)
    ensures found <==> Referenced(store.Tasks(), roleType, roleId)
  {
    var ids := store.TaskIds();
    found := false;
    var i := 0;
    while i < |ids| && !found
      invariant 0 <= i <= |ids|
      invariant !found ==> forall k :: 0 <= k < i ==> !AssignedTo(store.Tasks()[ids[k]], roleType, roleId)
      invariant found ==> Referenced(store.Tasks(), roleType, roleId)
    {
      var t := store.GetTask(ids[i]).value;
      if AssignedTo(t, roleType, roleId) {
        found := true;
      }
      i := i + 1;
    }
    if !found {
      forall n | n in store.Tasks() ensures !AssignedTo(store.Tasks()[n], roleType, roleId) {
        assert n in multiset(ids);
        var k :| 0 <= k < |ids| && ids[k] == n;
      }
    }
  }

  /** What closing the role editor did. */
  datatype RoleOutcome = RoleWritten | RoleUnchanged | DeleteRefused | RoleDeleted | DeleteCancelled

  /** `handleEdits` of the role editor. "ok" writes the edited record when
      some field changed; "delete" is refused while a task is assigned to
      the role and otherwise removes the role once the user confirms. */
  method HandleRoleEdits(store: Store, roleId: string, draft: RoleDraft, form: RoleForm,
                         result: DialogResult, confirmed: bool) returns (outcome: RoleOutcome)
    modifies store
    ensures result == Ok ==>
      var updated := EditedRole(DraftType(draft), form);
      if RoleChanged(updated, draft) then
        outcome == RoleWritten && store.data == old(store.data)[RoleKey(roleId) := RoleEntry(updated)]
      else
        outcome == RoleUnchanged && store.data == old(store.data)
    ensures result == Delete && Referenced(old(store.Tasks()), DraftType(draft), roleId) ==>
      outcome == DeleteRefused && store.data == old(store.data)
    ensures result == Delete && !Referenced(old(store.Tasks()), DraftType(draft), roleId) ==>
      if confirmed then outcome == RoleDeleted && store.data == old(store.data) - {RoleKey(roleId)}
      else outcome == DeleteCancelled && store.data == old(store.data)
    ensures result == Dismissed ==> outcome == RoleUnchanged && store.data == old(store.data)
  {
    outcome := RoleUnchanged;
    match result
    case Ok =>
      var updated := EditedRole(DraftType(draft), form);
      if RoleChanged(updated, draft) {
        store.UpdateRole(roleId, updated);
        outcome := RoleWritten;
      }
    case Delete =>
      var inUse := AnyTaskAssigned(store, DraftType(draft), roleId);
      if inUse {
        outcome := DeleteRefused;
      } else if confirmed {
        store.DeleteRole(roleId);
        outcome := RoleDeleted;
      } else {
        outcome := DeleteCancelled;
      }
    case Dismissed =>
  }

  // ---------------------------------------------------------------------
  // The task editor

  /** The form fields of the task editor: the value already parsed, the
      comments, and the selected role id of each role-type select. */
  datatype TaskForm = TaskForm(value: int, comments: string, selections: map<string, string>)

  /** The `updated` object: value, comments and one field per select. */
  function EditedTask(f: TaskForm): Task
  {
    Task(f.selections, f.value, Some(f.comments))
  }

  /** The `some` over the keys of `updated`: a field of the form differs
      from the task's. A field the task has and the form lacks is not
      compared. */
  predicate TaskChanged(updated: Task, task: Task): (b: bool)
    ensures b ==> updated != task
    ensures task.roles.Keys <= updated.roles.Keys ==> (b <==> updated != task)
    ensures !b ==> (updated.value == task.value && updated.comments == task.comments
                    && forall ty :: ty in updated.roles ==> AssignedTo(task, ty, updated.roles[ty]))
  {
    || updated.value != task.value
    || updated.comments != task.comments
    || exists ty :: ty in updated.roles && !AssignedTo(task, ty, updated.roles[ty])
  }

  /** What closing the task editor did. */
  datatype TaskOutcome = TaskWritten | TaskUnchanged | TaskDeleted | TaskMissing

  /** `handleEdits` of the task editor. "ok" overwrites the whole record
      with the form's when some field changed; "delete" removes the task
      once the user confirms, refreshing the roles that showed it with
      `deleteTask` as written, so each shown load is the one the store had
      before the deletion. The editor is opened from an element of the task,
      so `roleIds`, the roles of its elements, is never empty. A
      missing task has no editor (the script fails when opening it). */
  method HandleTaskEdits(store: Store, taskId: int, form: TaskForm, result: DialogResult,
                         confirmed: bool, roleIds: seq<string>)
    returns (outcome: TaskOutcome, shown: seq<Option<Display.RoleDisplay>>)
    requires |roleIds| > 0
    modifies store
    ensures taskId !in old(store.Tasks()) ==> outcome == TaskMissing && store.data == old(store.data)
    ensures taskId in old(store.Tasks()) && result == Ok ==>
      if TaskChanged(EditedTask(form), old(store.Tasks())[taskId]) then
        outcome == TaskWritten && store.data == old(store.data)[TaskKey(taskId) := TaskEntry(EditedTask(form))]
      else
        outcome == TaskUnchanged && store.data == old(store.data)
    ensures taskId in old(store.Tasks()) && result == Delete && confirmed ==>
      && outcome == TaskDeleted && store.data == old(store.data) - {TaskKey(taskId)}
      && |shown| == |roleIds|
      && forall k :: 0 <= k < |roleIds| ==> shown[k] == old(Display.ExpectedDisplay(store, roleIds[k]))
    ensures taskId in old(store.Tasks()) && (result == Dismissed || (result == Delete && !confirmed)) ==>
      outcome == TaskUnchanged && store.data == old(store.data)
  {
    shown := [];
    var found := store.GetTask(taskId);
    if found.None? {
      return TaskMissing, shown;
    }
    var task := found.value;
    outcome := TaskUnchanged;
    match result
    case Ok =>
      var updated := EditedTask(form);
      if TaskChanged(updated, task) {
        store.UpdateTask(taskId, updated);
        outcome := TaskWritten;
      }
    case Delete =>
      if confirmed {
        shown := Display.DeleteTaskAsWritten(store, taskId, roleIds);
        outcome := TaskDeleted;
      }
    case Dismissed =>
  }

  /** The task editor offers, for each role type, the roles of that type;
      a record written from its selections names only such roles. */
  lemma EditedTaskConsistent(roles: map<string, Role>, tasks: map<int, Task>, id: int, f: TaskForm)
    requires Consistent(roles, tasks)
    requires forall ty :: ty in f.selections ==> f.selections[ty] in roles && roles[f.selections[ty]].roleType == ty
    ensures Consistent(roles, tasks[id := EditedTask(f)])
  {
    PutTaskKeepsConsistent(roles, tasks, id, EditedTask(f));
  }

  // ---------------------------------------------------------------------
  // Resizing a task element

  /** `task.value = newValue`: the record with a new value. */
  function Resized(t: Task, newValue: int): Task
  {
    t.(value := newValue)
  }

  // ---------------------------------------------------------------------
  // Changing the target value of a role element

  /** `parseInt(totalElem.value) || 0`: the parsed number, where an empty or
      non-numeric field (NaN) gives 0. */
  function TargetOf(input: Option<int>): (v: int)
    ensures input.None? ==> v == 0
    ensures input.Some? ==> v == input.value
  {
    if input.Some? then input.value else 0
  }

  /** A role element and the change handler of its target field set up by
      `populateRole`. The handler's closure holds the record object read
      when the element was created. */
  class RoleElement {
    const roleId: string
    var captured: Role

    constructor (roleId: string, role: Role)
      ensures this.roleId == roleId && captured == role
    {
      this.roleId := roleId;
      captured := role;
    }

    /** The change handler: the captured record gets the new target and is
        written to the store whole, and the role element is refreshed. When
        the captured record is the stored one, the refreshed display shows
        the new target over an unchanged load. */
    method ChangeTarget(store: Store, input: Option<int>) returns (shown: Option<Display.RoleDisplay>)
      modifies this, store
      ensures captured == old(captured).(value := TargetOf(input))
      ensures store.data == old(store.data)[RoleKey(roleId) := RoleEntry(captured)]
      ensures shown == Display.ExpectedDisplay(store, roleId)
      ensures shown == Some(Display.DisplayOf(captured, Loads.Used(old(store.Tasks()), captured.roleType, roleId)))
    {
      var v := TargetOf(input);
      captured := captured.(value := v);
      PutRoleView(store.data, roleId, captured);
      store.UpdateRole(roleId, captured);
      var all := Display.UpdateRoles(store, [roleId], []);
      shown := all[0];
    }
  }

  /** A target change leaves every other record alone: no other role and no
      task changes, so every other role's load and target stay. */
  lemma TargetChangeKeepsOthers(d: Data, roleId: string, role: Role, v: int, other: string)
    requires other != roleId
    ensures var e: Data := d[RoleKey(roleId) := RoleEntry(role.(value := v))];
      && TasksOf(e) == TasksOf(d)
      && (other in RolesOf(e) <==> other in RolesOf(d))
      && (other in RolesOf(d) ==> RolesOf(e)[other] == RolesOf(d)[other])
      && RolesOf(e)[roleId] == role.(value := v)
  {
    PutRoleView(d, roleId, role.(value := v));
  }

  /** A task element and the resize observer set up by `populateTask`. The
      observer's closure holds the record object read when the element was
      created, and updates that object's value on every resize. */
  class TaskElement {
    const taskId: int
    var captured: Task

    constructor (taskId: int, task: Task)
      ensures this.taskId == taskId && captured == task
    {
      this.taskId := taskId;
      captured := task;
    }

    /** The resize callback as written: for a positive width whose value
        differs from the captured record's, the captured record gets that
        value and is written to the store whole. `power` stands for the
        fractional power inside `widthToValue`. */
    method ResizeAsWritten(store: Store, width: int, power: int -> int)
      modifies this, store
      ensures var v := Grid.WidthToValue(power(width));
        if width > 0 && v != old(captured).value then
          captured == Resized(old(captured), v)
          && store.data == old(store.data)[TaskKey(taskId) := TaskEntry(Resized(old(captured), v))]
        else
          captured == old(captured) && store.data == old(store.data)
    {
      if width > 0 {
        var v := Grid.WidthToValue(power(width));
        if v != captured.value {
          captured := Resized(captured, v);
          store.UpdateTask(taskId, captured);
        }
      }
    }

    /** The resize callback corrected: it compares against, and writes back,
        the record as it is in the store, changing only its value; a task
        no longer in the store is left alone. */
    method Resize(store: Store, width: int, power: int -> int)
      modifies store
      ensures var v := Grid.WidthToValue(power(width));
        if width > 0 && taskId in old(store.Tasks()) && v != old(store.Tasks())[taskId].value then
          store.data == old(store.data)[TaskKey(taskId) := TaskEntry(Resized(old(store.Tasks())[taskId], v))]
        else
          store.data == old(store.data)
    {
      if width > 0 {
        var v := Grid.WidthToValue(power(width));
        var current := store.GetTask(taskId);
        if current.Some? && v != current.value.value {
          store.UpdateTask(taskId, Resized(current.value, v));
        }
      }
    }
  }

  /** The slip in the resize callback: after a drop moved the task to
      another role, a resize that writes (a positive width whose value `v`
      differs from the captured record's, as `ResizeAsWritten` requires for
      its write) stores the captured record with value `v`, and the task is
      assigned to the role it was dragged away from again. Without such a
      width the callback writes nothing and the drop stays. */
  lemma DropThenResizeAsWritten(d: Data, id: int, roleType: string, dest: string, v: int)
    requires id in TasksOf(d) && roleType in TasksOf(d)[id].roles && TasksOf(d)[id].roles[roleType] != dest
    ensures var captured := TasksOf(d)[id];
      var dropped := d[TaskKey(id) := TaskEntry(DragDrop.Dropped(captured, roleType, dest))];
      var resized := dropped[TaskKey(id) := TaskEntry(Resized(captured, v))];
      && id in TasksOf(resized)
      && !AssignedTo(TasksOf(resized)[id], roleType, dest)
      && AssignedTo(TasksOf(resized)[id], roleType, captured.roles[roleType])
  {
    var captured := TasksOf(d)[id];
    var dropped := d[TaskKey(id) := TaskEntry(DragDrop.Dropped(captured, roleType, dest))];
    PutTaskView(dropped, id, Resized(captured, v));
  }

  /** With the corrected callback a resize after a drop keeps the drop and
      sets only the value. */
  lemma DropThenResize(d: Data, id: int, roleType: string, dest: string, v: int)
    requires id in TasksOf(d)
    ensures var dropped := d[TaskKey(id) := TaskEntry(DragDrop.Dropped(TasksOf(d)[id], roleType, dest))];
      && id in TasksOf(dropped)
      && var resized := dropped[TaskKey(id) := TaskEntry(Resized(TasksOf(dropped)[id], v))];
      && id in TasksOf(resized)
      && AssignedTo(TasksOf(resized)[id], roleType, dest)
      && TasksOf(resized)[id].value == v
      && TasksOf(resized)[id].comments == TasksOf(d)[id].comments
  {
    var dropped := d[TaskKey(id) := TaskEntry(DragDrop.Dropped(TasksOf(d)[id], roleType, dest))];
    PutTaskView(d, id, DragDrop.Dropped(TasksOf(d)[id], roleType, dest));
    PutTaskView(dropped, id, Resized(TasksOf(dropped)[id], v));
  }

  // ---------------------------------------------------------------------
  // The add-task dropdown

  /** `role.type + ":" + roleId`, the value of an option. */
  function OptionValue(roleType: string, roleId: string): string
  {
    roleType + ":" + roleId
  }

  /** `addElem.value.split(":")` taken apart as `[roleType, roleId]`: the
      text before the first ':' and the text between it and the next one;
      without a ':' the role id is undefined. */
  function SplitOption(v: string): (string, Option<string>)
  {
    match Text.After(v, ':')
    case None => (v, None)
    case Some(rest) => (Text.Before(v, ':'), Some(Text.Before(rest, ':')))
  }

  /** Splitting an option value gives back the type and the id it was made
      of when neither holds a ':'. */
  lemma SplitOptionRoundTrip(roleType: string, roleId: string)
    requires ':' !in roleType && ':' !in roleId
    ensures SplitOption(OptionValue(roleType, roleId)) == (roleType, Some(roleId))
  {
    assert OptionValue(roleType, roleId) == roleType + [':'] + roleId;
    Text.BeforeAfterJoin(roleType, roleId, ':');
    Text.BeforeWithout(roleId, ':');
  }

  /** The roles a dropdown with the given group offers: those whose group or
      type is that group. */
  predicate Offered(role: Role, group: string)
  {
    role.group == Some(group) || role.roleType == group
  }

  /** The ids of the offered roles, in the order of `sortedIds`. */
  function OfferedIds(roles: map<string, Role>, sortedIds: seq<string>, group: string): (ids: seq<string>)
    requires forall i :: 0 <= i < |sortedIds| ==> sortedIds[i] in roles
    ensures |ids| <= |sortedIds|
    ensures forall i :: 0 <= i < |ids| ==> ids[i] in roles
    ensures forall id :: id in ids <==> id in sortedIds && Offered(roles[id], group)
  {
    if |sortedIds| == 0 then []
    else
      var rest := OfferedIds(roles, sortedIds[1..], group);
      assert forall id :: id in sortedIds <==> id == sortedIds[0] || id in sortedIds[1..];
      if Offered(roles[sortedIds[0]], group) then [sortedIds[0]] + rest else rest
  }

  /** The option values of the dropdown: one per offered role. */
  function AddTaskOptions(roles: map<string, Role>, sortedIds: seq<string>, group: string): (opts: seq<string>)
    requires forall i :: 0 <= i < |sortedIds| ==> sortedIds[i] in roles
  {
    var ids := OfferedIds(roles, sortedIds, group);
    seq(|ids|, i requires 0 <= i < |ids| => OptionValue(roles[ids[i]].roleType, ids[i]))
  }

  /** Every option names an offered role of the sorted list, and every
      offered role has its option. */
  lemma AddTaskOptionsExact(roles: map<string, Role>, sortedIds: seq<string>, group: string, id: string)
    requires forall i :: 0 <= i < |sortedIds| ==> sortedIds[i] in roles
    requires id in roles && forall r :: r in roles ==> ':' !in roles[r].roleType
    ensures OptionValue(roles[id].roleType, id) in AddTaskOptions(roles, sortedIds, group)
        <==> id in sortedIds && Offered(roles[id], group)
  {
    var ids := OfferedIds(roles, sortedIds, group);
    var opts := AddTaskOptions(roles, sortedIds, group);
    var o := OptionValue(roles[id].roleType, id);
    if id in ids {
      var i :| 0 <= i < |ids| && ids[i] == id;
      assert opts[i] == o;
    }
    if o in opts {
      var i :| 0 <= i < |opts| && opts[i] == o;
      var other := ids[i];
      assert ids[i] in ids;
      assert OptionValue(roles[other].roleType, other) == o;
      OptionSuffix(roles[other].roleType, other, roles[id].roleType, id);
    }
  }

  /** Two option values are equal only for equal ids, when the types have
      no ':'. */
  lemma OptionSuffix(t1: string, id1: string, t2: string, id2: string)
    requires ':' !in t1 && ':' !in t2
    requires OptionValue(t1, id1) == OptionValue(t2, id2)
    ensures t1 == t2 && id1 == id2
  {
    assert OptionValue(t1, id1) == t1 + [':'] + id1;
    assert OptionValue(t2, id2) == t2 + [':'] + id2;
    Text.BeforeAfterJoin(t1, id1, ':');
    Text.BeforeAfterJoin(t2, id2, ':');
  }

  /** `SETTINGS.newTaskValue[other.group] || SETTINGS.newTaskValue[other.type]`:
      the group's value when it has a non-zero one, otherwise the type's,
      which may be missing. */
  function NewTaskValue(other: Role): (r: Option<int>)
    ensures other.group.Some? && other.group.value in Settings.NewTaskValue
            ==> r == Some(Settings.NewTaskValue[other.group.value])
    ensures !(other.group.Some? && other.group.value in Settings.NewTaskValue)
            ==> r == (if other.roleType in Settings.NewTaskValue then Some(Settings.NewTaskValue[other.roleType]) else None)
    ensures r.Some? ==> r.value > 0
  {
    var byGroup := if other.group.Some? && other.group.value in Settings.NewTaskValue
                   then Settings.NewTaskValue[other.group.value] else 0;
    if byGroup != 0 then Some(byGroup)
    else if other.roleType in Settings.NewTaskValue then Some(Settings.NewTaskValue[other.roleType])
    else None
  }

  /** `{[roleType]: roleId, [other.type]: otherId, value: newValue}`: a field
      whose id is undefined is not stored, and when both fields have the
      same name the second wins. */
  function NewTask(roleType: string, roleId: Option<string>, otherType: string, otherId: string, value: int): (t: Task)
    ensures AssignedTo(t, otherType, otherId)
    ensures roleId.Some? && roleType != otherType ==> AssignedTo(t, roleType, roleId.value)
    ensures t.roles.Keys == {otherType} + (if roleId.Some? then {roleType} else {})
    ensures t.value == value && t.comments == None
  {
    var first := if roleId.Some? then map[roleType := roleId.value] else map[];
    Task(first[otherType := otherId], value, None)
  }

  /** The `change` handler of the dropdown in the list of role `otherId`:
      the new task is assigned to the chosen role and to this one, and gets
      a fresh id. */
  method AddTask(store: Store, optionValue: string, other: Role, otherId: string) returns (taskId: int)
    modifies store
    ensures var (roleType, roleId) := SplitOption(optionValue);
      var v := NewTaskValue(other);
      var t := NewTask(roleType, roleId, other.roleType, otherId, if v.Some? then v.value else 0);
      store.data == old(store.data)[TaskKey(taskId) := TaskEntry(t)]
    ensures taskId >= 1 && taskId !in old(store.Tasks())
    ensures forall id :: id in old(store.Tasks()) ==> id < taskId
  {
    var (roleType, roleId) := SplitOption(optionValue);
    var v := NewTaskValue(other);
    var t := NewTask(roleType, roleId, other.roleType, otherId, if v.Some? then v.value else 0);
    taskId := store.CreateTask(t);
  }

  /** A new task made from an offered option adds its value to the loads of
      both roles and keeps the records consistent. */
  lemma NewTaskEffect(roles: map<string, Role>, tasks: map<int, Task>, id: int,
                      roleId: string, otherId: string, value: int)
    requires Consistent(roles, tasks) && id !in tasks
    requires roleId in roles && otherId in roles && roles[roleId].roleType != roles[otherId].roleType
    ensures var t := NewTask(roles[roleId].roleType, Some(roleId), roles[otherId].roleType, otherId, value);
      && Consistent(roles, tasks[id := t])
      && Loads.Used(tasks[id := t], roles[roleId].roleType, roleId) == Loads.Used(tasks, roles[roleId].roleType, roleId) + value
      && Loads.Used(tasks[id := t], roles[otherId].roleType, otherId) == Loads.Used(tasks, roles[otherId].roleType, otherId) + value
  {
    var t := NewTask(roles[roleId].roleType, Some(roleId), roles[otherId].roleType, otherId, value);
    PutTaskKeepsConsistent(roles, tasks, id, t);
    Loads.UsedAfterPut(tasks, id, t, roles[roleId].roleType, roleId);
    Loads.UsedAfterPut(tasks, id, t, roles[otherId].roleType, otherId);
  }
}
