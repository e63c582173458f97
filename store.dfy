/** The store layer (scheduler.js:529-605): the `db*` functions over the
    browser's string-keyed local storage, here a class holding a map from
    keys to entries. */
module KeyValueStore {

  import opened Optional
  import opened Records
  import opened Keys
  import Sorting
  import Collections

  /** What is stored under a key: a role record, a task record, or the text
      another application left there. */
  datatype Entry = RoleEntry(role: Role) | TaskEntry(task: Task) | OtherEntry(text: string)

  /** Role keys hold role records and task keys task records. */
  predicate Fits(k: Key, e: Entry)
  {
    WellFormed(k) && (k.RoleKey? <==> e.RoleEntry?) && (k.TaskKey? <==> e.TaskEntry?)
  }

  type Data = m: map<Key, Entry> | forall k :: k in m ==> Fits(k, m[k])

  /** The import/export format: `{roles: {id: Role}, tasks: {id: Task}}`. */
  datatype Snapshot = Snapshot(roles: map<string, Role>, tasks: map<int, Task>)

  /** The role ids among some keys. */
  function RoleIdsIn(ks: set<Key>): (ids: set<string>)
    ensures forall id :: id in ids <==> RoleKey(id) in ks
  {
    set k | k in ks && k.RoleKey? :: k.roleId
  }

  /** The task ids among some keys. */
  function TaskIdsIn(ks: set<Key>): (ids: set<int>)
    ensures forall n :: n in ids <==> TaskKey(n) in ks
  {
    set k | k in ks && k.TaskKey? :: k.taskId
  }

  /** The role records of a store, by role id. */
  function RolesOf(d: Data): (roles: map<string, Role>)
    ensures forall id :: id in roles <==> RoleKey(id) in d
    ensures forall id :: id in roles ==> d[RoleKey(id)] == RoleEntry(roles[id])
  {
    map id | id in RoleIdsIn(d.Keys) :: d[RoleKey(id)].role
  }

  /** The task records of a store, by task id. */
  function TasksOf(d: Data): (tasks: map<int, Task>)
    ensures forall n :: n in tasks <==> TaskKey(n) in d
    ensures forall n :: n in tasks ==> d[TaskKey(n)] == TaskEntry(tasks[n])
  {
    map n | n in TaskIdsIn(d.Keys) :: d[TaskKey(n)].task
  }

  function SnapshotOf(d: Data): Snapshot
  {
    Snapshot(RolesOf(d), TasksOf(d))
  }

  /** The role keys and records of a map of roles. */
  function RoleEntries(roles: map<string, Role>): (d: Data)
    ensures forall k :: k in d <==> k.RoleKey? && k.roleId in roles
    ensures forall id :: id in roles ==> d[RoleKey(id)] == RoleEntry(roles[id])
  {
    map id | id in roles :: RoleKey(id) := RoleEntry(roles[id])
  }

  /** The task keys and records of a map of tasks. */
  function TaskEntries(tasks: map<int, Task>): (d: Data)
    ensures forall k :: k in d <==> k.TaskKey? && k.taskId in tasks
    ensures forall n :: n in tasks ==> d[TaskKey(n)] == TaskEntry(tasks[n])
  {
    map n | n in tasks :: TaskKey(n) := TaskEntry(tasks[n])
  }

  /** The store contents a snapshot describes once it is imported. */
  function DataOf(s: Snapshot): Data
  {
    RoleEntries(s.roles) + TaskEntries(s.tasks)
  }

  /** The store without the keys of other applications. */
  function WithoutOthers(d: Data): (w: Data)
    ensures forall k :: k in w <==> k in d && !k.OtherKey?
    ensures forall k :: k in w ==> w[k] == d[k]
  {
    map k | k in d && !k.OtherKey? :: d[k]
  }

  /** The role view of imported records is the imported roles. */
  lemma RolesOfEntries(roles: map<string, Role>, tasks: map<int, Task>)
    ensures RolesOf(RoleEntries(roles) + TaskEntries(tasks)) == roles
  {
    var re := RoleEntries(roles);
    var d: Data := re + TaskEntries(tasks);
    forall id | id in roles ensures id in RolesOf(d) && RolesOf(d)[id] == roles[id] {
      assert RoleKey(id) in re && RoleKey(id) !in TaskEntries(tasks);
    }
    forall id | id in RolesOf(d) ensures id in roles {
      assert RoleKey(id) !in TaskEntries(tasks);
      assert RoleKey(id) in re;
    }
    Collections.SameMap(RolesOf(d), roles);
  }

  /** The task view of imported records is the imported tasks. */
  lemma TasksOfEntries(roles: map<string, Role>, tasks: map<int, Task>)
    ensures TasksOf(RoleEntries(roles) + TaskEntries(tasks)) == tasks
  {
    var te := TaskEntries(tasks);
    var d: Data := RoleEntries(roles) + te;
    forall n | n in tasks ensures n in TasksOf(d) && TasksOf(d)[n] == tasks[n] {
      assert TaskKey(n) in te;
    }
    forall n | n in TasksOf(d) ensures n in tasks {
      assert TaskKey(n) !in RoleEntries(roles);
      assert TaskKey(n) in te;
    }
    Collections.SameMap(TasksOf(d), tasks);
  }

  /** Importing a snapshot and exporting again gives the same snapshot. */
  lemma SnapshotRoundTrip(s: Snapshot)
    ensures SnapshotOf(DataOf(s)) == s
  {
    RolesOfEntries(s.roles, s.tasks);
    TasksOfEntries(s.roles, s.tasks);
  }

  /** One more key visited adds its role id, if it has one. */
  lemma RoleIdsOneMore(all: set<Key>, keys: set<Key>, k: Key)
    requires k in keys && keys <= all
    ensures RoleIdsIn(all - (keys - {k})) == RoleIdsIn(all - keys) + (if k.RoleKey? then {k.roleId} else {})
    ensures k.RoleKey? ==> k.roleId !in RoleIdsIn(all - keys)
  {
  }

  /** One more key visited adds its task id, if it has one. */
  lemma TaskIdsOneMore(all: set<Key>, keys: set<Key>, k: Key)
    requires k in keys && keys <= all
    ensures TaskIdsIn(all - (keys - {k})) == TaskIdsIn(all - keys) + (if k.TaskKey? then {k.taskId} else {})
    ensures k.TaskKey? ==> k.taskId !in TaskIdsIn(all - keys)
  {
  }

  /** What writing or removing one key does to the role and task views. */
  lemma PutRoleView(d: Data, id: string, r: Role)
    ensures RolesOf(d[RoleKey(id) := RoleEntry(r)]) == RolesOf(d)[id := r]
    ensures TasksOf(d[RoleKey(id) := RoleEntry(r)]) == TasksOf(d)
  {
    var e: Data := d[RoleKey(id) := RoleEntry(r)];
    forall x ensures x in RolesOf(e) <==> x in RolesOf(d)[id := r] {
      assert RoleKey(x) in e <==> x == id || RoleKey(x) in d;
    }
    forall x | x in RolesOf(e) ensures RolesOf(e)[x] == RolesOf(d)[id := r][x] {
      if x != id {
        assert e[RoleKey(x)] == d[RoleKey(x)];
      }
    }
    Collections.SameMap(RolesOf(e), RolesOf(d)[id := r]);
    OtherKeyTasks(d, e, RoleKey(id));
  }

  lemma RemoveRoleView(d: Data, id: string)
    ensures RolesOf(d - {RoleKey(id)}) == RolesOf(d) - {id}
    ensures TasksOf(d - {RoleKey(id)}) == TasksOf(d)
  {
    var e: Data := d - {RoleKey(id)};
    forall x ensures x in RolesOf(e) <==> x in RolesOf(d) - {id} {
      assert RoleKey(x) in e <==> x != id && RoleKey(x) in d;
    }
    forall x | x in RolesOf(e) ensures RolesOf(e)[x] == RolesOf(d)[x] {
      assert e[RoleKey(x)] == d[RoleKey(x)];
    }
    Collections.SameMap(RolesOf(e), RolesOf(d) - {id});
    OtherKeyTasks(d, e, RoleKey(id));
  }

  lemma PutTaskView(d: Data, n: int, t: Task)
    ensures TasksOf(d[TaskKey(n) := TaskEntry(t)]) == TasksOf(d)[n := t]
    ensures RolesOf(d[TaskKey(n) := TaskEntry(t)]) == RolesOf(d)
  {
    var e: Data := d[TaskKey(n) := TaskEntry(t)];
    forall x ensures x in TasksOf(e) <==> x in TasksOf(d)[n := t] {
      assert TaskKey(x) in e <==> x == n || TaskKey(x) in d;
    }
    forall x | x in TasksOf(e) ensures TasksOf(e)[x] == TasksOf(d)[n := t][x] {
      if x != n {
        assert e[TaskKey(x)] == d[TaskKey(x)];
      }
    }
    Collections.SameMap(TasksOf(e), TasksOf(d)[n := t]);
    OtherKeyRoles(d, e, TaskKey(n));
  }

  lemma RemoveTaskView(d: Data, n: int)
    ensures TasksOf(d - {TaskKey(n)}) == TasksOf(d) - {n}
    ensures RolesOf(d - {TaskKey(n)}) == RolesOf(d)
  {
    var e: Data := d - {TaskKey(n)};
    forall x ensures x in TasksOf(e) <==> x in TasksOf(d) - {n} {
      assert TaskKey(x) in e <==> x != n && TaskKey(x) in d;
    }
    forall x | x in TasksOf(e) ensures TasksOf(e)[x] == TasksOf(d)[x] {
      assert e[TaskKey(x)] == d[TaskKey(x)];
    }
    Collections.SameMap(TasksOf(e), TasksOf(d) - {n});
    OtherKeyRoles(d, e, TaskKey(n));
  }

  /** Two stores that differ at most under one non-task key have the same
      tasks. */
  lemma OtherKeyTasks(d: Data, e: Data, k: Key)
    requires !k.TaskKey?
    requires forall x :: x != k ==> (x in e <==> x in d)
    requires forall x :: x != k && x in e ==> e[x] == d[x]
    ensures TasksOf(e) == TasksOf(d)
  {
    forall n ensures n in TasksOf(e) <==> n in TasksOf(d) {
      assert TaskKey(n) != k;
    }
    forall n | n in TasksOf(e) ensures TasksOf(e)[n] == TasksOf(d)[n] {
      assert TaskKey(n) != k;
    }
    Collections.SameMap(TasksOf(e), TasksOf(d));
  }

  /** Two stores that differ at most under one non-role key have the same
      roles. */
  lemma OtherKeyRoles(d: Data, e: Data, k: Key)
    requires !k.RoleKey?
    requires forall x :: x != k ==> (x in e <==> x in d)
    requires forall x :: x != k && x in e ==> e[x] == d[x]
    ensures RolesOf(e) == RolesOf(d)
  {
    forall id ensures id in RolesOf(e) <==> id in RolesOf(d) {
      assert RoleKey(id) != k;
    }
    forall id | id in RolesOf(e) ensures RolesOf(e)[id] == RolesOf(d)[id] {
      assert RoleKey(id) != k;
    }
    Collections.SameMap(RolesOf(e), RolesOf(d));
  }

  /** Exporting and importing again keeps every role and task record and
      drops only the keys of other applications. */
  lemma DataRoundTrip(d: Data)
    ensures DataOf(SnapshotOf(d)) == WithoutOthers(d)
  {
    var re := RoleEntries(RolesOf(d));
    var te := TaskEntries(TasksOf(d));
    var e: Data := re + te;
    var w := WithoutOthers(d);
    forall k ensures k in e <==> k in w {
      match k
      case RoleKey(id) =>
        assert k !in te;
        assert k in re <==> id in RolesOf(d);
        assert id in RolesOf(d) <==> k in d;
      case TaskKey(n) =>
        assert k !in re;
        assert k in te <==> n in TasksOf(d);
        assert n in TasksOf(d) <==> k in d;
      case OtherKey(_) =>
        assert k !in re && k !in te && k !in w;
    }
    forall k | k in e ensures e[k] == w[k] {
      match k
      case RoleKey(id) =>
        assert k !in te && e[k] == re[k];
      case TaskKey(n) =>
        assert e[k] == te[k];
    }
    Collections.SameMap(e, w);
  }

  /** A store holding only role and task records is what its snapshot
      describes. */
  lemma OnlyRecordsRoundTrip(d: Data)
    requires forall k :: k in d ==> !k.OtherKey?
    ensures d == DataOf(SnapshotOf(d))
  {
    DataRoundTrip(d);
    assert WithoutOthers(d) == d;
  }

  lemma RoleEntriesOneMore(base: Data, done: map<string, Role>, id: string, r: Role)
    ensures (base + RoleEntries(done))[RoleKey(id) := RoleEntry(r)] == base + RoleEntries(done[id := r])
  {
    var a := RoleEntries(done)[RoleKey(id) := RoleEntry(r)];
    var b := RoleEntries(done[id := r]);
    forall k | k in a ensures k in b && b[k] == a[k] {
    }
    forall k | k in b ensures k in a {
    }
    Collections.SameMap(a, b);
    Collections.UnionUpdate(base, RoleEntries(done), RoleKey(id), RoleEntry(r));
  }

  lemma TaskEntriesOneMore(base: Data, done: map<int, Task>, n: int, t: Task)
    ensures (base + TaskEntries(done))[TaskKey(n) := TaskEntry(t)] == base + TaskEntries(done[n := t])
  {
    var a := TaskEntries(done)[TaskKey(n) := TaskEntry(t)];
    var b := TaskEntries(done[n := t]);
    forall k | k in a ensures k in b && b[k] == a[k] {
    }
    forall k | k in b ensures k in a {
    }
    Collections.SameMap(a, b);
    Collections.UnionUpdate(base, TaskEntries(done), TaskKey(n), TaskEntry(t));
  }

  /** Writing the records of a map of roles over a store: the roles are the
      old ones overridden by the map, and tasks and other keys stay. */
  lemma PutRolesView(d: Data, roles: map<string, Role>)
    ensures RolesOf(d + RoleEntries(roles)) == RolesOf(d) + roles
    ensures TasksOf(d + RoleEntries(roles)) == TasksOf(d)
    ensures forall k: Key :: k.OtherKey? ==> (k in d + RoleEntries(roles) <==> k in d)
  {
    PutRolesRoles(d, roles);
    PutRolesTasks(d, roles);
  }

  lemma PutRolesRoles(d: Data, roles: map<string, Role>)
    ensures RolesOf(d + RoleEntries(roles)) == RolesOf(d) + roles
  {
    var re := RoleEntries(roles);
    var e: Data := d + re;
    var want := RolesOf(d) + roles;
    forall id ensures id in RolesOf(e) <==> id in want {
      assert RoleKey(id) in re <==> id in roles;
    }
    forall id | id in RolesOf(e) ensures RolesOf(e)[id] == want[id] {
      if id in roles {
        assert e[RoleKey(id)] == re[RoleKey(id)];
      } else {
        assert RoleKey(id) !in re;
        assert e[RoleKey(id)] == d[RoleKey(id)];
      }
    }
    Collections.SameMap(RolesOf(e), want);
  }

  lemma PutRolesTasks(d: Data, roles: map<string, Role>)
    ensures TasksOf(d + RoleEntries(roles)) == TasksOf(d)
  {
    var re := RoleEntries(roles);
    var e: Data := d + re;
    forall n ensures n in TasksOf(e) <==> n in TasksOf(d) {
      assert TaskKey(n) !in re;
    }
    forall n | n in TasksOf(e) ensures TasksOf(e)[n] == TasksOf(d)[n] {
      assert TaskKey(n) !in re;
    }
    Collections.SameMap(TasksOf(e), TasksOf(d));
  }

  /** Writing the records of a map of tasks over a store: the tasks are the
      old ones overridden by the map, and roles and other keys stay. */
  lemma PutTasksView(d: Data, tasks: map<int, Task>)
    ensures TasksOf(d + TaskEntries(tasks)) == TasksOf(d) + tasks
    ensures RolesOf(d + TaskEntries(tasks)) == RolesOf(d)
    ensures forall k: Key :: k.OtherKey? ==> (k in d + TaskEntries(tasks) <==> k in d)
  {
    PutTasksTasks(d, tasks);
    PutTasksRoles(d, tasks);
  }

  lemma PutTasksTasks(d: Data, tasks: map<int, Task>)
    ensures TasksOf(d + TaskEntries(tasks)) == TasksOf(d) + tasks
  {
    var te := TaskEntries(tasks);
    var e: Data := d + te;
    var want := TasksOf(d) + tasks;
    forall n ensures n in TasksOf(e) <==> n in want {
      assert TaskKey(n) in te <==> n in tasks;
    }
    forall n | n in TasksOf(e) ensures TasksOf(e)[n] == want[n] {
      if n in tasks {
        assert e[TaskKey(n)] == te[TaskKey(n)];
      } else {
        assert TaskKey(n) !in te;
        assert e[TaskKey(n)] == d[TaskKey(n)];
      }
    }
    Collections.SameMap(TasksOf(e), want);
  }

  lemma PutTasksRoles(d: Data, tasks: map<int, Task>)
    ensures RolesOf(d + TaskEntries(tasks)) == RolesOf(d)
  {
    var te := TaskEntries(tasks);
    var e: Data := d + te;
    forall id ensures id in RolesOf(e) <==> id in RolesOf(d) {
      assert RoleKey(id) !in te;
    }
    forall id | id in RolesOf(e) ensures RolesOf(e)[id] == RolesOf(d)[id] {
      assert RoleKey(id) !in te;
    }
    Collections.SameMap(RolesOf(e), RolesOf(d));
  }

  /** `Math.max(start, ...s)` */
  function MaxOf(start: int, s: seq<int>): (m: int)
    ensures m >= start && forall i :: 0 <= i < |s| ==> s[i] <= m
    ensures m == start || m in s
  {
    if |s| == 0 then start
    else
      var m := MaxOf(start, s[1..]);
      assert forall i :: 1 <= i < |s| ==> s[i] == s[1..][i - 1];
      if s[0] > m then s[0] else m
  }

  /** The role name recorded for an id while enumerating, "" if none. */
  function NameIn(names: map<string, string>, id: string): string
  {
    if id in names then names[id] else ""
  }

  class Store {
    var data: Data

    constructor (initial: Data)
      ensures data == initial
    {
      data := initial;
    }

    ghost function Roles(): map<string, Role>
      reads this
    {
      RolesOf(data)
    }

    ghost function Tasks(): map<int, Task>
      reads this
    {
      TasksOf(data)
    }

    /** `dbGetRole`: the record under "#" + id, if any. */
    function GetRole(roleId: string): (r: Option<Role>)
      reads this
      ensures r.Some? <==> roleId in RolesOf(data)
      ensures r.Some? ==> r.value == RolesOf(data)[roleId]
    {
      if RoleKey(roleId) in data then Some(data[RoleKey(roleId)].role) else None
    }

    /** `dbGetTask`: the record under ":" + id, if any. */
    function GetTask(taskId: int): (r: Option<Task>)
      reads this
      ensures r.Some? <==> taskId in TasksOf(data)
      ensures r.Some? ==> r.value == TasksOf(data)[taskId]
    {
      if TaskKey(taskId) in data then Some(data[TaskKey(taskId)].task) else None
    }

    /** `dbHasRole`: whether a role record is stored under the id. */
    predicate HasRole(roleId: string)
      reads this
      ensures HasRole(roleId) <==> roleId in Roles()
    {
      GetRole(roleId).Some?
    }

    /** `dbHasTask`: whether a task record is stored under the id. */
    predicate HasTask(taskId: int)
      reads this
      ensures HasTask(taskId) <==> taskId in Tasks()
    {
      GetTask(taskId).Some?
    }

    /** `dbClearDatabase`: every key goes, other applications' keys too. */
    method Clear()
      modifies this
      ensures data == map[]
    {
      data := map[];
    }

    /** `dbUpdateRole`: overwrites the whole record under one key. */
    method UpdateRole(roleId: string, role: Role)
      modifies this
      ensures data == old(data)[RoleKey(roleId) := RoleEntry(role)]
    {
      var e: Data := data[RoleKey(roleId) := RoleEntry(role)];
      data := e;
    }

    /** `dbDeleteRole`: removes one key; an absent key is a no-op. */
    method DeleteRole(roleId: string)
      modifies this
      ensures data == old(data) - {RoleKey(roleId)}
    {
      var e: Data := data - {RoleKey(roleId)};
      data := e;
    }

    /** `dbUpdateTask`: overwrites the whole record under one key. */
    method UpdateTask(taskId: int, task: Task)
      modifies this
      ensures data == old(data)[TaskKey(taskId) := TaskEntry(task)]
    {
      var e: Data := data[TaskKey(taskId) := TaskEntry(task)];
      data := e;
    }

    /** `dbDeleteTask`: removes one key; an absent key is a no-op. */
    method DeleteTask(taskId: int)
      modifies this
      ensures data == old(data) - {TaskKey(taskId)}
    {
      var e: Data := data - {TaskKey(taskId)};
      data := e;
    }

    /** The walk of `dbRoleIds` over the keys in storage order: the ids of
        the "#" keys, each once, and the name of each. */
    method RoleKeys() returns (found: seq<string>, names: map<string, string>)
      ensures multiset(found) == multiset(Roles().Keys)
      ensures forall id :: id in names ==> id in Roles() && names[id] == Roles()[id].name
      ensures forall i :: 0 <= i < |found| ==> found[i] in names
    {
      var keys := data.Keys;
      found := [];
      names := map[];
      while keys != {}
        invariant keys <= data.Keys
        invariant multiset(found) == multiset(RoleIdsIn(data.Keys - keys))
        invariant forall id :: id in names ==> id in Roles() && names[id] == Roles()[id].name
        invariant forall i :: 0 <= i < |found| ==> found[i] in names
        decreases keys
      {
        ghost var w := Collections.Pick(keys);
        var k :| k in keys;
        RoleIdsOneMore(data.Keys, keys, k);
        if k.RoleKey? {
          Collections.MultisetAddNew(found, RoleIdsIn(data.Keys - keys), k.roleId);
          found := found + [k.roleId];
          names := names[k.roleId := data[k].role.name];
        }
        keys := keys - {k};
      }
      Collections.SetMinusNothing(data.Keys, keys);
      assert RoleIdsIn(data.Keys) == Roles().Keys;
    }

    /** `dbRoleIds`: walks the keys in storage order, keeps the "#" ones and
        sorts their ids by role name. */
    method RoleIds(le: (string, string) -> bool) returns (ids: seq<string>)
      requires Sorting.TotalPreorder(le)
      ensures multiset(ids) == multiset(Roles().Keys)
      ensures forall i :: 0 <= i < |ids| ==> ids[i] in Roles()
      ensures forall i, j :: 0 <= i < j < |ids| ==> ids[i] != ids[j]
      ensures forall i, j :: 0 <= i < j < |ids| ==> le(Roles()[ids[i]].name, Roles()[ids[j]].name)
    {
      var found, names := RoleKeys();
      var byName := Sorting.ByKey(le, (id: string) => NameIn(names, id));
      ids := Sorting.SortBy(found, byName);
      forall i | 0 <= i < |ids| ensures ids[i] in Roles() && ids[i] in names {
        assert ids[i] in multiset(found);
      }
      Collections.NoRepeatsOfSetMultiset(ids, Roles().Keys);
    }

    /** `dbTaskIds`: walks the keys in storage order, keeps the ":" ones and
        sorts their numbers ascending. */
    method TaskIds() returns (ids: seq<int>)
      ensures multiset(ids) == multiset(Tasks().Keys)
      ensures forall i :: 0 <= i < |ids| ==> ids[i] in Tasks()
      ensures forall i, j :: 0 <= i < j < |ids| ==> ids[i] < ids[j]
    {
      var keys := data.Keys;
      var found: seq<int> := [];
      while keys != {}
        invariant keys <= data.Keys
        invariant multiset(found) == multiset(TaskIdsIn(data.Keys - keys))
        decreases keys
      {
        ghost var w := Collections.Pick(keys);
        var k :| k in keys;
        TaskIdsOneMore(data.Keys, keys, k);
        if k.TaskKey? {
          Collections.MultisetAddNew(found, TaskIdsIn(data.Keys - keys), k.taskId);
          found := found + [k.taskId];
        }
        keys := keys - {k};
      }
      Collections.SetMinusNothing(data.Keys, keys);
      assert TaskIdsIn(data.Keys) == Tasks().Keys;
      ids := Sorting.SortBy(found, Sorting.IntLe());
      forall i | 0 <= i < |ids| ensures ids[i] in Tasks() {
        assert ids[i] in multiset(found);
      }
      Collections.NoRepeatsOfSetMultiset(ids, Tasks().Keys);
    }

    /** `dbCreateTask`: stores the task under `max(0, ...ids) + 1`. */
    method CreateTask(task: Task) returns (taskId: int)
      modifies this
      ensures taskId >= 1 && taskId !in old(Tasks())
      ensures forall id :: id in old(Tasks()) ==> id < taskId
      ensures taskId == 1 || taskId - 1 in old(Tasks())
      ensures data == old(data)[TaskKey(taskId) := TaskEntry(task)]
    {
      var ids := TaskIds();
      forall id | id in Tasks() ensures id in ids {
        assert id in multiset(Tasks().Keys);
      }
      taskId := MaxOf(0, ids) + 1;
      UpdateTask(taskId, task);
    }

    /** `for (const roleId in roles) dbUpdateRole(roleId, roles[roleId])`,
        in whatever order the keys come: every role of the map is written
        over what was there. */
    method PutRoles(roles: map<string, Role>)
      modifies this
      ensures data == old(data) + RoleEntries(roles)
    {
      var rest := roles.Keys;
      assert roles - rest == map[];
      assert data + RoleEntries(map[]) == data;
      while rest != {}
        invariant rest <= roles.Keys
        invariant data == old(data) + RoleEntries(roles - rest)
        decreases rest
      {
        ghost var w := Collections.Pick(rest);
        var id :| id in rest;
        Collections.OneMoreWritten(roles, rest, id);
        RoleEntriesOneMore(old(data), roles - rest, id, roles[id]);
        UpdateRole(id, roles[id]);
        rest := rest - {id};
      }
      Collections.MinusNothing(roles, rest);
    }

    /** `for (const taskId in tasks) dbUpdateTask(taskId, tasks[taskId])`,
        in whatever order the keys come: every task of the map is written
        over what was there. */
    method PutTasks(tasks: map<int, Task>)
      modifies this
      ensures data == old(data) + TaskEntries(tasks)
    {
      var rest := tasks.Keys;
      assert tasks - rest == map[];
      assert data + TaskEntries(map[]) == data;
      while rest != {}
        invariant rest <= tasks.Keys
        invariant data == old(data) + TaskEntries(tasks - rest)
        decreases rest
      {
        ghost var w := Collections.Pick(rest);
        var n :| n in rest;
        Collections.OneMoreWritten(tasks, rest, n);
        TaskEntriesOneMore(old(data), tasks - rest, n, tasks[n]);
        UpdateTask(n, tasks[n]);
        rest := rest - {n};
      }
      Collections.MinusNothing(tasks, rest);
    }

    /** `dbReplaceAllData`: clears the whole store, then writes every role
        and every task of the snapshot. */
    method ReplaceAllData(snap: Snapshot)
      modifies this
      ensures data == DataOf(snap)
      ensures Roles() == snap.roles && Tasks() == snap.tasks
    {
      Clear();
      assert data + RoleEntries(snap.roles) == RoleEntries(snap.roles);
      PutRoles(snap.roles);
      PutTasks(snap.tasks);
      SnapshotRoundTrip(snap);
    }

    /** The loop of `dbGetAllData` that reads every role of a list of ids
        holding each stored role id. */
    method ReadRoles(roleIds: seq<string>) returns (roles: map<string, Role>)
      requires forall i :: 0 <= i < |roleIds| ==> roleIds[i] in Roles()
      requires forall id :: id in Roles() ==> id in roleIds
      ensures roles == Roles()
    {
      roles := map[];
      for i := 0 to |roleIds|
        invariant forall id :: id in roles <==> id in roleIds[..i]
        invariant forall id :: id in roles ==> id in Roles() && roles[id] == Roles()[id]
      {
        assert roleIds[..i + 1] == roleIds[..i] + [roleIds[i]];
        roles := roles[roleIds[i] := GetRole(roleIds[i]).value];
      }
      assert roleIds[..|roleIds|] == roleIds;
      forall id ensures id in roles <==> id in Roles() {
        if id in Roles() {
          assert id in roleIds[..|roleIds|];
        }
      }
      Collections.SameMap(roles, Roles());
    }

    /** The loop of `dbGetAllData` that reads every task of a list of ids
        holding each stored task id. */
    method ReadTasks(taskIds: seq<int>) returns (tasks: map<int, Task>)
      requires forall i :: 0 <= i < |taskIds| ==> taskIds[i] in Tasks()
      requires forall n :: n in Tasks() ==> n in taskIds
      ensures tasks == Tasks()
    {
      tasks := map[];
      for i := 0 to |taskIds|
        invariant forall n :: n in tasks <==> n in taskIds[..i]
        invariant forall n :: n in tasks ==> n in Tasks() && tasks[n] == Tasks()[n]
      {
        assert taskIds[..i + 1] == taskIds[..i] + [taskIds[i]];
        tasks := tasks[taskIds[i] := GetTask(taskIds[i]).value];
      }
      assert taskIds[..|taskIds|] == taskIds;
      forall n ensures n in tasks <==> n in Tasks() {
        if n in Tasks() {
          assert n in taskIds[..|taskIds|];
        }
      }
      Collections.SameMap(tasks, Tasks());
    }

    /** `dbGetAllData`: every role and every task record. */
    method GetAllData(le: (string, string) -> bool) returns (snap: Snapshot)
      requires Sorting.TotalPreorder(le)
      ensures snap == SnapshotOf(data)
    {
      var roleIds := RoleIds(le);
      forall id | id in Roles() ensures id in roleIds {
        assert id in multiset(roleIds);
      }
      var roles := ReadRoles(roleIds);
      var taskIds := TaskIds();
      forall n | n in Tasks() ensures n in taskIds {
        assert n in multiset(taskIds);
      }
      var tasks := ReadTasks(taskIds);
      snap := Snapshot(roles, tasks);
    }
  }
}
