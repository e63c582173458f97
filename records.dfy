/** The two record kinds the planning board keeps in its store, and how a task
    refers to a role. */
module Records {

  import opened Optional

  /** A role record, stored under "#" + role id (scheduler.js:563-569).
      `name`, `roleType` and `value` are always present in the records the
      role editor writes; the other fields may be missing in imported data,
      which is why they are optional (a missing field compares unequal to "",
      see the role editor). */
  datatype Role = Role(
    roleType: string,
    name: string,
    nickname: Option<string>,
    group: Option<string>,
    value: int,
    comments: Option<string>)

  /** A task record, stored under ":" + task id (scheduler.js:595-601). The
      object is flat: one field per role type holding a role id (`roles`),
      plus `value` and an optional `comments`. */
  datatype Task = Task(roles: map<string, string>, value: int, comments: Option<string>)

  /** `task[roleType] === roleId` */
  predicate AssignedTo(t: Task, roleType: string, roleId: string)
  {
    roleType in t.roles && t.roles[roleType] == roleId
  }

  /** What a task contributes to the load of a role: its value if it is
      assigned to the role, nothing otherwise (scheduler.js:24). */
  function Contribution(t: Task, roleType: string, roleId: string): int
  {
    if AssignedTo(t, roleType, roleId) then t.value else 0
  }
}
