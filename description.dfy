/** The text a task element shows (`updateTask`, scheduler.js:33-53): the
    task's value, the short names of the other roles it is assigned to, and
    a hover title with their full names and the comments. */
module Description {

  import opened Optional
  import opened Records
  import opened KeyValueStore
  import Text

  /** `role?.name && task[type] !== roleId`: the field `t` of the task names
      an existing role with a non-empty name, other than the role `here`
      whose task list holds the element. */
  predicate Mentioned(roles: map<string, Role>, task: Task, t: string, here: string)
  {
    t in task.roles && task.roles[t] in roles && roles[task.roles[t]].name != "" && task.roles[t] != here
  }

  /** No entry of `s` appears twice. */
  predicate NoRepeats(s: seq<string>)
  {
    forall i, j :: 0 <= i < j < |s| ==> s[i] != s[j]
  }

  /** `types` is an order of the task's role fields, each listed once, as
      `Object.keys(task)` gives them. */
  predicate FieldOrder(types: seq<string>, task: Task)
  {
    && (forall t :: t in types ==> t in task.roles)
    && (forall t :: t in task.roles ==> t in types)
    && NoRepeats(types)
  }

  /** The fields the `flatMap` keeps, in the order of `types` (the order of
      the task object's keys). */
  function MentionedTypes(roles: map<string, Role>, task: Task, types: seq<string>, here: string): (ms: seq<string>)
    ensures |ms| <= |types|
    ensures forall t :: t in ms <==> t in types && Mentioned(roles, task, t, here)
  {
    if |types| == 0 then []
    else
      var rest := MentionedTypes(roles, task, types[1..], here);
      assert forall t :: t in types <==> t == types[0] || t in types[1..];
      if Mentioned(roles, task, types[0], here) then [types[0]] + rest else rest
  }

  /** Over fields listed once each, every kept field appears once, so each
      field contributes at most one name to the description. */
  lemma {:induction false} MentionedOnce(roles: map<string, Role>, task: Task, types: seq<string>, here: string)
    requires NoRepeats(types)
    ensures NoRepeats(MentionedTypes(roles, task, types, here))
  {
    if |types| > 0 {
      var rest := MentionedTypes(roles, task, types[1..], here);
      MentionedOnce(roles, task, types[1..], here);
      if Mentioned(roles, task, types[0], here) {
        assert MentionedTypes(roles, task, types, here) == [types[0]] + rest;
        assert types[0] !in types[1..];
        assert types[0] !in rest;
        var ms := [types[0]] + rest;
        forall i, j | 0 <= i < j < |ms| ensures ms[i] != ms[j] {
          if i == 0 {
            assert ms[j] == rest[j - 1] && rest[j - 1] in rest;
          } else {
            assert ms[i] == rest[i - 1] && ms[j] == rest[j - 1];
          }
        }
      } else {
        assert MentionedTypes(roles, task, types, here) == rest;
      }
    }
  }

  /** `r.nickname || r.name` */
  function ShortName(r: Role): string
  {
    if r.nickname.Some? && r.nickname.value != "" then r.nickname.value else r.name
  }

  /** The names of the mentioned roles, short or full. */
  function Names(roles: map<string, Role>, task: Task, ms: seq<string>, short: bool): (ns: seq<string>)
    requires forall t :: t in ms ==> t in task.roles && task.roles[t] in roles
    ensures |ns| == |ms|
  {
    seq(|ms|, i requires 0 <= i < |ms| =>
      var r := roles[task.roles[ms[i]]];
      if short then ShortName(r) else r.name)
  }

  /** The `.task-info` text: the short names joined by " + ". */
  function Info(roles: map<string, Role>, task: Task, types: seq<string>, here: string): string
  {
    Text.Join(Names(roles, task, MentionedTypes(roles, task, types, here), true), " + ")
  }

  /** The element's title: value, ": ", the full names joined by " + ", and
      the comments after a blank line when there are any. */
  function Title(roles: map<string, Role>, task: Task, types: seq<string>, here: string): string
  {
    Text.IntToText(task.value) + ": "
    + Text.Join(Names(roles, task, MentionedTypes(roles, task, types, here), false), " + ")
    + (if task.comments.Some? && task.comments.value != "" then "\n\n" + task.comments.value else "")
  }

  /** What one task element shows. */
  datatype Label = Label(valueText: string, info: string, title: string)

  function LabelOf(roles: map<string, Role>, task: Task, types: seq<string>, here: string): Label
  {
    Label(Text.IntToText(task.value), Info(roles, task, types, here), Title(roles, task, types, here))
  }

  /** `updateTask`: nothing for a missing task, otherwise one label per
      element of the task, each relative to the role whose list holds it.
      `types` is the order in which the task's fields are visited. */
  function UpdateTask(s: Store, taskId: int, types: seq<string>, elementRoles: seq<string>): (r: Option<seq<Label>>)
    reads s
    requires taskId in s.Tasks() ==> FieldOrder(types, s.Tasks()[taskId])
    ensures r.None? <==> taskId !in s.Tasks()
    ensures r.Some? ==> |r.value| == |elementRoles|
    ensures r.Some? ==> forall i :: 0 <= i < |elementRoles| ==>
      r.value[i].valueText == Text.IntToText(s.Tasks()[taskId].value)
    ensures r.Some? ==> forall i :: 0 <= i < |elementRoles| ==>
      r.value[i].info == Info(s.Roles(), s.Tasks()[taskId], types, elementRoles[i])
    ensures r.Some? ==> forall i :: 0 <= i < |elementRoles| ==>
      var task := s.Tasks()[taskId];
      var kept := MentionedTypes(s.Roles(), task, types, elementRoles[i]);
      r.value[i].title
        == Text.IntToText(task.value) + ": " + Text.Join(Names(s.Roles(), task, kept, false), " + ")
           + (if task.comments.Some? && task.comments.value != "" then "\n\n" + task.comments.value else "")
  {
    match s.GetTask(taskId)
    case None => None
    case Some(task) =>
      var roles := RolesOf(s.data);
      Some(seq(|elementRoles|, i requires 0 <= i < |elementRoles| =>
        LabelOf(roles, task, types, elementRoles[i])))
  }

  lemma JoinEmpty(parts: seq<string>, sep: string)
    requires forall i :: 0 <= i < |parts| ==> parts[i] != ""
    ensures Text.Join(parts, sep) == "" <==> |parts| == 0
  {
    if |parts| > 1 {
      assert |Text.Join(parts, sep)| >= |parts[0]|;
    }
  }

  /** The "empty description" warning: the info text is empty exactly when no
      field of the task names an existing, named role other than the one
      holding the element. */
  lemma EmptyInfo(roles: map<string, Role>, task: Task, types: seq<string>, here: string)
    requires FieldOrder(types, task)
    ensures Info(roles, task, types, here) == ""
        <==> forall t :: t in task.roles ==> !Mentioned(roles, task, t, here)
  {
    var ms := MentionedTypes(roles, task, types, here);
    var ns := Names(roles, task, ms, true);
    forall i | 0 <= i < |ns| ensures ns[i] != "" {
      assert ms[i] in ms;
    }
    JoinEmpty(ns, " + ");
    if |ms| > 0 {
      assert ms[0] in ms;
    }
  }

  /** The role holding the element is never part of its description, and a
      field naming a missing or unnamed role is skipped. */
  lemma SkippedFields(roles: map<string, Role>, task: Task, types: seq<string>, here: string, t: string)
    requires t in task.roles
    requires task.roles[t] == here || task.roles[t] !in roles || roles[task.roles[t]].name == ""
    ensures t !in MentionedTypes(roles, task, types, here)
  {
  }

  lemma NoColonInDecimal(n: nat)
    ensures ':' !in Text.NatToDecimal(n)
  {
    var s := Text.NatToDecimal(n);
    forall i | 0 <= i < |s| ensures s[i] != ':' {
      assert Text.IsDigit(s[i]);
    }
  }

  /** The title begins with the task's value: everything before its first
      ':' is the value's decimal text. */
  lemma TitleStartsWithValue(roles: map<string, Role>, task: Task, types: seq<string>, here: string)
    ensures Text.Before(Title(roles, task, types, here), ':') == Text.IntToText(task.value)
  {
    var v := Text.IntToText(task.value);
    if task.value < 0 {
      NoColonInDecimal(-task.value);
      assert v == "-" + Text.NatToDecimal(-task.value);
    } else {
      NoColonInDecimal(task.value);
    }
    var rest := Title(roles, task, types, here)[|v| + 1..];
    assert Title(roles, task, types, here) == v + [':'] + rest;
    Text.BeforeAfterJoin(v, rest, ':');
  }
}
