/** Moving a task to another role by drag and drop (scheduler.js:383-472):
    the drag session `DRAG_DROP_DATA`, the placeholder that marks where the
    task would land (`movePlaceholder`), and the drop that rewrites one field
    of the task record. */
module DragDrop {

  import opened Optional
  import opened Records
  import opened Keys
  import opened KeyValueStore
  import Loads

  /** An element of a task list: a task, the task being dragged (the one
      with class "dragged"), or the placeholder. */
  datatype Child = TaskItem(taskId: int) | Dragged(taskId: int) | Placeholder

  /** The horizontal extent of an element on screen. */
  datatype Rect = Rect(left: int, right: int)

  function PlaceholderCount(cs: seq<Child>): nat
  {
    multiset(cs)[Placeholder]
  }

  /** `querySelector(".placeholder")` within one list: the first
      placeholder. */
  function FirstPlaceholder(cs: seq<Child>): (r: Option<nat>)
    ensures r.Some? ==> r.value < |cs| && cs[r.value] == Placeholder
    ensures r.Some? ==> forall k :: 0 <= k < r.value ==> cs[k] != Placeholder
    ensures r.None? <==> Placeholder !in cs
  {
    if |cs| == 0 then None
    else if cs[0] == Placeholder then Some(0)
    else match FirstPlaceholder(cs[1..])
      case None => None
      case Some(p) => Some(p + 1)
  }

  /** The first item of a list with class "dragged". */
  function FirstDragged(cs: seq<Child>): (r: Option<nat>)
    ensures r.Some? ==> r.value < |cs| && cs[r.value].Dragged?
    ensures r.None? <==> forall k :: 0 <= k < |cs| ==> !cs[k].Dragged?
  {
    if |cs| == 0 then None
    else if cs[0].Dragged? then Some(0)
    else match FirstDragged(cs[1..])
      case None => None
      case Some(p) => Some(p + 1)
  }

  /** The first element whose right edge is at or right of the pointer. */
  function FirstAtOrPast(rects: seq<Rect>, x: int): (r: Option<nat>)
    ensures r.Some? ==> r.value < |rects| && x <= rects[r.value].right
    ensures r.Some? ==> forall k :: 0 <= k < r.value ==> x > rects[k].right
    ensures r.None? <==> forall k :: 0 <= k < |rects| ==> x > rects[k].right
  {
    if |rects| == 0 then None
    else if x <= rects[0].right then Some(0)
    else match FirstAtOrPast(rects[1..], x)
      case None => None
      case Some(p) => Some(p + 1)
  }

  /** The first element ending at or right of the pointer is the one the
      walk stops at. */
  lemma {:induction false} FirstAtOrPastAt(rects: seq<Rect>, x: int, i: nat)
    requires i < |rects| && x <= rects[i].right
    requires forall k :: 0 <= k < i ==> x > rects[k].right
    ensures FirstAtOrPast(rects, x) == Some(i)
  {
    if i > 0 {
      assert x > rects[0].right;
      forall k | 0 <= k < i - 1 ensures x > rects[1..][k].right {
        assert rects[1..][k] == rects[k + 1];
      }
      FirstAtOrPastAt(rects[1..], x, i - 1);
    }
  }

  function RemoveAt(cs: seq<Child>, i: nat): seq<Child>
    requires i < |cs|
  {
    cs[..i] + cs[i + 1..]
  }

  function InsertAt(cs: seq<Child>, i: nat, c: Child): seq<Child>
    requires i <= |cs|
  {
    cs[..i] + [c] + cs[i..]
  }

  /** `placeholderElem?.remove()` */
  function Unplaced(cs: seq<Child>): (r: seq<Child>)
    ensures |r| == if FirstPlaceholder(cs).Some? then |cs| - 1 else |cs|
  {
    match FirstPlaceholder(cs)
    case None => cs
    case Some(p) => RemoveAt(cs, p)
  }

  /** `rect.left <= x && x <= rect.right` */
  predicate Inside(r: Rect, x: int)
  {
    r.left <= x <= r.right
  }

  /** Puts the placeholder at position `j` of a list without one, unless
      that would put it right before or right after the dragged task. */
  function PutAt(rest: seq<Child>, j: nat): seq<Child>
    requires j <= |rest|
  {
    if (j < |rest| && rest[j].Dragged?) || (j > 0 && rest[j - 1].Dragged?) then rest
    else InsertAt(rest, j, Placeholder)
  }

  /** The position, in the list without its placeholder, of the element
      found at `i` in the list with it. */
  function Shifted(p: Option<nat>, i: nat): nat
  {
    if p.Some? && p.value < i then i - 1 else i
  }

  /** What `movePlaceholder` does to the destination list, given the on-screen
      extent of each element, the pointer position and whether a drag
      selector is set. */
  function MovePlaceholderSpec(cs: seq<Child>, rects: seq<Rect>, x: int, hasSelector: bool): seq<Child>
    requires |rects| == |cs|
  {
    if !hasSelector then cs
    else
      var p := FirstPlaceholder(cs);
      if p.Some? && Inside(rects[p.value], x) then cs
      else match FirstAtOrPast(rects, x)
        case Some(i) => if p == Some(i) then cs else PutAt(Unplaced(cs), Shifted(p, i))
        case None => PutAt(Unplaced(cs), |Unplaced(cs)|)
  }

  /** Either the list stays as it is, or its placeholder is taken out and
      put back at some position. */
  lemma MoveShape(cs: seq<Child>, rects: seq<Rect>, x: int, hasSelector: bool) returns (j: nat)
    requires |rects| == |cs|
    ensures var r := MovePlaceholderSpec(cs, rects, x, hasSelector);
      r == cs || (j <= |Unplaced(cs)| && r == PutAt(Unplaced(cs), j))
  {
    var p := FirstPlaceholder(cs);
    match FirstAtOrPast(rects, x)
    case Some(i) =>
      j := Shifted(p, i);
    case None =>
      j := |Unplaced(cs)|;
  }

  lemma UnplacedCount(cs: seq<Child>)
    ensures PlaceholderCount(Unplaced(cs)) == if PlaceholderCount(cs) == 0 then 0 else PlaceholderCount(cs) - 1
  {
    match FirstPlaceholder(cs)
    case None =>
    case Some(p) =>
      assert cs == cs[..p] + [cs[p]] + cs[p + 1..];
  }

  lemma PutAtCount(rest: seq<Child>, j: nat)
    requires j <= |rest| && PlaceholderCount(rest) == 0
    ensures PlaceholderCount(PutAt(rest, j)) <= 1
  {
    assert rest == rest[..j] + rest[j..];
  }

  /** Starting from at most one placeholder, `movePlaceholder` leaves at most
      one. */
  lemma MoveKeepsOnePlaceholder(cs: seq<Child>, rects: seq<Rect>, x: int, hasSelector: bool)
    requires |rects| == |cs| && PlaceholderCount(cs) <= 1
    ensures PlaceholderCount(MovePlaceholderSpec(cs, rects, x, hasSelector)) <= 1
  {
    var j := MoveShape(cs, rects, x, hasSelector);
    UnplacedCount(cs);
    if MovePlaceholderSpec(cs, rects, x, hasSelector) != cs {
      PutAtCount(Unplaced(cs), j);
    }
  }

  lemma PutAtNotBeside(rest: seq<Child>, j: nat, q: nat)
    requires j <= |rest| && PlaceholderCount(rest) == 0
    requires PutAt(rest, j) != rest && q < |PutAt(rest, j)| && PutAt(rest, j)[q] == Placeholder
    ensures q == 0 || !PutAt(rest, j)[q - 1].Dragged?
    ensures q + 1 == |PutAt(rest, j)| || !PutAt(rest, j)[q + 1].Dragged?
  {
    var r := PutAt(rest, j);
    assert Placeholder !in rest by {
      assert multiset(rest)[Placeholder] == 0;
    }
    assert r == rest[..j] + [Placeholder] + rest[j..];
  }

  /** When `movePlaceholder` changes the list, the placeholder it leaves is
      neither right before nor right after the dragged task. */
  lemma MoveNeverBesideDragged(cs: seq<Child>, rects: seq<Rect>, x: int, hasSelector: bool, q: nat)
    requires |rects| == |cs| && PlaceholderCount(cs) <= 1
    requires MovePlaceholderSpec(cs, rects, x, hasSelector) != cs
    requires q < |MovePlaceholderSpec(cs, rects, x, hasSelector)|
    requires MovePlaceholderSpec(cs, rects, x, hasSelector)[q] == Placeholder
    ensures q == 0 || !MovePlaceholderSpec(cs, rects, x, hasSelector)[q - 1].Dragged?
    ensures q + 1 == |MovePlaceholderSpec(cs, rects, x, hasSelector)|
         || !MovePlaceholderSpec(cs, rects, x, hasSelector)[q + 1].Dragged?
  {
    var j := MoveShape(cs, rects, x, hasSelector);
    UnplacedCount(cs);
    var rest := Unplaced(cs);
    if PutAt(rest, j) != rest {
      PutAtNotBeside(rest, j, q);
    }
  }

  /** A list without its placeholders. */
  function Strip(cs: seq<Child>): seq<Child>
  {
    if |cs| == 0 then []
    else (if cs[0] == Placeholder then [] else [cs[0]]) + Strip(cs[1..])
  }

  lemma {:induction false} StripConcat(a: seq<Child>, b: seq<Child>)
    ensures Strip(a + b) == Strip(a) + Strip(b)
  {
    if |a| > 0 {
      assert (a + b)[1..] == a[1..] + b;
      StripConcat(a[1..], b);
    } else {
      assert a + b == b;
    }
  }

  lemma StripUnplaced(cs: seq<Child>)
    ensures Strip(Unplaced(cs)) == Strip(cs)
  {
    match FirstPlaceholder(cs)
    case None =>
    case Some(p) =>
      assert cs == cs[..p] + ([cs[p]] + cs[p + 1..]);
      StripConcat(cs[..p], [cs[p]] + cs[p + 1..]);
      StripConcat([cs[p]], cs[p + 1..]);
      StripConcat(cs[..p], cs[p + 1..]);
  }

  lemma PutAtStrip(rest: seq<Child>, j: nat)
    requires j <= |rest|
    ensures Strip(PutAt(rest, j)) == Strip(rest)
  {
    assert rest == rest[..j] + rest[j..];
    StripConcat(rest[..j] + [Placeholder], rest[j..]);
    StripConcat(rest[..j], [Placeholder]);
    StripConcat(rest[..j], rest[j..]);
  }

  /** `movePlaceholder` moves only the placeholder: the tasks keep their
      order. */
  lemma MoveKeepsTaskOrder(cs: seq<Child>, rects: seq<Rect>, x: int, hasSelector: bool)
    requires |rects| == |cs|
    ensures Strip(MovePlaceholderSpec(cs, rects, x, hasSelector)) == Strip(cs)
  {
    var j := MoveShape(cs, rects, x, hasSelector);
    if MovePlaceholderSpec(cs, rects, x, hasSelector) != cs {
      StripUnplaced(cs);
      PutAtStrip(Unplaced(cs), j);
    }
  }

  /** One task list (`.tasklist`) with its elements in order. */
  class TaskList {
    var children: seq<Child>

    constructor (initial: seq<Child>)
      ensures children == initial
    {
      children := initial;
    }

    /** `movePlaceholder`: walks the elements left to right until one ends
        at or right of the pointer, and puts the placeholder before it (or
        at the end), except next to the dragged task. */
    method MovePlaceholder(rects: seq<Rect>, x: int, hasSelector: bool)
      requires |rects| == |children|
      modifies this
      ensures children == MovePlaceholderSpec(old(children), rects, x, hasSelector)
    {
      if !hasSelector {
        return;
      }
      var p := FirstPlaceholder(children);
      if p.Some? && Inside(rects[p.value], x) {
        return;
      }
      var cs := children;
      var i := 0;
      while i < |cs|
        invariant 0 <= i <= |cs|
        invariant forall k :: 0 <= k < i ==> x > rects[k].right
      {
        if x <= rects[i].right {
          FirstAtOrPastAt(rects, x, i);
          if p == Some(i) {
            return;
          }
          children := PutAt(Unplaced(cs), Shifted(p, i));
          return;
        }
        i := i + 1;
      }
      children := PutAt(Unplaced(cs), |Unplaced(cs)|);
    }
  }

  /** The list operations of a drop: the dragged element leaves its list and
      takes the placeholder's place. */
  function Unplug(cs: seq<Child>): seq<Child>
  {
    match FirstDragged(cs)
    case None => cs
    case Some(g) => RemoveAt(cs, g)
  }

  function Place(cs: seq<Child>, taskId: int): seq<Child>
  {
    match FirstPlaceholder(cs)
    case None => cs
    case Some(p) => cs[p := Dragged(taskId)]
  }

  /** `task[type] = roleId` */
  function Dropped(t: Task, roleType: string, roleId: string): (r: Task)
    ensures AssignedTo(r, roleType, roleId)
    ensures r.value == t.value && r.comments == t.comments
    ensures forall other :: other != roleType ==> (other in r.roles <==> other in t.roles)
    ensures forall other :: other != roleType && other in t.roles ==> r.roles[other] == t.roles[other]
  {
    t.(roles := t.roles[roleType := roleId])
  }

  /** Moving a task from role `src` to role `dst` of the same type moves its
      value from the one load to the other. */
  lemma DropMovesLoad(tasks: map<int, Task>, id: int, roleType: string, src: string, dst: string)
    requires id in tasks && AssignedTo(tasks[id], roleType, src) && src != dst
    ensures Loads.Used(tasks[id := Dropped(tasks[id], roleType, dst)], roleType, src)
         == Loads.Used(tasks, roleType, src) - tasks[id].value
    ensures Loads.Used(tasks[id := Dropped(tasks[id], roleType, dst)], roleType, dst)
         == Loads.Used(tasks, roleType, dst) + tasks[id].value
  {
    Loads.UsedAfterPut(tasks, id, Dropped(tasks[id], roleType, dst), roleType, src);
    Loads.UsedAfterPut(tasks, id, Dropped(tasks[id], roleType, dst), roleType, dst);
  }

  /** The loads of all other roles stay as they were. */
  lemma DropKeepsOtherLoads(tasks: map<int, Task>, id: int, roleType: string, dst: string, otherType: string, otherId: string)
    requires id in tasks
    requires otherType != roleType || (otherId != dst && !AssignedTo(tasks[id], roleType, otherId))
    ensures Loads.Used(tasks[id := Dropped(tasks[id], roleType, dst)], otherType, otherId)
         == Loads.Used(tasks, otherType, otherId)
  {
    Loads.UsedAfterPut(tasks, id, Dropped(tasks[id], roleType, dst), otherType, otherId);
  }

  /** `DRAG_DROP_DATA`: the type of the role the dragged task came from and
      the selector of its task list; both null between drags. */
  class DragSession {
    var kind: Option<string>
    var selector: Option<string>

    constructor ()
      ensures kind == None && selector == None
    {
      kind := None;
      selector := None;
    }

    /** `dragstart` on the task element at position `i` of `list`. */
    method DragStart(list: TaskList, i: nat, roleType: string, tasklistSelector: string)
      requires i < |list.children| && list.children[i].TaskItem?
      modifies this, list
      ensures kind == Some(roleType) && selector == Some(tasklistSelector)
      ensures list.children == old(list.children)[i := Dragged(old(list.children)[i].taskId)]
    {
      list.children := list.children[i := Dragged(list.children[i].taskId)];
      kind := Some(roleType);
      selector := Some(tasklistSelector);
    }

    /** `dragend`: the element loses class "dragged"; the session stays as
        it is. */
    method DragEnd(list: TaskList)
      modifies list
      ensures match FirstDragged(old(list.children))
        case None => list.children == old(list.children)
        case Some(g) => list.children == old(list.children)[g := TaskItem(old(list.children)[g].taskId)]
    {
      match FirstDragged(list.children)
      case None =>
      case Some(g) =>
        list.children := list.children[g := TaskItem(list.children[g].taskId)];
    }

    /** `dragover` on a role of type `roleType`: only drags of the same type
        move the placeholder. */
    method DragOver(list: TaskList, rects: seq<Rect>, x: int, roleType: string)
      requires |rects| == |list.children|
      modifies list
      ensures kind != Some(roleType) ==> list.children == old(list.children)
      ensures kind == Some(roleType) ==> list.children == MovePlaceholderSpec(old(list.children), rects, x, selector.Some?)
    {
      if kind != Some(roleType) {
        return;
      }
      list.MovePlaceholder(rects, x, selector.Some?);
    }

    /** `dragleave`: moving into a child of the role is not leaving it;
        otherwise the placeholder goes. */
    method DragLeave(list: TaskList, intoChild: bool)
      modifies list
      ensures intoChild ==> list.children == old(list.children)
      ensures !intoChild ==> list.children == Unplaced(old(list.children))
    {
      if !intoChild {
        list.children := Unplaced(list.children);
      }
    }

    /** `drop` on role `roleId` of type `roleType`, whose list `dest` holds
        the placeholder; `src` is the list holding the dragged task (it may
        be `dest` itself). Without a placeholder or a dragged task nothing
        happens. Otherwise the dragged element takes the placeholder's place;
        if the task record exists, its field for `roleType` becomes `roleId`
        and the session is cleared, and if it does not, the handler fails
        there and neither the store nor the session change. */
    method Drop(store: Store, src: TaskList, dest: TaskList, roleType: string, roleId: string)
      modifies this, store, src, dest
      ensures FirstPlaceholder(old(dest.children)).None? || FirstDragged(old(src.children)).None? ==>
        && src.children == old(src.children) && dest.children == old(dest.children)
        && store.data == old(store.data) && kind == old(kind) && selector == old(selector)
      ensures FirstPlaceholder(old(dest.children)).Some? && FirstDragged(old(src.children)).Some? ==>
        var id := old(src.children)[FirstDragged(old(src.children)).value].taskId;
        && (src == dest ==> dest.children == Place(Unplug(old(src.children)), id))
        && (src != dest ==> src.children == Unplug(old(src.children)) && dest.children == Place(old(dest.children), id))
        && (id !in old(store.Tasks()) ==>
              store.data == old(store.data) && kind == old(kind) && selector == old(selector))
        && (id in old(store.Tasks()) ==>
              && store.data == old(store.data)[TaskKey(id) := TaskEntry(Dropped(old(store.Tasks())[id], roleType, roleId))]
              && kind == None && selector == None)
    {
      if FirstPlaceholder(dest.children).None? {
        return;
      }
      var g := FirstDragged(src.children);
      if g.None? {
        return;
      }
      var id := src.children[g.value].taskId;
      src.children := RemoveAt(src.children, g.value);
      dest.children := Place(dest.children, id);
      var task := store.GetTask(id);
      if task.None? {
        return;
      }
      store.UpdateTask(id, Dropped(task.value, roleType, roleId));
      kind := None;
      selector := None;
    }
  }
}
