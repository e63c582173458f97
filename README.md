# Resource planner scheduler — a Dafny model

This project models the core of `scheduler.js` from resource-planner. That is the browser page where roles (people, courses) hold tasks, and each task carries a value that counts towards a role's load. The model covers:

- **The store layer** (`db*`). A `KeyValueStore.Store` class holds a map from keys to records. Role records sit under `"#" + id` and task records under `":" + id`.
  - It enumerates role ids sorted by name and task ids in ascending order.
  - It allocates fresh task ids.
  - It replaces everything on import and takes a snapshot for export.
- **`cleanTasks`**, the renumbering of task ids before an export. It is modelled both as written and as evidently intended (`Compaction`).
- **Role loads and their display**: `updateRoles`, `displaySign` and the order in which `deleteTask` refreshes and deletes (`Display`).
- **The text of a task element**: `updateTask` (`Description`).
- **Drag and drop**: the session `DRAG_DROP_DATA`, the placeholder placement of `movePlaceholder`, and the drop that rewrites one field of a task (`DragDrop`).
- **The guarded writes of the dialogs**:
  - the role editor's change detection and delete guard;
  - the task editor's change detection and whole-record overwrite;
  - the resize rule of a task element;
  - the add-task dropdown (`Editors`, with the value grid in `Grid`).

Locale-aware name comparison (`localeCompare`) is a parameter `le` required to be a total preorder. Values are integers. `Math.round` is rounding half up, and `RoundDiv` states it.

Supporting modules:

- `Optional`: the `Option` type.
- `Records`: role and task records.
- `Settings`: the constants of `settings.js` that the core reads.
- `Text`: decimal text, `join`, and splitting at a character.
- `Keys`: the key scheme.
- `Sorting`: insertion sort by a preorder.
- `Loads`: the load sum.
- `Collections`: small map and set facts.

## Model

| member | source | states |
|---|---|---|
| Keys.DecodeKeyText | scheduler.js:546-582 | reading the stored text of a role, task or foreign key gives that key back, so "#" keys are roles, ":" keys are tasks and anything else is neither |
| Keys.KeyTextInjective | scheduler.js:562-605 | distinct keys are stored under distinct texts |
| KeyValueStore.SnapshotRoundTrip | scheduler.js:533-544 | importing a snapshot and exporting it again gives the same roles and tasks |
| KeyValueStore.DataRoundTrip | scheduler.js:533-544 | export followed by import keeps every role and task record and drops only foreign keys |
| KeyValueStore.OnlyRecordsRoundTrip | scheduler.js:533-544 | a store holding only role and task records is rebuilt exactly by importing its own export |
| KeyValueStore.PutRoleView | scheduler.js:567-569 | writing a role record changes that role and no task |
| KeyValueStore.RemoveRoleView | scheduler.js:571-573 | removing a role key removes that role only |
| KeyValueStore.PutTaskView | scheduler.js:599-601 | writing a task record changes that task and no role |
| KeyValueStore.RemoveTaskView | scheduler.js:603-605 | removing a task key removes that task only |
| KeyValueStore.MaxOf | scheduler.js:584-588 | `Math.max(0, ...ids)` is at least 0, at least every id, and is 0 or one of the ids |
| KeyValueStore.Store.constructor | scheduler.js:529-605 | a store starts with the given key-value map |
| KeyValueStore.Store.GetRole | scheduler.js:562-565 | a role is found exactly when its key is stored, and the record returned is the stored one |
| KeyValueStore.Store.HasRole | scheduler.js:558-560 | true exactly when a role record is stored under the id |
| KeyValueStore.Store.HasTask | scheduler.js:590-592 | true exactly when a task record is stored under the id |
| KeyValueStore.Store.GetTask | scheduler.js:594-597 | a task is found exactly when its key is stored, and the record returned is the stored one |
| KeyValueStore.Store.Clear | scheduler.js:529-531 | the store becomes empty |
| KeyValueStore.Store.UpdateRole | scheduler.js:567-569 | exactly the key "#" + id is overwritten with the whole record |
| KeyValueStore.Store.DeleteRole | scheduler.js:571-573 | exactly the key "#" + id is removed; an absent key changes nothing |
| KeyValueStore.Store.UpdateTask | scheduler.js:599-601 | exactly the key ":" + id is overwritten with the whole record |
| KeyValueStore.Store.DeleteTask | scheduler.js:603-605 | exactly the key ":" + id is removed; an absent key changes nothing |
| KeyValueStore.Store.RoleKeys | scheduler.js:548-554 | the walk over the stored keys collects each stored role id once, with that role's name |
| KeyValueStore.Store.RoleIds | scheduler.js:546-556 | the ids of exactly the stored roles, each once, ordered by role name |
| KeyValueStore.Store.TaskIds | scheduler.js:575-582 | the ids of exactly the stored tasks, strictly ascending |
| KeyValueStore.Store.CreateTask | scheduler.js:584-588 | the new id is at least 1, absent before, larger than every existing id, one more than the largest (or 1), and only that key is added |
| KeyValueStore.Store.PutRoles | scheduler.js:535 | whatever order the ids come in, every role record of the map is written over what was stored, and no other key changes |
| KeyValueStore.PutRolesView | scheduler.js:535 | after writing the records of a map of roles the roles are the old ones overridden by the map; tasks and foreign keys stay |
| KeyValueStore.Store.PutTasks | scheduler.js:536 | whatever order the ids come in, every task record of the map is written over what was stored, and no other key changes |
| KeyValueStore.PutTasksView | scheduler.js:536 | after writing the records of a map of tasks the tasks are the old ones overridden by the map; roles and foreign keys stay |
| KeyValueStore.Store.ReplaceAllData | scheduler.js:533-537 | afterwards the store holds exactly the snapshot's roles and tasks and nothing else |
| KeyValueStore.Store.ReadRoles | scheduler.js:541 | reading the role of every id of a list that names each stored role gives exactly the stored roles |
| KeyValueStore.Store.ReadTasks | scheduler.js:542 | reading the task of every id of a list that names each stored task gives exactly the stored tasks |
| KeyValueStore.Store.GetAllData | scheduler.js:539-544 | the snapshot holds exactly the stored roles and tasks |
| Sorting.Insert | scheduler.js:555 | inserting adds exactly that element |
| Sorting.InsertSorted | scheduler.js:555 | inserting into a sorted sequence keeps it sorted |
| Sorting.SortBy | scheduler.js:555 | the result is a sorted permutation of the input |
| Sorting.IntLe | scheduler.js:581 | the numeric comparator of task ids is a total preorder |
| Sorting.ByKey | scheduler.js:555 | comparing role ids by their names is a total preorder |
| Text.NatToDecimal | scheduler.js:505-507 | decimal text of a number: non-empty, digits only, no leading zero |
| Text.DecimalRoundTrip | scheduler.js:505-507 | decimal text reads back as the number it came from |
| Text.IntTextRoundTrip | scheduler.js:575-582 | the text of a task id read back with `parseInt` gives the id |
| Text.Before | scheduler.js:197 | the text before the first separator is a prefix without the separator, followed by the separator or the end |
| Text.After | scheduler.js:197 | there is text after a separator exactly when the separator occurs, and the text is before, separator and after |
| Text.BeforeAfterJoin | scheduler.js:197 | splitting a joined pair at the separator gives both parts back |
| Text.BeforeWithout | scheduler.js:197 | a text without the separator is all "before" |
| Loads.SumSeqIsSumSet | scheduler.js:21-25 | the loop over the sorted task ids adds up the same load as the sum over all tasks |
| Loads.UsedAfterPut | scheduler.js:21-25 | rewriting one task changes a role's load by the old record's contribution out and the new one's in |
| Loads.UsedAfterRemove | scheduler.js:21-25 | removing one task takes exactly its contribution off every load |
| Compaction.CompactedTasks | scheduler.js:104-117 | after the intended renumbering the task ids are exactly 0 .. n-1 and id j holds the task with the j-th smallest old id |
| Compaction.CompactedRoles | scheduler.js:104-117 | renumbering leaves the roles as they were |
| Compaction.CompactedIdempotent | scheduler.js:104-117 | tasks already numbered 0 .. n-1 are left as they are by the intended renumbering |
| Compaction.CleanAsWrittenCompacts | scheduler.js:113-116 | when the smallest old id is at least 1 the loop as written does renumber correctly |
| Compaction.CleanFromDeletesFixedIds | scheduler.js:113-116 | when every old id equals its index, the loop as written ends up deleting every task it visits |
| Compaction.AbsentStays | scheduler.js:113-116 | a task key below the rounds still to run that is missing stays missing, since each round writes only its own index |
| Compaction.FixedIdLostAt | scheduler.js:113-116 | the round for an old id equal to its index writes the record under that id and deletes it, and it stays deleted |
| Compaction.FixedIdLostFrom | scheduler.js:113-116 | whatever the other ids, an old id equal to its index loses its task in the loop as written |
| Compaction.ExportAfterDeletion | scheduler.js:113-116 | tasks under 0 and 2, as left by an export and a deletion, end as the second task alone under 1 |
| Compaction.StepRoles | scheduler.js:114-115 | one round of the loop as written leaves the role records alone |
| Compaction.CleanFromRoles | scheduler.js:113-116 | the loop as written leaves the role records alone |
| Compaction.RunStep | scheduler.js:114-115 | one round of the loop on the store: the record of the i-th old id is written under i and the old id deleted |
| Compaction.RunSteps | scheduler.js:113-116 | the loop on the store ends as the rounds, applied in order, leave it |
| Compaction.CleanAsWrittenDeletesCompactStore | scheduler.js:113-116 | a store whose task ids are already 0 .. n-1 loses all its tasks in the loop as written |
| Compaction.RenumberingOf | scheduler.js:106-109 | `oldToNewIds` maps the i-th old id to i and nothing else |
| Compaction.CleanTasksAsWritten | scheduler.js:104-117 | `cleanTasks` as written: the old ids are the stored task ids ascending, and the store ends as the write-then-delete loop leaves it |
| Compaction.CleanTasks | scheduler.js:104-117 | the corrected `cleanTasks`: the store ends with the roles and foreign keys unchanged and the tasks renumbered to 0 .. n-1 in old id order |
| Compaction.CompactedSnapshot | scheduler.js:80-84 | after the corrected renumbering the snapshot has the old roles and the tasks under 0 .. n-1, the j-th being the j-th smallest old id's |
| Compaction.CleanedSnapshot | scheduler.js:80-84 | after the loop as written the snapshot has the old roles; no task when the ids were 0 .. n-1; the corrected result when the smallest id is at least 1 |
| Compaction.ExportDataAsWritten | scheduler.js:80-84 | `exportData` as written: the store ends as `cleanTasks` as written leaves it and the snapshot is that store, with the old roles; a store numbered 0 .. n-1 exports no task |
| Compaction.ExportData | scheduler.js:80-84 | corrected: an export renumbers first; the snapshot has the old roles and the tasks under 0 .. n-1, the j-th being the j-th smallest old id's |
| Display.RoundDiv | scheduler.js:26 | `Math.round(p / q)` for q > 0: the integer within half of p / q, halves up |
| Display.UsedPercent | scheduler.js:26 | 0 for a target at most 0, else 100 * used / target rounded |
| Display.UsedPercentWithinTarget | scheduler.js:26 | a load within its target shows 0 to 100 percent |
| Display.UsedPercentEnds | scheduler.js:26 | exactly the target shows 100 and nothing shows 0 |
| Display.DisplaySign | scheduler.js:505-507 | "+" exactly above zero, an en dash exactly below, "±0" exactly at zero |
| Display.DisplaySignRoundTrip | scheduler.js:505-507 | the deviation text determines the deviation |
| Display.IdsCoverTasks | scheduler.js:22 | the ids `dbTaskIds` lists are exactly the stored tasks |
| Display.RoleLoad | scheduler.js:14-28 | one role element shows its target, its load (the sum over its assigned tasks), that percentage and that deviation; a role id with no record shows nothing |
| Display.UpdateRoles | scheduler.js:11-30 | each given role element, or every role element when none is given, shows what its records demand |
| Display.DeleteTaskAsWritten | scheduler.js:56-64 | as written: the task key goes, but the shown loads are those from before the deletion |
| Display.DeleteTask | scheduler.js:56-64 | corrected: the task key goes and the shown loads are those of the store without it |
| Display.LoadAfterDelete | scheduler.js:62-63 | a deletion lowers each load by exactly the deleted task's contribution |
| Display.DeleteAsWrittenShowsStaleLoad | scheduler.js:62-63 | for a role the task was assigned to, the load shown as written is the true load plus the task's value |
| Description.MentionedOnce | scheduler.js:39-42 | over fields listed once each, every kept field appears once in the description |
| Description.MentionedTypes | scheduler.js:39-42 | the kept fields are exactly the task's fields naming an existing, named role other than the element's own |
| Description.Names | scheduler.js:45-47 | one name per kept field |
| Description.UpdateTask | scheduler.js:33-53 | nothing for a missing task, otherwise one label per element: the value's text, the info built from that element's role over the task's own fields, and the title of value, ": ", the full names of the kept fields and the comments after a blank line |
| Description.JoinEmpty | scheduler.js:45 | joining non-empty names gives "" exactly when there are none |
| Description.EmptyInfo | scheduler.js:39-43 | visiting the task's own fields, the info text is empty exactly when no field of the task names an existing, named other role (the "empty description" warning) |
| Description.SkippedFields | scheduler.js:41 | the element's own role and missing or unnamed roles never appear in its description |
| Description.NoColonInDecimal | scheduler.js:47 | number text has no ':' |
| Description.TitleStartsWithValue | scheduler.js:46-49 | everything in the title before its first ':' is the task's value |
| DragDrop.FirstPlaceholder | scheduler.js:450 | the first placeholder of the list, or none exactly when there is none |
| DragDrop.FirstDragged | scheduler.js:418 | the first dragged element, or none exactly when there is none |
| DragDrop.FirstAtOrPast | scheduler.js:456-457 | the first element whose right edge is at or past the pointer, or none exactly when every element is left of it |
| DragDrop.Unplaced | scheduler.js:459 | removing the placeholder shortens the list by one exactly when there is one |
| DragDrop.MoveShape | scheduler.js:447-471 | `movePlaceholder` either leaves the list as it is or takes the placeholder out and inserts it again at one position (unless next to the dragged task) |
| DragDrop.UnplacedCount | scheduler.js:459 | removing the placeholder removes exactly one placeholder |
| DragDrop.PutAtCount | scheduler.js:462-471 | inserting into a list without a placeholder leaves at most one |
| DragDrop.MoveKeepsOnePlaceholder | scheduler.js:447-471 | with at most one placeholder before, there is at most one after |
| DragDrop.PutAtNotBeside | scheduler.js:460-471 | an inserted placeholder is never right before or right after the dragged task |
| DragDrop.MoveNeverBesideDragged | scheduler.js:456-471 | when `movePlaceholder` changes the list, the placeholder it leaves is not next to the dragged task |
| DragDrop.StripConcat | scheduler.js:456-471 | dropping placeholders distributes over concatenation |
| DragDrop.StripUnplaced | scheduler.js:459 | removing the placeholder leaves the tasks in order |
| DragDrop.PutAtStrip | scheduler.js:462-471 | inserting the placeholder leaves the tasks in order |
| DragDrop.MoveKeepsTaskOrder | scheduler.js:447-471 | `movePlaceholder` never reorders or loses tasks |
| DragDrop.TaskList.constructor | scheduler.js:456 | a task list starts with the given elements |
| DragDrop.TaskList.MovePlaceholder | scheduler.js:439-472 | the loop leaves the list as the placement function says: unchanged without a selector or with the pointer on the placeholder, otherwise the placeholder before the first element reaching the pointer, or at the end |
| DragDrop.Dropped | scheduler.js:429-430 | the dropped task is assigned to the target role in the dragged field; value, comments and every other field stay |
| DragDrop.DropMovesLoad | scheduler.js:429-433 | a drop moves the task's value from the old role's load to the new one's |
| DragDrop.DropKeepsOtherLoads | scheduler.js:429-433 | every other role's load stays |
| DragDrop.DragSession.constructor | scheduler.js:386 | the session starts with no type and no selector |
| DragDrop.DragSession.DragStart | scheduler.js:391-396 | the element becomes the dragged one and the session records the type and the list selector |
| DragDrop.DragSession.DragEnd | scheduler.js:398-400 | the dragged element becomes an ordinary task again; the session stays |
| DragDrop.DragSession.DragOver | scheduler.js:405-409 | only a drag of the same type moves the placeholder |
| DragDrop.DragSession.DragLeave | scheduler.js:410-415 | leaving for a child changes nothing; otherwise the placeholder goes |
| DragDrop.DragSession.Drop | scheduler.js:416-435 | without a placeholder nothing changes; otherwise the dragged element takes the placeholder's place, only the dragged field of the task is rewritten, and the session is cleared (a missing task record stops it before the write) |
| Editors.DeleteKeepsConsistent | scheduler.js:369-375 | removing a role leaves every task field naming an existing role of its type exactly when no task is assigned to the role, the case the guard lets through |
| Editors.PutRoleKeepsConsistent | scheduler.js:355-366 | writing a new role, or a role with its type unchanged as the editor does, keeps every task reference valid |
| Editors.PutTaskKeepsConsistent | scheduler.js:599-601 | writing a task whose fields name roles of their type keeps every reference valid |
| Editors.DropKeepsConsistent | scheduler.js:429-431 | a drop onto a role of the dragged field's type keeps every reference valid |
| Editors.RoleChanged | scheduler.js:364 | the field-by-field comparison finds a change exactly when the edited record differs from the stored one, and always for a new role |
| Editors.AnyTaskAssigned | scheduler.js:370 | true exactly when some stored task is assigned to the role through the role's type |
| Editors.HandleRoleEdits | scheduler.js:354-377 | "ok" writes the edited role exactly when it changed; "delete" is refused with no change while a task is assigned, and otherwise removes exactly the role key once confirmed |
| Editors.TaskChanged | scheduler.js:305 | a change found means the records differ; no change found means the form's fields agree with the task; when the form covers all the task's fields it finds a change exactly when they differ |
| Editors.HandleTaskEdits | scheduler.js:298-313 | "ok" overwrites the whole record with the form's exactly when a field changed; a confirmed "delete" removes exactly the task key and, as `deleteTask` is written, shows the loads the store had before the deletion |
| Editors.EditedTaskConsistent | scheduler.js:286-306 | a record written from the editor's selects names only roles of the selected types |
| Editors.TargetOf | scheduler.js:158 | the parsed number of the target field, and 0 for an empty or non-numeric field |
| Editors.RoleElement.constructor | scheduler.js:132-133 | a role element holds its id and the record read when it was created |
| Editors.RoleElement.ChangeTarget | scheduler.js:157-162 | the captured record takes the new target and is written whole under the role's key; the refreshed display shows the new target over the load from the unchanged tasks |
| Editors.TargetChangeKeepsOthers | scheduler.js:158-159 | a target change leaves every task and every other role as it was, and stores the captured record with the new value |
| Editors.TaskElement.constructor | scheduler.js:208-209 | a task element holds its id and the record read when it was created |
| Editors.TaskElement.ResizeAsWritten | scheduler.js:249-255 | as written: for a positive width with a new value, the captured record takes the value and is written whole; otherwise nothing changes |
| Editors.TaskElement.Resize | scheduler.js:249-255 | corrected: for a positive width with a new value, the stored record gets that value and nothing else changes; a deleted task stays deleted |
| Editors.DropThenResizeAsWritten | scheduler.js:250-255 | after a drop, a resize as written assigns the task back to the role it was dragged from |
| Editors.DropThenResize | scheduler.js:250-255 | with the corrected resize, a resize after a drop keeps the drop and sets only the value |
| Editors.SplitOptionRoundTrip | scheduler.js:189-197 | splitting an option value at ':' gives back its type and role id |
| Editors.OfferedIds | scheduler.js:186-191 | the listed roles are exactly those of the sorted ids whose group or type is the dropdown's group |
| Editors.AddTaskOptionsExact | scheduler.js:186-191 | a role has an option exactly when it is among the sorted ids and offered |
| Editors.OptionSuffix | scheduler.js:189 | equal option values come from equal types and ids |
| Editors.NewTaskValue | scheduler.js:195 | the group's configured value when there is one, otherwise the type's, or none; a configured value is positive |
| Editors.NewTask | scheduler.js:198 | the new task is assigned to this role and to the chosen one (unless it has this role's type), has exactly those fields, the configured value and no comments |
| Editors.AddTask | scheduler.js:196-199 | the new record is stored under a fresh id larger than every existing one, and nothing else changes |
| Editors.NewTaskEffect | scheduler.js:196-199 | a new task from an offered option adds its value to both roles' loads and keeps every reference valid |
| Grid.SnapToGrid | scheduler.js:520-523 | the nearest multiple of the snap delta, within half a step |
| Grid.SnapIdempotent | scheduler.js:520-523 | snapping a snapped value changes nothing |
| Grid.WidthToValue | scheduler.js:515-518 | the larger of the minimum and the snapped value: on the grid, never below the minimum, the snapped value when the raw one is at least the minimum and the minimum when it is below |
| Grid.WidthToValueIdempotent | scheduler.js:515-518 | converting a converted value again changes nothing |

## Left out

- DOM work is left out:
  - templates, `querySelector` paths and `newElem`;
  - classes and styles, including the slider width `usedPercent / 2` and the task widths;
  - `<details>` toggling and `scrollIntoView`;
  - the element building in `populateRolesAndTasks`, `populateRole` and `populateTask`. The handlers these install that write to the store are modelled: the target field of a role element (`Editors.RoleElement`) and the resize observer of a task element (`Editors.TaskElement`). The other handlers they install (drag and drop, the editors, alt-click on `<details>`) are modelled as the operations they call;
  - `console.warn` (only its condition, `Description.EmptyInfo`, is modelled).
- `confirm`, `alert` and `showModal` are left out. The dialog's answer and the user's confirmation are inputs (`DialogResult`, `confirmed`).
- File import and export are I/O and are left out: `FileReader`, `JSON.parse`/`stringify` and the data-URL download. `ReplaceAllData`, `ExportDataAsWritten` and `ExportData` take and give the parsed snapshot.
- `ResizeObserver` and the timer in `debounce` are event timing and are left out. Only what one resize callback does is modelled.
- `valueToWidth`, and the fractional power inside `widthToValue`, are floating point and are left out. The power is a function parameter giving an integer. `Grid` models the snapping and the minimum on integers, so a fraction lost before snapping is not modelled.
- `Math.random` role ids in `addNewRole` are not modelled. The id is a parameter of `HandleRoleEdits`.
- `localeCompare` is left out. The name order is a parameter required to be a total preorder.
- The iteration order of storage keys and of the object keys of a task is left out:
  - `RoleIds` walks the key set in an arbitrary order;
  - `Description.UpdateTask` takes the order of the task's fields as a parameter, required to list each of the task's role fields once (`FieldOrder`). The names in a description follow that order.
- `Object.keys(task)` also yields `value` and `comments`, whose values `dbGetRole` looks up as role ids. A role whose id equals a task's value or comments text is not modelled; such a role would be named in the description.
- `parseInt`/`parseFloat` of form fields are left out. Forms carry integers, so NaN values and fractional values are not modelled. Editors.TargetOf takes the target field already parsed, with none standing for NaN; how `parseInt` reads text such as "12.5" or "12abc" is not modelled.
- Editors.RoleElement.ChangeTarget does not model `totalElem.blur()` or writing the number back into the field, which are DOM work. Its captured record does not go stale the way a task element's does: every write of a role record by the role editor or by an import is followed by `populateRolesAndTasks`, which builds new role elements (scheduler.js:97, 366, 374).
- A ":" key whose rest is not canonical decimal text is not modelled, for example ":01". A role type named `value` or `comments` is not modelled either: a task's role fields are a separate map from its value and comments.
- `settings.js`: only `newTaskValue`, `minValue` and `snapDelta` are used. `newRoleValue` and `calculation` are never read by the core.
- Editors.AddTask: when neither the group nor the type has a configured value, the script stores a task without a value. The model stores 0 for it.
- DragDrop.TaskList.MovePlaceholder models one task list and assumes that the placeholder `roleElem.querySelector(".placeholder")` finds lies in it. A placeholder in another list of the same role is not modelled: unless the pointer is over it, the script takes it out of that list and inserts it into the named one. A missing list makes the script fail.
- DragDrop.DragSession.Drop assumes the destination list holds the document's placeholder. Otherwise `insertBefore` fails in the script.
- Editors.TaskElement gives each element its own `captured` record. In the script, `populateTask` creates one `task` object (scheduler.js:209) shared by the observers of all elements of that task, so a resize of one element also changes what its siblings write later. That aliasing is not modelled.
- The resize callback ends with `updateRoles` of the task's role elements on every call (scheduler.js:257). After `deleteTask` removes the elements, their observers may fire once more and refresh those roles from the store without the task, which would repair the loads `deleteTask` showed. Observer timing is not modelled, so this later refresh is left out.
- DragDrop.DragSession.Drop does not model the display refresh after the drop, which is `updateTask` and `updateRoles` of the two roles.
- Display.DeleteTaskAsWritten, Display.DeleteTask and Editors.HandleTaskEdits require at least one role element to refresh. The task editor that deletes is opened from an element of the task (scheduler.js:311), so there always is one. When `deleteTask` finds no element, the script's `updateRoles()` refreshes every role on the page; that case is not modelled.
- Display.RoleLoad returns None for a role element whose id has no record, where the script fails.
- Editors.HandleTaskEdits returns `TaskMissing` for a task with no record, where the script already fails when the editor opens.
- The renumbering of the task elements' `data-task-id` in `cleanTasks` is DOM work. Only the map `oldToNewIds` is modelled (`RenumberingOf`).
- The line in `populateAddTaskDropdown` that reads the other role and the floating-point `Math.round` of the deviation are not modelled separately. Values are integers, so that rounding is the identity.

## Findings

| source | as written | input that shows it | evidently intended | confidence | as-written member | corrected member |
|---|---|---|---|---|---|---|
| scheduler.js:113-116 | each old id's record is written under its new index and then the old id is deleted, so a task whose old id equals its index is written and immediately deleted | export a store whose task ids are 0 and 1, as after an earlier export or an import of exported data: both tasks are lost; with ids 0 and 2 the first task is lost | the tasks end under 0 .. n-1 in old id order with their records kept | not executed | Compaction.CleanTasksAsWritten, Compaction.ExportDataAsWritten, Compaction.CleanAsWrittenDeletesCompactStore, Compaction.FixedIdLostFrom, Compaction.ExportAfterDeletion | Compaction.CleanTasks, Compaction.ExportData, Compaction.CompactedTasks, Compaction.CompactedSnapshot |
| scheduler.js:62-63 | `updateRoles` runs before `dbDeleteTask`, so the refreshed loads still count the deleted task | delete a task of value 80 assigned to a role: the load that `deleteTask`'s own refresh shows for that role still counts the deleted 80 | the refreshed loads are those without the deleted task | not executed | Display.DeleteTaskAsWritten, Display.DeleteAsWrittenShowsStaleLoad | Display.DeleteTask, Display.LoadAfterDelete |
| scheduler.js:250-253 | the resize callback writes back the whole record object captured when the element was created, and a drop writes a fresh copy without updating that object | drag a task from role A to role B, then resize it: the record is assigned to A again | a resize changes only the stored record's value | not executed | Editors.TaskElement.ResizeAsWritten, Editors.DropThenResizeAsWritten | Editors.TaskElement.Resize, Editors.DropThenResize |
