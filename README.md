# Task manager core, modelled in Dafny

This project models the logic of a browser task manager. The application
keeps one in-memory list of tasks. Each task has a status (`todo`,
`in-progress` or `done`), an `order` inside its column, and optional
timestamps. The list is partitioned by *container*: a named board, with
`default` as the fallback for tasks that carry no container id. Two views
change the list:

- The **board** view has three columns. It supports drag-and-drop,
  Shift+arrow moves and a creation dialog.
- The **list** view has an active section and a completed section. The
  completed section is grouped into today / yesterday / last 7 days /
  last 30 days / older.

Both views share a case-insensitive search and an OR tag filter. A
**pomodoro timer** counts finished 25-minute runs per day.

The modules follow the program's files:

| module | file | models |
|---|---|---|
| `Wrappers`, `Text`, `Seqs` | `wrappers.dfy`, `text.dfy`, `seqs.dfy` | `Option`; `trim`, `toLowerCase`, `includes`, `padStart`; filtering, sorting and splicing of sequences |
| `State` | `state.dfy` | the task and container records, the status enum, and the `AppState` class holding the module-level variables that the handlers reassign |
| `Filters` | `filters.dfy` | `js/filters.js` |
| `Containers` | `containers.dfy` | `js/containers.js` |
| `Board` | `board.dfy` | the task handlers of `js/app.js`, plus the `Session` class for the dialog and selection variables |
| `Views` | `views.dfy` | the sort and grouping rules of `renderBoardView` and `renderListView`, `groupTasksByDate`, `getDateGroup` |
| `Format` | `format.dfy` | the pure formatters of `js/app.js` |
| `Pomodoro` | `pomodoro.dfy` | `js/pomodoro.js`, as the `Timer` class |

How the model represents things:

- **Handlers** that change the global state are methods on `AppState` and
  `Session` objects. Each one's `ensures` gives the new task list as a
  specification function of the old one (`Created`, `EditedList`,
  `MovedToColumn`, `Reordered`, `ToggledHold`, …). Lemmas then prove what
  the source promises about those functions.
- **Loops** in the source stay loops in the model: the push-down of a
  creation, the reorder loop, tag collection, grouping, pruning and icon
  counting.
- **Inputs from outside** are parameters: the clock (`now`), generated ids,
  DOM element order, the user's answer to `confirm`, and `isValidUrl`.
- **Times** are integer milliseconds. Days are integer day numbers.
  `tz` is a fixed local-time offset.
- **Tasks** are values. A handler that assigns a field of a task record
  replaces the task in the sequence.

## Model

| member | source | states |
|---|---|---|
| Text.TrimSpec | js/filters.js:9 | `trim` removes exactly the leading and trailing whitespace (the ECMAScript white space and line terminators, Unicode spaces such as U+00A0, U+3000 and U+FEFF included): the result is a slice of the input, with no space at either end, and it is empty iff the input is all whitespace |
| Text.TrimUnicodeSpaces | js/app.js:478-485 | a title of one no-break space trims to nothing, so the save is refused; Unicode spaces around a letter are stripped |
| Text.TrimIdempotent | js/containers.js:289 | trimming a trimmed name changes nothing |
| Text.LowerTrimCommute | js/filters.js:9 | lower-casing then trimming gives the same query as trimming then lower-casing |
| Text.Pad2 | js/app.js:1131 | `String(n).padStart(2, '0')` is all digits, at least two long, and reads back as `n` |
| Text.ParseNatToString | js/app.js:66 | the decimal rendering of a count reads back as the same count |
| Seqs.FilterIsSubsequence | js/filters.js:132-136 | `Array.filter` returns a subsequence of its input, in the input's order |
| Seqs.FilterCounts | js/containers.js:49-50 | `filter` keeps every copy of a passing element and no copy of a failing one |
| Seqs.FilterPermutation | js/app.js:1224-1236 | filtering a rearranged list gives a rearrangement of the filtered list |
| Seqs.FilterPartition | js/containers.js:82-83 | filtering by a test and by its negation splits the list, as a multiset, into two parts |
| Seqs.SortBy | js/app.js:156 | the comparator sort returns its input's elements (same multiset), ordered by the key |
| Seqs.MovedIsPermutation | js/containers.js:218-219 | the two `splice` calls permute the list, and taking the moved element back out gives the list without it |
| Seqs.MovedToSelf | js/containers.js:215 | moving an element onto its own index is the identity, matching the guard that returns early |
| Filters.FilterBySearch | js/filters.js:130-137 | an empty query returns the input; otherwise an item is kept iff its lower-cased title or notes contains the query |
| Filters.FilterByTags | js/filters.js:140-146 | no active filter returns the input; otherwise an item is kept iff one of its lower-cased tags is active, so untagged items are dropped |
| Filters.FiltersKeepOrder | js/filters.js:130-146 | both filters return subsequences of their input |
| Filters.FiltersCounts | js/filters.js:130-146 | search then tag filtering keeps every copy of an item that passes both, and nothing else |
| Filters.FiltersPermutation | js/filters.js:130-146 | filtering a rearranged list gives a rearrangement of the filtered list |
| Filters.FiltersKeepSorted | js/filters.js:130-146 | filtering after sorting (as both views do) keeps the list sorted |
| Filters.Toggled | js/filters.js:42-46 | the toggled set flips the membership of exactly that tag |
| Filters.ToggleTwice | js/filters.js:41-49 | toggling the same tag twice restores the filter set |
| Filters.HandleSearchInput | js/filters.js:6-12 | the stored query is the input lower-cased and trimmed; nothing else changes |
| Filters.NormalisedQuery | js/filters.js:9 | the stored query is already trimmed and lower-case, so normalising it again is a no-op |
| Filters.ClearSearch | js/filters.js:15-19 | the query becomes empty; nothing else changes |
| Filters.ToggleTagFilter | js/filters.js:41-49 | the active set becomes the toggled set; nothing else changes |
| Filters.ClearAllTagFilters | js/filters.js:52-56 | the active set becomes empty; nothing else changes |
| Containers.ContainerItems | js/containers.js:48-51 | keeps exactly the tasks whose container id is the current one, plus the tasks without one when the current id is `default` |
| Containers.ContainerItemsCounts | js/containers.js:49-50 | the container's items hold every copy of a task of the container and no other task |
| Containers.ContainerItemsExclusive | js/containers.js:49-50 | a task with a different non-empty container id is never shown; a task without an id is shown only in `default` |
| Containers.TagSetMembers | js/containers.js:29-33 | a tag is in the rebuilt set iff some item carries it (lower-cased for `allListTags`) |
| Containers.CollectTags | js/containers.js:29-33 | the nested `forEach` loop builds exactly that tag set |
| Containers.FindContainer | js/containers.js:22 | `containers.find` by id: absent iff no container has the id, otherwise the first index with it |
| Containers.GetCurrentContainer | js/containers.js:43-45 | the container with the current id, or the first container when that id is unknown |
| Containers.LoadedContainers | js/containers.js:11-19 | the saved list when present; an empty list is seeded with `default` / `My Tasks` |
| Containers.LoadedCurrentId | js/containers.js:21-26 | the saved id when it names a container, otherwise the first container's id; either way an existing container |
| Containers.LoadContainers | js/containers.js:10-35 | sets the containers, the current id and the lower-cased tag set of the current container's items |
| Containers.LoadedCurrentIsFound | js/containers.js:16-26 | after loading, the current container always exists |
| Containers.SwitchContainer | js/containers.js:238-257 | sets the current id, clears the tag filters and the query, and rebuilds `allListTags` from the new container's items |
| Containers.CreateNewContainer | js/containers.js:286-301 | an empty trimmed name changes nothing; otherwise one container is appended and becomes current |
| Containers.Renamed | js/containers.js:321-326 | the name changes iff the trimmed input is non-empty and differs from the old name; the id never changes |
| Containers.SaveName | js/containers.js:320-329 | only the named container is renamed, by that rule |
| Containers.RenameKeepsIds | js/containers.js:323 | a rename keeps the set of container ids |
| Containers.HandleContainerDrop | js/containers.js:210-225 | no drag or a drop on itself changes nothing; otherwise the container is moved to the target index |
| Containers.DeleteContainer | js/containers.js:348-374 | `default`, unknown ids and a refused prompt change nothing; otherwise that container and exactly its tasks go, and a deleted current container switches to `default` |
| Containers.DeleteRemovesExactly | js/containers.js:359 | the kept and the removed tasks together are the old task list (as a multiset) |
| Containers.BoardCount | js/containers.js:77-85 | done count ≤ total; the total is the number of container items, and the done count is the number of those that are done |
| Containers.BoardCountSplits | js/containers.js:82-83 | done plus not-done items is the total |
| Board.FindTask | js/app.js:455 | `tasks.findIndex` by id: none iff no task has the id, otherwise the first index with it |
| Board.SelectedTask | js/app.js:551-553 | the selected task, looked up by the selected id |
| Board.WithStatus | js/app.js:371-381 | entering `done` sets `completedAt` to now, leaving `done` clears it, anything else keeps it, so "done ⇔ completedAt present" is preserved |
| Board.MovedToColumn | js/app.js:371-385 | a cross-column move changes only the moved task, giving it the new status under the completion rule |
| Board.MovedToColumnOrder | js/app.js:384-385 | the moved task's order is the number of other current-container tasks in the destination column, counted before or after the move |
| Board.MovedToColumnConsistent | js/app.js:371-385 | a cross-column move keeps "done ⇔ completedAt present" for every task |
| Board.ToggledComplete | js/app.js:1540-1546 | the checkbox sends a done task to todo without `completedAt`, and any other task to done with `completedAt = now` |
| Board.ToggleCompleteTwice | js/app.js:1537-1550 | checking and unchecking a todo task restores it |
| Board.ToggledHold | js/app.js:1151-1154 | only `onHold` of the first task with the id flips |
| Board.ToggleHoldTwice | js/app.js:1151-1161 | toggling hold twice restores the task list |
| Board.PushedDown | js/app.js:497-502 | every task in the current container (in the given column, or in any column for the list view) gets order + 1; the others are unchanged |
| Board.NewTask | js/app.js:504-514 | the new task has order 0, the given status, the current container id and no timestamps other than `createdAt` |
| Board.Created | js/app.js:497-517 | a creation pushes the container's tasks down and appends the new task |
| Board.CreatedConsistent | js/app.js:497-517 | a creation keeps "done ⇔ completedAt present" iff the new task satisfies it |
| Board.Edited | js/app.js:487-495 | an edit changes only title, url, notes and tags |
| Board.EditedList | js/app.js:487-495 | only the first task with the id is edited |
| Board.EditedKeepsStructure | js/app.js:487-495 | an edit keeps every status, order and container id, and the completion invariant |
| Board.Reordered | js/app.js:170-179 | the positional reorder keeps the ids at their positions |
| Board.ReorderedPointwise | js/app.js:172-178 | each task gets the index of the last element carrying its id; ids not found are skipped |
| Board.ReorderedAtSnoc | js/app.js:172-178 | one more element in the list gives its task the element's index and leaves every other position as the shorter list left it |
| Board.ReorderedAtAgain | js/app.js:170-179 | a position already reordered by a list of ids is unchanged by a second pass over the same ids |
| Board.ReorderIdempotent | js/app.js:170-179 | applying the same positional reorder twice gives the same list as applying it once |
| Board.ReorderOnlyOrders | js/app.js:1831-1837 | a reorder changes only orders; a task whose id is not listed is unchanged |
| Board.ColumnTasksInOrder | js/app.js:556-565 | with no column name the list is empty; every index found is a task |
| Board.IndexInColumn | js/app.js:630 | `findIndex` in a column: the first position with the id, or -1 when none has it |
| Board.SwapOrders | js/app.js:632-636 | the swap exchanges the two orders and changes nothing else |
| Board.SwapTwice | js/app.js:632-636 | swapping twice restores the list |
| Board.SwapPermutesOrders | js/app.js:632-636 | a swap permutes the multiset of orders |
| Board.VerticalMoveAsWrittenNoOp | js/app.js:625-661 | as written (`task.column`), moving up or down leaves the task list unchanged |
| Board.VerticalMoveSwapsNeighbours | js/app.js:625-661 | the intended move keeps ids and all fields but orders, permutes the orders, and never moves a done task |
| Board.WithTag | js/app.js:1095-1101 | a non-empty tag is present after adding; old tags stay; no other tag appears; no duplicates are introduced |
| Board.WithoutTag | js/app.js:1630-1633 | the tag is gone and every other tag stays |
| Board.AddThenRemoveTag | js/app.js:1618-1633 | adding a new tag and then removing it restores the list |
| Board.ListTag | js/app.js:1619 | a list tag is stored trimmed and lower-cased |
| Board.LeftOf | js/app.js:667 | Shift+Left goes to another of the three columns |
| Board.RightOf | js/app.js:692 | Shift+Right goes to another of the three columns |
| Board.LeftRightInverse | js/app.js:663-711 | going left then right, or right then left, returns to the same column |
| Board.TasksWithoutId | js/app.js:1700 | after the list deletion no task has the id, and every task with another id stays |
| Board.TasksWithoutIdCounts | js/app.js:1700 | the list deletion keeps every copy of each task with another id and no copy with the id |
| Seqs.RemoveAtMultiset | js/app.js:456-458 | `splice(i, 1)` takes out exactly the element at `i` and keeps every other one |
| Board.RemoveFirstExactlyOne | js/app.js:456-458 | `splice(index, 1)` removes exactly one task, the first with the id |
| Board.Session.constructor | js/app.js:4-15 | the dialogs start closed and nothing is selected |
| Board.OpenTaskModal | js/app.js:399-410 | a fresh creation dialog for the given column, with no tags; every other session field, `allTags` and the list selection included, is unchanged |
| Board.EditTaskById | js/app.js:437-452 | an unknown id changes nothing; otherwise the dialog edits that task, with a copy of its tags; every other session field, `allTags` and the list selection included, is unchanged |
| Board.ResetListModal | js/app.js:1659-1678 | opening or closing the list dialog clears the edited id and the tags; every other session field is unchanged |
| Board.EditListItem | js/app.js:1681-1695 | an unknown id changes nothing; otherwise the list dialog edits that task, with a copy of its tags; every other session field is unchanged |
| Board.PushDown | js/app.js:497-502 | the `forEach` loop computes `PushedDown` |
| Board.InsertOnTop | js/app.js:497-517 | the task list becomes `Created`; nothing else changes |
| Board.SaveTask | js/app.js:477-523 | an empty trimmed title is refused with no change; an open edit edits; otherwise the column is pushed down and a new task at order 0 is added |
| Board.SaveListItem | js/app.js:1720-1769 | an empty title or an invalid non-empty url is refused with no change; otherwise it edits, or pushes down every task of the container and adds a `todo` task at order 0; the board dialog, the selections and `allTags` are unchanged, and so is every other app-state field |
| Board.UpdateTaskOrder | js/app.js:170-179 | the reorder loop computes `Reordered` |
| Board.HandleListDrop | js/app.js:1824-1840 | the list drop reorders by element position |
| Board.HandleDrop | js/app.js:360-396 | an unknown id changes nothing; a cross-column drop is a `MovedToColumn`; a same-column drop reorders, except onto `done`, where no order changes |
| Board.MoveTaskUp | js/app.js:625-642 | the intended move up (the column looked up by status); when it swaps, the reselection sets the selected column to the task's status if the board shows the task, and no other selection or dialog field changes |
| Board.MoveTaskDown | js/app.js:644-661 | the intended move down, with the same reselection |
| Board.SelectTask | js/app.js:526-542 | the id becomes the selection, so `getSelectedTask` finds the first task with it; the selected column becomes that task's status column exactly when its element is on the page and a task has the id |
| Board.ClearSelection | js/app.js:544-549 | the selected id becomes null; the selected column and the dialogs are kept |
| Board.NavigateUp | js/app.js:568-584 | an empty selected column changes nothing; otherwise the task above the selection (the top one when nothing is selected, round from the top to the bottom) is selected and its status column becomes the selected column |
| Board.NavigateDown | js/app.js:586-602 | the same with the task below the selection, round from the bottom to the top |
| Board.NavigateUpDownInverse | js/app.js:568-602 | in a column of distinct ids, a step down undoes a step up and a step up undoes a step down, round the ends included |
| Board.NavigateSideways | js/app.js:604-622 | the selected column moves one step left or right round the ends; its top task is selected (its status column becomes the selected column), or the selection is cleared when the column shows no task |
| Board.MoveTaskUpAsWritten | js/app.js:625-642 | as written, the task list is unchanged |
| Board.MoveTaskDownAsWritten | js/app.js:644-661 | as written, the task list is unchanged |
| Board.MoveTaskSideways | js/app.js:663-711 | with no selected task nothing changes; otherwise the task moves to the column left or right of the selection, as `MovedToColumn`; no other session or app-state field changes |
| Board.ToggleHold | js/app.js:1151-1161 | the task list becomes `ToggledHold`; when the held task is the selected one and the board shows it, the selected column becomes its status column, and otherwise the selection is kept |
| Board.ToggleListItemOnHold | js/app.js:1710-1717 | the same change as `toggleHold` |
| Board.ToggleListItemComplete | js/app.js:1537-1550 | the first task with the id is toggled complete, and the completion invariant is kept |
| Board.DeleteTaskById | js/app.js:454-463 | a refused prompt or an unknown id changes nothing; otherwise exactly the first task with the id is removed |
| Board.DeleteTaskByIdFromButton | js/app.js:470-475 | the selection of that id is cleared first, and then the task is deleted as above; no other session or app-state field changes |
| Board.DeleteListItem | js/app.js:1698-1707 | on confirmation every task with the id is removed, and a matching selection is cleared; no other session or app-state field changes |
| Board.AddTag | js/app.js:1095-1101 | the board dialog's tags become `WithTag`; no other session field changes |
| Board.RemoveTag | js/app.js:1103-1107 | the tag at the index is removed; no other session field changes |
| Board.AddListTag | js/app.js:1618-1627 | the normalised tag is added to the dialog, and to `allListTags` when it is new and non-empty; no other session or app-state field changes |
| Board.RemoveListTag | js/app.js:1630-1633 | every copy of the tag is removed from the dialog; no other session field changes |
| Board.CollectAllTags | js/app.js:18-25 | the board tag set is the tags, as typed, of the current container's items; no other session field changes |
| Views.LocalDayMonotone | js/app.js:1379 | a later instant never falls on an earlier local day |
| Views.InColumn | js/app.js:129 | keeps exactly the items with the column's status |
| Views.InColumnCounts | js/app.js:129 | every copy of an item with the status is kept, and no other |
| Views.BoardColumn | js/app.js:119-156 | a todo or in-progress column holds exactly the visible items of that status, sorted by `order` |
| Views.DoneColumn | js/app.js:131-148 | the done column holds exactly the visible done items, most recent (`completedAt`, else `createdAt`) first |
| Views.DoneColumnDaysDescend | js/app.js:133-136 | in the done column, the completion days never increase down the list, as the date groups are sorted newest first |
| Views.VisibleColumnMember | js/app.js:119-129 | a task shown in a column is in the current container and has that status |
| Views.VisibleColumnHas | js/app.js:119-129 | a container task that passes both filters is shown in its status's column |
| Views.CreatedPushesColumn | js/app.js:497-502 | after a creation, every other task of the new task's column in that container has order ≥ 1 |
| Views.CreatedOnTop | js/app.js:497-517 | when existing orders are non-negative and the new task passes the filters, it is shown first in its column |
| Views.WithKey | js/app.js:199-208 | a group keeps exactly the items with that key, in the input's order |
| Views.WithKeyCounts | js/app.js:199-208 | a group holds every copy of an item with its key, and no other item |
| Views.WithKeyAbsent | js/app.js:199-208 | a key that no item has gets no item |
| Views.WithKeySnoc | js/app.js:207 | appending an item extends only its own group |
| Views.KeysSnoc | js/app.js:204-206 | appending an item adds its key to the key set |
| Views.GroupBy | js/app.js:197-210 | the grouping loop builds exactly one group per key, holding that key's items in order |
| Views.GroupsSnoc | js/app.js:199-208 | one loop step appends the item to its own group and leaves the other groups alone |
| Views.GroupTasksByDate | js/app.js:197-210 | every item is in the group of its completion day (`completedAt`, else `createdAt`), and every group holds only that day's items |
| Views.OpenItemsCounts | js/app.js:1224 | the open items are every copy of each not-done item, and nothing else |
| Views.ActiveItems | js/app.js:1224-1236 | the active section is sorted by `order` and is a rearrangement of the container's open tasks that pass the search and tag filters |
| Views.CompletedItems | js/app.js:1225-1236 | the completed section holds only done tasks, most recently completed first, and is a rearrangement of the container's done tasks that pass the filters |
| Views.SectionsHoldTheirTasks | js/app.js:1221-1236 | a task is in the active (completed) section iff it is a not-done (done) task of the container that passes both filters, and it appears there as often as in the task list |
| Views.GetDateGroup | js/app.js:1367-1393 | a missing date is `older`; otherwise it is the first of today / yesterday / last 7 days / last 30 days / older whose start day the task's day reaches |
| Views.GetDateGroupMonotone | js/app.js:1381-1392 | a later date never falls in an older group |
| Views.GroupedSectionFromLoop | js/app.js:1310-1314 | each group built by the `forEach` holds exactly the completed items of that group, in order |
| Views.AppendToPart | js/app.js:1317-1329 | appending to the last non-empty group appends to the concatenation |
| Views.GroupedSectionSnoc | js/app.js:1307-1329 | an item whose group is no older than those before it extends the grouped section at its end |
| Views.GroupedSectionKeepsOrder | js/app.js:1307-1329 | when the groups never get newer down the list, showing the groups in order shows the items in their original order |
| Views.CompletedGroupsKeepRecency | js/app.js:1225-1329 | grouping the recency-sorted completed section by date changes nothing about the order shown |
| Format.FieldsWhole | js/app.js:1131 | proof helper for the clock reader: a string without the separator splits into itself |
| Format.FieldsJoin | js/app.js:1131 | proof helper for the clock reader: joining a separator-free string with the separator splits back into its parts |
| Format.DigitsExclude | js/app.js:1131 | proof helper for the clock reader: a digit string contains no separator |
| Format.FormatTime | js/app.js:55-80 | no time or a negative time is `0m`; otherwise the text ends with one of the units `d`, `h`, `m`, `s` |
| Format.PieceOf | js/app.js:66 | each `N` + unit piece reads back as N units |
| Format.ShownPieces | js/app.js:66-74 | one or two pieces read back as the sum of their units |
| Format.FormatTimeZero | js/app.js:56 | the text is `0m` iff the time is zero or negative |
| Format.UnitCounts | js/app.js:58-61 | the chained floor divisions are whole minutes, hours and days |
| Format.TruncatesToHours | js/app.js:63-68 | from one day up, the text shows the time truncated to whole hours |
| Format.HoursToMinutes | js/app.js:69-74 | from one hour up, the text shows the time truncated to whole minutes |
| Format.MinutesAndSeconds | js/app.js:75-79 | under an hour, the text shows whole minutes, or whole seconds under a minute |
| Format.FormatTimeTruncates | js/app.js:55-80 | the text never overstates the time and is off by less than its precision (an hour, a minute, or a second) |
| Format.JsRem | js/app.js:1127-1128 | JavaScript `%` truncates toward zero: Euclidean on non-negative values; on negatives the remainder is zero or negative |
| Format.JsPad2 | js/app.js:1131 | for non-negative values, `padStart(2,'0')` is `Pad2` |
| Format.FormatFocusTime | js/app.js:1124-1135 | for non-negative times the text is made of digits and colons |
| Format.ClockTwoFields | js/app.js:1133 | `MM:SS` splits into two fields and reads back as `m*60+s` seconds |
| Format.ClockThreeFields | js/app.js:1131 | `H:MM:SS` splits into three fields and reads back as `h*3600+m*60+s` seconds |
| Format.FocusTimeRoundTrip | js/app.js:1124-1135 | the clock text reads back as the whole seconds, with three fields exactly from one hour up |
| Format.ClockUnits | js/app.js:1126-1128 | proof helper for the clock round trip: hours, the minutes of the last hour and the seconds of the last minute add back up to the whole seconds |
| Format.GetTomatoCount | js/app.js:1137-1140 | the count is the number of whole 25-minute runs: `r*P ≤ ms < (r+1)*P` |
| Format.Repeat | js/app.js:1145 | `repeat(n)` is n glyphs long and starts with the glyph |
| Format.RepeatCopies | js/app.js:1145 | every glyph-wide slot of `repeat(n)` holds the glyph |
| Format.RepeatChars | js/app.js:1145 | every character of `repeat(n)` is a character of the glyph |
| Format.TomatoesWith | js/app.js:1142-1148 | the text fails (the `RangeError` of `repeat`) iff the count is negative |
| Format.FormatTomatoesAsWritten | js/app.js:1142-1148 | as written, the text fails iff the count is negative, reads back as the count only against the mis-encoded literal, and one tomato is that literal |
| Format.FormatTomatoes | js/app.js:1142-1148 | corrected, the text fails iff the count is negative, reads back as the count with the tomato emoji, and up to four it is that many emoji |
| Format.CountRepeat | js/app.js:1145 | counting the leading copies of the glyph in n copies gives n |
| Format.TomatoesRoundTrip | js/app.js:1142-1148 | for any glyph not starting with a space, the tomato text (`''`, repeated glyphs, or `glyph xN`) reads back as the count by a reader that checks every glyph |
| Format.RepeatedTomatoes | js/app.js:1144-1146 | any positive number of repeated glyphs reads back as its count: a second glyph, never " x", follows the first |
| Format.StoredTomatoIsNotTomato | js/app.js:1145 | as written, every positive count renders text that differs from the corrected one and reads as zero tomatoes, and no character of it is the tomato emoji U+1F345 |
| Format.CalculateTaskDuration | js/app.js:82-90 | zero without both timestamps; otherwise start plus duration is the end |
| Format.DurationStaysZero | js/app.js:82-90 | no handler sets `startedAt`, so a created task, however it is moved, always has duration 0 |
| Format.MovesKeepStart | js/app.js:371-381 | status moves never change `startedAt` |
| Pomodoro.Remaining | js/pomodoro.js:220-223 | the remaining seconds are never negative; while positive they plus the elapsed whole seconds make the full duration |
| Pomodoro.StartTime | js/pomodoro.js:244-263 | the back-dated start makes the remaining seconds at `now` the current ones, so starting and pausing at the same instant gives them back (none for a negative count) |
| Pomodoro.RemainingNeverGrows | js/pomodoro.js:218-223 | the remaining time never increases as the clock advances |
| Pomodoro.RemainingReachesZero | js/pomodoro.js:218-227 | once the full duration has elapsed, the remaining time is 0 |
| Pomodoro.Pruned | js/pomodoro.js:95-99 | keeps exactly the days not before the 30-day cutoff, with their counts |
| Pomodoro.SavedTodaySurvives | js/pomodoro.js:93-99 | today's count is always kept by the pruning |
| Pomodoro.PrunedResave | js/pomodoro.js:90-104 | saving today's count over a pruned map is saving it over the whole map |
| Pomodoro.PrunedIdempotent | js/pomodoro.js:95-99 | pruning twice is pruning once |
| Pomodoro.TomatoIcons | js/pomodoro.js:112-135 | hidden iff the count is 0; otherwise min(count, 8) icons with only the last marked new when `isNew`, and a `+(count-8)` badge iff count > 8 |
| Pomodoro.PruneDays | js/pomodoro.js:97-99 | the delete loop computes `Pruned` |
| Pomodoro.HasMember | js/pomodoro.js:97 | proof helper for the pruning loop: a non-empty key set has a key to visit |
| Pomodoro.Timer.constructor | js/pomodoro.js:5-9 | a new timer is a stopped 25-minute run |
| Pomodoro.Timer.SavedState | js/pomodoro.js:12-20 | `pausedSecondsRemaining` is null iff the timer is running, and otherwise holds the seconds |
| Pomodoro.Timer.SetTime | js/pomodoro.js:151-169 | selected = m, seconds = m*60, stopped, no start time |
| Pomodoro.Timer.Reset | js/pomodoro.js:274-286 | seconds = selected*60, stopped, no start time |
| Pomodoro.Timer.Toggle | js/pomodoro.js:241-272 | pausing stores the remaining seconds and clears the start time; starting restores 0 seconds to the full run and sets the start time so that the remaining time is the current seconds |
| Pomodoro.Timer.SaveDailyTomatoes | js/pomodoro.js:90-104 | sets today's count and prunes the old days |
| Pomodoro.Timer.IncrementTomato | js/pomodoro.js:106-110 | today's count grows by one |
| Pomodoro.Timer.Complete | js/pomodoro.js:288-291 | a tomato is counted only for a 25-minute run |
| Pomodoro.Timer.Tick | js/pomodoro.js:218-238 | a tick recomputes the remaining seconds; reaching 0 stops the timer and, for a 25-minute run, saves today's count plus one over the pruned daily map, else leaves the map alone |
| Pomodoro.Timer.LoadStateAsWritten | js/pomodoro.js:22-67 | as written: resumes a live run and restores paused seconds like the corrected load, but an expired 25-minute run saves today's count plus two over the pruned daily map; after a load from a stopped timer with no start time, the timer runs exactly when it has a start time |
| Pomodoro.Timer.LoadState | js/pomodoro.js:22-67 | corrected: resumes a live run, completes an expired one saving today's count plus one over the pruned daily map, or restores paused seconds |
| Pomodoro.ExpiredReload | js/pomodoro.js:42-45 | an expired 25-minute reload gains 2 tomatoes as written and 1 corrected |

## Left out

- DOM rendering, modals, tag-input widgets, keyboard and paste dispatch, and drag visuals: only each handler's effect on the data is modelled.
- The drag geometry (`getDragAfterElement`, `getListDragAfterElement`) uses floating-point bounding boxes. The resulting element order is a parameter (`ids`, `dom`).
- `localStorage`, JSON parsing and its `try`/`catch` error paths, the backup `fetch` and the sync indicator are I/O. Saved values arrive as parameters (`Option` for "nothing saved").
- `isValidUrl`, `fetchPageTitle`, `getFaviconUrl`, `extractDomain` rely on the browser URL parser and the network. `isValidUrl` is a boolean parameter.
- Audio, `Notification` and `setInterval` scheduling: a tick is a method taking `now`.
- Id generation (`generateId`, `generateContainerId`) and `Date.now()` are parameters.
- Locale dates are modelled with a fixed offset `tz`, so a local day is `(ms + tz) / DayMs`. Daylight-saving changes are not modelled.
- Pomodoro.Pruned: the cut-off `setDate(-30)` is approximated as 30 × 24 hours before `now`. The daily key `toISOString().split('T')[0]` is the UTC date, modelled exactly as the UTC day number.
- Text.Lower: lower-casing covers ASCII letters only, not Unicode case mapping.
- Seqs.SortBy: an insertion sort is proved sorted and a permutation. Stability of the browser's `sort` is not claimed.
- A missing `order` is 0 (`order || 0`). NaN and non-numeric orders are not modelled.
- Tasks are values, not shared records. `saveTask` stores the dialog's `currentTags` array itself in the task, and closing the dialog does not reset it. The aliasing stays unobservable only because every path that reopens the dialog assigns `currentTags` a new array first (`openTaskModal`, `editTaskById` and the paste handler that opens the board dialog). The model does not capture sharing.
- The highlight class and the scrolling done by `selectTask` and `clearSelection` are not modelled. Whether a task's element is on the page is a `rendered` input of `SelectTask`, `ToggleHold` and the intended moves; the navigation handlers select from the page's element ids, which are always rendered.
- The start-up timer that focuses the first non-empty column (js/app.js:1939-1950) is not modelled, because it runs once on a timer against the rendered page.
- `switchView` is not modelled, because the current view and its stored name are display state. So its clearing of `selectedTaskId` and `selectedListItemId` (js/app.js:1196-1198) is not modelled either.
- `getCurrentFocusTime`, `formatLastSaved`, `formatDateTime`, `formatDateHeader` and `formatCompletedTime` are locale formatting of dates.
- A board task created directly into the done column gets no `completedAt`, as in the source. `CreatedConsistent` states that such a creation breaks the completion invariant.
- The formatters `formatTime`, `formatFocusTime`, `formatTomatoes` and `calculateTaskDuration` are modelled, although no caller in the source renders them.
- Views.DoneColumn: the date groups of the done column (by `toDateString` keys, then sorted newest first) are modelled as one recency sort plus the lemma that days descend along it. Timestamps are compared as numbers.
- Pomodoro.Timer.LoadState: the "paused" case compares `pausedSecondsRemaining` with `null`. A missing (`undefined`) field is treated as null.
- js/storage.js is not part of this model, apart from the status names.

## Findings

| source | as written | input that shows it | evidently intended | confidence | as-written member | corrected member |
|---|---|---|---|---|---|---|
| js/pomodoro.js:42-45 | After reloading the page, a run that expired is completed with `incrementTomato()` and then `pomodoroComplete()`, which increments again for 25 minutes | a saved running 25-minute state whose start is more than 25 minutes before the reload | one tomato per finished run | high, not executed | Pomodoro.Timer.LoadStateAsWritten, Pomodoro.ExpiredReload | Pomodoro.Timer.LoadState |
| js/app.js:625-661 | `moveTaskUp`/`moveTaskDown` look up `getColumnTasksInOrder(task.column)`; tasks have `status`, not `column`, so the column is empty and the move does nothing | any selected todo task with a task above it | swap `order` with the neighbour in the task's status column | high, not executed | Board.MoveTaskUpAsWritten, Board.VerticalMoveAsWrittenNoOp | Board.MoveTaskUp, Board.VerticalMoveSwapsNeighbours |
| js/app.js:1145 | the tomato literal is stored as the three characters U+00F0 U+0178 U+2026 (the emoji's UTF-8 bytes read as Windows-1252, with the undefined byte 0x8D lost) | `formatTomatoes(1)` | the single tomato emoji U+1F345, as js/pomodoro.js:127 uses | high, not executed | Format.FormatTomatoesAsWritten, Format.StoredTomatoIsNotTomato | Format.FormatTomatoes |
