/** The task handlers of the board and list views: creating, editing,
    moving, reordering, completing, holding and deleting tasks, and the tag
    lists of the task dialogs. Every handler changes the shared task list. */
module Board {
  import opened Wrappers
  import opened Text
  import opened Seqs
  import opened State
  import opened Containers

  // ---------------------------------------------------------------------
  // Looking tasks up
  // ---------------------------------------------------------------------

  /** `tasks.find(i => i.id === id)` / `tasks.findIndex(...)`: the position
      of the first task with this id. */
  function FindTask(tasks: seq<Task>, id: string): (r: Option<nat>)
    ensures r.None? <==> forall k :: 0 <= k < |tasks| ==> tasks[k].id != id
    ensures r.Some? ==>
      r.value < |tasks| && tasks[r.value].id == id && forall k :: 0 <= k < r.value ==> tasks[k].id != id
    decreases |tasks|
  {
    if tasks == [] then None
    else if tasks[0].id == id then Some(0)
    else
      var r := FindTask(tasks[1..], id);
      assert forall k :: 1 <= k < |tasks| ==> tasks[k] == tasks[1..][k - 1];
      if r.None? then None else Some(r.value + 1)
  }

  /** Two task lists with the same ids at the same positions. */
  predicate SameIds(a: seq<Task>, b: seq<Task>) {
    |a| == |b| && forall k :: 0 <= k < |a| ==> a[k].id == b[k].id
  }

  /** A lookup by id only depends on the ids. */
  lemma FindTaskSameIds(a: seq<Task>, b: seq<Task>, id: string)
    requires SameIds(a, b)
    ensures FindTask(a, id) == FindTask(b, id)
  {
  }

  /** `getSelectedTask()`: the selected task when a (non-empty) id is
      selected. */
  function SelectedTask(tasks: seq<Task>, selected: Option<string>): (r: Option<nat>)
    ensures r.Some? ==> selected.Some? && r.value < |tasks| && tasks[r.value].id == selected.value
    ensures selected.Some? && selected.value != "" ==> r == FindTask(tasks, selected.value)
  {
    if selected.Some? && selected.value != "" then FindTask(tasks, selected.value) else None
  }

  // ---------------------------------------------------------------------
  // Status changes
  // ---------------------------------------------------------------------

  /** The status assignment shared by drag-drop and Shift+Left/Right:
      entering done stamps the completion time, leaving done deletes it. */
  function WithStatus(t: Task, st: Status, now: int): (r: Task)
    ensures r == t.(status := st, completedAt := r.completedAt)
    ensures st == Done && t.status != Done ==> r.completedAt == Some(now)
    ensures t.status == Done && st != Done ==> r.completedAt.None?
    ensures (st == Done) == (t.status == Done) ==> r.completedAt == t.completedAt
    ensures CompletionConsistent(t) ==> CompletionConsistent(r)
  {
    var completedAt :=
      if st == Done && t.status != Done then Some(now)
      else if t.status == Done && st != Done then None
      else t.completedAt;
    t.(status := st, completedAt := completedAt)
  }

  /** `getContainerItems().filter(i => i.status === st && i.id !== id)`:
      the other current-container tasks of a column. */
  function ColumnMates(tasks: seq<Task>, cur: string, st: Status, id: string): seq<Task> {
    Filter(ContainerItems(tasks, cur), (t: Task) => t.status == st && t.id != id)
  }

  /** The column mates are found by one test over the whole task list. */
  lemma ColumnMatesFlat(tasks: seq<Task>, cur: string, st: Status, id: string)
    ensures ColumnMates(tasks, cur, st, id)
      == Filter(tasks, (t: Task) => InContainer(t, cur) && t.status == st && t.id != id)
  {
    FilterFilter(tasks, (t: Task) => InContainer(t, cur), (t: Task) => t.status == st && t.id != id,
      (t: Task) => InContainer(t, cur) && t.status == st && t.id != id);
  }

  /** Rewriting a task that carries the excluded id leaves the column mates
      as they were. */
  lemma ColumnMatesIgnore(tasks: seq<Task>, i: nat, x: Task, cur: string, st: Status)
    requires i < |tasks| && x.id == tasks[i].id
    ensures ColumnMates(tasks[i := x], cur, st, x.id) == ColumnMates(tasks, cur, st, x.id)
  {
    var u := tasks[i := x];
    var p := (t: Task) => InContainer(t, cur) && t.status == st && t.id != x.id;
    ColumnMatesFlat(tasks, cur, st, x.id);
    ColumnMatesFlat(u, cur, st, x.id);
    forall k | 0 <= k < |tasks|
      ensures p(tasks[k]) == p(u[k]) && (p(tasks[k]) ==> tasks[k] == u[k])
    {
      if k == i {
        assert !p(tasks[k]) && !p(u[k]);
      }
    }
    FilterSame(tasks, u, p);
  }

  /** A cross-column move (drop on another column, Shift+Left/Right): the
      task takes the new status under the completion rule and goes to the
      end of the destination column, its order being the number of other
      current-container tasks already there. Nothing else changes. */
  function MovedToColumn(tasks: seq<Task>, i: nat, st: Status, cur: string, now: int): (r: seq<Task>)
    requires i < |tasks|
    ensures |r| == |tasks|
    ensures forall k :: 0 <= k < |tasks| && k != i ==> r[k] == tasks[k]
    ensures r[i] == WithStatus(tasks[i], st, now).(order := r[i].order)
  {
    var moved := WithStatus(tasks[i], st, now);
    tasks[i := moved.(order := |ColumnMates(tasks[i := moved], cur, st, tasks[i].id)|)]
  }

  /** The moved task's order counts the other current-container tasks in
      the destination column, both before and after the move. */
  lemma MovedToColumnOrder(tasks: seq<Task>, i: nat, st: Status, cur: string, now: int)
    requires i < |tasks|
    ensures var r := MovedToColumn(tasks, i, st, cur, now);
      && r[i].order == |ColumnMates(tasks, cur, st, tasks[i].id)|
      && r[i].order == |ColumnMates(r, cur, st, tasks[i].id)|
  {
    var moved := WithStatus(tasks[i], st, now);
    var r := MovedToColumn(tasks, i, st, cur, now);
    ColumnMatesIgnore(tasks, i, moved, cur, st);
    ColumnMatesIgnore(tasks, i, r[i], cur, st);
  }

  /** A cross-column move keeps the completion invariant of the task list. */
  lemma MovedToColumnConsistent(tasks: seq<Task>, i: nat, st: Status, cur: string, now: int)
    requires i < |tasks| && AllConsistent(tasks)
    ensures AllConsistent(MovedToColumn(tasks, i, st, cur, now))
  {
    var r := MovedToColumn(tasks, i, st, cur, now);
    assert CompletionConsistent(tasks[i]);
    assert CompletionConsistent(r[i]);
  }

  /** The list checkbox: a done task goes back to todo without a completion
      time, any other task becomes done with the completion time `now`;
      its order is kept. */
  function ToggledComplete(t: Task, now: int): (r: Task)
    ensures CompletionConsistent(r)
    ensures t.status == Done ==> r.status == Todo
    ensures t.status != Done ==> r.status == Done && r.completedAt == Some(now)
    ensures r == t.(status := r.status, completedAt := r.completedAt)
  {
    if t.status == Done then t.(status := Todo, completedAt := None)
    else t.(status := Done, completedAt := Some(now))
  }

  /** Checking and unchecking a todo task restores it. */
  lemma ToggleCompleteTwice(t: Task, now1: int, now2: int)
    requires t.status == Todo && CompletionConsistent(t)
    ensures ToggledComplete(ToggledComplete(t, now1), now2) == t
  {
  }

  /** Rewrites the task at the first position carrying `id`, if any. */
  function UpdateFirst(tasks: seq<Task>, id: string, f: Task -> Task): (r: seq<Task>)
    ensures |r| == |tasks|
    ensures FindTask(tasks, id).None? ==> r == tasks
    ensures FindTask(tasks, id).Some? ==>
      var i := FindTask(tasks, id).value; r == tasks[i := f(tasks[i])]
  {
    match FindTask(tasks, id)
    case None => tasks
    case Some(i) => tasks[i := f(tasks[i])]
  }

  /** The hold flag flipped. */
  function Held(t: Task): (r: Task)
    ensures r.onHold != t.onHold && r == t.(onHold := r.onHold)
  {
    t.(onHold := !t.onHold)
  }

  /** `toggleHold` / `toggleListItemOnHold`. */
  function ToggledHold(tasks: seq<Task>, id: string): (r: seq<Task>)
    ensures SameIds(r, tasks)
    ensures forall k :: 0 <= k < |tasks| && Some(k) != FindTask(tasks, id) ==> r[k] == tasks[k]
    ensures FindTask(tasks, id).Some? ==>
      var i := FindTask(tasks, id).value; r[i] == tasks[i].(onHold := !tasks[i].onHold)
  {
    UpdateFirst(tasks, id, Held)
  }

  /** Toggling hold twice restores the task list. */
  lemma ToggleHoldTwice(tasks: seq<Task>, id: string)
    ensures ToggledHold(ToggledHold(tasks, id), id) == tasks
  {
    FindTaskSameIds(ToggledHold(tasks, id), tasks, id);
  }

  // ---------------------------------------------------------------------
  // Creating and editing
  // ---------------------------------------------------------------------

  /** Whether creating a task in the current container pushes `t` down: a
      task of the current container, of the given column (`None`: of any
      column, as the list view does). */
  predicate PushedBy(t: Task, cur: string, column: Option<Status>) {
    InContainer(t, cur) && (column.None? || t.status == column.value)
  }

  /** Every task pushed down by a creation has its order raised by one;
      every other task is unchanged. */
  function PushedDown(tasks: seq<Task>, cur: string, column: Option<Status>): (r: seq<Task>)
    ensures |r| == |tasks|
    ensures forall k :: 0 <= k < |tasks| ==>
      r[k] == tasks[k].(order := r[k].order)
      && r[k].order == tasks[k].order + (if PushedBy(tasks[k], cur, column) then 1 else 0)
  {
    seq(|tasks|, k requires 0 <= k < |tasks| =>
      if PushedBy(tasks[k], cur, column) then tasks[k].(order := tasks[k].order + 1) else tasks[k])
  }

  /** The record a creation appends: order 0, in the current container,
      created now, not completed and not on hold. */
  function NewTask(id: string, title: string, url: string, notes: string, tags: seq<string>,
                   st: Status, cur: string, now: int): (r: Task)
    ensures r.id == id && r.status == st && r.order == 0 && r.containerId == Some(cur)
    ensures r.createdAt == now && r.completedAt.None? && r.startedAt.None? && !r.onHold
    ensures r.title == title && r.url == url && r.notes == notes && r.tags == tags
  {
    Task(id, title, url, notes, tags, st, 0, Some(cur), now, None, None, false)
  }

  /** A creation: the pushed-down list with the new task appended. */
  function Created(tasks: seq<Task>, cur: string, column: Option<Status>, t: Task): (r: seq<Task>)
    ensures |r| == |tasks| + 1 && r[|tasks|] == t
    ensures r[..|tasks|] == PushedDown(tasks, cur, column)
  {
    PushedDown(tasks, cur, column) + [t]
  }

  /** A creation keeps the completion invariant when the new task is not
      created done; a new task created in the done column would carry no
      completion time. */
  lemma CreatedConsistent(tasks: seq<Task>, cur: string, column: Option<Status>, t: Task)
    requires AllConsistent(tasks)
    ensures AllConsistent(Created(tasks, cur, column, t)) <==> CompletionConsistent(t)
  {
    var r := Created(tasks, cur, column, t);
    forall k | 0 <= k < |tasks|
      ensures CompletionConsistent(r[k])
    {
      assert r[k] == PushedDown(tasks, cur, column)[k];
      assert CompletionConsistent(tasks[k]);
    }
  }

  /** The edit of `saveTask` / `saveListItem`: only title, url, notes and
      tags change. */
  function Edited(t: Task, title: string, url: string, notes: string, tags: seq<string>): (r: Task)
    ensures r.title == title && r.url == url && r.notes == notes && r.tags == tags
    ensures r.id == t.id && r.status == t.status && r.order == t.order
    ensures r.containerId == t.containerId && r.createdAt == t.createdAt
    ensures r.completedAt == t.completedAt && r.startedAt == t.startedAt && r.onHold == t.onHold
  {
    t.(title := title, url := url, notes := notes, tags := tags)
  }

  /** Editing the task with id `id`, when there is one. */
  function EditedList(tasks: seq<Task>, id: string, title: string, url: string, notes: string,
                      tags: seq<string>): (r: seq<Task>)
    ensures SameIds(r, tasks)
    ensures FindTask(tasks, id).None? ==> r == tasks
    ensures FindTask(tasks, id).Some? ==>
      var i := FindTask(tasks, id).value; r == tasks[i := Edited(tasks[i], title, url, notes, tags)]
  {
    UpdateFirst(tasks, id, (t: Task) => Edited(t, title, url, notes, tags))
  }

  /** An edit keeps the completion invariant, every order and the container
      membership of every task. */
  lemma EditedKeepsStructure(tasks: seq<Task>, id: string, title: string, url: string, notes: string,
                             tags: seq<string>, cur: string)
    requires AllConsistent(tasks)
    ensures var r := EditedList(tasks, id, title, url, notes, tags);
      && AllConsistent(r)
      && (forall k :: 0 <= k < |r| ==> r[k].order == tasks[k].order && r[k].status == tasks[k].status)
      && (forall k :: 0 <= k < |r| ==> InContainer(r[k], cur) == InContainer(tasks[k], cur))
  {
    var r := EditedList(tasks, id, title, url, notes, tags);
    forall k | 0 <= k < |r|
      ensures CompletionConsistent(r[k])
    {
      assert CompletionConsistent(tasks[k]);
    }
  }

  // ---------------------------------------------------------------------
  // Positional reordering
  // ---------------------------------------------------------------------

  /** The last position of `id` in `ids`. */
  function LastIndexOf(ids: seq<string>, id: string): (r: Option<nat>)
    ensures r.None? <==> id !in ids
    ensures r.Some? ==>
      r.value < |ids| && ids[r.value] == id && forall k :: r.value < k < |ids| ==> ids[k] != id
    decreases |ids|
  {
    if ids == [] then None
    else if ids[|ids| - 1] == id then Some(|ids| - 1)
    else LastIndexOf(ids[..|ids| - 1], id)
  }

  /** One step of the reorder loop: the first task with `id`, if any, gets
      order `n`. */
  function SetOrderOf(tasks: seq<Task>, id: string, n: int): (r: seq<Task>)
    ensures SameIds(r, tasks)
  {
    UpdateFirst(tasks, id, (t: Task) => t.(order := n))
  }

  /** `updateTaskOrder` / `handleListDrop` over the element ids `ids` in
      document order: each element's task gets the element's index. */
  function Reordered(tasks: seq<Task>, ids: seq<string>): (r: seq<Task>)
    ensures SameIds(r, tasks)
    decreases |ids|
  {
    if ids == [] then tasks
    else SetOrderOf(Reordered(tasks, ids[..|ids| - 1]), ids[|ids| - 1], |ids| - 1)
  }

  /** What reordering does to the task at position `j`: if it is the task
      its id finds and its id is listed, its order becomes the (last) index
      of that id; every other task is unchanged. */
  function ReorderedAt(tasks: seq<Task>, ids: seq<string>, j: nat): Task
    requires j < |tasks|
  {
    var id := tasks[j].id;
    if FindTask(tasks, id) == Some(j) && LastIndexOf(ids, id).Some?
    then tasks[j].(order := LastIndexOf(ids, id).value)
    else tasks[j]
  }

  /** Reordering, element by element. */
  lemma {:induction false} ReorderedPointwise(tasks: seq<Task>, ids: seq<string>)
    ensures forall j :: 0 <= j < |tasks| ==> Reordered(tasks, ids)[j] == ReorderedAt(tasks, ids, j)
    decreases |ids|
  {
    if ids != [] {
      var init := ids[..|ids| - 1];
      var last := ids[|ids| - 1];
      var prev := Reordered(tasks, init);
      ReorderedPointwise(tasks, init);
      FindTaskSameIds(prev, tasks, last);
      assert Reordered(tasks, ids) == SetOrderOf(prev, last, |ids| - 1);
      forall j | 0 <= j < |tasks|
        ensures Reordered(tasks, ids)[j] == ReorderedAt(tasks, ids, j)
      {
        ReorderedAtSnoc(tasks, prev, ids, j);
      }
    }
  }

  /** One reorder step, at one position. */
  lemma SetOrderOfAt(tasks: seq<Task>, id: string, n: int, j: nat)
    requires j < |tasks|
    ensures SetOrderOf(tasks, id, n)[j] ==
      if FindTask(tasks, id) == Some(j) then tasks[j].(order := n) else tasks[j]
  {
  }

  /** One more listed id, at one position: the step that gives `ids`'
      last element its index turns what reordering by the other ids did
      at `j` into what reordering by all of `ids` does there. */
  lemma ReorderedAtSnoc(tasks: seq<Task>, prev: seq<Task>, ids: seq<string>, j: nat)
    requires ids != [] && j < |tasks| == |prev|
    requires prev[j] == ReorderedAt(tasks, ids[..|ids| - 1], j)
    requires FindTask(prev, ids[|ids| - 1]) == FindTask(tasks, ids[|ids| - 1])
    ensures SetOrderOf(prev, ids[|ids| - 1], |ids| - 1)[j] == ReorderedAt(tasks, ids, j)
  {
    var init, last := ids[..|ids| - 1], ids[|ids| - 1];
    SetOrderOfAt(prev, last, |ids| - 1, j);
    var id := tasks[j].id;
    if FindTask(tasks, last) == Some(j) {
      assert LastIndexOf(ids, id) == Some(|ids| - 1);
    } else if id != last {
      assert LastIndexOf(ids, id) == LastIndexOf(init, id);
    }
  }

  /** Applying the same positional reorder twice gives the same orders as
      applying it once. */
  lemma ReorderIdempotent(tasks: seq<Task>, ids: seq<string>)
    ensures Reordered(Reordered(tasks, ids), ids) == Reordered(tasks, ids)
  {
    var r := Reordered(tasks, ids);
    ReorderedPointwise(tasks, ids);
    ReorderedPointwise(r, ids);
    forall j | 0 <= j < |tasks|
      ensures Reordered(r, ids)[j] == r[j]
    {
      ReorderedAtAgain(tasks, r, ids, j);
    }
  }

  /** A position already reordered by `ids` is left as it is by a second
      pass over the same ids. */
  lemma ReorderedAtAgain(tasks: seq<Task>, r: seq<Task>, ids: seq<string>, j: nat)
    requires j < |tasks| && SameIds(r, tasks)
    requires r[j] == ReorderedAt(tasks, ids, j)
    ensures ReorderedAt(r, ids, j) == r[j]
  {
    FindTaskSameIds(r, tasks, tasks[j].id);
  }

  /** Reordering changes nothing but orders, and a task whose id is not
      listed keeps its order. */
  lemma ReorderOnlyOrders(tasks: seq<Task>, ids: seq<string>)
    ensures forall j :: 0 <= j < |tasks| ==>
      Reordered(tasks, ids)[j] == tasks[j].(order := Reordered(tasks, ids)[j].order)
    ensures forall j :: 0 <= j < |tasks| && tasks[j].id !in ids ==> Reordered(tasks, ids)[j] == tasks[j]
    ensures forall j :: 0 <= j < |tasks| && FindTask(tasks, tasks[j].id) == Some(j) && tasks[j].id in ids ==>
      Reordered(tasks, ids)[j].order == LastIndexOf(ids, tasks[j].id).value
  {
    ReorderedPointwise(tasks, ids);
  }

  // ---------------------------------------------------------------------
  // Keyboard moves within a column
  // ---------------------------------------------------------------------

  /** The positions of the tasks behind a column's task elements, in
      document order; elements whose id finds no task are dropped. */
  function FoundTasks(tasks: seq<Task>, elementIds: seq<string>): (r: seq<nat>)
    ensures |r| <= |elementIds|
    ensures forall k :: 0 <= k < |r| ==> r[k] < |tasks| && FindTask(tasks, tasks[r[k]].id) == Some(r[k])
    decreases |elementIds|
  {
    if elementIds == [] then []
    else
      var init := FoundTasks(tasks, elementIds[..|elementIds| - 1]);
      match FindTask(tasks, elementIds[|elementIds| - 1])
      case None => init
      case Some(i) => init + [i]
  }

  /** `getColumnTasksInOrder(name)`: `dom` gives each column's element ids in
      document order; a name that is not a column (`None`) finds no
      container element and yields nothing. */
  function ColumnTasksInOrder(tasks: seq<Task>, name: Option<Status>, dom: Status -> seq<string>): (r: seq<nat>)
    ensures name.None? ==> r == []
    ensures forall k :: 0 <= k < |r| ==> r[k] < |tasks| && FindTask(tasks, tasks[r[k]].id) == Some(r[k])
  {
    if name.None? then [] else FoundTasks(tasks, dom(name.value))
  }

  /** `columnTasks.findIndex(t => t.id === id)`, or -1. */
  function IndexInColumn(tasks: seq<Task>, column: seq<nat>, id: string): (r: int)
    requires forall k :: 0 <= k < |column| ==> column[k] < |tasks|
    ensures -1 <= r < |column|
    ensures r >= 0 ==> tasks[column[r]].id == id && forall k :: 0 <= k < r ==> tasks[column[k]].id != id
    ensures r == -1 ==> forall k :: 0 <= k < |column| ==> tasks[column[k]].id != id
    decreases |column|
  {
    if column == [] then -1
    else if tasks[column[0]].id == id then 0
    else
      var r := IndexInColumn(tasks, column[1..], id);
      if r == -1 then -1 else r + 1
  }

  /** The two tasks exchange their orders. */
  function SwapOrders(tasks: seq<Task>, i: nat, j: nat): (r: seq<Task>)
    requires i < |tasks| && j < |tasks|
    ensures SameIds(r, tasks)
    ensures i != j ==> r[i].order == tasks[j].order && r[j].order == tasks[i].order
    ensures r[i] == tasks[i].(order := r[i].order) && r[j] == tasks[j].(order := r[j].order)
    ensures forall k :: 0 <= k < |tasks| && k != i && k != j ==> r[k] == tasks[k]
  {
    tasks[i := tasks[i].(order := tasks[j].order)][j := tasks[j].(order := tasks[i].order)]
  }

  /** Swapping twice restores the orders. */
  lemma SwapTwice(tasks: seq<Task>, i: nat, j: nat)
    requires i < |tasks| && j < |tasks|
    ensures SwapOrders(SwapOrders(tasks, i, j), i, j) == tasks
  {
  }

  /** The orders of a task list. */
  function Orders(tasks: seq<Task>): (r: seq<int>)
    ensures |r| == |tasks| && forall k :: 0 <= k < |tasks| ==> r[k] == tasks[k].order
  {
    seq(|tasks|, k requires 0 <= k < |tasks| => tasks[k].order)
  }

  /** A swap permutes the orders. */
  lemma SwapPermutesOrders(tasks: seq<Task>, i: nat, j: nat)
    requires i < |tasks| && j < |tasks|
    ensures multiset(Orders(SwapOrders(tasks, i, j))) == multiset(Orders(tasks))
  {
    var a := Orders(tasks);
    var b := Orders(SwapOrders(tasks, i, j));
    if i != j {
      assert b == a[i := a[j]][j := a[i]];
    } else {
      assert b == a;
    }
  }

  /** `moveTaskUp` (`up`) or `moveTaskDown` (`!up`). `readsColumn` says
      which column name the code looks up: as written it reads
      `task.column`, a field no task has (`None`); the intended name is the
      task's status. A move swaps the task's order with its neighbour's in
      the column's document order, and never moves a done task. */
  function VerticalMove(tasks: seq<Task>, selected: Option<string>, dom: Status -> seq<string>,
                        readsColumn: bool, up: bool): seq<Task>
  {
    match VerticalNeighbour(tasks, selected, dom, readsColumn, up)
    case None => tasks
    case Some(j) => SwapOrders(tasks, SelectedTask(tasks, selected).value, j)
  }

  /** The task a vertical move swaps with: the selected task's neighbour
      above (`up`) or below in the column's document order, if the task is
      not done and has one. The move, and the reselection after it, happen
      exactly when there is one. */
  function VerticalNeighbour(tasks: seq<Task>, selected: Option<string>, dom: Status -> seq<string>,
                             readsColumn: bool, up: bool): (r: Option<nat>)
    ensures r.Some? ==> SelectedTask(tasks, selected).Some? && r.value < |tasks|
    ensures r.Some? ==> tasks[SelectedTask(tasks, selected).value].status != Done
  {
    match SelectedTask(tasks, selected)
    case None => None
    case Some(i) =>
      var name := if readsColumn then None else Some(tasks[i].status);
      if name == Some(Done) then None
      else
        var column := ColumnTasksInOrder(tasks, name, dom);
        var idx := IndexInColumn(tasks, column, tasks[i].id);
        if up && idx > 0 then Some(column[idx - 1])
        else if !up && idx < |column| - 1 then Some(column[idx + 1])
        else None
  }

  /** As written, the column lookup never finds an element, so neither key
      moves anything. */
  lemma VerticalMoveAsWrittenNoOp(tasks: seq<Task>, selected: Option<string>, dom: Status -> seq<string>, up: bool)
    ensures VerticalMove(tasks, selected, dom, true, up) == tasks
  {
  }

  /** The intended move only exchanges the orders of the selected task and
      one neighbour in its own column: the ids, everything but the orders,
      and the multiset of orders are kept, and a done task never moves. */
  lemma VerticalMoveSwapsNeighbours(tasks: seq<Task>, selected: Option<string>, dom: Status -> seq<string>, up: bool)
    ensures var r := VerticalMove(tasks, selected, dom, false, up);
      && SameIds(r, tasks)
      && multiset(Orders(r)) == multiset(Orders(tasks))
      && (forall k :: 0 <= k < |r| ==> r[k] == tasks[k].(order := r[k].order))
    ensures var sel := SelectedTask(tasks, selected);
      sel.Some? && tasks[sel.value].status == Done ==> VerticalMove(tasks, selected, dom, false, up) == tasks
  {
    match VerticalNeighbour(tasks, selected, dom, false, up)
    case None =>
    case Some(j) =>
      SwapKeepsOthers(tasks, SelectedTask(tasks, selected).value, j);
  }

  /** A swap keeps the ids and every field but the orders, and permutes
      the orders. */
  lemma SwapKeepsOthers(tasks: seq<Task>, i: nat, j: nat)
    requires i < |tasks| && j < |tasks|
    ensures var r := SwapOrders(tasks, i, j);
      && SameIds(r, tasks)
      && multiset(Orders(r)) == multiset(Orders(tasks))
      && (forall k :: 0 <= k < |r| ==> r[k] == tasks[k].(order := r[k].order))
  {
    SwapPermutesOrders(tasks, i, j);
  }

  // ---------------------------------------------------------------------
  // Tag lists of the dialogs
  // ---------------------------------------------------------------------

  predicate NoDuplicates(tags: seq<string>) {
    forall i, j :: 0 <= i < j < |tags| ==> tags[i] != tags[j]
  }

  /** `addTag` / `addListTag` on an already normalised tag: a non-empty tag
      not yet present is appended. */
  function WithTag(tags: seq<string>, tag: string): (r: seq<string>)
    ensures tag != "" ==> tag in r
    ensures forall k :: 0 <= k < |tags| ==> tags[k] in r
    ensures forall k :: 0 <= k < |r| ==> r[k] in tags || r[k] == tag
    ensures NoDuplicates(tags) ==> NoDuplicates(r)
  {
    if tag != "" && tag !in tags then tags + [tag] else tags
  }

  /** `removeListTag`: every copy of the tag is removed. */
  function WithoutTag(tags: seq<string>, tag: string): (r: seq<string>)
    ensures tag !in r
    ensures forall k :: 0 <= k < |tags| && tags[k] != tag ==> tags[k] in r
  {
    Filter(tags, (t: string) => t != tag)
  }

  /** Adding a new tag and removing it again restores the tag list. */
  lemma AddThenRemoveTag(tags: seq<string>, tag: string)
    requires tag !in tags
    ensures WithoutTag(WithTag(tags, tag), tag) == tags
  {
    FilterAll(tags, (t: string) => t != tag);
    if tag != "" {
      assert WithTag(tags, tag)[..|tags|] == tags;
    }
  }

  /** The list dialog's tag normalisation: trimmed, then lower-cased. */
  function ListTag(tag: string): (r: string)
    ensures IsLowered(r)
    ensures Trim(r) == r
  {
    var t := Trim(tag);
    LowerTrimCommute(t);
    TrimIdempotent(tag);
    Lower(t)
  }

  /** The moves of Shift+Left and Shift+Right go round the three columns. */
  function LeftOf(c: nat): (r: nat)
    requires c < |Columns|
    ensures r < |Columns| && r != c
  {
    if c > 0 then c - 1 else |Columns| - 1
  }

  function RightOf(c: nat): (r: nat)
    requires c < |Columns|
    ensures r < |Columns| && r != c
  {
    if c < |Columns| - 1 then c + 1 else 0
  }

  /** Going left and then right comes back to the same column. */
  lemma LeftRightInverse(c: nat)
    requires c < |Columns|
    ensures RightOf(LeftOf(c)) == c && LeftOf(RightOf(c)) == c
  {
  }

  /** The removal of `deleteListItem`: every task with the id goes. */
  function TasksWithoutId(tasks: seq<Task>, id: string): (r: seq<Task>)
    ensures forall k :: 0 <= k < |r| ==> r[k].id != id
    ensures forall k :: 0 <= k < |tasks| && tasks[k].id != id ==> tasks[k] in r
    ensures forall k :: 0 <= k < |r| ==> r[k] in tasks
  {
    Filter(tasks, (t: Task) => t.id != id)
  }

  /** Every copy of a task with another id stays, and no copy with the id. */
  lemma TasksWithoutIdCounts(tasks: seq<Task>, id: string)
    ensures forall u :: multiset(TasksWithoutId(tasks, id))[u] == if u.id != id then multiset(tasks)[u] else 0
  {
    FilterCounts(tasks, (t: Task) => t.id != id);
  }

  /** The removal of `deleteTaskById` takes out exactly one task, the first
      with the id; a second task with the same id would stay. */
  lemma RemoveFirstExactlyOne(tasks: seq<Task>, id: string)
    requires FindTask(tasks, id).Some?
    ensures var i := FindTask(tasks, id).value;
      multiset(RemoveAt(tasks, i)) + multiset{tasks[i]} == multiset(tasks)
  {
    RemoveAtMultiset(tasks, FindTask(tasks, id).value);
  }

  // ---------------------------------------------------------------------
  // UI state and handlers
  // ---------------------------------------------------------------------

  /** What a save reported: saved, or the alert it raised. */
  datatype SaveOutcome = Saved | MissingTitle | InvalidUrl

  /** The module-level UI state of the board and the list view. Ids that
      may be `null` are options. */
  class Session {
    var selectedTaskId: Option<string>
    var currentEditingTask: Option<string>
    var currentColumn: Status
    var currentTags: seq<string>
    /** 0 = todo, 1 = in progress, 2 = done. */
    var selectedColumn: int
    var allTags: set<string>
    var selectedListItemId: Option<string>
    var currentEditingListItem: Option<string>
    var currentListTags: seq<string>

    ghost predicate Valid()
      reads this
    {
      0 <= selectedColumn < |Columns|
    }

    /** Everything but the board selection (`selectedTaskId`,
        `selectedColumn`) is as it was. */
    twostate predicate DialogsUnchanged()
      reads this
    {
      && currentEditingTask == old(currentEditingTask) && currentColumn == old(currentColumn)
      && currentTags == old(currentTags) && allTags == old(allTags)
      && selectedListItemId == old(selectedListItemId)
      && currentEditingListItem == old(currentEditingListItem)
      && currentListTags == old(currentListTags)
    }

    constructor()
      ensures Valid()
      ensures selectedTaskId.None? && currentEditingTask.None? && currentColumn == Todo
      ensures currentTags == [] && selectedColumn == 0 && allTags == {}
      ensures selectedListItemId.None? && currentEditingListItem.None? && currentListTags == []
    {
      selectedTaskId := None;
      currentEditingTask := None;
      currentColumn := Todo;
      currentTags := [];
      selectedColumn := 0;
      allTags := {};
      selectedListItemId := None;
      currentEditingListItem := None;
      currentListTags := [];
    }
  }

  /** `openTaskModal(column)`: a fresh creation dialog. */
  method OpenTaskModal(ses: Session, column: Status)
    modifies ses
    ensures ses.currentColumn == column && ses.currentEditingTask.None? && ses.currentTags == []
    ensures ses.selectedTaskId == old(ses.selectedTaskId) && ses.selectedColumn == old(ses.selectedColumn)
    ensures ses.currentEditingListItem == old(ses.currentEditingListItem)
    ensures ses.currentListTags == old(ses.currentListTags)
    ensures ses.allTags == old(ses.allTags) && ses.selectedListItemId == old(ses.selectedListItemId)
  {
    ses.currentColumn := column;
    ses.currentEditingTask := None;
    ses.currentTags := [];
  }

  /** `editTaskById(id)`: an edit dialog on a copy of the task's tags. */
  method EditTaskById(s: AppState, ses: Session, id: string)
    modifies ses
    ensures FindTask(s.tasks, id).None? ==>
      ses.currentEditingTask == old(ses.currentEditingTask) && ses.currentColumn == old(ses.currentColumn)
      && ses.currentTags == old(ses.currentTags)
    ensures FindTask(s.tasks, id).Some? ==>
      var t := s.tasks[FindTask(s.tasks, id).value];
      ses.currentEditingTask == Some(id) && ses.currentColumn == t.status && ses.currentTags == t.tags
    ensures ses.selectedTaskId == old(ses.selectedTaskId) && ses.selectedColumn == old(ses.selectedColumn)
    ensures ses.currentEditingListItem == old(ses.currentEditingListItem)
    ensures ses.currentListTags == old(ses.currentListTags)
    ensures ses.allTags == old(ses.allTags) && ses.selectedListItemId == old(ses.selectedListItemId)
  {
    var found := FindTask(s.tasks, id);
    if found.None? {
      return;
    }
    var t := s.tasks[found.value];
    ses.currentEditingTask := Some(id);
    ses.currentColumn := t.status;
    ses.currentTags := t.tags;
  }

  /** `openListModal()` and `closeListModal()`: the list dialog is reset. */
  method ResetListModal(ses: Session)
    modifies ses
    ensures ses.currentEditingListItem.None? && ses.currentListTags == []
    ensures ses.selectedTaskId == old(ses.selectedTaskId) && ses.selectedColumn == old(ses.selectedColumn)
    ensures ses.currentEditingTask == old(ses.currentEditingTask) && ses.currentTags == old(ses.currentTags)
    ensures ses.currentColumn == old(ses.currentColumn) && ses.selectedListItemId == old(ses.selectedListItemId)
    ensures ses.allTags == old(ses.allTags)
  {
    ses.currentEditingListItem := None;
    ses.currentListTags := [];
  }

  /** `editListItem(id)`: an edit dialog on a copy of the task's tags. */
  method EditListItem(s: AppState, ses: Session, id: string)
    modifies ses
    ensures FindTask(s.tasks, id).None? ==>
      ses.currentEditingListItem == old(ses.currentEditingListItem)
      && ses.currentListTags == old(ses.currentListTags)
    ensures FindTask(s.tasks, id).Some? ==>
      ses.currentEditingListItem == Some(id)
      && ses.currentListTags == s.tasks[FindTask(s.tasks, id).value].tags
    ensures ses.selectedTaskId == old(ses.selectedTaskId) && ses.selectedColumn == old(ses.selectedColumn)
    ensures ses.currentEditingTask == old(ses.currentEditingTask) && ses.currentTags == old(ses.currentTags)
    ensures ses.currentColumn == old(ses.currentColumn) && ses.allTags == old(ses.allTags)
    ensures ses.selectedListItemId == old(ses.selectedListItemId)
  {
    var found := FindTask(s.tasks, id);
    if found.None? {
      return;
    }
    ses.currentEditingListItem := Some(id);
    ses.currentListTags := s.tasks[found.value].tags;
  }

  /** The `forEach` of a creation: pushes down, by one, every task of the
      current container in `column` (every task of it for `None`). */
  method PushDown(tasks: seq<Task>, cur: string, column: Option<Status>) returns (r: seq<Task>)
    ensures r == PushedDown(tasks, cur, column)
  {
    r := tasks;
    var k := 0;
    while k < |r|
      invariant 0 <= k <= |r| == |tasks|
      invariant forall j :: 0 <= j < k ==> r[j] == PushedDown(tasks, cur, column)[j]
      invariant forall j :: k <= j < |r| ==> r[j] == tasks[j]
    {
      if PushedBy(r[k], cur, column) {
        r := r[k := r[k].(order := r[k].order + 1)];
      }
      k := k + 1;
    }
  }

  /** The creation step shared by both dialogs: push the column (or the
      whole container) down and append the new task. */
  method InsertOnTop(s: AppState, column: Option<Status>, t: Task)
    modifies s
    ensures s.tasks == Created(old(s.tasks), s.currentContainerId, column, t)
    ensures s.containers == old(s.containers) && s.currentContainerId == old(s.currentContainerId)
    ensures s.allListTags == old(s.allListTags) && s.activeTagFilters == old(s.activeTagFilters)
    ensures s.searchQuery == old(s.searchQuery)
  {
    var pushed := PushDown(s.tasks, s.currentContainerId, column);
    s.tasks := pushed + [t];
  }

  /** `saveTask()` with the dialog's raw field values; `newId` is the
      generated id and `now` the clock. */
  method SaveTask(s: AppState, ses: Session, titleIn: string, urlIn: string, notesIn: string,
                  newId: string, now: int) returns (outcome: SaveOutcome)
    modifies s
    ensures outcome == (if Trim(titleIn) == "" then MissingTitle else Saved)
    ensures outcome == MissingTitle ==> s.tasks == old(s.tasks)
    ensures outcome == Saved && ses.currentEditingTask.Some? ==>
      s.tasks == EditedList(old(s.tasks), ses.currentEditingTask.value,
                            Trim(titleIn), Trim(urlIn), Trim(notesIn), ses.currentTags)
    ensures outcome == Saved && ses.currentEditingTask.None? ==>
      s.tasks == Created(old(s.tasks), s.currentContainerId, Some(ses.currentColumn),
        NewTask(newId, Trim(titleIn), Trim(urlIn), Trim(notesIn), ses.currentTags,
                ses.currentColumn, s.currentContainerId, now))
    ensures s.containers == old(s.containers) && s.currentContainerId == old(s.currentContainerId)
    ensures s.allListTags == old(s.allListTags) && s.activeTagFilters == old(s.activeTagFilters)
    ensures s.searchQuery == old(s.searchQuery)
  {
    var title := Trim(titleIn);
    var url := Trim(urlIn);
    var notes := Trim(notesIn);
    if title == "" {
      return MissingTitle;
    }
    if ses.currentEditingTask.Some? {
      s.tasks := EditedList(s.tasks, ses.currentEditingTask.value, title, url, notes, ses.currentTags);
    } else {
      var t := NewTask(newId, title, url, notes, ses.currentTags, ses.currentColumn, s.currentContainerId, now);
      InsertOnTop(s, Some(ses.currentColumn), t);
    }
    return Saved;
  }

  /** `saveListItem()` with the dialog's raw field values; `urlValid` is the
      answer of `isValidUrl` for the trimmed url. */
  method SaveListItem(s: AppState, ses: Session, titleIn: string, urlIn: string, notesIn: string,
                      urlValid: bool, newId: string, now: int) returns (outcome: SaveOutcome)
    modifies s, ses
    ensures outcome ==
      (if Trim(titleIn) == "" then MissingTitle
       else if Trim(urlIn) != "" && !urlValid then InvalidUrl
       else Saved)
    ensures outcome != Saved ==>
      s.tasks == old(s.tasks) && ses.currentEditingListItem == old(ses.currentEditingListItem)
      && ses.currentListTags == old(ses.currentListTags)
    ensures outcome == Saved && old(ses.currentEditingListItem).Some? && old(ses.currentEditingListItem).value != "" ==>
      s.tasks == EditedList(old(s.tasks), old(ses.currentEditingListItem).value,
                            Trim(titleIn), Trim(urlIn), Trim(notesIn), old(ses.currentListTags))
    ensures outcome == Saved && !(old(ses.currentEditingListItem).Some? && old(ses.currentEditingListItem).value != "") ==>
      s.tasks == Created(old(s.tasks), s.currentContainerId, None,
        NewTask(newId, Trim(titleIn), Trim(urlIn), Trim(notesIn), old(ses.currentListTags),
                Todo, s.currentContainerId, now))
    ensures outcome == Saved ==> ses.currentEditingListItem.None? && ses.currentListTags == []
    ensures s.containers == old(s.containers) && s.currentContainerId == old(s.currentContainerId)
    ensures s.allListTags == old(s.allListTags) && s.activeTagFilters == old(s.activeTagFilters)
    ensures s.searchQuery == old(s.searchQuery)
    ensures ses.selectedTaskId == old(ses.selectedTaskId) && ses.selectedColumn == old(ses.selectedColumn)
    ensures ses.currentEditingTask == old(ses.currentEditingTask) && ses.currentTags == old(ses.currentTags)
    ensures ses.currentColumn == old(ses.currentColumn) && ses.allTags == old(ses.allTags)
    ensures ses.selectedListItemId == old(ses.selectedListItemId)
  {
    var title := Trim(titleIn);
    var url := Trim(urlIn);
    var notes := Trim(notesIn);
    if title == "" {
      return MissingTitle;
    }
    if url != "" && !urlValid {
      return InvalidUrl;
    }
    var editing := ses.currentEditingListItem;
    if editing.Some? && editing.value != "" {
      s.tasks := EditedList(s.tasks, editing.value, title, url, notes, ses.currentListTags);
    } else {
      var t := NewTask(newId, title, url, notes, ses.currentListTags, Todo, s.currentContainerId, now);
      InsertOnTop(s, None, t);
    }
    ResetListModal(ses);
    return Saved;
  }

  /** The reorder loop of `updateTaskOrder` and `handleListDrop`: `ids` are
      the task elements' ids in document order. */
  method UpdateTaskOrder(s: AppState, ids: seq<string>)
    modifies s
    ensures s.tasks == Reordered(old(s.tasks), ids)
    ensures s.containers == old(s.containers) && s.currentContainerId == old(s.currentContainerId)
    ensures s.allListTags == old(s.allListTags) && s.activeTagFilters == old(s.activeTagFilters)
    ensures s.searchQuery == old(s.searchQuery)
  {
    var ts := s.tasks;
    var k := 0;
    while k < |ids|
      invariant 0 <= k <= |ids|
      invariant ts == Reordered(s.tasks, ids[..k])
    {
      var found := FindTask(ts, ids[k]);
      if found.Some? {
        var i := found.value;
        ts := ts[i := ts[i].(order := k)];
      }
      assert ids[..k + 1][..k] == ids[..k];
      k := k + 1;
    }
    assert ids[..|ids|] == ids;
    s.tasks := ts;
  }

  /** `handleListDrop`: every list element's task gets its element index. */
  method HandleListDrop(s: AppState, ids: seq<string>)
    modifies s
    ensures s.tasks == Reordered(old(s.tasks), ids)
    ensures s.containers == old(s.containers) && s.currentContainerId == old(s.currentContainerId)
    ensures s.allListTags == old(s.allListTags) && s.activeTagFilters == old(s.activeTagFilters)
    ensures s.searchQuery == old(s.searchQuery)
  {
    UpdateTaskOrder(s, ids);
  }

  /** `handleDrop`: `itemId` is the dragged task, `newStatus` the column
      dropped on and `ids` that column's element ids in document order. */
  method HandleDrop(s: AppState, itemId: string, newStatus: Status, ids: seq<string>, now: int)
    modifies s
    ensures FindTask(old(s.tasks), itemId).None? ==> s.tasks == old(s.tasks)
    ensures FindTask(old(s.tasks), itemId).Some? ==>
      var i := FindTask(old(s.tasks), itemId).value;
      && (old(s.tasks)[i].status != newStatus ==>
            s.tasks == MovedToColumn(old(s.tasks), i, newStatus, s.currentContainerId, now))
      && (old(s.tasks)[i].status == newStatus && newStatus != Done ==>
            s.tasks == Reordered(old(s.tasks), ids))
      && (old(s.tasks)[i].status == newStatus && newStatus == Done ==> s.tasks == old(s.tasks))
    ensures s.containers == old(s.containers) && s.currentContainerId == old(s.currentContainerId)
    ensures s.allListTags == old(s.allListTags) && s.activeTagFilters == old(s.activeTagFilters)
    ensures s.searchQuery == old(s.searchQuery)
  {
    var found := FindTask(s.tasks, itemId);
    if found.None? {
      return;
    }
    var i := found.value;
    if s.tasks[i].status != newStatus {
      s.tasks := MovedToColumn(s.tasks, i, newStatus, s.currentContainerId, now);
    } else if newStatus != Done {
      UpdateTaskOrder(s, ids);
    }
  }

  // ---------------------------------------------------------------------
  // Keyboard selection
  // ---------------------------------------------------------------------

  /** `selectTask(id)`: the id becomes the selection; when its element is
      on the page (`rendered`) and a task has the id, the selected column
      becomes that task's status column. */
  method SelectTask(s: AppState, ses: Session, id: string, rendered: bool)
    modifies ses
    ensures ses.selectedTaskId == Some(id)
    ensures id != "" ==> SelectedTask(s.tasks, ses.selectedTaskId) == FindTask(s.tasks, id)
    ensures rendered && FindTask(s.tasks, id).Some? ==>
      ses.selectedColumn == ColumnIndex(s.tasks[FindTask(s.tasks, id).value].status)
    ensures !(rendered && FindTask(s.tasks, id).Some?) ==> ses.selectedColumn == old(ses.selectedColumn)
    ensures old(ses.Valid()) ==> ses.Valid()
    ensures ses.DialogsUnchanged()
  {
    ses.selectedTaskId := Some(id);
    if rendered {
      var found := FindTask(s.tasks, id);
      if found.Some? {
        ses.selectedColumn := ColumnIndex(s.tasks[found.value].status);
      }
    }
  }

  /** `clearSelection()`. */
  method ClearSelection(ses: Session)
    modifies ses
    ensures ses.selectedTaskId.None? && ses.selectedColumn == old(ses.selectedColumn)
    ensures ses.DialogsUnchanged()
  {
    ses.selectedTaskId := None;
  }

  /** The position `navigateUp` selects in a non-empty column: the top one
      when nothing is selected, otherwise the one above the selection,
      round from the top (or from a selection outside the column) to the
      bottom. */
  function UpPosition(tasks: seq<Task>, column: seq<nat>, selected: Option<string>): (r: nat)
    requires 0 < |column| && forall k :: 0 <= k < |column| ==> column[k] < |tasks|
    ensures r < |column|
  {
    if selected.None? || selected.value == "" then 0
    else
      var idx := IndexInColumn(tasks, column, selected.value);
      if idx > 0 then idx - 1 else |column| - 1
  }

  /** The position `navigateDown` selects: the top one when nothing is
      selected, otherwise the one below the selection, round from the
      bottom to the top. */
  function DownPosition(tasks: seq<Task>, column: seq<nat>, selected: Option<string>): (r: nat)
    requires 0 < |column| && forall k :: 0 <= k < |column| ==> column[k] < |tasks|
    ensures r < |column|
  {
    if selected.None? || selected.value == "" then 0
    else
      var idx := IndexInColumn(tasks, column, selected.value);
      if idx < |column| - 1 then idx + 1 else 0
  }

  /** In a column of distinct ids, looking up the id at a position finds
      that position. */
  lemma IndexInColumnAt(tasks: seq<Task>, column: seq<nat>, p: nat)
    requires p < |column| && forall k :: 0 <= k < |column| ==> column[k] < |tasks|
    requires forall a, b :: 0 <= a < b < |column| ==> tasks[column[a]].id != tasks[column[b]].id
    ensures IndexInColumn(tasks, column, tasks[column[p]].id) == p
  {
  }

  /** With distinct non-empty ids in the column, a step down undoes a step
      up and a step up undoes a step down, round the ends included. */
  lemma {:induction false} NavigateUpDownInverse(tasks: seq<Task>, column: seq<nat>, p: nat)
    requires p < |column| && forall k :: 0 <= k < |column| ==> column[k] < |tasks| && tasks[column[k]].id != ""
    requires forall a, b :: 0 <= a < b < |column| ==> tasks[column[a]].id != tasks[column[b]].id
    ensures var up := UpPosition(tasks, column, Some(tasks[column[p]].id));
      DownPosition(tasks, column, Some(tasks[column[up]].id)) == p
    ensures var down := DownPosition(tasks, column, Some(tasks[column[p]].id));
      UpPosition(tasks, column, Some(tasks[column[down]].id)) == p
  {
    IndexInColumnAt(tasks, column, p);
    IndexInColumnAt(tasks, column, UpPosition(tasks, column, Some(tasks[column[p]].id)));
    IndexInColumnAt(tasks, column, DownPosition(tasks, column, Some(tasks[column[p]].id)));
  }

  /** `navigateUp()`: in the selected column's document order, selects the
      task at `UpPosition`; an empty column changes nothing. */
  method NavigateUp(s: AppState, ses: Session, dom: Status -> seq<string>)
    requires ses.Valid()
    modifies ses
    ensures ses.Valid()
    ensures var column := ColumnTasksInOrder(s.tasks, Some(Columns[old(ses.selectedColumn)]), dom);
      column == [] ==> ses.selectedTaskId == old(ses.selectedTaskId) && ses.selectedColumn == old(ses.selectedColumn)
    ensures var column := ColumnTasksInOrder(s.tasks, Some(Columns[old(ses.selectedColumn)]), dom);
      column != [] ==>
        var t := s.tasks[column[UpPosition(s.tasks, column, old(ses.selectedTaskId))]];
        ses.selectedTaskId == Some(t.id) && ses.selectedColumn == ColumnIndex(t.status)
    ensures ses.DialogsUnchanged()
  {
    var column := ColumnTasksInOrder(s.tasks, Some(Columns[ses.selectedColumn]), dom);
    if column == [] {
      return;
    }
    var t := s.tasks[column[UpPosition(s.tasks, column, ses.selectedTaskId)]];
    SelectTask(s, ses, t.id, true);
  }

  /** `navigateDown()`: the same, selecting the task at `DownPosition`. */
  method NavigateDown(s: AppState, ses: Session, dom: Status -> seq<string>)
    requires ses.Valid()
    modifies ses
    ensures ses.Valid()
    ensures var column := ColumnTasksInOrder(s.tasks, Some(Columns[old(ses.selectedColumn)]), dom);
      column == [] ==> ses.selectedTaskId == old(ses.selectedTaskId) && ses.selectedColumn == old(ses.selectedColumn)
    ensures var column := ColumnTasksInOrder(s.tasks, Some(Columns[old(ses.selectedColumn)]), dom);
      column != [] ==>
        var t := s.tasks[column[DownPosition(s.tasks, column, old(ses.selectedTaskId))]];
        ses.selectedTaskId == Some(t.id) && ses.selectedColumn == ColumnIndex(t.status)
    ensures ses.DialogsUnchanged()
  {
    var column := ColumnTasksInOrder(s.tasks, Some(Columns[ses.selectedColumn]), dom);
    if column == [] {
      return;
    }
    var t := s.tasks[column[DownPosition(s.tasks, column, ses.selectedTaskId)]];
    SelectTask(s, ses, t.id, true);
  }

  /** `navigateLeft()` (`left`) or `navigateRight()` (`!left`): the selected
      column moves one step round the ends, and its top task is selected,
      or the selection is cleared when the column shows no task. */
  method NavigateSideways(s: AppState, ses: Session, dom: Status -> seq<string>, left: bool)
    requires ses.Valid()
    modifies ses
    ensures ses.Valid()
    ensures var c := if left then LeftOf(old(ses.selectedColumn)) else RightOf(old(ses.selectedColumn));
      var column := ColumnTasksInOrder(s.tasks, Some(Columns[c]), dom);
      && (column == [] ==> ses.selectedTaskId.None? && ses.selectedColumn == c)
      && (column != [] ==> ses.selectedTaskId == Some(s.tasks[column[0]].id)
                           && ses.selectedColumn == ColumnIndex(s.tasks[column[0]].status))
    ensures ses.DialogsUnchanged()
  {
    ses.selectedColumn := if left then LeftOf(ses.selectedColumn) else RightOf(ses.selectedColumn);
    var column := ColumnTasksInOrder(s.tasks, Some(Columns[ses.selectedColumn]), dom);
    if column != [] {
      SelectTask(s, ses, s.tasks[column[0]].id, true);
    } else {
      ClearSelection(ses);
    }
  }

  /** `moveTaskUp` with the column looked up by the task's status; `dom`
      gives each column's element ids in document order and `rendered`
      says whether the re-rendered board shows the task. After a swap the
      task is reselected, which sets the selected column to its status. */
  method MoveTaskUp(s: AppState, ses: Session, dom: Status -> seq<string>, rendered: bool)
    modifies s, ses
    ensures s.tasks == VerticalMove(old(s.tasks), old(ses.selectedTaskId), dom, false, true)
    ensures var moved := VerticalNeighbour(old(s.tasks), old(ses.selectedTaskId), dom, false, true).Some?;
      && (moved && rendered ==>
            ses.selectedColumn == ColumnIndex(old(s.tasks)[SelectedTask(old(s.tasks), old(ses.selectedTaskId)).value].status))
      && (!(moved && rendered) ==> ses.selectedColumn == old(ses.selectedColumn))
    ensures ses.selectedTaskId == old(ses.selectedTaskId)
    ensures old(ses.Valid()) ==> ses.Valid()
    ensures ses.DialogsUnchanged()
    ensures s.containers == old(s.containers) && s.currentContainerId == old(s.currentContainerId)
    ensures s.allListTags == old(s.allListTags) && s.activeTagFilters == old(s.activeTagFilters)
    ensures s.searchQuery == old(s.searchQuery)
  {
    SwapAndReselect(s, ses, dom, rendered, true);
  }

  /** `moveTaskDown` with the column looked up by the task's status. */
  method MoveTaskDown(s: AppState, ses: Session, dom: Status -> seq<string>, rendered: bool)
    modifies s, ses
    ensures s.tasks == VerticalMove(old(s.tasks), old(ses.selectedTaskId), dom, false, false)
    ensures var moved := VerticalNeighbour(old(s.tasks), old(ses.selectedTaskId), dom, false, false).Some?;
      && (moved && rendered ==>
            ses.selectedColumn == ColumnIndex(old(s.tasks)[SelectedTask(old(s.tasks), old(ses.selectedTaskId)).value].status))
      && (!(moved && rendered) ==> ses.selectedColumn == old(ses.selectedColumn))
    ensures ses.selectedTaskId == old(ses.selectedTaskId)
    ensures old(ses.Valid()) ==> ses.Valid()
    ensures ses.DialogsUnchanged()
    ensures s.containers == old(s.containers) && s.currentContainerId == old(s.currentContainerId)
    ensures s.allListTags == old(s.allListTags) && s.activeTagFilters == old(s.activeTagFilters)
    ensures s.searchQuery == old(s.searchQuery)
  {
    SwapAndReselect(s, ses, dom, rendered, false);
  }

  /** The swap of the two intended moves: the selected task exchanges its
      order with its neighbour, if it has one; `moved` says whether it did.
      The ids and the statuses stay where they were. */
  method SwapWithNeighbour(s: AppState, selected: Option<string>, dom: Status -> seq<string>, up: bool)
    returns (moved: bool)
    modifies s
    ensures moved == VerticalNeighbour(old(s.tasks), selected, dom, false, up).Some?
    ensures s.tasks == VerticalMove(old(s.tasks), selected, dom, false, up)
    ensures SameIds(s.tasks, old(s.tasks))
    ensures forall k :: 0 <= k < |s.tasks| ==> s.tasks[k].status == old(s.tasks)[k].status
    ensures s.containers == old(s.containers) && s.currentContainerId == old(s.currentContainerId)
    ensures s.allListTags == old(s.allListTags) && s.activeTagFilters == old(s.activeTagFilters)
    ensures s.searchQuery == old(s.searchQuery)
  {
    moved := VerticalNeighbour(s.tasks, selected, dom, false, up).Some?;
    VerticalMoveSwapsNeighbours(s.tasks, selected, dom, up);
    s.tasks := VerticalMove(s.tasks, selected, dom, false, up);
  }

  /** The shared body of the two intended moves: the swap, then
      `selectTask` of the moved task. */
  method SwapAndReselect(s: AppState, ses: Session, dom: Status -> seq<string>, rendered: bool, up: bool)
    modifies s, ses
    ensures s.tasks == VerticalMove(old(s.tasks), old(ses.selectedTaskId), dom, false, up)
    ensures var moved := VerticalNeighbour(old(s.tasks), old(ses.selectedTaskId), dom, false, up).Some?;
      && (moved && rendered ==>
            ses.selectedColumn == ColumnIndex(old(s.tasks)[SelectedTask(old(s.tasks), old(ses.selectedTaskId)).value].status))
      && (!(moved && rendered) ==> ses.selectedColumn == old(ses.selectedColumn))
    ensures ses.selectedTaskId == old(ses.selectedTaskId)
    ensures old(ses.Valid()) ==> ses.Valid()
    ensures ses.DialogsUnchanged()
    ensures s.containers == old(s.containers) && s.currentContainerId == old(s.currentContainerId)
    ensures s.allListTags == old(s.allListTags) && s.activeTagFilters == old(s.activeTagFilters)
    ensures s.searchQuery == old(s.searchQuery)
  {
    var sel := SelectedTask(s.tasks, ses.selectedTaskId);
    var moved := SwapWithNeighbour(s, ses.selectedTaskId, dom, up);
    if moved {
      var id := ses.selectedTaskId.value;
      FindTaskSameIds(s.tasks, old(s.tasks), id);
      assert FindTask(s.tasks, id) == sel;
      SelectTask(s, ses, id, rendered);
    }
  }

  /** `moveTaskUp` as written: it reads `task.column`, so the column lookup
      finds nothing and no order changes. */
  method MoveTaskUpAsWritten(s: AppState, ses: Session, dom: Status -> seq<string>)
    modifies s
    ensures s.tasks == old(s.tasks)
    ensures s.containers == old(s.containers) && s.currentContainerId == old(s.currentContainerId)
    ensures s.allListTags == old(s.allListTags) && s.activeTagFilters == old(s.activeTagFilters)
    ensures s.searchQuery == old(s.searchQuery)
  {
    VerticalMoveAsWrittenNoOp(s.tasks, ses.selectedTaskId, dom, true);
    s.tasks := VerticalMove(s.tasks, ses.selectedTaskId, dom, true, true);
  }

  /** `moveTaskDown` as written: a no-op for the same reason. */
  method MoveTaskDownAsWritten(s: AppState, ses: Session, dom: Status -> seq<string>)
    modifies s
    ensures s.tasks == old(s.tasks)
    ensures s.containers == old(s.containers) && s.currentContainerId == old(s.currentContainerId)
    ensures s.allListTags == old(s.allListTags) && s.activeTagFilters == old(s.activeTagFilters)
    ensures s.searchQuery == old(s.searchQuery)
  {
    VerticalMoveAsWrittenNoOp(s.tasks, ses.selectedTaskId, dom, false);
    s.tasks := VerticalMove(s.tasks, ses.selectedTaskId, dom, true, false);
  }

  /** `moveTaskLeft` (`left`) or `moveTaskRight` (`!left`): the selected task
      moves to the column beside the selected column, round the ends. */
  method MoveTaskSideways(s: AppState, ses: Session, left: bool, now: int)
    requires ses.Valid()
    modifies s, ses
    ensures ses.Valid()
    ensures SelectedTask(old(s.tasks), ses.selectedTaskId).None? ==>
      s.tasks == old(s.tasks) && ses.selectedColumn == old(ses.selectedColumn)
    ensures SelectedTask(old(s.tasks), ses.selectedTaskId).Some? ==>
      var c := if left then LeftOf(old(ses.selectedColumn)) else RightOf(old(ses.selectedColumn));
      && s.tasks == MovedToColumn(old(s.tasks), SelectedTask(old(s.tasks), ses.selectedTaskId).value,
                                  Columns[c], s.currentContainerId, now)
      && ses.selectedColumn == c
    ensures ses.selectedTaskId == old(ses.selectedTaskId)
    ensures ses.currentEditingTask == old(ses.currentEditingTask) && ses.currentColumn == old(ses.currentColumn)
    ensures ses.currentTags == old(ses.currentTags) && ses.allTags == old(ses.allTags)
    ensures ses.selectedListItemId == old(ses.selectedListItemId)
    ensures ses.currentEditingListItem == old(ses.currentEditingListItem)
    ensures ses.currentListTags == old(ses.currentListTags)
    ensures s.containers == old(s.containers) && s.currentContainerId == old(s.currentContainerId)
    ensures s.allListTags == old(s.allListTags) && s.activeTagFilters == old(s.activeTagFilters)
    ensures s.searchQuery == old(s.searchQuery)
  {
    var sel := SelectedTask(s.tasks, ses.selectedTaskId);
    if sel.None? {
      return;
    }
    var c := if left then LeftOf(ses.selectedColumn) else RightOf(ses.selectedColumn);
    var moved := MovedToColumn(s.tasks, sel.value, Columns[c], s.currentContainerId, now);
    s.tasks := moved;
    ses.selectedColumn := c;
  }

  /** `toggleHold(id)`: the hold flips and a selected task is reselected,
      which brings the selected column back to the task's status when the
      re-rendered board shows it (`rendered`). */
  method ToggleHold(s: AppState, ses: Session, id: string, rendered: bool)
    modifies s, ses
    ensures s.tasks == ToggledHold(old(s.tasks), id)
    ensures var found := FindTask(old(s.tasks), id);
      found.Some? && old(ses.selectedTaskId) == Some(id) && rendered ==>
        ses.selectedColumn == ColumnIndex(old(s.tasks)[found.value].status)
    ensures !(FindTask(old(s.tasks), id).Some? && old(ses.selectedTaskId) == Some(id) && rendered) ==>
      ses.selectedColumn == old(ses.selectedColumn)
    ensures ses.selectedTaskId == old(ses.selectedTaskId)
    ensures old(ses.Valid()) ==> ses.Valid()
    ensures ses.DialogsUnchanged()
    ensures s.containers == old(s.containers) && s.currentContainerId == old(s.currentContainerId)
    ensures s.allListTags == old(s.allListTags) && s.activeTagFilters == old(s.activeTagFilters)
    ensures s.searchQuery == old(s.searchQuery)
  {
    var found := FindTask(s.tasks, id);
    if found.Some? {
      var i := found.value;
      s.tasks := s.tasks[i := s.tasks[i].(onHold := !s.tasks[i].onHold)];
      if ses.selectedTaskId == Some(id) {
        FindTaskSameIds(s.tasks, old(s.tasks), id);
        SelectTask(s, ses, id, rendered);
      }
    }
  }

  /** `toggleListItemOnHold(id)`: the same change to the tasks as
      `toggleHold`, with no reselection. */
  method ToggleListItemOnHold(s: AppState, id: string)
    modifies s
    ensures s.tasks == ToggledHold(old(s.tasks), id)
    ensures s.containers == old(s.containers) && s.currentContainerId == old(s.currentContainerId)
    ensures s.allListTags == old(s.allListTags) && s.activeTagFilters == old(s.activeTagFilters)
    ensures s.searchQuery == old(s.searchQuery)
  {
    var found := FindTask(s.tasks, id);
    if found.Some? {
      var i := found.value;
      s.tasks := s.tasks[i := s.tasks[i].(onHold := !s.tasks[i].onHold)];
    }
  }

  /** `toggleListItemComplete(id)`. */
  method ToggleListItemComplete(s: AppState, id: string, now: int)
    modifies s
    ensures s.tasks == UpdateFirst(old(s.tasks), id, (t: Task) => ToggledComplete(t, now))
    ensures AllConsistent(old(s.tasks)) ==> AllConsistent(s.tasks)
    ensures s.containers == old(s.containers) && s.currentContainerId == old(s.currentContainerId)
    ensures s.allListTags == old(s.allListTags) && s.activeTagFilters == old(s.activeTagFilters)
    ensures s.searchQuery == old(s.searchQuery)
  {
    var found := FindTask(s.tasks, id);
    if found.Some? {
      var i := found.value;
      s.tasks := s.tasks[i := ToggledComplete(s.tasks[i], now)];
    }
  }

  /** `deleteTaskById(id)`: `confirmed` is the user's answer. */
  method DeleteTaskById(s: AppState, id: string, confirmed: bool)
    modifies s
    ensures !confirmed || FindTask(old(s.tasks), id).None? ==> s.tasks == old(s.tasks)
    ensures confirmed && FindTask(old(s.tasks), id).Some? ==>
      s.tasks == RemoveAt(old(s.tasks), FindTask(old(s.tasks), id).value)
    ensures s.containers == old(s.containers) && s.currentContainerId == old(s.currentContainerId)
    ensures s.allListTags == old(s.allListTags) && s.activeTagFilters == old(s.activeTagFilters)
    ensures s.searchQuery == old(s.searchQuery)
  {
    if !confirmed {
      return;
    }
    var found := FindTask(s.tasks, id);
    if found.Some? {
      s.tasks := RemoveAt(s.tasks, found.value);
    }
  }

  /** `deleteTaskByIdFromButton(id)`: the selection is cleared first, even
      when the deletion is then declined. */
  method DeleteTaskByIdFromButton(s: AppState, ses: Session, id: string, confirmed: bool)
    modifies s, ses
    ensures old(ses.selectedTaskId) == Some(id) ==> ses.selectedTaskId.None?
    ensures old(ses.selectedTaskId) != Some(id) ==> ses.selectedTaskId == old(ses.selectedTaskId)
    ensures !confirmed || FindTask(old(s.tasks), id).None? ==> s.tasks == old(s.tasks)
    ensures confirmed && FindTask(old(s.tasks), id).Some? ==>
      s.tasks == RemoveAt(old(s.tasks), FindTask(old(s.tasks), id).value)
    ensures ses.selectedColumn == old(ses.selectedColumn) && ses.currentTags == old(ses.currentTags)
    ensures ses.currentEditingTask == old(ses.currentEditingTask) && ses.currentColumn == old(ses.currentColumn)
    ensures ses.allTags == old(ses.allTags) && ses.currentEditingListItem == old(ses.currentEditingListItem)
    ensures ses.selectedListItemId == old(ses.selectedListItemId)
    ensures ses.currentListTags == old(ses.currentListTags)
    ensures s.containers == old(s.containers) && s.currentContainerId == old(s.currentContainerId)
    ensures s.allListTags == old(s.allListTags) && s.activeTagFilters == old(s.activeTagFilters)
    ensures s.searchQuery == old(s.searchQuery)
  {
    if ses.selectedTaskId == Some(id) {
      ses.selectedTaskId := None;
    }
    DeleteTaskById(s, id, confirmed);
  }

  /** `deleteListItem(id)`: every task with the id is removed. */
  method DeleteListItem(s: AppState, ses: Session, id: string, confirmed: bool)
    modifies s, ses
    ensures !confirmed ==> s.tasks == old(s.tasks) && ses.selectedListItemId == old(ses.selectedListItemId)
    ensures confirmed ==> s.tasks == TasksWithoutId(old(s.tasks), id)
    ensures confirmed && old(ses.selectedListItemId) == Some(id) ==> ses.selectedListItemId.None?
    ensures old(ses.selectedListItemId) != Some(id) ==> ses.selectedListItemId == old(ses.selectedListItemId)
    ensures ses.selectedTaskId == old(ses.selectedTaskId) && ses.currentListTags == old(ses.currentListTags)
    ensures ses.selectedColumn == old(ses.selectedColumn) && ses.currentTags == old(ses.currentTags)
    ensures ses.currentEditingTask == old(ses.currentEditingTask) && ses.currentColumn == old(ses.currentColumn)
    ensures ses.allTags == old(ses.allTags) && ses.currentEditingListItem == old(ses.currentEditingListItem)
    ensures s.containers == old(s.containers) && s.currentContainerId == old(s.currentContainerId)
    ensures s.allListTags == old(s.allListTags) && s.activeTagFilters == old(s.activeTagFilters)
    ensures s.searchQuery == old(s.searchQuery)
  {
    if !confirmed {
      return;
    }
    s.tasks := TasksWithoutId(s.tasks, id);
    if ses.selectedListItemId == Some(id) {
      ses.selectedListItemId := None;
    }
  }

  /** `addTag(tagText)` on the board dialog's tags. */
  method AddTag(ses: Session, tagText: string)
    modifies ses
    ensures ses.currentTags == WithTag(old(ses.currentTags), tagText)
    ensures ses.currentListTags == old(ses.currentListTags) && ses.selectedTaskId == old(ses.selectedTaskId)
    ensures ses.currentEditingTask == old(ses.currentEditingTask) && ses.currentColumn == old(ses.currentColumn)
    ensures ses.allTags == old(ses.allTags) && ses.currentEditingListItem == old(ses.currentEditingListItem)
    ensures ses.selectedColumn == old(ses.selectedColumn) && ses.selectedListItemId == old(ses.selectedListItemId)
  {
    if tagText != "" && tagText !in ses.currentTags {
      ses.currentTags := ses.currentTags + [tagText];
    }
  }

  /** `removeTag(index)`; the index is that of a displayed tag. */
  method RemoveTag(ses: Session, index: nat)
    requires index < |ses.currentTags|
    modifies ses
    ensures ses.currentTags == RemoveAt(old(ses.currentTags), index)
    ensures ses.currentListTags == old(ses.currentListTags) && ses.selectedTaskId == old(ses.selectedTaskId)
    ensures ses.currentEditingTask == old(ses.currentEditingTask) && ses.currentColumn == old(ses.currentColumn)
    ensures ses.allTags == old(ses.allTags) && ses.currentEditingListItem == old(ses.currentEditingListItem)
    ensures ses.selectedColumn == old(ses.selectedColumn) && ses.selectedListItemId == old(ses.selectedListItemId)
  {
    ses.currentTags := RemoveAt(ses.currentTags, index);
  }

  /** `addListTag(tag)`: the tag is trimmed and lower-cased; a new non-empty
      tag joins the dialog's tags and the list view's tag set. */
  method AddListTag(s: AppState, ses: Session, tag: string)
    modifies s, ses
    ensures ses.currentListTags == WithTag(old(ses.currentListTags), ListTag(tag))
    ensures ListTag(tag) != "" && ListTag(tag) !in old(ses.currentListTags) ==>
      s.allListTags == old(s.allListTags) + {ListTag(tag)}
    ensures !(ListTag(tag) != "" && ListTag(tag) !in old(ses.currentListTags)) ==>
      s.allListTags == old(s.allListTags)
    ensures s.tasks == old(s.tasks) && s.activeTagFilters == old(s.activeTagFilters)
    ensures s.containers == old(s.containers) && s.currentContainerId == old(s.currentContainerId)
    ensures s.searchQuery == old(s.searchQuery)
    ensures ses.currentTags == old(ses.currentTags)
    ensures ses.selectedTaskId == old(ses.selectedTaskId) && ses.selectedColumn == old(ses.selectedColumn)
    ensures ses.currentEditingTask == old(ses.currentEditingTask) && ses.currentColumn == old(ses.currentColumn)
    ensures ses.allTags == old(ses.allTags) && ses.currentEditingListItem == old(ses.currentEditingListItem)
    ensures ses.selectedListItemId == old(ses.selectedListItemId)
  {
    var t := ListTag(tag);
    if t != "" && t !in ses.currentListTags {
      ses.currentListTags := ses.currentListTags + [t];
      s.allListTags := s.allListTags + {t};
    }
  }

  /** `removeListTag(tag)`. */
  method RemoveListTag(ses: Session, tag: string)
    modifies ses
    ensures ses.currentListTags == WithoutTag(old(ses.currentListTags), tag)
    ensures ses.currentTags == old(ses.currentTags)
    ensures ses.selectedTaskId == old(ses.selectedTaskId) && ses.selectedColumn == old(ses.selectedColumn)
    ensures ses.currentEditingTask == old(ses.currentEditingTask) && ses.currentColumn == old(ses.currentColumn)
    ensures ses.allTags == old(ses.allTags) && ses.currentEditingListItem == old(ses.currentEditingListItem)
    ensures ses.selectedListItemId == old(ses.selectedListItemId)
  {
    ses.currentListTags := WithoutTag(ses.currentListTags, tag);
  }

  /** `collectAllTags()`: the board's tag set, tags as typed. */
  method CollectAllTags(s: AppState, ses: Session)
    modifies ses
    ensures ses.allTags == TagSet(ContainerItems(s.tasks, s.currentContainerId), false)
    ensures ses.currentTags == old(ses.currentTags) && ses.selectedTaskId == old(ses.selectedTaskId)
    ensures ses.selectedColumn == old(ses.selectedColumn) && ses.currentColumn == old(ses.currentColumn)
    ensures ses.currentEditingTask == old(ses.currentEditingTask)
    ensures ses.selectedListItemId == old(ses.selectedListItemId)
    ensures ses.currentEditingListItem == old(ses.currentEditingListItem)
    ensures ses.currentListTags == old(ses.currentListTags)
  {
    ses.allTags := CollectTags(ContainerItems(s.tasks, s.currentContainerId), false);
  }
}
