/** The records the task manager keeps and the state its components share:
    the task list, the container registry, the current container, and the
    search and tag filters. */
module State {
  import opened Wrappers

  /** `STATUS`: the three board columns a task can be in. */
  datatype Status = Todo | InProgress | Done

  /** `COLUMN_NAMES`: the board columns from left to right. */
  const Columns: seq<Status> := [Todo, InProgress, Done]

  /** `COLUMN_NAMES.indexOf(status)`. */
  function ColumnIndex(st: Status): (i: nat)
    ensures i < |Columns| && Columns[i] == st
  {
    match st
    case Todo => 0
    case InProgress => 1
    case Done => 2
  }

  /** A task record. Times are milliseconds since the epoch; a missing text
      field reads as the empty string and a missing `order` as 0, which is
      how every reader of those fields treats them. */
  datatype Task = Task(
    id: string,
    title: string,
    url: string,
    notes: string,
    tags: seq<string>,
    status: Status,
    order: int,
    containerId: Option<string>,
    createdAt: int,
    completedAt: Option<int>,
    startedAt: Option<int>,
    onHold: bool)

  /** A named list of tasks. */
  datatype Container = Container(id: string, name: string)

  const DefaultId: string := "default"
  const DefaultName: string := "My Tasks"

  /** The completion invariant: a task is done exactly when it carries a
      completion time. */
  predicate CompletionConsistent(t: Task) {
    t.status == Done <==> t.completedAt.Some?
  }

  predicate AllConsistent(ts: seq<Task>) {
    forall k :: 0 <= k < |ts| ==> CompletionConsistent(ts[k])
  }

  /** The state shared by the board, the list, the container registry and
      the filters. */
  class AppState {
    var tasks: seq<Task>
    var containers: seq<Container>
    /** The empty string stands for the `null` the id holds before the
        containers are loaded. */
    var currentContainerId: string
    var allListTags: set<string>
    var activeTagFilters: set<string>
    var searchQuery: string

    /** The state before anything is loaded. */
    constructor()
      ensures tasks == [] && containers == [] && currentContainerId == ""
      ensures allListTags == {} && activeTagFilters == {} && searchQuery == ""
    {
      tasks := [];
      containers := [];
      currentContainerId := "";
      allListTags := {};
      activeTagFilters := {};
      searchQuery := "";
    }
  }
}
