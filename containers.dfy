/** The container registry: named task lists, the current one, and the
    queries that restrict the shared task list to it. */
module Containers {
  import opened Wrappers
  import opened Text
  import opened Seqs
  import opened State

  /** `getContainerItems`' membership rule: the task names the current
      container, or it names none (missing or empty, an older record) and the
      current container is the default one. */
  predicate InContainer(t: Task, cur: string) {
    t.containerId == Some(cur)
    || ((t.containerId.None? || t.containerId == Some("")) && cur == DefaultId)
  }

  /** `getContainerItems()`: exactly the tasks of the current container, in
      their order in the task list. */
  function ContainerItems(tasks: seq<Task>, cur: string): (r: seq<Task>)
    ensures forall k :: 0 <= k < |tasks| ==> (tasks[k] in r <==> InContainer(tasks[k], cur))
    ensures forall k :: 0 <= k < |r| ==> r[k] in tasks && InContainer(r[k], cur)
  {
    Filter(tasks, t => InContainer(t, cur))
  }

  /** Every copy of a task of the current container is kept, and no other. */
  lemma ContainerItemsCounts(tasks: seq<Task>, cur: string)
    ensures forall u :: multiset(ContainerItems(tasks, cur))[u] == if InContainer(u, cur) then multiset(tasks)[u] else 0
  {
    FilterCounts(tasks, t => InContainer(t, cur));
  }

  /** A task that names another container is never one of the items, and a
      task without a container belongs only to the default container. */
  lemma ContainerItemsExclusive(t: Task, cur: string)
    ensures t.containerId.Some? && t.containerId.value != "" && t.containerId.value != cur
      ==> t !in ContainerItems([t], cur)
    ensures (t.containerId.None? || t.containerId == Some("")) && cur != DefaultId && cur != ""
      ==> t !in ContainerItems([t], cur)
    ensures t.containerId.None? ==> t in ContainerItems([t], DefaultId)
  {
    assert [t][0] == t;
  }

  /** A tag as collected: lower-cased for the list view's tag set, as typed
      for the board's. */
  function Norm(tag: string, lower: bool): string {
    if lower then Lower(tag) else tag
  }

  /** Some tag of some item, normalised, is `tag`. */
  predicate HasTag(items: seq<Task>, tag: string, lower: bool) {
    exists i, j :: 0 <= i < |items| && 0 <= j < |items[i].tags| && Norm(items[i].tags[j], lower) == tag
  }

  /** The tags of one item, normalised. */
  function ItemTags(t: Task, lower: bool): set<string> {
    set j | 0 <= j < |t.tags| :: Norm(t.tags[j], lower)
  }

  /** The set of all tags of `items`, normalised. */
  function TagSet(items: seq<Task>, lower: bool): set<string>
    decreases |items|
  {
    if items == [] then {}
    else TagSet(items[..|items| - 1], lower) + ItemTags(items[|items| - 1], lower)
  }

  /** The tag set holds a tag exactly when some item carries it. */
  lemma {:induction false} TagSetMembers(items: seq<Task>, lower: bool, tag: string)
    ensures tag in TagSet(items, lower) <==> HasTag(items, tag, lower)
    decreases |items|
  {
    if items != [] {
      var init := items[..|items| - 1];
      var last := items[|items| - 1];
      TagSetMembers(init, lower, tag);
      if HasTag(init, tag, lower) {
        var i, j :| 0 <= i < |init| && 0 <= j < |init[i].tags| && Norm(init[i].tags[j], lower) == tag;
        assert items[i] == init[i];
      }
      if tag in ItemTags(last, lower) {
        var j :| 0 <= j < |last.tags| && Norm(last.tags[j], lower) == tag;
        assert items[|items| - 1] == last;
      }
      if HasTag(items, tag, lower) {
        var i, j :| 0 <= i < |items| && 0 <= j < |items[i].tags| && Norm(items[i].tags[j], lower) == tag;
        if i < |init| {
          assert init[i] == items[i];
        }
      }
    }
  }

  /** The loop `items.forEach(item => item.tags.forEach(tag => set.add(tag)))`
      shared by `collectAllTags` (tags as typed) and the rebuilding of the
      list view's tag set (tags lower-cased). */
  method CollectTags(items: seq<Task>, lower: bool) returns (r: set<string>)
    ensures r == TagSet(items, lower)
  {
    r := {};
    var i := 0;
    while i < |items|
      invariant 0 <= i <= |items|
      invariant r == TagSet(items[..i], lower)
    {
      var t := items[i];
      var j := 0;
      var added: set<string> := {};
      while j < |t.tags|
        invariant 0 <= j <= |t.tags|
        invariant added == set m | 0 <= m < j :: Norm(t.tags[m], lower)
      {
        added := added + {Norm(t.tags[j], lower)};
        j := j + 1;
      }
      r := r + added;
      assert items[..i + 1][..i] == items[..i];
      i := i + 1;
    }
    assert items[..|items|] == items;
  }

  /** A container with this id is registered. */
  predicate HasContainer(cs: seq<Container>, id: string) {
    exists k :: 0 <= k < |cs| && cs[k].id == id
  }

  /** `containers.find(c => c.id === id)`, as the position of the first match. */
  function FindContainer(cs: seq<Container>, id: string): (r: Option<nat>)
    ensures r.None? <==> !HasContainer(cs, id)
    ensures r.Some? ==>
      r.value < |cs| && cs[r.value].id == id && forall k :: 0 <= k < r.value ==> cs[k].id != id
    decreases |cs|
  {
    if cs == [] then None
    else if cs[0].id == id then Some(0)
    else
      var r := FindContainer(cs[1..], id);
      assert forall k :: 1 <= k < |cs| ==> cs[k] == cs[1..][k - 1];
      if r.None? then None else Some(r.value + 1)
  }

  /** `getCurrentContainer()`: the current container, else the first one;
      nothing only when there are no containers at all. */
  function GetCurrentContainer(cs: seq<Container>, cur: string): (r: Option<Container>)
    ensures r.None? <==> cs == []
    ensures HasContainer(cs, cur) ==> r.Some? && r.value.id == cur
    ensures !HasContainer(cs, cur) && cs != [] ==> r == Some(cs[0])
  {
    match FindContainer(cs, cur)
    case Some(k) => Some(cs[k])
    case None => if cs == [] then None else Some(cs[0])
  }

  /** The container list after loading: the saved list if there is one, and a
      single default container when the result would be empty. */
  function LoadedContainers(before: seq<Container>, saved: Option<seq<Container>>): (r: seq<Container>)
    ensures r != []
    ensures saved.Some? && saved.value != [] ==> r == saved.value
    ensures saved.None? && before != [] ==> r == before
    ensures (if saved.Some? then saved.value else before) == [] ==> r == [Container(DefaultId, DefaultName)]
  {
    var cs := if saved.Some? then saved.value else before;
    if cs == [] then [Container(DefaultId, DefaultName)] else cs
  }

  /** The current container after loading: the saved id when one is stored
      and registered, the first container otherwise. */
  function LoadedCurrentId(cs: seq<Container>, savedId: string): (r: string)
    requires cs != []
    ensures HasContainer(cs, r)
    ensures savedId != "" && HasContainer(cs, savedId) ==> r == savedId
    ensures !(savedId != "" && HasContainer(cs, savedId)) ==> r == cs[0].id
  {
    if savedId != "" && HasContainer(cs, savedId) then savedId else cs[0].id
  }

  /** `loadContainers`: `saved` is the parsed stored container list (`None`
      when nothing is stored) and `savedId` the stored current id (empty when
      nothing is stored). */
  method LoadContainers(s: AppState, saved: Option<seq<Container>>, savedId: string)
    modifies s
    ensures s.containers == LoadedContainers(old(s.containers), saved)
    ensures s.currentContainerId == LoadedCurrentId(s.containers, savedId)
    ensures s.allListTags == TagSet(ContainerItems(s.tasks, s.currentContainerId), true)
    ensures s.tasks == old(s.tasks) && s.activeTagFilters == old(s.activeTagFilters)
    ensures s.searchQuery == old(s.searchQuery)
  {
    if saved.Some? {
      s.containers := saved.value;
    }
    if |s.containers| == 0 {
      s.containers := [Container(DefaultId, DefaultName)];
    }
    if savedId != "" && HasContainer(s.containers, savedId) {
      s.currentContainerId := savedId;
    } else {
      s.currentContainerId := s.containers[0].id;
    }
    s.allListTags := CollectTags(ContainerItems(s.tasks, s.currentContainerId), true);
  }

  /** After loading, the current container is always found. */
  lemma LoadedCurrentIsFound(before: seq<Container>, saved: Option<seq<Container>>, savedId: string)
    ensures var cs := LoadedContainers(before, saved);
      GetCurrentContainer(cs, LoadedCurrentId(cs, savedId)).Some?
      && GetCurrentContainer(cs, LoadedCurrentId(cs, savedId)).value.id == LoadedCurrentId(cs, savedId)
  {
  }

  /** `switchContainer(id)`: the id is taken as given, the filters and the
      search are cleared and the list view's tag set is rebuilt from the new
      container's tasks. */
  method SwitchContainer(s: AppState, id: string)
    modifies s
    ensures s.currentContainerId == id
    ensures s.activeTagFilters == {} && s.searchQuery == ""
    ensures s.allListTags == TagSet(ContainerItems(s.tasks, id), true)
    ensures s.tasks == old(s.tasks) && s.containers == old(s.containers)
  {
    s.currentContainerId := id;
    s.activeTagFilters := {};
    s.searchQuery := "";
    s.allListTags := CollectTags(ContainerItems(s.tasks, id), true);
  }

  /** `createNewContainer`: `input` is the typed name and `newId` the
      generated id. */
  method CreateNewContainer(s: AppState, input: string, newId: string)
    modifies s
    ensures Trim(input) == "" ==>
      s.containers == old(s.containers) && s.currentContainerId == old(s.currentContainerId)
      && s.activeTagFilters == old(s.activeTagFilters) && s.searchQuery == old(s.searchQuery)
      && s.allListTags == old(s.allListTags)
    ensures Trim(input) != "" ==>
      s.containers == old(s.containers) + [Container(newId, Trim(input))]
      && s.currentContainerId == newId
      && s.activeTagFilters == {} && s.searchQuery == ""
      && s.allListTags == TagSet(ContainerItems(s.tasks, newId), true)
    ensures s.tasks == old(s.tasks)
  {
    var name := Trim(input);
    if name == "" {
      return;
    }
    s.containers := s.containers + [Container(newId, name)];
    SwitchContainer(s, newId);
  }

  /** The rename rule of `saveName`: the trimmed new name replaces the old
      one only when it is non-empty and different. */
  function Renamed(c: Container, input: string): (r: Container)
    ensures r.id == c.id
    ensures r.name != c.name <==> Trim(input) != "" && Trim(input) != c.name
    ensures r.name != c.name ==> r.name == Trim(input)
  {
    var name := Trim(input);
    if name != "" && name != c.name then c.(name := name) else c
  }

  /** `editContainerName(id)` followed by its `saveName` with the typed
      `input`; an unknown id does nothing. */
  method SaveName(s: AppState, id: string, input: string)
    modifies s
    ensures FindContainer(old(s.containers), id).None? ==> s.containers == old(s.containers)
    ensures FindContainer(old(s.containers), id).Some? ==>
      var k := FindContainer(old(s.containers), id).value;
      s.containers == old(s.containers)[k := Renamed(old(s.containers)[k], input)]
    ensures s.tasks == old(s.tasks) && s.currentContainerId == old(s.currentContainerId)
    ensures s.allListTags == old(s.allListTags) && s.activeTagFilters == old(s.activeTagFilters)
    ensures s.searchQuery == old(s.searchQuery)
  {
    var found := FindContainer(s.containers, id);
    if found.None? {
      return;
    }
    var k := found.value;
    var newName := Trim(input);
    if newName != "" && newName != s.containers[k].name {
      s.containers := s.containers[k := s.containers[k].(name := newName)];
    }
  }

  /** Renaming keeps every container's id, so the registry and the current
      container are unaffected by it. */
  lemma RenameKeepsIds(cs: seq<Container>, k: nat, input: string, id: string)
    requires k < |cs|
    ensures HasContainer(cs[k := Renamed(cs[k], input)], id) <==> HasContainer(cs, id)
  {
    var cs' := cs[k := Renamed(cs[k], input)];
    if HasContainer(cs, id) {
      var m :| 0 <= m < |cs| && cs[m].id == id;
      assert cs'[m].id == id;
    }
    if HasContainer(cs', id) {
      var m :| 0 <= m < |cs'| && cs'[m].id == id;
      assert cs[m].id == id;
    }
  }

  /** `handleContainerDrop`: `dragged` is the index being dragged (`None` when
      no drag is in progress) and `target` the index dropped on. */
  method HandleContainerDrop(s: AppState, dragged: Option<nat>, target: nat)
    requires dragged.Some? ==> dragged.value < |s.containers|
    requires target < |s.containers|
    modifies s
    ensures dragged.None? || dragged.value == target ==> s.containers == old(s.containers)
    ensures dragged.Some? && dragged.value != target ==>
      s.containers == Moved(old(s.containers), dragged.value, target)
    ensures s.tasks == old(s.tasks) && s.currentContainerId == old(s.currentContainerId)
    ensures s.allListTags == old(s.allListTags) && s.activeTagFilters == old(s.activeTagFilters)
    ensures s.searchQuery == old(s.searchQuery)
  {
    if dragged.None? || dragged.value == target {
      return;
    }
    var moved := s.containers[dragged.value];
    var rest := RemoveAt(s.containers, dragged.value);
    s.containers := InsertAt(rest, target, moved);
  }

  /** `deleteContainer(id)`: `confirmed` is the user's answer to the prompt.
      The default container and unknown ids are never deleted. */
  method DeleteContainer(s: AppState, id: string, confirmed: bool)
    modifies s
    ensures !HasContainer(old(s.containers), id) || id == DefaultId || !confirmed ==>
      s.tasks == old(s.tasks) && s.containers == old(s.containers)
      && s.currentContainerId == old(s.currentContainerId)
      && s.activeTagFilters == old(s.activeTagFilters) && s.searchQuery == old(s.searchQuery)
      && s.allListTags == old(s.allListTags)
    ensures HasContainer(old(s.containers), id) && id != DefaultId && confirmed ==>
      s.tasks == TasksOutside(old(s.tasks), id)
      && s.containers == ContainersWithout(old(s.containers), id)
      && (old(s.currentContainerId) == id ==>
            s.currentContainerId == DefaultId && s.activeTagFilters == {} && s.searchQuery == ""
            && s.allListTags == TagSet(ContainerItems(s.tasks, DefaultId), true))
      && (old(s.currentContainerId) != id ==>
            s.currentContainerId == old(s.currentContainerId)
            && s.activeTagFilters == old(s.activeTagFilters) && s.searchQuery == old(s.searchQuery)
            && s.allListTags == old(s.allListTags))
  {
    if !HasContainer(s.containers, id) || id == DefaultId {
      return;
    }
    if !confirmed {
      return;
    }
    s.tasks := TasksOutside(s.tasks, id);
    s.containers := ContainersWithout(s.containers, id);
    if s.currentContainerId == id {
      SwitchContainer(s, DefaultId);
    }
  }

  /** `tasks.filter(item => item.containerId !== id)`. */
  function TasksOutside(tasks: seq<Task>, id: string): (r: seq<Task>)
    ensures forall k :: 0 <= k < |tasks| ==> (tasks[k] in r <==> tasks[k].containerId != Some(id))
    ensures forall k :: 0 <= k < |r| ==> r[k] in tasks
  {
    Filter(tasks, (t: Task) => t.containerId != Some(id))
  }

  /** `containers.filter(c => c.id !== id)`. */
  function ContainersWithout(cs: seq<Container>, id: string): (r: seq<Container>)
    ensures !HasContainer(r, id)
    ensures forall k :: 0 <= k < |cs| && cs[k].id != id ==> cs[k] in r
    ensures forall k :: 0 <= k < |r| ==> r[k] in cs
  {
    var r := Filter(cs, (c: Container) => c.id != id);
    assert forall k :: 0 <= k < |r| ==> r[k].id != id;
    r
  }

  /** Deleting a container's tasks removes exactly the tasks that name it:
      the survivors and the removed tasks together are the old task list. */
  lemma DeleteRemovesExactly(tasks: seq<Task>, id: string)
    ensures multiset(TasksOutside(tasks, id))
      + multiset(Filter(tasks, (t: Task) => t.containerId == Some(id))) == multiset(tasks)
  {
    FilterPartition(tasks, (t: Task) => t.containerId != Some(id), (t: Task) => t.containerId == Some(id));
  }

  /** The done tasks among `items`. */
  function DoneItems(items: seq<Task>): (r: seq<Task>)
    ensures forall k :: 0 <= k < |items| ==> (items[k] in r <==> items[k].status == Done)
  {
    Filter(items, (t: Task) => t.status == Done)
  }

  /** `updateBoardCount`: the number of done tasks and the number of tasks in
      the current container. */
  function BoardCount(tasks: seq<Task>, cur: string): (r: (nat, nat))
    ensures r.0 <= r.1
    ensures r.1 == |ContainerItems(tasks, cur)|
    ensures r.0 == |DoneItems(ContainerItems(tasks, cur))|
  {
    var items := ContainerItems(tasks, cur);
    (|DoneItems(items)|, |items|)
  }

  /** The done count and the count of tasks still open add up to the total. */
  lemma BoardCountSplits(tasks: seq<Task>, cur: string)
    ensures BoardCount(tasks, cur).0 + |Filter(ContainerItems(tasks, cur), (t: Task) => t.status != Done)|
      == BoardCount(tasks, cur).1
  {
    var items := ContainerItems(tasks, cur);
    FilterPartition(items, (t: Task) => t.status == Done, (t: Task) => t.status != Done);
  }
}
