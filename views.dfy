/** The orderings and groupings the two views render: the board columns,
    the done column grouped by day, and the list view's active and
    completed sections with the completed tasks grouped by age. */
module Views {
  import opened Wrappers
  import Format
  import opened Seqs
  import opened State
  import opened Filters
  import opened Containers
  import opened Board

  /** The local calendar day of an instant, days counted from the epoch;
      `tz` is the local offset from UTC in milliseconds. */
  function LocalDay(ms: int, tz: int): int {
    (ms + tz) / Format.DayMs
  }

  /** Later instants never fall on earlier days. */
  lemma LocalDayMonotone(a: int, b: int, tz: int)
    requires a <= b
    ensures LocalDay(a, tz) <= LocalDay(b, tz)
  {
  }

  /** The tasks the board and the list show: the current container's tasks
      that pass the search and the tag filters. */
  function Visible(tasks: seq<Task>, cur: string, query: string, filters: set<string>): seq<Task> {
    FilterByTags(FilterBySearch(ContainerItems(tasks, cur), query), filters)
  }

  /** `items.filter(item => item.status === st)`. */
  function InColumn(items: seq<Task>, st: Status): (r: seq<Task>)
    ensures forall k :: 0 <= k < |items| ==> (items[k] in r <==> items[k].status == st)
    ensures forall k :: 0 <= k < |r| ==> r[k] in items
  {
    Filter(items, (t: Task) => t.status == st)
  }

  /** Every copy of an item with the status is kept, and no other. */
  lemma InColumnCounts(items: seq<Task>, st: Status)
    ensures forall u :: multiset(InColumn(items, st))[u] == if u.status == st then multiset(items)[u] else 0
  {
    FilterCounts(items, (t: Task) => t.status == st);
  }

  /** `(a.order || 0) - (b.order || 0)`: the ascending order key. */
  function OrderKey(t: Task): int {
    t.order
  }

  /** A todo or in-progress board column: the column's visible tasks,
      ascending by order. */
  function BoardColumn(tasks: seq<Task>, cur: string, query: string, filters: set<string>, st: Status): (r: seq<Task>)
    ensures SortedBy(r, OrderKey)
    ensures multiset(r) == multiset(InColumn(Visible(tasks, cur, query, filters), st))
  {
    SortBy(InColumn(Visible(tasks, cur, query, filters), st), OrderKey)
  }

  /** The instant the done column orders by: completion, else creation. */
  function DoneTime(t: Task): int {
    t.completedAt.GetOr(t.createdAt)
  }

  /** Most recent first. */
  function RecentFirstKey(t: Task): int {
    -DoneTime(t)
  }

  /** The done board column: its visible tasks, most recently finished
      first. Day groups ordered newest first, each ordered newest first,
      give this order. */
  function DoneColumn(tasks: seq<Task>, cur: string, query: string, filters: set<string>): (r: seq<Task>)
    ensures SortedBy(r, RecentFirstKey)
    ensures multiset(r) == multiset(InColumn(Visible(tasks, cur, query, filters), Done))
  {
    SortBy(InColumn(Visible(tasks, cur, query, filters), Done), RecentFirstKey)
  }

  /** The day of a done task in the board's grouping. */
  function DayOf(t: Task, tz: int): int {
    LocalDay(DoneTime(t), tz)
  }

  /** The grouping key of the done column. */
  function DayKey(tz: int): Task -> int {
    (t: Task) => DayOf(t, tz)
  }

  /** Along the done column the days never increase: the day groups appear
      newest first and each group is contiguous. */
  lemma DoneColumnDaysDescend(tasks: seq<Task>, cur: string, query: string, filters: set<string>, tz: int)
    ensures var r := DoneColumn(tasks, cur, query, filters);
      forall i, j :: 0 <= i < j < |r| ==> DayOf(r[i], tz) >= DayOf(r[j], tz)
  {
    var r := DoneColumn(tasks, cur, query, filters);
    forall i, j | 0 <= i < j < |r|
      ensures DayOf(r[i], tz) >= DayOf(r[j], tz)
    {
      assert RecentFirstKey(r[i]) <= RecentFirstKey(r[j]);
      LocalDayMonotone(DoneTime(r[j]), DoneTime(r[i]), tz);
    }
  }

  /** A task of a visible column is one of the tasks, in the current
      container and in that column. */
  lemma VisibleColumnMember(tasks: seq<Task>, cur: string, query: string, filters: set<string>,
                            st: Status, u: Task)
    requires u in InColumn(Visible(tasks, cur, query, filters), st)
    ensures u in tasks && InContainer(u, cur) && u.status == st
  {
    var items := ContainerItems(tasks, cur);
    var searched := FilterBySearch(items, query);
    var shown := FilterByTags(searched, filters);
    var col := InColumn(shown, st);
    var a :| 0 <= a < |col| && col[a] == u;
    assert u in shown;
    var b :| 0 <= b < |shown| && shown[b] == u;
    assert u in searched;
    var c :| 0 <= c < |searched| && searched[c] == u;
    assert u in items;
  }

  /** A task of the current container that passes the search and the tag
      filters is shown in its column. */
  lemma VisibleColumnHas(tasks: seq<Task>, cur: string, query: string, filters: set<string>, t: Task)
    requires t in tasks && InContainer(t, cur)
    requires query == "" || MatchesSearch(t, query)
    requires filters == {} || HasActiveTag(t, filters)
    ensures t in InColumn(Visible(tasks, cur, query, filters), t.status)
  {
    var items := ContainerItems(tasks, cur);
    var j :| 0 <= j < |tasks| && tasks[j] == t;
    assert t in items;
    var searched := FilterBySearch(items, query);
    var ki :| 0 <= ki < |items| && items[ki] == t;
    assert t in searched;
    var shown := FilterByTags(searched, filters);
    var ks :| 0 <= ks < |searched| && searched[ks] == t;
    assert t in shown;
    var kc :| 0 <= kc < |shown| && shown[kc] == t;
  }

  /** After a creation every other task of the new task's column has an
      order of at least 1, when no order was negative before. */
  lemma CreatedPushesColumn(tasks: seq<Task>, cur: string, t: Task, u: Task)
    requires forall k :: 0 <= k < |tasks| ==> tasks[k].order >= 0
    requires u in Created(tasks, cur, Some(t.status), t)
    requires InContainer(u, cur) && u.status == t.status
    ensures u == t || u.order >= 1
  {
    var after := Created(tasks, cur, Some(t.status), t);
    var j :| 0 <= j < |after| && after[j] == u;
    if j < |tasks| {
      assert after[j] == PushedDown(tasks, cur, Some(t.status))[j];
    }
  }

  /** A new board task is created on top: when the existing orders are not
      negative and the new task passes the filters, it is the first task of
      its column. */
  lemma CreatedOnTop(tasks: seq<Task>, cur: string, query: string, filters: set<string>, t: Task)
    requires forall k :: 0 <= k < |tasks| ==> tasks[k].order >= 0
    requires t.order == 0 && t.containerId == Some(cur)
    requires query == "" || MatchesSearch(t, query)
    requires filters == {} || HasActiveTag(t, filters)
    ensures var r := BoardColumn(Created(tasks, cur, Some(t.status), t), cur, query, filters, t.status);
      |r| > 0 && r[0] == t
  {
    var after := Created(tasks, cur, Some(t.status), t);
    assert after[|tasks|] == t;
    VisibleColumnHas(after, cur, query, filters, t);
    var col := InColumn(Visible(after, cur, query, filters), t.status);
    var r := BoardColumn(after, cur, query, filters, t.status);
    assert t in multiset(r);
    var m :| 0 <= m < |r| && r[m] == t;
    assert OrderKey(r[0]) <= OrderKey(r[m]);
    assert r[0] in multiset(col);
    VisibleColumnMember(after, cur, query, filters, t.status, r[0]);
    CreatedPushesColumn(tasks, cur, t, r[0]);
  }

  // ---------------------------------------------------------------------
  // Grouping
  // ---------------------------------------------------------------------

  /** The keys that occur among the items. */
  function KeysOf<K>(items: seq<Task>, key: Task -> K): set<K> {
    set k | 0 <= k < |items| :: key(items[k])
  }

  /** The items with a given key, in their order. */
  function WithKey<K(==)>(items: seq<Task>, key: Task -> K, g: K): (r: seq<Task>)
    ensures forall k :: 0 <= k < |r| ==> r[k] in items && key(r[k]) == g
    ensures forall k :: 0 <= k < |items| ==> (items[k] in r <==> key(items[k]) == g)
  {
    Filter(items, (t: Task) => key(t) == g)
  }

  /** Every copy of an item with the key is in its group, and no other. */
  lemma WithKeyCounts<K>(items: seq<Task>, key: Task -> K, g: K)
    ensures forall u :: multiset(WithKey(items, key, g))[u] == if key(u) == g then multiset(items)[u] else 0
  {
    FilterCounts(items, (t: Task) => key(t) == g);
  }

  /** A key that no item has has no items. */
  lemma {:induction false} WithKeyAbsent<K>(items: seq<Task>, key: Task -> K, g: K)
    requires forall k :: 0 <= k < |items| ==> key(items[k]) != g
    ensures WithKey(items, key, g) == []
    decreases |items|
  {
    if items != [] {
      var init := items[..|items| - 1];
      assert forall k :: 0 <= k < |init| ==> init[k] == items[k];
      WithKeyAbsent(init, key, g);
    }
  }

  /** Adding an item to the end adds it to the end of its own key's items
      only. */
  lemma WithKeySnoc<K>(items: seq<Task>, x: Task, key: Task -> K, g: K)
    ensures WithKey(items + [x], key, g) == WithKey(items, key, g) + (if key(x) == g then [x] else [])
  {
    var s := items + [x];
    assert s[..|s| - 1] == items;
  }

  /** Adding an item to the end adds its key. */
  lemma KeysSnoc<K>(items: seq<Task>, x: Task, key: Task -> K)
    ensures KeysOf(items + [x], key) == KeysOf(items, key) + {key(x)}
  {
    var s := items + [x];
    forall g | g in KeysOf(s, key)
      ensures g in KeysOf(items, key) + {key(x)}
    {
      var k :| 0 <= k < |s| && key(s[k]) == g;
      if k < |items| {
        assert key(items[k]) == g;
      }
    }
    forall g | g in KeysOf(items, key)
      ensures g in KeysOf(s, key)
    {
      var k :| 0 <= k < |items| && key(items[k]) == g;
      assert key(s[k]) == g;
    }
    assert key(s[|items|]) == key(x);
  }

  /** One group per key that occurs, holding that key's items in order. */
  function GroupsOf<K(==)>(items: seq<Task>, key: Task -> K): map<K, seq<Task>> {
    map g | g in KeysOf(items, key) :: WithKey(items, key, g)
  }

  /** The loop `items.forEach(item => (groups[key(item)] ||= []).push(item))`
      of `groupTasksByDate` and of the list view's completed section. */
  method GroupBy<K(==)>(items: seq<Task>, key: Task -> K) returns (groups: map<K, seq<Task>>)
    ensures groups == GroupsOf(items, key)
  {
    groups := map[];
    var i := 0;
    while i < |items|
      invariant 0 <= i <= |items|
      invariant groups == GroupsOf(items[..i], key)
    {
      var t := items[i];
      var g := key(t);
      GroupsSnoc(items[..i], t, key);
      assert items[..i + 1] == items[..i] + [t];
      var prev := if g in groups then groups[g] else [];
      groups := groups[g := prev + [t]];
      i := i + 1;
    }
    assert items[..|items|] == items;
  }

  /** Adding one item to the end adds it to the end of its key's group. */
  lemma GroupsSnoc<K>(items: seq<Task>, t: Task, key: Task -> K)
    ensures var before := GroupsOf(items, key);
      GroupsOf(items + [t], key)
        == before[key(t) := (if key(t) in before then before[key(t)] else []) + [t]]
  {
    var before := GroupsOf(items, key);
    var after := GroupsOf(items + [t], key);
    var expected := before[key(t) := (if key(t) in before then before[key(t)] else []) + [t]];
    KeysSnoc(items, t, key);
    assert after.Keys == expected.Keys;
    forall g | g in after
      ensures after[g] == expected[g]
    {
      GroupSnoc(items, t, key, g);
    }
    MapsAgree(after, expected);
  }

  /** The group of one key after appending an item: the item joins the
      group of its own key, which is new when the key did not occur. */
  lemma GroupSnoc<K>(items: seq<Task>, t: Task, key: Task -> K, g: K)
    ensures WithKey(items + [t], key, g)
      == if g == key(t)
         then (if g in KeysOf(items, key) then WithKey(items, key, g) else []) + [t]
         else WithKey(items, key, g)
  {
    WithKeySnoc(items, t, key, g);
    if g == key(t) && g !in KeysOf(items, key) {
      assert forall k :: 0 <= k < |items| ==> key(items[k]) in KeysOf(items, key);
      WithKeyAbsent(items, key, g);
    }
  }

  /** Two maps with the same keys and the same value at every key are equal. */
  lemma MapsAgree<K, V>(a: map<K, V>, b: map<K, V>)
    requires a.Keys == b.Keys
    requires forall g :: g in a ==> a[g] == b[g]
    ensures a == b
  {
  }

  /** `groupTasksByDate(items)`, keyed by the local day of each task's
      completion (else creation) instant. */
  method GroupTasksByDate(items: seq<Task>, tz: int) returns (groups: map<int, seq<Task>>)
    ensures groups == GroupsOf(items, DayKey(tz))
    ensures forall d :: d in groups ==> forall k :: 0 <= k < |groups[d]| ==> DayOf(groups[d][k], tz) == d
    ensures forall k :: 0 <= k < |items| ==>
      DayOf(items[k], tz) in groups && items[k] in groups[DayOf(items[k], tz)]
  {
    groups := GroupBy(items, DayKey(tz));
    assert forall k :: 0 <= k < |items| ==> DayOf(items[k], tz) in KeysOf(items, DayKey(tz));
  }

  // ---------------------------------------------------------------------
  // The list view
  // ---------------------------------------------------------------------

  /** Completion time or, when missing, the epoch: `completedAt || 0`. */
  function CompletedKey(t: Task): int {
    -t.completedAt.GetOr(0)
  }

  /** The open (not done) items, in their order. */
  function OpenItems(items: seq<Task>): (r: seq<Task>)
    ensures forall k :: 0 <= k < |r| ==> r[k].status != Done
  {
    Filter(items, (t: Task) => t.status != Done)
  }

  /** Every copy of an open item is kept, and no other. */
  lemma OpenItemsCounts(items: seq<Task>)
    ensures forall u :: multiset(OpenItems(items))[u] == if u.status != Done then multiset(items)[u] else 0
  {
    FilterCounts(items, (t: Task) => t.status != Done);
  }

  /** The list view's active section: open tasks ascending by order, then
      the search and tag filters; a rearrangement of the filtered open
      tasks of the container. */
  function ActiveItems(tasks: seq<Task>, cur: string, query: string, filters: set<string>): (r: seq<Task>)
    ensures SortedBy(r, OrderKey)
    ensures multiset(r) == multiset(FilterByTags(FilterBySearch(OpenItems(ContainerItems(tasks, cur)), query), filters))
  {
    var items := OpenItems(ContainerItems(tasks, cur));
    var open := SortBy(items, OrderKey);
    FiltersKeepSorted(open, query, filters, OrderKey);
    FiltersPermutation(open, items, query, filters);
    FilterByTags(FilterBySearch(open, query), filters)
  }

  /** The list view's completed section: done tasks, most recently completed
      first, then the search and tag filters; a rearrangement of the
      filtered done tasks of the container. */
  function CompletedItems(tasks: seq<Task>, cur: string, query: string, filters: set<string>): (r: seq<Task>)
    ensures SortedBy(r, CompletedKey)
    ensures forall k :: 0 <= k < |r| ==> r[k].status == Done
    ensures multiset(r) == multiset(FilterByTags(FilterBySearch(InColumn(ContainerItems(tasks, cur), Done), query), filters))
  {
    var items := InColumn(ContainerItems(tasks, cur), Done);
    var done := SortBy(items, CompletedKey);
    FiltersKeepSorted(done, query, filters, CompletedKey);
    AllDone(done, items);
    FiltersPermutation(done, items, query, filters);
    FilterByTags(FilterBySearch(done, query), filters)
  }

  /** A rearrangement of done tasks holds only done tasks. */
  lemma AllDone(s: seq<Task>, xs: seq<Task>)
    requires multiset(s) == multiset(xs)
    requires forall k :: 0 <= k < |xs| ==> xs[k].status == Done
    ensures forall k :: 0 <= k < |s| ==> s[k].status == Done
  {
    forall k | 0 <= k < |s|
      ensures s[k].status == Done
    {
      assert s[k] in multiset(xs);
    }
  }

  /** The sections hold exactly the current container's tasks that pass the
      filters, each in the section of its status and as often as it occurs
      in the task list: none lost, none added, none duplicated. */
  lemma SectionsHoldTheirTasks(tasks: seq<Task>, cur: string, query: string, filters: set<string>)
    ensures forall u :: multiset(ActiveItems(tasks, cur, query, filters))[u]
                == if InContainer(u, cur) && u.status != Done && Passes(u, query, filters) then multiset(tasks)[u] else 0
    ensures forall u :: multiset(CompletedItems(tasks, cur, query, filters))[u]
                == if InContainer(u, cur) && u.status == Done && Passes(u, query, filters) then multiset(tasks)[u] else 0
    ensures forall u :: u in ActiveItems(tasks, cur, query, filters)
                <==> u in tasks && InContainer(u, cur) && u.status != Done && Passes(u, query, filters)
    ensures forall u :: u in CompletedItems(tasks, cur, query, filters)
                <==> u in tasks && InContainer(u, cur) && u.status == Done && Passes(u, query, filters)
  {
    var items := ContainerItems(tasks, cur);
    var open, done := OpenItems(items), InColumn(items, Done);
    var a, c := ActiveItems(tasks, cur, query, filters), CompletedItems(tasks, cur, query, filters);
    ContainerItemsCounts(tasks, cur);
    OpenItemsCounts(items);
    InColumnCounts(items, Done);
    FiltersCounts(open, query, filters);
    FiltersCounts(done, query, filters);
    forall u
      ensures multiset(a)[u] == if InContainer(u, cur) && u.status != Done && Passes(u, query, filters) then multiset(tasks)[u] else 0
      ensures multiset(c)[u] == if InContainer(u, cur) && u.status == Done && Passes(u, query, filters) then multiset(tasks)[u] else 0
    {
    }
    forall u
      ensures u in a <==> u in tasks && InContainer(u, cur) && u.status != Done && Passes(u, query, filters)
      ensures u in c <==> u in tasks && InContainer(u, cur) && u.status == Done && Passes(u, query, filters)
    {
      assert u in a <==> u in multiset(a);
      assert u in c <==> u in multiset(c);
      assert u in tasks <==> u in multiset(tasks);
    }
  }

  /** The age groups of completed tasks, in display order. */
  datatype DateGroup = Today | Yesterday | Last7Days | Last30Days | Older

  /** The display position of a group. */
  function Rank(g: DateGroup): nat {
    match g
    case Today => 0
    case Yesterday => 1
    case Last7Days => 2
    case Last30Days => 3
    case Older => 4
  }

  /** `getDateGroup(completedAt)` at the instant `now`: a missing date is
      older; otherwise the first group whose starting day the task's day
      reaches. */
  function GetDateGroup(date: Option<int>, now: int, tz: int): (r: DateGroup)
    ensures date.None? ==> r == Older
    ensures date.Some? ==>
      var day := LocalDay(date.value, tz);
      var today := LocalDay(now, tz);
      && (r == Today <==> day >= today)
      && (r == Yesterday <==> day == today - 1)
      && (r == Last7Days <==> today - 7 <= day < today - 1)
      && (r == Last30Days <==> today - 30 <= day < today - 7)
      && (r == Older <==> day < today - 30)
  {
    if date.None? then Older
    else
      var day := LocalDay(date.value, tz);
      var today := LocalDay(now, tz);
      if day >= today then Today
      else if day >= today - 1 then Yesterday
      else if day >= today - 7 then Last7Days
      else if day >= today - 30 then Last30Days
      else Older
  }

  /** A later completion never lands in a later-displayed group. */
  lemma GetDateGroupMonotone(a: int, b: int, now: int, tz: int)
    requires a <= b
    ensures Rank(GetDateGroup(Some(b), now, tz)) <= Rank(GetDateGroup(Some(a), now, tz))
  {
    LocalDayMonotone(a, b, tz);
  }

  /** The group of a completed task. */
  function GroupOf(t: Task, now: int, tz: int): DateGroup {
    GetDateGroup(t.completedAt, now, tz)
  }

  /** The grouping key of the completed section. */
  function GroupKey(now: int, tz: int): Task -> DateGroup {
    (t: Task) => GroupOf(t, now, tz)
  }

  /** The completed tasks of one age group, in order. */
  function Bucket(items: seq<Task>, g: DateGroup, now: int, tz: int): seq<Task> {
    WithKey(items, GroupKey(now, tz), g)
  }

  /** The completed section as rendered: the groups in display order, each
      holding its tasks in the section's order. */
  function GroupedSection(items: seq<Task>, now: int, tz: int): seq<Task> {
    Bucket(items, Today, now, tz) + Bucket(items, Yesterday, now, tz) + Bucket(items, Last7Days, now, tz)
      + Bucket(items, Last30Days, now, tz) + Bucket(items, Older, now, tz)
  }

  /** The rendered groups are the groups the grouping loop builds; a group
      the loop never created is rendered as empty. */
  lemma GroupedSectionFromLoop(items: seq<Task>, now: int, tz: int, g: DateGroup)
    ensures var groups := GroupsOf(items, GroupKey(now, tz));
      (if g in groups then groups[g] else []) == Bucket(items, g, now, tz)
  {
    var groups := GroupsOf(items, GroupKey(now, tz));
    if g !in groups {
      assert forall k :: 0 <= k < |items| ==> GroupKey(now, tz)(items[k]) in KeysOf(items, GroupKey(now, tz));
      WithKeyAbsent(items, GroupKey(now, tz), g);
    }
  }

  /** Appending one item to one of five consecutive parts, when every
      later part is empty, appends it to the whole. */
  lemma AppendToPart<T>(init: seq<T>, x: T, b: seq<seq<T>>, c: seq<seq<T>>, i: nat)
    requires |b| == 5 && |c| == 5 && i < 5
    requires init == b[0] + b[1] + b[2] + b[3] + b[4]
    requires forall j :: 0 <= j < 5 && j != i ==> c[j] == b[j]
    requires c[i] == b[i] + [x]
    requires forall j :: i < j < 5 ==> b[j] == []
    ensures c[0] + c[1] + c[2] + c[3] + c[4] == init + [x]
  {
    if i == 0 {
      assert init == b[0];
    } else if i == 1 {
      assert init == b[0] + b[1];
    } else if i == 2 {
      assert init == b[0] + b[1] + b[2];
    } else if i == 3 {
      assert init == b[0] + b[1] + b[2] + b[3];
    }
  }

  /** Appending a task whose group is displayed no earlier than any other
      task's keeps an already grouped order. */
  lemma GroupedSectionSnoc(init: seq<Task>, x: Task, now: int, tz: int)
    requires forall k :: 0 <= k < |init| ==> Rank(GroupOf(init[k], now, tz)) <= Rank(GroupOf(x, now, tz))
    requires GroupedSection(init, now, tz) == init
    ensures GroupedSection(init + [x], now, tz) == init + [x]
  {
    var i := Rank(GroupOf(x, now, tz));
    var b, c := Buckets(init, now, tz), Buckets(init + [x], now, tz);
    forall j | 0 <= j < 5 && i < j
      ensures b[j] == []
    {
      LaterBucketEmpty(init, now, tz, i, j);
    }
    forall j | 0 <= j < 5
      ensures c[j] == b[j] + (if i == j then [x] else [])
    {
      BucketSnoc(init, x, now, tz, j);
    }
    AppendToPart(init, x, b, c, i);
  }

  /** Each group sits at the position of its rank. */
  lemma RankOfGroups(j: nat)
    requires j < 5
    ensures Rank(Groups[j]) == j
  {
  }

  /** A bucket displayed after the groups of all items is empty. */
  lemma LaterBucketEmpty(items: seq<Task>, now: int, tz: int, i: nat, j: nat)
    requires i < j < 5
    requires forall k :: 0 <= k < |items| ==> Rank(GroupOf(items[k], now, tz)) <= i
    ensures Buckets(items, now, tz)[j] == []
  {
    RankOfGroups(j);
    WithKeyAbsent(items, GroupKey(now, tz), Groups[j]);
  }

  /** Appending an item extends only the bucket of its own group. */
  lemma BucketSnoc(init: seq<Task>, x: Task, now: int, tz: int, j: nat)
    requires j < 5
    ensures Buckets(init + [x], now, tz)[j]
      == Buckets(init, now, tz)[j] + (if Rank(GroupOf(x, now, tz)) == j then [x] else [])
  {
    RankOfGroups(j);
    WithKeySnoc(init, x, GroupKey(now, tz), Groups[j]);
  }

  /** The groups in display order. */
  const Groups: seq<DateGroup> := [Today, Yesterday, Last7Days, Last30Days, Older]

  /** The five buckets of the completed section, in display order. */
  function Buckets(items: seq<Task>, now: int, tz: int): (r: seq<seq<Task>>)
    ensures |r| == 5
    ensures forall j :: 0 <= j < 5 ==> r[j] == Bucket(items, Groups[j], now, tz)
    ensures GroupedSection(items, now, tz) == r[0] + r[1] + r[2] + r[3] + r[4]
  {
    [Bucket(items, Today, now, tz), Bucket(items, Yesterday, now, tz), Bucket(items, Last7Days, now, tz),
     Bucket(items, Last30Days, now, tz), Bucket(items, Older, now, tz)]
  }

  /** Grouping tasks whose groups already come in display order keeps their
      order. */
  lemma {:induction false} GroupedSectionKeepsOrder(items: seq<Task>, now: int, tz: int)
    requires forall i, j :: 0 <= i < j < |items| ==>
      Rank(GroupOf(items[i], now, tz)) <= Rank(GroupOf(items[j], now, tz))
    ensures GroupedSection(items, now, tz) == items
    decreases |items|
  {
    if items != [] {
      var init := items[..|items| - 1];
      var x := items[|items| - 1];
      assert items == init + [x];
      assert forall k :: 0 <= k < |init| ==> init[k] == items[k];
      GroupedSectionKeepsOrder(init, now, tz);
      GroupedSectionSnoc(init, x, now, tz);
    }
  }

  /** The completed section's age groups list its tasks in exactly the
      most-recent-first order of the section, once `now` is more than 30
      days past the epoch (a missing completion time sorts as the epoch and
      is grouped as older). */
  lemma CompletedGroupsKeepRecency(tasks: seq<Task>, cur: string, query: string, filters: set<string>,
                                   now: int, tz: int)
    requires LocalDay(0, tz) < LocalDay(now, tz) - 30
    ensures var c := CompletedItems(tasks, cur, query, filters);
      GroupedSection(c, now, tz) == c
  {
    var c := CompletedItems(tasks, cur, query, filters);
    forall i, j | 0 <= i < j < |c|
      ensures Rank(GroupOf(c[i], now, tz)) <= Rank(GroupOf(c[j], now, tz))
    {
      RecencyRank(c[i], c[j], now, tz);
    }
    GroupedSectionKeepsOrder(c, now, tz);
  }

  /** A task completed no later than another is grouped no newer. */
  lemma RecencyRank(x: Task, y: Task, now: int, tz: int)
    requires LocalDay(0, tz) < LocalDay(now, tz) - 30
    requires CompletedKey(x) <= CompletedKey(y)
    ensures Rank(GroupOf(x, now, tz)) <= Rank(GroupOf(y, now, tz))
  {
    var a, b := x.completedAt.GetOr(0), y.completedAt.GetOr(0);
    if y.completedAt.None? {
      assert GroupOf(y, now, tz) == Older;
    } else if x.completedAt.None? {
      LocalDayMonotone(b, 0, tz);
      assert GroupOf(y, now, tz) == Older;
    } else {
      GetDateGroupMonotone(b, a, now, tz);
    }
  }
}
