/** Search and tag filtering shared by the board and the list view. */
module Filters {
  import opened Text
  import opened Seqs
  import opened State

  /** An item matches a (non-empty, normalised) query when its lower-cased
      title or lower-cased notes contain it. */
  predicate MatchesSearch(t: Task, query: string) {
    (t.title != "" && Contains(Lower(t.title), query))
    || (t.notes != "" && Contains(Lower(t.notes), query))
  }

  /** `filterBySearch(items)` under the query `query`. */
  function FilterBySearch(items: seq<Task>, query: string): (r: seq<Task>)
    ensures query == "" ==> r == items
    ensures query != "" ==> forall k :: 0 <= k < |items| ==>
      (items[k] in r <==> MatchesSearch(items[k], query))
    ensures forall k :: 0 <= k < |r| ==> r[k] in items
  {
    if query == "" then items else Filter(items, t => MatchesSearch(t, query))
  }

  /** Some tag of the item, lower-cased, is one of the active filters. */
  predicate HasActiveTag(t: Task, filters: set<string>) {
    exists k :: 0 <= k < |t.tags| && Lower(t.tags[k]) in filters
  }

  /** `filterByTags(items)` under the active filter set `filters`: with any
      filter active, an item is kept when at least one of its tags is active. */
  function FilterByTags(items: seq<Task>, filters: set<string>): (r: seq<Task>)
    ensures filters == {} ==> r == items
    ensures filters != {} ==> forall k :: 0 <= k < |items| ==>
      (items[k] in r <==> HasActiveTag(items[k], filters))
    ensures filters != {} ==> forall k :: 0 <= k < |r| ==> r[k].tags != []
    ensures forall k :: 0 <= k < |r| ==> r[k] in items
  {
    if filters == {} then items else Filter(items, t => HasActiveTag(t, filters))
  }

  /** Both filters keep the surviving items in their original order. */
  lemma FiltersKeepOrder(items: seq<Task>, query: string, filters: set<string>)
    ensures IsSubsequence(FilterBySearch(items, query), items)
    ensures IsSubsequence(FilterByTags(items, filters), items)
  {
    if query == "" {
      SubsequenceRefl(items);
    } else {
      FilterIsSubsequence(items, t => MatchesSearch(t, query));
    }
    if filters == {} {
      SubsequenceRefl(items);
    } else {
      FilterIsSubsequence(items, t => HasActiveTag(t, filters));
    }
  }

  /** An item the search and the tag filters both let through. */
  predicate Passes(t: Task, query: string, filters: set<string>) {
    (query == "" || MatchesSearch(t, query)) && (filters == {} || HasActiveTag(t, filters))
  }

  /** Together the two filters keep every copy of a passing item and no
      copy of any other. */
  lemma FiltersCounts(items: seq<Task>, query: string, filters: set<string>)
    ensures forall u :: multiset(FilterByTags(FilterBySearch(items, query), filters))[u]
                == if Passes(u, query, filters) then multiset(items)[u] else 0
  {
    var a := FilterBySearch(items, query);
    if query != "" {
      FilterCounts(items, t => MatchesSearch(t, query));
    }
    if filters != {} {
      FilterCounts(a, t => HasActiveTag(t, filters));
    }
  }

  /** Filtering a rearrangement gives a rearrangement of the filtered items. */
  lemma FiltersPermutation(items: seq<Task>, other: seq<Task>, query: string, filters: set<string>)
    requires multiset(items) == multiset(other)
    ensures multiset(FilterByTags(FilterBySearch(items, query), filters))
      == multiset(FilterByTags(FilterBySearch(other, query), filters))
  {
    var a, b := FilterBySearch(items, query), FilterBySearch(other, query);
    if query != "" {
      FilterPermutation(items, other, t => MatchesSearch(t, query));
    }
    if filters != {} {
      FilterPermutation(a, b, t => HasActiveTag(t, filters));
    }
  }

  /** Filtering a sequence sorted by some key leaves it sorted by that key,
      so the views may sort first and filter afterwards. */
  lemma FiltersKeepSorted(items: seq<Task>, query: string, filters: set<string>, key: Task -> int)
    requires SortedBy(items, key)
    ensures SortedBy(FilterByTags(FilterBySearch(items, query), filters), key)
  {
    var a := FilterBySearch(items, query);
    if query != "" {
      FilterSorted(items, t => MatchesSearch(t, query), key);
    }
    if filters != {} {
      FilterSorted(a, t => HasActiveTag(t, filters), key);
    }
  }

  /** `toggleTagFilter(tag)`: membership of `tag` flips, nothing else changes. */
  function Toggled(filters: set<string>, tag: string): (r: set<string>)
    ensures tag in r <==> tag !in filters
    ensures forall t :: t != tag ==> (t in r <==> t in filters)
  {
    if tag in filters then filters - {tag} else filters + {tag}
  }

  /** Toggling the same tag twice restores the filter set. */
  lemma ToggleTwice(filters: set<string>, tag: string)
    ensures Toggled(Toggled(filters, tag), tag) == filters
  {
  }

  /** `handleSearchInput`: the query is stored lower-cased and trimmed. */
  method HandleSearchInput(s: AppState, input: string)
    modifies s
    ensures s.searchQuery == Trim(Lower(input))
    ensures s.tasks == old(s.tasks) && s.containers == old(s.containers)
    ensures s.currentContainerId == old(s.currentContainerId)
    ensures s.allListTags == old(s.allListTags) && s.activeTagFilters == old(s.activeTagFilters)
  {
    var q := Trim(Lower(input));
    s.searchQuery := q;
  }

  /** The stored query is already normalised: lower-casing or trimming it
      again changes nothing, and it equals the trimmed input lower-cased. */
  lemma NormalisedQuery(input: string)
    ensures var q := Trim(Lower(input));
      Lower(q) == q && Trim(q) == q && q == Lower(Trim(input))
  {
    var q := Trim(Lower(input));
    TrimIdempotent(Lower(input));
    LowerTrimCommute(input);
    LowerOfLowered(q);
  }

  /** `clearSearch`. */
  method ClearSearch(s: AppState)
    modifies s
    ensures s.searchQuery == ""
    ensures s.tasks == old(s.tasks) && s.containers == old(s.containers)
    ensures s.currentContainerId == old(s.currentContainerId)
    ensures s.allListTags == old(s.allListTags) && s.activeTagFilters == old(s.activeTagFilters)
  {
    s.searchQuery := "";
  }

  /** `toggleTagFilter`. */
  method ToggleTagFilter(s: AppState, tag: string)
    modifies s
    ensures s.activeTagFilters == Toggled(old(s.activeTagFilters), tag)
    ensures s.tasks == old(s.tasks) && s.containers == old(s.containers)
    ensures s.currentContainerId == old(s.currentContainerId)
    ensures s.allListTags == old(s.allListTags) && s.searchQuery == old(s.searchQuery)
  {
    if tag in s.activeTagFilters {
      s.activeTagFilters := s.activeTagFilters - {tag};
    } else {
      s.activeTagFilters := s.activeTagFilters + {tag};
    }
  }

  /** `clearAllTagFilters`. */
  method ClearAllTagFilters(s: AppState)
    modifies s
    ensures s.activeTagFilters == {}
    ensures s.tasks == old(s.tasks) && s.containers == old(s.containers)
    ensures s.currentContainerId == old(s.currentContainerId)
    ensures s.allListTags == old(s.allListTags) && s.searchQuery == old(s.searchQuery)
  {
    s.activeTagFilters := {};
  }
}
