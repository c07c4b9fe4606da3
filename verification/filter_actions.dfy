/** The `filterActions` setters and the default filters (src/lib/stores/tasks.ts). */
module FilterActions {
  import opened Wrappers
  import opened Types
  import TaskView

  /** The four fields of a filter record, named so that frame conditions can quantify over them. */
  datatype FilterField = StatusField | SearchField | SortField | DateField

  /** `a` and `b` hold the same value in field `g`. */
  predicate SameField(a: FilterOptions, b: FilterOptions, g: FilterField) {
    match g
    case StatusField => a.status == b.status
    case SearchField => a.search == b.search
    case SortField => a.sortBy == b.sortBy
    case DateField => a.dateRange == b.dateRange
  }

  /** `b` differs from `a` at most in field `g`. */
  predicate OnlyChanged(a: FilterOptions, b: FilterOptions, g: FilterField) {
    forall h :: h != g ==> SameField(a, b, h)
  }

  /** Every status, no search, newest first, an empty date range. */
  const DefaultFilters := FilterOptions(Some(AllStatuses), Some(""), Some(CreatedDesc), Some(DateRange(None, None)))

  function SetSearch(f: FilterOptions, search: string): (r: FilterOptions)
    ensures r.search == Some(search) && OnlyChanged(f, r, SearchField)
  {
    f.(search := Some(search))
  }

  /** The status may be set to `undefined` as well as to "all" or a status. */
  function SetStatus(f: FilterOptions, status: Option<StatusChoice>): (r: FilterOptions)
    ensures r.status == status && OnlyChanged(f, r, StatusField)
  {
    f.(status := status)
  }

  function SetSortBy(f: FilterOptions, sortBy: SortOption): (r: FilterOptions)
    ensures r.sortBy == Some(sortBy) && OnlyChanged(f, r, SortField)
  {
    f.(sortBy := Some(sortBy))
  }

  /** The range may be set to `undefined` as well as to a record. */
  function SetDateRange(f: FilterOptions, range: Option<DateRange>): (r: FilterOptions)
    ensures r.dateRange == range && OnlyChanged(f, r, DateField)
  {
    f.(dateRange := range)
  }

  /** `clearFilters`: whatever the filters were, every field now holds its default. */
  function ClearFilters(f: FilterOptions): (r: FilterOptions)
    ensures forall g :: SameField(r, DefaultFilters, g)
    ensures r.status == Some(AllStatuses) && r.search == Some("") && r.sortBy == Some(CreatedDesc)
    ensures r.dateRange == Some(DateRange(None, None))
  {
    FilterOptions(Some(AllStatuses), Some(""), Some(CreatedDesc), Some(DateRange(None, None)))
  }

  /** `clearSearch`: empties the search string and changes nothing else. */
  function ClearSearch(f: FilterOptions): (r: FilterOptions)
    ensures r.search == Some("") && OnlyChanged(f, r, SearchField)
  {
    f.(search := Some(""))
  }

  /** Setting the same field twice keeps only the second value. */
  lemma LastWriteWins(f: FilterOptions, s1: string, s2: string, st1: Option<StatusChoice>, st2: Option<StatusChoice>,
                      o1: SortOption, o2: SortOption, d1: Option<DateRange>, d2: Option<DateRange>)
    ensures SetSearch(SetSearch(f, s1), s2) == SetSearch(f, s2)
    ensures SetStatus(SetStatus(f, st1), st2) == SetStatus(f, st2)
    ensures SetSortBy(SetSortBy(f, o1), o2) == SetSortBy(f, o2)
    ensures SetDateRange(SetDateRange(f, d1), d2) == SetDateRange(f, d2)
  {
  }

  /** Setters of different fields commute. */
  lemma SettersCommute(f: FilterOptions, s: string, st: Option<StatusChoice>, o: SortOption, d: Option<DateRange>)
    ensures SetSearch(SetStatus(f, st), s) == SetStatus(SetSearch(f, s), st)
    ensures SetSearch(SetSortBy(f, o), s) == SetSortBy(SetSearch(f, s), o)
    ensures SetSearch(SetDateRange(f, d), s) == SetDateRange(SetSearch(f, s), d)
    ensures SetStatus(SetSortBy(f, o), st) == SetSortBy(SetStatus(f, st), o)
    ensures SetStatus(SetDateRange(f, d), st) == SetDateRange(SetStatus(f, st), d)
    ensures SetSortBy(SetDateRange(f, d), o) == SetDateRange(SetSortBy(f, o), d)
  {
  }

  /** After `clearSearch` the view is the one without any search filter. */
  lemma ClearSearchDropsSearch(tasks: seq<Task>, f: FilterOptions, loc: TaskView.HostStrings)
    ensures TaskView.FilteredTasks(tasks, ClearSearch(f), loc) == TaskView.FilteredTasks(tasks, f.(search := None), loc)
  {
    TaskView.BlankSearchKeepsAll(tasks, ClearSearch(f), loc);
    assert ClearSearch(f).(search := None) == f.(search := None);
  }

  /** After `clearFilters` every task is shown, as often as it occurs, newest first. */
  lemma ClearFiltersShowsAll(tasks: seq<Task>, f: FilterOptions, loc: TaskView.HostStrings)
    ensures var r := TaskView.FilteredTasks(tasks, ClearFilters(f), loc);
      && multiset(r) == multiset(tasks)
      && forall i, j :: 0 <= i < j < |r| ==> r[i].createdAt >= r[j].createdAt
  {
    var g := ClearFilters(f);
    var r := TaskView.FilteredTasks(tasks, g, loc);
    assert forall x :: TaskView.Shown(g, loc, x);
    TaskView.NewestFirst(tasks, g, loc);
  }
}
