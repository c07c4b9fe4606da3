/** The `filteredTasks` derived store (src/lib/stores/tasks.ts): the task list narrowed by the
    status, search and date-range filters, then ordered by the chosen sort option. */
module TaskView {
  import opened Wrappers
  import opened Types
  import opened Seqs
  import opened Text
  import opened Sorting

  /** The host's string operations, kept abstract: `toLowerCase` (the fixed Unicode case
      mappings, left out for size) and `localeCompare` (locale-dependent collation). */
  datatype HostStrings = HostStrings(lower: string -> string, compare: (string, string) -> int)

  /** The position of each status in the "status" sort. */
  function StatusRank(s: TaskStatus): nat {
    match s
    case Pending => 0
    case InProgress => 1
    case Completed => 2
  }

  /** The comparator handed to `sort` for each sort option. */
  function Comparator(order: SortOption, compare: (string, string) -> int): (Task, Task) -> int {
    match order
    case CreatedDesc => (a: Task, b: Task) => b.createdAt - a.createdAt
    case CreatedAsc => (a: Task, b: Task) => a.createdAt - b.createdAt
    case TitleAsc => (a: Task, b: Task) => compare(a.title, b.title)
    case TitleDesc => (a: Task, b: Task) => compare(b.title, a.title)
    case ByStatus => (a: Task, b: Task) => StatusRank(a.status) - StatusRank(b.status)
  }

  /** The lower-cased title contains `term`, or the description is present and its
      lower-cased form contains `term`. */
  predicate MatchesTerm(t: Task, term: string, loc: HostStrings) {
    || Contains(loc.lower(t.title), term)
    || (t.description.Some? && Contains(loc.lower(t.description.value), term))
  }

  /** The rejection tests of the date filter: before a present start, or after a present end. */
  predicate WithinRange(t: Task, range: DateRange) {
    && !(range.start.Some? && t.createdAt < range.start.value)
    && !(range.end.Some? && t.createdAt > range.end.value)
  }

  /** The status filter runs only for a present status other than "all". */
  predicate FiltersStatus(f: FilterOptions) {
    f.status.Some? && f.status.value.OnlyStatus?
  }

  /** The search filter runs only for a present, non-empty search string. */
  predicate FiltersSearch(f: FilterOptions) {
    f.search.Some? && f.search.value != ""
  }

  /** The date filter runs only when the range has a start or an end. */
  predicate FiltersDates(f: FilterOptions) {
    f.dateRange.Some? && (f.dateRange.value.start.Some? || f.dateRange.value.end.Some?)
  }

  // The three tests as the dashboard promises them, stated independently of the pipeline.

  /** With a particular status chosen, the task has it; "all" or no choice admits every task. */
  predicate StatusOk(f: FilterOptions, t: Task) {
    match f.status
    case Some(OnlyStatus(st)) => t.status == st
    case _ => true
  }

  /** A non-empty search must match the lower-cased, trimmed term in the title or description. */
  predicate SearchOk(f: FilterOptions, loc: HostStrings, t: Task) {
    match f.search
    case Some(s) => s == "" || MatchesTerm(t, Trim(loc.lower(s)), loc)
    case None => true
  }

  /** Inclusive range: `start <= createdAt` when a start is present, `createdAt <= end` when an end is. */
  predicate DateOk(f: FilterOptions, t: Task) {
    match f.dateRange
    case Some(DateRange(start, end)) =>
      && (start.Some? ==> start.value <= t.createdAt)
      && (end.Some? ==> t.createdAt <= end.value)
    case None => true
  }

  /** The task passes all three tests together. */
  predicate Shown(f: FilterOptions, loc: HostStrings, t: Task) {
    StatusOk(f, t) && SearchOk(f, loc, t) && DateOk(f, t)
  }

  /** The status stage: keeps the tasks with the chosen status, in order. */
  function StatusStage(tasks: seq<Task>, f: FilterOptions): (r: seq<Task>)
    ensures forall x :: multiset(r)[x] == if StatusOk(f, x) then multiset(tasks)[x] else 0
    ensures IsSubsequence(r, tasks)
  {
    SubsequenceReflexive(tasks);
    if FiltersStatus(f) then Filter(tasks, (t: Task) => t.status == f.status.value.status) else tasks
  }

  /** The search stage: keeps the tasks matching the lower-cased, trimmed term, in order. */
  function SearchStage(tasks: seq<Task>, f: FilterOptions, loc: HostStrings): (r: seq<Task>)
    ensures forall x :: multiset(r)[x] == if SearchOk(f, loc, x) then multiset(tasks)[x] else 0
    ensures IsSubsequence(r, tasks)
  {
    SubsequenceReflexive(tasks);
    if FiltersSearch(f) then
      var term := Trim(loc.lower(f.search.value));
      Filter(tasks, (t: Task) => MatchesTerm(t, term, loc))
    else tasks
  }

  /** The date stage: keeps the tasks inside the range, in order. */
  function DateStage(tasks: seq<Task>, f: FilterOptions): (r: seq<Task>)
    ensures forall x :: multiset(r)[x] == if DateOk(f, x) then multiset(tasks)[x] else 0
    ensures IsSubsequence(r, tasks)
  {
    SubsequenceReflexive(tasks);
    if FiltersDates(f) then Filter(tasks, (t: Task) => WithinRange(t, f.dateRange.value)) else tasks
  }

  /** The sort stage: a reordering, sorted when the comparator is consistent. */
  function SortStage(tasks: seq<Task>, f: FilterOptions, loc: HostStrings): (r: seq<Task>)
    ensures multiset(r) == multiset(tasks)
    ensures f.sortBy.None? ==> r == tasks
  {
    if f.sortBy.Some? then Sort(tasks, Comparator(f.sortBy.value, loc.compare)) else tasks
  }

  /** `filteredTasks`: a reordering of exactly the tasks that pass all three tests, each as often
      as it occurs in the input; with no sort option the input order is kept. */
  function FilteredTasks(tasks: seq<Task>, f: FilterOptions, loc: HostStrings): (r: seq<Task>)
    ensures forall x :: multiset(r)[x] == if Shown(f, loc, x) then multiset(tasks)[x] else 0
    ensures forall x :: x in r <==> x in tasks && Shown(f, loc, x)
    ensures f.sortBy.None? ==> IsSubsequence(r, tasks)
  {
    PipelineFacts(tasks, f, loc);
    SortStage(DateStage(SearchStage(StatusStage(tasks, f), f, loc), f), f, loc)
  }

  lemma PipelineFacts(tasks: seq<Task>, f: FilterOptions, loc: HostStrings)
    ensures var r := SortStage(DateStage(SearchStage(StatusStage(tasks, f), f, loc), f), f, loc);
      && (forall x :: multiset(r)[x] == if Shown(f, loc, x) then multiset(tasks)[x] else 0)
      && (forall x :: x in r <==> x in tasks && Shown(f, loc, x))
      && (f.sortBy.None? ==> IsSubsequence(r, tasks))
  {
    var s1 := StatusStage(tasks, f);
    var s2 := SearchStage(s1, f, loc);
    var s3 := DateStage(s2, f);
    var r := SortStage(s3, f, loc);
    if f.sortBy.None? {
      SubsequenceTransitive(s3, s2, s1);
      SubsequenceTransitive(s3, s1, tasks);
    }
  }

  /** When every task passes the three tests, the view holds all of them, each as often as it occurs. */
  lemma AllShownKept(tasks: seq<Task>, f: FilterOptions, loc: HostStrings)
    requires forall i :: 0 <= i < |tasks| ==> Shown(f, loc, tasks[i])
    ensures multiset(FilteredTasks(tasks, f, loc)) == multiset(tasks)
  {
    var r := FilteredTasks(tasks, f, loc);
    forall x
      ensures multiset(r)[x] == multiset(tasks)[x]
    {
      if x in tasks {
        var i :| 0 <= i < |tasks| && tasks[i] == x;
      }
    }
  }

  /** When the task at `k` is the only one passing the three tests, the view holds its
      occurrences and nothing else. */
  lemma OneShownKept(tasks: seq<Task>, f: FilterOptions, loc: HostStrings, k: int)
    requires 0 <= k < |tasks| && Shown(f, loc, tasks[k])
    requires forall i :: 0 <= i < |tasks| && i != k ==> !Shown(f, loc, tasks[i])
    ensures var r := FilteredTasks(tasks, f, loc);
      forall x :: multiset(r)[x] == if x == tasks[k] then multiset(tasks)[x] else 0
  {
    var r := FilteredTasks(tasks, f, loc);
    forall x
      ensures multiset(r)[x] == if x == tasks[k] then multiset(tasks)[x] else 0
    {
      if x in tasks && x != tasks[k] {
        var i :| 0 <= i < |tasks| && tasks[i] == x;
      }
    }
  }

  // Status filter

  /** With a particular status chosen, every shown task has that status. */
  lemma ChosenStatusOnly(tasks: seq<Task>, f: FilterOptions, loc: HostStrings, st: TaskStatus)
    requires f.status == Some(OnlyStatus(st))
    ensures forall t :: t in FilteredTasks(tasks, f, loc) ==> t.status == st
  {
  }

  /** With "all" or no status chosen, no task is dropped for its status: a task is shown exactly
      when it passes the search and date tests. */
  lemma AnyStatusKeepsAll(tasks: seq<Task>, f: FilterOptions, loc: HostStrings)
    requires f.status.None? || f.status == Some(AllStatuses)
    ensures forall t :: t in FilteredTasks(tasks, f, loc) <==> t in tasks && SearchOk(f, loc, t) && DateOk(f, t)
  {
  }

  // Search filter

  /** With a non-empty search, every shown task matches the lower-cased, trimmed term in its
      title or its present description. */
  lemma SearchMatchesShown(tasks: seq<Task>, f: FilterOptions, loc: HostStrings)
    requires f.search.Some? && f.search.value != ""
    ensures forall t :: t in FilteredTasks(tasks, f, loc) ==> MatchesTerm(t, Trim(loc.lower(f.search.value)), loc)
  {
  }

  /** An empty search, or one that is only whitespace once lower-cased, filters nothing out:
      the view is the one with no search at all. */
  lemma BlankSearchKeepsAll(tasks: seq<Task>, f: FilterOptions, loc: HostStrings)
    requires f.search.None? || f.search == Some("") || AllWhitespace(loc.lower(f.search.value))
    ensures FilteredTasks(tasks, f, loc) == FilteredTasks(tasks, f.(search := None), loc)
  {
    var g := f.(search := None);
    var s1 := StatusStage(tasks, f);
    assert s1 == StatusStage(tasks, g);
    BlankSearchStage(s1, f, loc);
    assert SearchStage(s1, f, loc) == SearchStage(s1, g, loc);
  }

  /** The search stage of a blank search returns its input. */
  lemma BlankSearchStage(tasks: seq<Task>, f: FilterOptions, loc: HostStrings)
    requires f.search.None? || f.search == Some("") || AllWhitespace(loc.lower(f.search.value))
    ensures SearchStage(tasks, f, loc) == tasks
  {
    if FiltersSearch(f) {
      var term := Trim(loc.lower(f.search.value));
      assert term == "";
      forall i | 0 <= i < |tasks|
        ensures MatchesTerm(tasks[i], term, loc)
      {
        ContainsEmpty(loc.lower(tasks[i].title));
      }
      FilterKeepsAll(tasks, (t: Task) => MatchesTerm(t, term, loc));
    }
  }

  // Date-range filter

  /** The range is inclusive at both ends: with both bounds present, a task passing the other
      tests is shown exactly when `start <= createdAt <= end`. */
  lemma DateRangeInclusive(tasks: seq<Task>, f: FilterOptions, loc: HostStrings, start: Timestamp, end: Timestamp)
    requires f.dateRange == Some(DateRange(Some(start), Some(end)))
    ensures forall t :: t in FilteredTasks(tasks, f, loc) <==>
      t in tasks && StatusOk(f, t) && SearchOk(f, loc, t) && start <= t.createdAt <= end
  {
  }

  /** A missing bound constrains nothing: with only a start, tasks at or after it pass; with only
      an end, tasks at or before it pass. */
  lemma DateRangeOpenEnded(tasks: seq<Task>, f: FilterOptions, loc: HostStrings, t: Task)
    requires f.dateRange.Some? && t in tasks && StatusOk(f, t) && SearchOk(f, loc, t)
    ensures f.dateRange.value.start.None? && f.dateRange.value.end.None? ==> t in FilteredTasks(tasks, f, loc)
    ensures f.dateRange.value == DateRange(f.dateRange.value.start, None) && f.dateRange.value.start.Some?
      ==> (t in FilteredTasks(tasks, f, loc) <==> f.dateRange.value.start.value <= t.createdAt)
    ensures f.dateRange.value == DateRange(None, f.dateRange.value.end) && f.dateRange.value.end.Some?
      ==> (t in FilteredTasks(tasks, f, loc) <==> t.createdAt <= f.dateRange.value.end.value)
  {
  }

  // Sort orders

  /** The comparators of the recency and status orders are consistent, and so are the title
      comparators whenever `localeCompare` is. */
  lemma {:induction false} ComparatorConsistent(order: SortOption, compare: (string, string) -> int)
    requires order == TitleAsc || order == TitleDesc ==> Consistent(compare)
    ensures Consistent(Comparator(order, compare))
  {
    var cmp := Comparator(order, compare);
    match order
    case TitleAsc =>
      forall a: Task, b: Task
        ensures cmp(a, b) < 0 <==> cmp(b, a) > 0
      {
        assert compare(a.title, b.title) < 0 <==> compare(b.title, a.title) > 0;
      }
      forall a: Task, b: Task, c: Task | Before(cmp, a, b) && Before(cmp, b, c)
        ensures Before(cmp, a, c)
      {
        assert Before(compare, a.title, b.title) && Before(compare, b.title, c.title);
      }
      forall a: Task, b: Task
        ensures Before(cmp, a, b) || Before(cmp, b, a)
      {
        assert Before(compare, a.title, b.title) || Before(compare, b.title, a.title);
      }
    case TitleDesc =>
      forall a: Task, b: Task
        ensures cmp(a, b) < 0 <==> cmp(b, a) > 0
      {
        assert compare(b.title, a.title) < 0 <==> compare(a.title, b.title) > 0;
      }
      forall a: Task, b: Task, c: Task | Before(cmp, a, b) && Before(cmp, b, c)
        ensures Before(cmp, a, c)
      {
        assert Before(compare, c.title, b.title) && Before(compare, b.title, a.title);
      }
      forall a: Task, b: Task
        ensures Before(cmp, a, b) || Before(cmp, b, a)
      {
        assert Before(compare, a.title, b.title) || Before(compare, b.title, a.title);
      }
    case _ =>
  }

  /** The view sorted under the chosen comparator (consistent `localeCompare` assumed for titles). */
  lemma ViewSorted(tasks: seq<Task>, f: FilterOptions, loc: HostStrings)
    requires f.sortBy.Some?
    requires f.sortBy == Some(TitleAsc) || f.sortBy == Some(TitleDesc) ==> Consistent(loc.compare)
    ensures SortedBy(Comparator(f.sortBy.value, loc.compare), FilteredTasks(tasks, f, loc))
  {
    ComparatorConsistent(f.sortBy.value, loc.compare);
  }

  /** "created-desc": newest first, `createdAt` never increases along the view. */
  lemma NewestFirst(tasks: seq<Task>, f: FilterOptions, loc: HostStrings)
    requires f.sortBy == Some(CreatedDesc)
    ensures var r := FilteredTasks(tasks, f, loc);
      forall i, j :: 0 <= i < j < |r| ==> r[i].createdAt >= r[j].createdAt
  {
    ViewSorted(tasks, f, loc);
  }

  /** "created-asc": oldest first, `createdAt` never decreases along the view. */
  lemma OldestFirst(tasks: seq<Task>, f: FilterOptions, loc: HostStrings)
    requires f.sortBy == Some(CreatedAsc)
    ensures var r := FilteredTasks(tasks, f, loc);
      forall i, j :: 0 <= i < j < |r| ==> r[i].createdAt <= r[j].createdAt
  {
    ViewSorted(tasks, f, loc);
  }

  /** "status": pending, then in-progress, then completed. */
  lemma StatusGrouped(tasks: seq<Task>, f: FilterOptions, loc: HostStrings)
    requires f.sortBy == Some(ByStatus)
    ensures var r := FilteredTasks(tasks, f, loc);
      forall i, j :: 0 <= i < j < |r| ==> StatusRank(r[i].status) <= StatusRank(r[j].status)
  {
    ViewSorted(tasks, f, loc);
  }

  /** "title-asc": titles in `localeCompare` order. */
  lemma TitlesAscending(tasks: seq<Task>, f: FilterOptions, loc: HostStrings)
    requires f.sortBy == Some(TitleAsc) && Consistent(loc.compare)
    ensures var r := FilteredTasks(tasks, f, loc);
      forall i, j :: 0 <= i < j < |r| ==> loc.compare(r[i].title, r[j].title) <= 0
  {
    ViewSorted(tasks, f, loc);
  }

  /** "title-desc": titles in reverse `localeCompare` order. */
  lemma TitlesDescending(tasks: seq<Task>, f: FilterOptions, loc: HostStrings)
    requires f.sortBy == Some(TitleDesc) && Consistent(loc.compare)
    ensures var r := FilteredTasks(tasks, f, loc);
      forall i, j :: 0 <= i < j < |r| ==> loc.compare(r[j].title, r[i].title) <= 0
  {
    ViewSorted(tasks, f, loc);
  }
}
