/** The scenarios of the task store's unit tests (src/lib/stores/tasks.test.ts), restated as lemmas about
    the model. Each starts from the filters the tests reset to before every case. */
module StoreScenarios {
  import opened Wrappers
  import opened Types
  import opened Text
  import opened Sorting
  import opened Seqs
  import opened TaskView
  import opened TaskActions
  import opened FilterActions

  function TestTask(id: string, title: string, status: TaskStatus, createdAt: Timestamp): Task {
    Task(id, title, None, status, createdAt, 0)
  }

  /** "should create a new task": one successful create on an empty store gives one task with
      the submitted title and status. */
  lemma CreateScenario(created: Task)
    requires created.title == "Test Task" && created.status == Pending
    ensures var r := Create(TaskState([], false, None), Ok(created)).state;
      |r.tasks| == 1 && r.tasks[0].title == "Test Task" && r.tasks[0].status == Pending
  {
  }

  /** "should filter tasks by status": choosing "pending" leaves exactly the pending task. */
  lemma {:induction false} StatusScenario(loc: HostStrings, now: Timestamp)
    ensures var tasks := [TestTask("1", "Task 1", Pending, now), TestTask("2", "Task 2", Completed, now)];
      var r := FilteredTasks(tasks, SetStatus(DefaultFilters, Some(OnlyStatus(Pending))), loc);
      r == [tasks[0]]
  {
    var tasks := [TestTask("1", "Task 1", Pending, now), TestTask("2", "Task 2", Completed, now)];
    var f := SetStatus(DefaultFilters, Some(OnlyStatus(Pending)));
    assert Shown(f, loc, tasks[0]) && !Shown(f, loc, tasks[1]);
    FirstOfTwoShown(tasks, f, loc);
  }

  /** Of two tasks, only the first passes the three tests: the view is that task alone, whatever
      the sort option. */
  lemma FirstOfTwoShown(tasks: seq<Task>, f: FilterOptions, loc: HostStrings)
    requires |tasks| == 2 && Shown(f, loc, tasks[0]) && !Shown(f, loc, tasks[1])
    ensures FilteredTasks(tasks, f, loc) == [tasks[0]]
  {
    forall i | 0 <= i < |tasks| && i != 0
      ensures !Shown(f, loc, tasks[i])
    {
      assert i == 1;
    }
    OneShownKept(tasks, f, loc, 0);
    FirstOfPair(tasks, FilteredTasks(tasks, f, loc));
  }

  /** "should filter tasks by search term": searching "Important" keeps only the task whose title
      contains it, for any lower-casing that maps these ASCII strings as the Unicode case mappings do. */
  lemma {:induction false} SearchScenario(loc: HostStrings, now: Timestamp)
    requires loc.lower("Important") == "important"
    requires loc.lower("Important Task") == "important task"
    requires loc.lower("Regular Task") == "regular task"
    ensures var tasks := [TestTask("1", "Important Task", Pending, now), TestTask("2", "Regular Task", Pending, now)];
      FilteredTasks(tasks, SetSearch(DefaultFilters, "Important"), loc) == [tasks[0]]
  {
    var important := TestTask("1", "Important Task", Pending, now);
    var regular := TestTask("2", "Regular Task", Pending, now);
    TitleMatches(important, loc);
    TitleDoesNotMatch(regular, loc);
    OnlyMatchShown(important, regular, "Important", loc);
  }

  lemma TitleMatches(t: Task, loc: HostStrings)
    requires t.title == "Important Task"
    requires loc.lower("Important") == "important" && loc.lower("Important Task") == "important task"
    ensures MatchesTerm(t, Trim(loc.lower("Important")), loc)
  {
    TrimPlainWord();
    InImportantTask();
  }

  lemma TitleDoesNotMatch(t: Task, loc: HostStrings)
    requires t.title == "Regular Task" && t.description.None?
    requires loc.lower("Important") == "important" && loc.lower("Regular Task") == "regular task"
    ensures !MatchesTerm(t, Trim(loc.lower("Important")), loc)
  {
    TrimPlainWord();
    NotInRegularTask();
  }

  /** Over two tasks and the default filters with a search, only the one matching the term is shown. */
  lemma OnlyMatchShown(a: Task, b: Task, search: string, loc: HostStrings)
    requires search != ""
    requires MatchesTerm(a, Trim(loc.lower(search)), loc) && !MatchesTerm(b, Trim(loc.lower(search)), loc)
    ensures FilteredTasks([a, b], SetSearch(DefaultFilters, search), loc) == [a]
  {
    var f := SetSearch(DefaultFilters, search);
    assert Shown(f, loc, a) && !Shown(f, loc, b);
    FirstOfTwoShown([a, b], f, loc);
  }

  lemma InImportantTask()
    ensures Contains("important task", "important")
  {
    var hay := "important task";
    assert hay[0..9] == "important";
    assert OccursAt(hay, "important", 0);
  }

  lemma TrimPlainWord()
    ensures Trim("important") == "important"
  {
    assert !IsWhitespace('i') && !IsWhitespace('t');
    assert TrimStart("important") == "important";
    assert TrimEnd("important") == "important";
  }

  lemma NotInRegularTask()
    ensures !Contains("regular task", "important")
  {
    var hay := "regular task";
    forall i | 0 <= i <= 3
      ensures !OccursAt(hay, "important", i)
    {
      assert hay[i] != 'i';
      assert hay[i..i + 9][0] == hay[i];
    }
  }

  /** "should sort tasks correctly": under "title-asc" "A Task" comes before "B Task" for any
      consistent `localeCompare` that ranks "A Task" strictly before "B Task". */
  lemma SortScenario(loc: HostStrings)
    requires Consistent(loc.compare) && loc.compare("A Task", "B Task") < 0
    ensures var tasks := [TestTask("1", "B Task", Pending, 1704067200000), TestTask("2", "A Task", Pending, 1704153600000)];
      FilteredTasks(tasks, SetSortBy(DefaultFilters, TitleAsc), loc) == [tasks[1], tasks[0]]
  {
    var b := TestTask("1", "B Task", Pending, 1704067200000);
    var a := TestTask("2", "A Task", Pending, 1704153600000);
    var f := SetSortBy(DefaultFilters, TitleAsc);
    assert Shown(f, loc, a) && Shown(f, loc, b);
    TitleOrderDecides([b, a], f, loc);
  }

  /** Two shown tasks under "title-asc": the one whose title ranks strictly first leads the view.
      The order follows from the view being sorted and holding both tasks, whatever algorithm
      does the sorting. */
  lemma TitleOrderDecides(tasks: seq<Task>, f: FilterOptions, loc: HostStrings)
    requires f.sortBy == Some(TitleAsc) && Consistent(loc.compare)
    requires |tasks| == 2 && Shown(f, loc, tasks[0]) && Shown(f, loc, tasks[1])
    requires loc.compare(tasks[1].title, tasks[0].title) < 0
    ensures FilteredTasks(tasks, f, loc) == [tasks[1], tasks[0]]
  {
    var r := FilteredTasks(tasks, f, loc);
    var cmp := Comparator(TitleAsc, loc.compare);
    assert multiset(r) == multiset(tasks) by {
      forall i | 0 <= i < |tasks|
        ensures Shown(f, loc, tasks[i])
      {
        if i == 1 {
        }
      }
      AllShownKept(tasks, f, loc);
    }
    assert SortedBy(cmp, r) by {
      ViewSorted(tasks, f, loc);
    }
    SortedPairOrder(tasks, r, cmp);
  }

  /** "should clear filters": after setting a search and a status, `clearFilters` gives back an
      empty search and every status. */
  lemma ClearScenario(f: FilterOptions)
    ensures var r := ClearFilters(SetStatus(SetSearch(f, "test"), Some(OnlyStatus(Completed))));
      r.search == Some("") && r.status == Some(AllStatuses)
  {
  }
}
