# Task dashboard store — a Dafny model

This project models the state logic of a browser task-management dashboard written in
TypeScript/Svelte:

- **The task store** (`src/lib/stores/tasks.ts`). It holds the task list, the loading flag, the
  last error message and the filter record. `filteredTasks` derives the visible list from the
  tasks and the filters:
  - a status test, skipped for `"all"` or no status;
  - a case-insensitive substring search over the title and the optional description, using the
    lower-cased and trimmed search term;
  - an inclusive `createdAt` date range, where either bound may be missing;
  - one of five sort orders, or no sorting when no sort option is set.

  Once the backend call has settled, `initialize` replaces the list, `create` appends the new
  task, and `update` and `delete` edit the list by task id. `clearError` makes no backend call
  and only clears the error. The `filterActions` setters each change one field of the
  filter record. `clearFilters` restores the defaults: every status, empty search, newest first,
  empty date range.
- **The UI store** (`src/lib/stores/ui.ts`). It holds three modal flags, the id of the task
  selected for editing or deleting (one slot shared by both modals), dark mode and the sidebar
  flag. The `uiActions` open, close and toggle these.

Everything is immutable datatypes and pure functions:

| module | file | models |
|---|---|---|
| `Wrappers` | wrappers.dfy | `Option`: TypeScript's optional and nullable values |
| `Types` | types.dfy | `Task`, `TaskStatus`, `SortOption`, `FilterOptions`, `Partial<TaskFormData>` |
| `Seqs` | seqs.dfy | `Array.prototype.filter` and order-preserving subsequences |
| `Text` | text.dfy | `String.prototype.trim` and `String.prototype.includes` |
| `Sorting` | sorting.dfy | `Array.prototype.sort` with a comparator, as an insertion sort |
| `TaskView` | task_view.dfy | `filteredTasks` |
| `TaskActions` | task_actions.dfy | `taskActions` as state transitions |
| `FilterActions` | filter_actions.dfy | `filterActions` and the default filters |
| `Persistence` | persistence.dfy | which saved filter fields survive a reload |
| `UiStore` | ui_store.dfy | `uiActions` and the reachable UI states |
| `StoreScenarios` | store_scenarios.dfy | the task store's unit-test scenarios, restated as lemmas about the model |

Modelling choices:

- **Dates** are `int` millisecond timestamps. The code compares `getTime()` values and `Date`
  objects.
- **Async actions** are transitions. Each takes the current state and the settled API outcome:
  `Ok(value)`, or `Err(thrown)`, where the thrown value is an `Error` with a message or some
  other value. `create`, `update` and `delete` return a `Step`: the new state and whether the
  action's promise resolves or re-throws. `initialize` catches every failure and never
  rejects, so it returns only the new state. `update` also takes the clock reading that
  `new Date()` would give.
- **Host string functions** are abstract: `toLowerCase` and `localeCompare` are fields of
  `TaskView.HostStrings`. `toLowerCase` applies the fixed Unicode case mappings, and it is kept
  abstract only to keep the Unicode tables out of the model. `localeCompare` is the
  locale-dependent one. The title orders are proved sorted under the assumption that
  `localeCompare` is a consistent comparator in the sense of `Array.prototype.sort`: a total
  preorder in which swapping the arguments flips the sign of a non-zero result.
- **`trim`** is concrete. It removes the ECMAScript WhiteSpace and LineTerminator code points.
- **Sort** is an insertion sort. The engine's algorithm is not modelled. What
  `Array.prototype.sort` promises, and what the view lemmas use, is that the result is a
  permutation of the input and is sorted under a consistent comparator. `Sorting.Sort` also
  claims sortedness for any total-preorder comparator, even one whose sign is not symmetric.
  That extra claim is a property of the model's insertion sort only: for such a comparator
  ECMAScript leaves the order to the engine. ECMAScript also requires the sort to be stable.
  The model's insertion sort is stable too, but stability is not claimed.

Two points where the store accepts more than the rest of the program produces:

- The task form rejects an empty title (src/lib/components/TaskForm.test.ts:38 expects
  "Title is required"). The store never checks this, and `update` accepts any title. So
  `Task.title` is unconstrained here.
- `sortBy` is optional in `FilterOptions` (src/lib/types.ts:22), even though the default
  filters and `clearFilters` always set it. The code skips sorting when `sortBy` is unset, and
  the model keeps the input order in that case.

## Model

| member | source | states |
|---|---|---|
| Text.Trim | src/lib/stores/tasks.ts:52 | the trimmed term is a contiguous run of the input with only whitespace before and after it, and no whitespace at either of its own ends; it is empty exactly when the input is all whitespace |
| Text.TrimUnique | src/lib/stores/tasks.ts:52 | any run of the input with only whitespace around it and none at its own ends is the trimmed term, so the contract of Trim determines its result |
| Seqs.Filter | src/lib/stores/tasks.ts:47 | `Array.prototype.filter`, as called at tasks.ts:47, 53, 60 and 149: each element's multiplicity is kept when the predicate holds and is zero otherwise; membership iff in the input and the predicate holds; the result is an order-preserving subsequence, no longer than the input |
| Text.Contains | src/lib/stores/tasks.ts:54 | `String.prototype.includes`: the needle occurs as a contiguous run starting at some index of the haystack (predicate; its definition is the statement) |
| Sorting.Sort | src/lib/stores/tasks.ts:73-90 | the sorted list is a permutation of the input (same multiset, same length), sorted under every consistent comparator, which is what `Array.prototype.sort` promises; it is also sorted under any total preorder, a property of the model's insertion sort only |
| TaskView.StatusRank | src/lib/stores/tasks.ts:84 | the `statusOrder` table: pending 0, in-progress 1, completed 2 (definition) |
| TaskView.Comparator | src/lib/stores/tasks.ts:73-89 | the comparator passed to `sort` for each of the five sort options, as the `switch` defines it: createdAt differences, localeCompare of titles in either direction, status-rank difference; its consistency is stated by TaskView.ComparatorConsistent |
| TaskView.MatchesTerm | src/lib/stores/tasks.ts:54 | the search predicate: the lower-cased title includes the term, or the description is present and its lower-cased form includes it (definition) |
| TaskView.WithinRange | src/lib/stores/tasks.ts:65-67 | the date test: false before a present start, false after a present end, true otherwise (definition); its inclusive reading is stated by TaskView.DateRangeInclusive |
| TaskView.FiltersStatus | src/lib/stores/tasks.ts:46 | the status stage runs only for a present status other than "all" (definition) |
| TaskView.FiltersSearch | src/lib/stores/tasks.ts:51 | the search stage runs only for a present, non-empty search, which is JavaScript truthiness for a string (definition) |
| TaskView.FiltersDates | src/lib/stores/tasks.ts:59 | the date stage runs only when the range is present and has a start or an end (definition) |
| TaskView.StatusStage | src/lib/stores/tasks.ts:46-48 | each task's multiplicity is kept when it passes the status test and is zero otherwise; the survivors keep their input order |
| TaskView.SearchStage | src/lib/stores/tasks.ts:51-56 | each task's multiplicity is kept when it passes the search test and is zero otherwise; input order kept |
| TaskView.DateStage | src/lib/stores/tasks.ts:59-69 | each task's multiplicity is kept when it lies inside the inclusive range and is zero otherwise; input order kept |
| TaskView.SortStage | src/lib/stores/tasks.ts:72-90 | the sort step only reorders, and it is the identity when no sort option is set |
| TaskView.FilteredTasks | src/lib/stores/tasks.ts:42-93 | the view is a permutation of exactly the input tasks that pass the status, search and date tests together, each as often as in the input; membership iff the task is in the input and passes all three; with no sort option, input order is kept |
| TaskView.AllShownKept | src/lib/stores/tasks.ts:42-93 | when every input task passes the three tests, the view holds every task as often as the input does |
| TaskView.OneShownKept | src/lib/stores/tasks.ts:42-93 | when only the task at one position passes the three tests, the view holds that task as often as the input does and nothing else |
| TaskView.ChosenStatusOnly | src/lib/stores/tasks.ts:46-48 | with a particular status chosen, every shown task has that status |
| TaskView.AnyStatusKeepsAll | src/lib/stores/tasks.ts:46-48 | with status "all" or unset, a task is shown iff it is in the input and passes the search and date tests: no task is dropped for its status |
| TaskView.SearchMatchesShown | src/lib/stores/tasks.ts:51-56 | with a non-empty search, every shown task's lower-cased title contains the lower-cased trimmed term, or its description is present and contains it |
| TaskView.BlankSearchKeepsAll | src/lib/stores/tasks.ts:51-56 | an unset or empty search, or one that is all whitespace once lower-cased, gives the same view as no search at all |
| TaskView.DateRangeInclusive | src/lib/stores/tasks.ts:59-69 | with both bounds set, a task is shown iff it passes the other tests and start <= createdAt <= end |
| TaskView.DateRangeOpenEnded | src/lib/stores/tasks.ts:59-69 | a missing bound constrains nothing: with neither bound every task passing the other tests is shown; with only a start (only an end) the test is start <= createdAt (createdAt <= end) |
| TaskView.ComparatorConsistent | src/lib/stores/tasks.ts:74-88 | the recency and status comparators are consistent (a total preorder whose sign flips when the arguments are swapped), and so are both title comparators whenever localeCompare is |
| TaskView.ViewSorted | src/lib/stores/tasks.ts:72-90 | with a sort option set, the view is sorted under that option's comparator (consistent localeCompare assumed for titles) |
| TaskView.NewestFirst | src/lib/stores/tasks.ts:75-76 | "created-desc": createdAt never increases along the view |
| TaskView.OldestFirst | src/lib/stores/tasks.ts:77-78 | "created-asc": createdAt never decreases along the view |
| TaskView.TitlesAscending | src/lib/stores/tasks.ts:79-80 | "title-asc": localeCompare(earlier title, later title) <= 0 for every pair |
| TaskView.TitlesDescending | src/lib/stores/tasks.ts:81-82 | "title-desc": localeCompare(later title, earlier title) <= 0 for every pair |
| TaskView.StatusGrouped | src/lib/stores/tasks.ts:83-85 | "status": the rank (pending 0, in-progress 1, completed 2) never decreases along the view |
| TaskActions.ErrorMessage | src/lib/stores/tasks.ts:121 | the recorded message is the Error's own message, or the action's fallback text when the thrown value is not an Error |
| TaskActions.Initialize | src/lib/stores/tasks.ts:97-111 | loading ends either way; success replaces the list and leaves no error; failure keeps the list and records the message or "Failed to load tasks" |
| TaskActions.InitializeIdempotent | src/lib/stores/tasks.ts:97-111 | loading the same outcome a second time leaves the state as after the first |
| TaskActions.RetryRecovers | src/lib/stores/tasks.ts:97-111 | a successful load after a failed one gives the same state as the successful load alone: a failure leaves nothing behind that a later success keeps |
| TaskActions.Create | src/lib/stores/tasks.ts:114-125 | on success the list grows by one, the old tasks are an unchanged prefix, the new task is last, the error is cleared and the action resolves; on failure the list is unchanged, the message (or "Failed to create task") is recorded and the action re-throws |
| TaskActions.Patched | src/lib/stores/tasks.ts:134 | the patched task keeps id and createdAt, takes updatedAt from the clock, and takes each field the patch gives, keeping the others |
| TaskActions.PatchAll | src/lib/stores/tasks.ts:133-135 | same length; positions with the id are patched; all other positions are untouched |
| TaskActions.Update | src/lib/stores/tasks.ts:128-141 | on success length and order are kept, tasks with the id are patched (id and createdAt preserved, new updatedAt), all others untouched, error cleared; on failure the list is unchanged and the message (or "Failed to update task") is recorded and re-thrown |
| TaskActions.Delete | src/lib/stores/tasks.ts:144-155 | on success a task survives iff its id differs, each survivor keeps its multiplicity, survivors keep their order; on failure the list is unchanged and the message (or "Failed to delete task") is recorded and re-thrown |
| TaskActions.ClearError | src/lib/stores/tasks.ts:158-160 | the error is cleared and the list and loading flag are untouched |
| TaskActions.ClearErrorUndoesFailure | src/lib/stores/tasks.ts:114-160 | after a failed create, update or delete, clearError gives the same state as clearing the error before the call: a failure changes nothing but the error |
| TaskActions.CreateKeepsIdsUnique | src/lib/stores/tasks.ts:119 | appending a task with a fresh id keeps ids unique and adds exactly that id |
| TaskActions.DeleteUndoesCreate | src/lib/stores/tasks.ts:114-155 | deleting the just-created task by its fresh id restores the previous list |
| TaskActions.UpdateKeepsIds | src/lib/stores/tasks.ts:133-135 | update keeps every position's id, so the id set and id uniqueness are preserved |
| TaskActions.UpdateTimestampsMonotone | src/lib/stores/tasks.ts:134 | with a clock at or past the patched tasks' updatedAt, no updatedAt decreases, createdAt never changes, and createdAt <= updatedAt is preserved |
| TaskActions.UpdateIdempotent | src/lib/stores/tasks.ts:133-135 | repeating the same update at the same instant leaves the state as after the first |
| TaskActions.DeleteRemovesOne | src/lib/stores/tasks.ts:149 | with unique ids, delete leaves no task with the id, keeps ids unique, and removes exactly one task when the id was present and none otherwise |
| FilterActions.SetSearch | src/lib/stores/tasks.ts:165-167 | sets the search and no other filter field |
| FilterActions.SetStatus | src/lib/stores/tasks.ts:169-171 | sets the status (possibly to unset) and no other field |
| FilterActions.SetSortBy | src/lib/stores/tasks.ts:173-175 | sets the sort option and no other field |
| FilterActions.SetDateRange | src/lib/stores/tasks.ts:177-179 | sets the date range (possibly to unset) and no other field |
| FilterActions.DefaultFilters | src/lib/stores/tasks.ts:10-15 | `defaultFilters`: status "all", search "", sort "created-desc", a date range with neither bound (definition) |
| FilterActions.ClearFilters | src/lib/stores/tasks.ts:181-188 | from any filters, every field equals its default: "all", "", "created-desc", an empty range |
| FilterActions.ClearSearch | src/lib/stores/tasks.ts:190-192 | sets only the search, to "" |
| FilterActions.LastWriteWins | src/lib/stores/tasks.ts:164-193 | setting one field twice keeps only the second value |
| FilterActions.SettersCommute | src/lib/stores/tasks.ts:164-193 | setters of different fields commute |
| FilterActions.ClearSearchDropsSearch | src/lib/stores/tasks.ts:190-192 | after clearSearch the view equals the view with no search filter |
| FilterActions.ClearFiltersShowsAll | src/lib/stores/tasks.ts:181-188 | after clearFilters the view is a permutation of all tasks, newest first |
| Persistence.SaveFilters | src/lib/stores/persistence.ts:35-38 | the saved record holds exactly the status and the sort option |
| Persistence.RestoreFilters | src/lib/stores/tasks.ts:20-24 | nothing saved leaves the filters as they are; a saved field that is present replaces the current one, an absent one does not; search and date range are never restored |
| Persistence.ReloadKeepsStatusAndSort | src/lib/stores/tasks.ts:20-24 | after a reload over the defaults, status and sort option are kept (or defaulted when unset), the search is "" and the date range is empty |
| Persistence.ReloadIsStable | src/lib/stores/persistence.ts:35-38 | when status and sort option were both set, saving the reloaded filters stores the same record again |
| UiStore.InitialUi | src/lib/stores/ui.ts:5-14 | the initial values of the six UI stores: all three modals closed, no task selected, dark mode off, sidebar closed (definition) |
| UiStore.OpenCreateModal | src/lib/stores/ui.ts:33-35 | the create modal is open and no other store changes |
| UiStore.CloseCreateModal | src/lib/stores/ui.ts:37-39 | the create modal is closed and no other store changes |
| UiStore.OpenEditModal | src/lib/stores/ui.ts:41-44 | the task is selected, the edit modal is open, and nothing else changes |
| UiStore.CloseEditModal | src/lib/stores/ui.ts:46-49 | the edit modal is closed and the shared selection cleared; nothing else changes |
| UiStore.OpenDeleteModal | src/lib/stores/ui.ts:51-54 | the task is selected, the delete modal is open, and nothing else changes |
| UiStore.CloseDeleteModal | src/lib/stores/ui.ts:56-59 | the delete modal is closed and the shared selection cleared; nothing else changes |
| UiStore.ToggleDarkMode | src/lib/stores/ui.ts:61-63 | dark mode flips and nothing else changes |
| UiStore.ToggleSidebar | src/lib/stores/ui.ts:65-67 | the sidebar flag flips and nothing else changes |
| UiStore.OpenSidebar | src/lib/stores/ui.ts:69-71 | the sidebar is open and nothing else changes |
| UiStore.CloseSidebar | src/lib/stores/ui.ts:73-75 | the sidebar is closed and nothing else changes |
| UiStore.TogglesAreInvolutions | src/lib/stores/ui.ts:61-67 | toggling dark mode or the sidebar twice restores the state |
| UiStore.OpenCloseIdempotent | src/lib/stores/ui.ts:33-75 | opening or closing the sidebar or the create modal a second time changes nothing |
| UiStore.ToggleSidebarIsOpenOrClose | src/lib/stores/ui.ts:65-75 | toggling the sidebar is closing an open one and opening a closed one |
| UiStore.OpenThenCloseRestores | src/lib/stores/ui.ts:41-59 | from a closed modal with nothing selected, opening then closing the edit (or delete) modal restores the state |
| UiStore.SharedSelection | src/lib/stores/ui.ts:41-59 | the two modals share one selection: the later open wins, and closing either clears it while the other stays open |
| UiStore.ReachableSelectionHasModal | src/lib/stores/ui.ts:32-76 | in every state reachable through uiActions, a task is selected only while the edit or delete modal is open |
| UiStore.OpenModalWithoutSelection | src/lib/stores/ui.ts:41-59 | the converse fails: open edit, open delete, close edit leaves the delete modal open with no selected task |
| StoreScenarios.CreateScenario | src/lib/stores/tasks.test.ts:51-64 | one successful create on an empty store yields exactly one task, with the submitted title and status |
| StoreScenarios.StatusScenario | src/lib/stores/tasks.test.ts:66-90 | choosing "pending" over a pending and a completed task shows exactly the pending one, for any lower-casing and any localeCompare |
| StoreScenarios.FirstOfTwoShown | src/lib/stores/tasks.test.ts:66-116 | of two tasks, when only the first passes the three tests, the view is that task alone whatever the sort option |
| StoreScenarios.SearchScenario | src/lib/stores/tasks.test.ts:92-116 | searching "Important" over "Important Task" and "Regular Task" shows exactly the first, given that toLowerCase maps these three strings as the Unicode case mappings do |
| StoreScenarios.SortScenario | src/lib/stores/tasks.test.ts:118-142 | "title-asc" puts "A Task" before "B Task" for any consistent localeCompare that ranks "A Task" strictly before "B Task" |
| StoreScenarios.TitleOrderDecides | src/lib/stores/tasks.test.ts:118-142 | of two tasks that both pass the three tests, under "title-asc" with a consistent localeCompare, the one whose title ranks strictly first leads the view, whatever algorithm sorts |
| StoreScenarios.ClearScenario | src/lib/stores/tasks.test.ts:144-152 | after setting a search and a status, clearFilters restores the empty search and status "all" |

## Left out

- Svelte store plumbing is not modelled: `writable`, `derived` and `subscribe`, and the
  subscriptions that save tasks, filters and dark mode on every change. The stores are plain
  records here.
- Loading saved UI preferences and saved tasks is not modelled. Both are a local-storage read
  plus `JSON.parse`, with `Date` fields rebuilt from strings.
- The mock backend (`src/lib/api/mockApi.ts`) is not part of this model. Its delay,
  random error injection, UUIDs and fixture data become the API-outcome input of each action.
  The store ignores the value `updateTask` returns.
- Interleaving is not modelled. Each action is one atomic step from the state before the call
  to the state after it settles. Another action's effect between the `error.set(null)` and the
  end of the `await` is therefore not modelled.
- `initialize` sets `isLoading` to true while it waits. Only the final state, with `isLoading`
  false, is modelled.
- `console.error` logging is not modelled.
- Invalid `Date` values are not modelled. Their `NaN` timestamps make every comparison false,
  so such a task would pass the date filter. Timestamps here are integers.
- Unicode case mapping and collation are not modelled. `toLowerCase` (fixed Unicode case
  mappings) and `localeCompare` (locale-dependent collation) are abstract functions.
- TaskActions.Update: reads the clock once for the whole update, while the source calls
  `new Date()` inside the `map` callback, once per task with the id. The two agree when ids are
  unique, but the store itself never enforces unique ids.
- TaskActions.Update: a patch that gives `title` or `status` explicitly as `undefined` is not
  modelled. Such a patch would blank the field; the type allows it, but the form never sends it.
- TaskView.TitlesAscending: proved only under the assumption that `localeCompare` is a
  consistent comparator, because it is abstract. For an inconsistent comparator ECMAScript
  leaves the order to the engine, and nothing is claimed.
- TaskView.TitlesDescending: the same assumption on `localeCompare`.
- TaskView.ViewSorted: the same assumption on `localeCompare`, for the two title orders only.
- StoreScenarios.SearchScenario: states the test outcome for any lower-casing function that
  maps the three test strings as the Unicode case mappings do, because case mapping is
  abstract.
- StoreScenarios.SortScenario: states the test outcome for any consistent `localeCompare` that
  ranks "A Task" before "B Task", because collation is abstract.
- Sorting.Sort: claims only permutation and sortedness. ECMAScript also requires a stable sort.
  The model's sort is stable, but no contract states it, because no view lemma needs it.
- JavaScript strings are sequences of UTF-16 code units, while a Dafny `string` holds Unicode
  scalar values. For well-formed strings `trim` and `includes` give the same results either
  way, since every whitespace code point is a single code unit. A lone surrogate in a title or
  search cannot be represented.
- Form validation ("Title is required") is not part of this model. It lives in a
  component that is not part of it.
