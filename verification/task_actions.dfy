/** The `taskActions` of the task store (src/lib/stores/tasks.ts), each modelled as one
    transition of the store's `(tasks, isLoading, error)` state once the API call has settled. */
module TaskActions {
  import opened Wrappers
  import opened Types
  import opened Seqs

  /** What a rejected API promise carries: an `Error` with a message, or any other value. */
  datatype Thrown = ErrorObject(message: string) | OtherValue

  /** How the awaited API call settled. */
  datatype ApiResult<+T> = Ok(value: T) | Err(thrown: Thrown)

  /** The `tasks`, `isLoading` and `error` stores. */
  datatype TaskState = TaskState(tasks: seq<Task>, isLoading: bool, error: Option<string>)

  /** How the action's own promise settles: store actions re-throw API failures to the UI. */
  datatype Completion = Resolved | Rejected(thrown: Thrown)

  datatype Step = Step(state: TaskState, completion: Completion)

  const LoadFailed := "Failed to load tasks"
  const CreateFailed := "Failed to create task"
  const UpdateFailed := "Failed to update task"
  const DeleteFailed := "Failed to delete task"

  /** The message an action records: the error's own message, or the action's fallback text
      when the thrown value is not an `Error`. */
  function ErrorMessage(e: Thrown, fallback: string): (m: string)
    ensures e.ErrorObject? ==> m == e.message
    ensures e.OtherValue? ==> m == fallback
  {
    match e
    case ErrorObject(message) => message
    case OtherValue => fallback
  }

  /** No two tasks share an id. */
  ghost predicate UniqueIds(tasks: seq<Task>) {
    forall i, j :: 0 <= i < j < |tasks| ==> tasks[i].id != tasks[j].id
  }

  function Ids(tasks: seq<Task>): (ids: set<string>)
    ensures forall id :: id in ids <==> exists i :: 0 <= i < |tasks| && tasks[i].id == id
  {
    set i | 0 <= i < |tasks| :: tasks[i].id
  }

  /** `initialize`: loads the task list; a failure keeps the old list and records the message.
      Loading is over either way and the action itself never rejects. */
  function Initialize(s: TaskState, api: ApiResult<seq<Task>>): (r: TaskState)
    ensures !r.isLoading
    ensures api.Ok? ==> r.tasks == api.value && r.error.None?
    ensures api.Err? ==> r.tasks == s.tasks && r.error == Some(ErrorMessage(api.thrown, LoadFailed))
  {
    match api
    case Ok(fetched) => TaskState(fetched, false, None)
    case Err(e) => TaskState(s.tasks, false, Some(ErrorMessage(e, LoadFailed)))
  }

  /** `create`: on success the API's new task is appended after the unchanged old tasks and the
      error is cleared; on failure the list is unchanged, the message recorded and the failure
      re-thrown. `isLoading` is never touched. */
  function Create(s: TaskState, api: ApiResult<Task>): (r: Step)
    ensures r.state.isLoading == s.isLoading
    ensures api.Ok? ==>
      && |r.state.tasks| == |s.tasks| + 1
      && r.state.tasks[..|s.tasks|] == s.tasks
      && r.state.tasks[|s.tasks|] == api.value
      && r.state.error.None?
      && r.completion.Resolved?
    ensures api.Err? ==>
      && r.state.tasks == s.tasks
      && r.state.error == Some(ErrorMessage(api.thrown, CreateFailed))
      && r.completion == Rejected(api.thrown)
  {
    match api
    case Ok(task) => Step(s.(tasks := s.tasks + [task], error := None), Resolved)
    case Err(e) => Step(s.(error := Some(ErrorMessage(e, CreateFailed))), Rejected(e))
  }

  /** `{ ...task, ...patch, updatedAt: now }`: the fields the patch gives replace the task's. */
  function Patched(t: Task, patch: TaskPatch, now: Timestamp): (u: Task)
    ensures u.id == t.id && u.createdAt == t.createdAt && u.updatedAt == now
    ensures u.title == patch.title.GetOr(t.title)
    ensures u.description == patch.description.GetOr(t.description)
    ensures u.status == patch.status.GetOr(t.status)
  {
    t.(title := patch.title.GetOr(t.title),
       description := patch.description.GetOr(t.description),
       status := patch.status.GetOr(t.status),
       updatedAt := now)
  }

  /** The list edit of `update`: every task with the id is patched, the others stay as they are. */
  function PatchAll(tasks: seq<Task>, id: string, patch: TaskPatch, now: Timestamp): (r: seq<Task>)
    ensures |r| == |tasks|
    ensures forall i :: 0 <= i < |tasks| && tasks[i].id == id ==> r[i] == Patched(tasks[i], patch, now)
    ensures forall i :: 0 <= i < |tasks| && tasks[i].id != id ==> r[i] == tasks[i]
  {
    seq(|tasks|, i requires 0 <= i < |tasks| => if tasks[i].id == id then Patched(tasks[i], patch, now) else tasks[i])
  }

  /** `update(id, data)`: on success, length and order are kept, each task with the id gets the
      patch and the new `updatedAt` while keeping its id and `createdAt`, and every other task
      is untouched; on failure nothing changes in the list. */
  function Update(s: TaskState, id: string, patch: TaskPatch, api: ApiResult<()>, now: Timestamp): (r: Step)
    ensures r.state.isLoading == s.isLoading
    ensures api.Ok? ==>
      && |r.state.tasks| == |s.tasks|
      && (forall i :: 0 <= i < |s.tasks| && s.tasks[i].id == id ==> r.state.tasks[i] == Patched(s.tasks[i], patch, now))
      && (forall i :: 0 <= i < |s.tasks| && s.tasks[i].id != id ==> r.state.tasks[i] == s.tasks[i])
      && r.state.error.None?
      && r.completion.Resolved?
    ensures api.Err? ==>
      && r.state.tasks == s.tasks
      && r.state.error == Some(ErrorMessage(api.thrown, UpdateFailed))
      && r.completion == Rejected(api.thrown)
  {
    match api
    case Ok(_) => Step(s.(tasks := PatchAll(s.tasks, id, patch, now), error := None), Resolved)
    case Err(e) => Step(s.(error := Some(ErrorMessage(e, UpdateFailed))), Rejected(e))
  }

  /** `delete(id)`: on success exactly the tasks with the id are gone and the rest keep their
      order; on failure nothing changes in the list. */
  function Delete(s: TaskState, id: string, api: ApiResult<()>): (r: Step)
    ensures r.state.isLoading == s.isLoading
    ensures api.Ok? ==>
      && (forall t :: t in r.state.tasks <==> t in s.tasks && t.id != id)
      && (forall t :: multiset(r.state.tasks)[t] == if t.id == id then 0 else multiset(s.tasks)[t])
      && IsSubsequence(r.state.tasks, s.tasks)
      && r.state.error.None?
      && r.completion.Resolved?
    ensures api.Err? ==>
      && r.state.tasks == s.tasks
      && r.state.error == Some(ErrorMessage(api.thrown, DeleteFailed))
      && r.completion == Rejected(api.thrown)
  {
    match api
    case Ok(_) => Step(s.(tasks := Filter(s.tasks, (t: Task) => t.id != id), error := None), Resolved)
    case Err(e) => Step(s.(error := Some(ErrorMessage(e, DeleteFailed))), Rejected(e))
  }

  /** `clearError`: forgets the recorded error and nothing else. */
  function ClearError(s: TaskState): (r: TaskState)
    ensures r.error.None?
    ensures r.tasks == s.tasks && r.isLoading == s.isLoading
  {
    s.(error := None)
  }

  // Invariants and inverses

  /** A failed create, update or delete leaves nothing behind that `clearError` does not undo. */
  lemma ClearErrorUndoesFailure(s: TaskState, e: Thrown, id: string, patch: TaskPatch, now: Timestamp)
    ensures ClearError(Create(s, Err(e)).state) == ClearError(s)
    ensures ClearError(Update(s, id, patch, Err(e), now).state) == ClearError(s)
    ensures ClearError(Delete(s, id, Err(e)).state) == ClearError(s)
  {
  }

  /** Loading the same outcome twice is the same as loading it once. */
  lemma InitializeIdempotent(s: TaskState, api: ApiResult<seq<Task>>)
    ensures Initialize(Initialize(s, api), api) == Initialize(s, api)
  {
  }

  /** A successful load after a failed one leaves no trace of the failure. */
  lemma RetryRecovers(s: TaskState, e: Thrown, fetched: seq<Task>)
    ensures Initialize(Initialize(s, Err(e)), Ok(fetched)) == Initialize(s, Ok(fetched))
  {
  }

  /** A successful create with a fresh id adds exactly that id and keeps ids unique. */
  lemma CreateKeepsIdsUnique(s: TaskState, t: Task)
    requires UniqueIds(s.tasks) && t.id !in Ids(s.tasks)
    ensures var r := Create(s, Ok(t)).state;
      UniqueIds(r.tasks) && Ids(r.tasks) == Ids(s.tasks) + {t.id}
  {
    var r := Create(s, Ok(t)).state;
    forall i, j | 0 <= i < j < |r.tasks|
      ensures r.tasks[i].id != r.tasks[j].id
    {
      if j == |s.tasks| {
        assert r.tasks[i] == s.tasks[i];
      } else {
        assert r.tasks[i] == s.tasks[i] && r.tasks[j] == s.tasks[j];
      }
    }
    assert r.tasks == s.tasks + [t];
  }

  /** Deleting the task just created, by its fresh id, restores the list. */
  lemma {:induction false} DeleteUndoesCreate(s: TaskState, t: Task)
    requires t.id !in Ids(s.tasks)
    ensures Delete(Create(s, Ok(t)).state, t.id, Ok(())).state.tasks == s.tasks
  {
    var p := (x: Task) => x.id != t.id;
    FilterConcat(s.tasks, [t], p);
    assert [t][1..] == [];
    FilterKeepsAll(s.tasks, p);
  }

  /** A successful update keeps every task's id, so the set of ids and their uniqueness survive. */
  lemma UpdateKeepsIds(s: TaskState, id: string, patch: TaskPatch, now: Timestamp)
    ensures var r := Update(s, id, patch, Ok(()), now).state;
      && (forall i :: 0 <= i < |s.tasks| ==> r.tasks[i].id == s.tasks[i].id)
      && Ids(r.tasks) == Ids(s.tasks)
      && (UniqueIds(s.tasks) ==> UniqueIds(r.tasks))
  {
    var r := Update(s, id, patch, Ok(()), now).state;
    assert forall i :: 0 <= i < |s.tasks| ==> r.tasks[i].id == s.tasks[i].id;
    assert forall x :: x in Ids(r.tasks) ==> x in Ids(s.tasks);
  }

  /** Timestamps never run backwards under update: with a clock at or past the patched tasks'
      `updatedAt`, no `updatedAt` decreases, `createdAt` is fixed, and `createdAt <= updatedAt`
      survives for every task. */
  lemma UpdateTimestampsMonotone(s: TaskState, id: string, patch: TaskPatch, now: Timestamp)
    requires forall i :: 0 <= i < |s.tasks| && s.tasks[i].id == id ==> s.tasks[i].updatedAt <= now
    ensures var r := Update(s, id, patch, Ok(()), now).state;
      forall i :: 0 <= i < |s.tasks| ==>
        && r.tasks[i].createdAt == s.tasks[i].createdAt
        && r.tasks[i].updatedAt >= s.tasks[i].updatedAt
        && (s.tasks[i].createdAt <= s.tasks[i].updatedAt ==> r.tasks[i].createdAt <= r.tasks[i].updatedAt)
  {
  }

  /** Repeating an update at the same instant changes nothing more. */
  lemma UpdateIdempotent(s: TaskState, id: string, patch: TaskPatch, now: Timestamp)
    ensures var once := Update(s, id, patch, Ok(()), now).state;
      Update(once, id, patch, Ok(()), now).state == once
  {
    var once := Update(s, id, patch, Ok(()), now).state;
    var twice := Update(once, id, patch, Ok(()), now).state;
    assert twice.tasks == once.tasks;
  }

  /** The ids of a list are its head's id and the ids of its tail. */
  lemma IdsCons(t: Task, rest: seq<Task>)
    ensures Ids([t] + rest) == {t.id} + Ids(rest)
  {
    var l := [t] + rest;
    assert l[0].id == t.id;
    forall x | x in Ids(rest)
      ensures x in Ids(l)
    {
      var k :| 0 <= k < |rest| && rest[k].id == x;
      assert l[k + 1].id == x;
    }
    forall x | x in Ids(l)
      ensures x == t.id || x in Ids(rest)
    {
      var k :| 0 <= k < |l| && l[k].id == x;
      if k > 0 {
        assert rest[k - 1].id == x;
      }
    }
  }

  /** The tail of a list with unique ids has unique ids and lacks the head's id. */
  lemma UniqueTail(tasks: seq<Task>)
    requires |tasks| > 0 && UniqueIds(tasks)
    ensures UniqueIds(tasks[1..]) && tasks[0].id !in Ids(tasks[1..])
  {
    var rest := tasks[1..];
    forall i, j | 0 <= i < j < |rest|
      ensures rest[i].id != rest[j].id
    {
      assert rest[i] == tasks[i + 1] && rest[j] == tasks[j + 1];
    }
  }

  /** A task whose id is new in front of a list with unique ids keeps them unique. */
  lemma ConsKeepsIdsUnique(t: Task, rest: seq<Task>)
    requires UniqueIds(rest) && t.id !in Ids(rest)
    ensures UniqueIds([t] + rest)
  {
    var l := [t] + rest;
    forall i, j | 0 <= i < j < |l|
      ensures l[i].id != l[j].id
    {
      assert l[j] == rest[j - 1];
      if i > 0 {
        assert l[i] == rest[i - 1];
      }
    }
  }

  /** Filtering never introduces an id. */
  lemma FilterIdsSubset(tasks: seq<Task>, p: Task -> bool)
    ensures Ids(Filter(tasks, p)) <= Ids(tasks)
  {
    var r := Filter(tasks, p);
    forall x | x in Ids(r)
      ensures x in Ids(tasks)
    {
      var k :| 0 <= k < |r| && r[k].id == x;
      assert r[k] in tasks;
    }
  }

  /** Keeping only some tasks of a list with unique ids leaves unique ids. */
  lemma {:induction false} FilterKeepsIdsUnique(tasks: seq<Task>, p: Task -> bool)
    requires UniqueIds(tasks)
    ensures UniqueIds(Filter(tasks, p))
    decreases |tasks|
  {
    if |tasks| > 0 {
      var rest := tasks[1..];
      assert tasks == [tasks[0]] + rest;
      UniqueTail(tasks);
      FilterKeepsIdsUnique(rest, p);
      if p(tasks[0]) {
        FilterIdsSubset(rest, p);
        ConsKeepsIdsUnique(tasks[0], Filter(rest, p));
      }
    }
  }

  /** With unique ids, deleting by an id removes one task when the id is present, none otherwise. */
  lemma {:induction false} DeleteCount(tasks: seq<Task>, id: string)
    requires UniqueIds(tasks)
    ensures |Filter(tasks, (t: Task) => t.id != id)| == if id in Ids(tasks) then |tasks| - 1 else |tasks|
    decreases |tasks|
  {
    var p := (t: Task) => t.id != id;
    if |tasks| > 0 {
      var rest := tasks[1..];
      assert tasks == [tasks[0]] + rest;
      UniqueTail(tasks);
      IdsCons(tasks[0], rest);
      if tasks[0].id == id {
        FilterKeepsAll(rest, p);
      } else {
        DeleteCount(rest, id);
      }
    }
  }

  /** A successful delete leaves no task with the id, keeps ids unique, and with unique ids
      shortens the list by one exactly when the id was present. */
  lemma DeleteRemovesOne(s: TaskState, id: string)
    requires UniqueIds(s.tasks)
    ensures var r := Delete(s, id, Ok(())).state;
      && UniqueIds(r.tasks)
      && id !in Ids(r.tasks)
      && |r.tasks| == if id in Ids(s.tasks) then |s.tasks| - 1 else |s.tasks|
  {
    var r := Delete(s, id, Ok(())).state;
    FilterKeepsIdsUnique(s.tasks, (t: Task) => t.id != id);
    DeleteCount(s.tasks, id);
  }
}
