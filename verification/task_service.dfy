/**
  The task service over the task table. The table is a map from id to
  record; the clock reading and the id the database assigns are inputs.
 */
module TaskService {
  import opened Outcomes
  import opened Text
  import opened TaskDto
  import opened CreateTaskDto
  import Ordering

  /** One row of the task table (`TaskModel`); its id is the key it is stored under. */
  datatype TaskRecord = TaskRecord(title: Text, description: Text, isCompleted: bool, createdAt: Instant)

  type Store = map<int, TaskRecord>

  /** The transport object for a stored row. */
  function ToDto(id: int, t: TaskRecord): (d: TaskDto)
    ensures d.id == id && d.createdAt == t.createdAt
    ensures d.title == t.title && d.description == t.description && d.isCompleted == t.isCompleted
  {
    TaskDto(id, t.title, t.description, t.isCompleted, t.createdAt)
  }

  /** A listing of `store`: every row exactly once as its DTO, nothing else, newest first. */
  predicate IsListingOf(tasks: seq<TaskDto>, store: Store)
  {
    && Ordering.Sorted(tasks, CreatedAtKey, true)
    && |tasks| == |store|
    && (forall i :: 0 <= i < |tasks| ==> tasks[i].id in store && tasks[i] == ToDto(tasks[i].id, store[tasks[i].id]))
    && (forall id :: id in store ==> multiset(tasks)[ToDto(id, store[id])] == 1)
  }

  /**
    A listing under construction: the rows whose ids are not in `todo` are
    listed once each, newest first; the rows in `todo` are not yet listed.
   */
  predicate PartialListing(tasks: seq<TaskDto>, store: Store, todo: set<int>)
  {
    && todo <= store.Keys
    && Ordering.Sorted(tasks, CreatedAtKey, true)
    && |tasks| + |todo| == |store|
    && (forall i :: 0 <= i < |tasks| ==>
          tasks[i].id in store && tasks[i].id !in todo && tasks[i] == ToDto(tasks[i].id, store[tasks[i].id]))
    && (forall id :: id in store ==> multiset(tasks)[ToDto(id, store[id])] == if id in todo then 0 else 1)
  }

  /** Inserting the DTO of one pending row extends a partial listing by that row. */
  lemma ListingStep(tasks: seq<TaskDto>, store: Store, todo: set<int>, id: int)
    requires PartialListing(tasks, store, todo) && id in todo
    ensures PartialListing(Ordering.Insert(ToDto(id, store[id]), tasks, CreatedAtKey, true), store, todo - {id})
  {
    var d := ToDto(id, store[id]);
    Ordering.InsertSorted(d, tasks, CreatedAtKey, true);
    var next := Ordering.Insert(d, tasks, CreatedAtKey, true);
    forall other | other in store
      ensures multiset(next)[ToDto(other, store[other])] == if other in todo - {id} then 0 else 1
    {
      if other != id {
        assert ToDto(other, store[other]) != d;
      }
    }
  }

  /** A set with no member is empty. */
  lemma EmptyOrInhabited(s: set<int>)
    ensures s == {} || exists x :: x in s
  {
    if !(exists x :: x in s) {
      assert s == {};
    }
  }

  /**
    `GetAllTasksService`: all rows ordered by `CreatedAt` descending. Rows
    with equal `CreatedAt` may come in any order; the store is only read.
   */
  method GetAllTasks(store: Store) returns (tasks: seq<TaskDto>)
    ensures Ordering.Sorted(tasks, CreatedAtKey, true)
    ensures |tasks| == |store|
    ensures forall i :: 0 <= i < |tasks| ==> tasks[i].id in store && tasks[i] == ToDto(tasks[i].id, store[tasks[i].id])
    ensures forall id :: id in store ==> multiset(tasks)[ToDto(id, store[id])] == 1
  {
    var todo := store.Keys;
    tasks := [];
    while todo != {}
      invariant PartialListing(tasks, store, todo)
      decreases todo
    {
      EmptyOrInhabited(todo);
      var id :| id in todo;
      ListingStep(tasks, store, todo, id);
      tasks := Ordering.Insert(ToDto(id, store[id]), tasks, CreatedAtKey, true);
      todo := todo - {id};
    }
  }

  /** Rows with a later `CreatedAt` come first in a listing. */
  lemma ListingPutsNewerFirst(tasks: seq<TaskDto>, store: Store, i: int, j: int)
    requires IsListingOf(tasks, store)
    requires 0 <= i < |tasks| && 0 <= j < |tasks|
    requires tasks[i].createdAt > tasks[j].createdAt
    ensures i < j
  {
  }

  /** The result of `CreateTaskService`: the new table and the returned DTO. */
  datatype Created = Created(store: Store, task: TaskDto)

  /** The row `CreateTaskService` builds: trimmed title and description, not completed, stamped `now`. */
  function NewRow(title: Text, description: Text, now: Instant): (row: TaskRecord)
    ensures row.title == Trim(IsDotNetWhitespace, title) && row.description == Trim(IsDotNetWhitespace, description)
    ensures !row.isCompleted && row.createdAt == now
  {
    TaskRecord(Trim(IsDotNetWhitespace, title), Trim(IsDotNetWhitespace, description), false, now)
  }

  /**
    `CreateTaskService`: stores `NewRow` under the id the database assigns
    (`freshId`, any id not in use) and returns its DTO. A `null` field makes
    `Trim()` raise.
   */
  function CreateTask(store: Store, req: CreateTaskRequest, now: Instant, freshId: int): (r: Call<Created>)
    requires freshId !in store
    ensures r.Threw? <==> req.title.None? || req.description.None?
    ensures r.Returned? ==>
      && r.value.store.Keys == store.Keys + {freshId}
      && r.value.store[freshId] == NewRow(req.title.value, req.description.value, now)
      && (forall id :: id in store ==> r.value.store[id] == store[id])
    ensures r.Returned? ==> r.value.task == ToDto(freshId, NewRow(req.title.value, req.description.value, now))
  {
    if req.title.None? || req.description.None? then Threw
    else
      var row := NewRow(req.title.value, req.description.value, now);
      Returned(Created(store[freshId := row], ToDto(freshId, row)))
  }

  /** A created task is listed exactly once afterwards, with the fields it was returned with. */
  lemma CreatedTaskListedOnce(store: Store, req: CreateTaskRequest, now: Instant, freshId: int, tasks: seq<TaskDto>)
    requires freshId !in store
    requires CreateTask(store, req, now, freshId).Returned?
    requires IsListingOf(tasks, CreateTask(store, req, now, freshId).value.store)
    ensures multiset(tasks)[CreateTask(store, req, now, freshId).value.task] == 1
  {
  }

  /** The result of `DeleteTaskService`: whether a row was found, and the new table. */
  datatype Deleted = Deleted(found: bool, store: Store)

  /** `DeleteTaskService`: removes the row if present and reports whether it was. */
  function DeleteTask(store: Store, id: int): (r: Deleted)
    ensures r.found <==> id in store
    ensures !r.found ==> r.store == store
    ensures r.store.Keys == store.Keys - {id}
    ensures forall k :: k in r.store ==> r.store[k] == store[k]
  {
    if id !in store then Deleted(false, store)
    else Deleted(true, store - {id})
  }

  /** The result of `ToggleTaskStatusService`: `null` or `true`, and the new table. */
  datatype Toggled = Toggled(result: Option<bool>, store: Store)

  /** `ToggleTaskStatusService`: flips `IsCompleted` of the row if present. */
  function ToggleTaskStatus(store: Store, id: int): (r: Toggled)
    ensures r.result.None? <==> id !in store
    ensures r.result.None? ==> r.store == store
    ensures r.result.Some? ==>
      && r.result.value
      && r.store.Keys == store.Keys
      && r.store[id] == store[id].(isCompleted := !store[id].isCompleted)
      && (forall k :: k in store && k != id ==> r.store[k] == store[k])
  {
    if id !in store then Toggled(None, store)
    else Toggled(Some(true), store[id := store[id].(isCompleted := !store[id].isCompleted)])
  }

  /** Toggling the same id twice restores the table. */
  lemma ToggleTwiceRestores(store: Store, id: int)
    ensures ToggleTaskStatus(ToggleTaskStatus(store, id).store, id).store == store
  {
    var once := ToggleTaskStatus(store, id).store;
    var twice := ToggleTaskStatus(once, id).store;
    if id in store {
      assert twice.Keys == store.Keys;
      forall k | k in store
        ensures twice[k] == store[k]
      {
      }
    }
  }

  /** After a delete the id is gone: a second delete, or a toggle, finds nothing. */
  lemma DeleteThenNotFound(store: Store, id: int)
    ensures !DeleteTask(DeleteTask(store, id).store, id).found
    ensures ToggleTaskStatus(DeleteTask(store, id).store, id).result.None?
  {
  }
}
