/**
  The home page's task list state and the three reducers the form and the
  list items feed, plus the outcome of loading the list from the server.
 */
module HomePage {
  import opened Outcomes
  import opened TaskDto
  import Seqs

  /** `handleTaskCreated`: the new task goes in front of the previous list. */
  function Prepend(newTask: TaskDto, tasks: seq<TaskDto>): (r: seq<TaskDto>)
    ensures |r| == |tasks| + 1
    ensures r[0] == newTask && r[1..] == tasks
  {
    [newTask] + tasks
  }

  /** `handleTaskUpdated`: every task with the updated task's id is replaced by it, in place. */
  function ReplaceById(tasks: seq<TaskDto>, updated: TaskDto): (r: seq<TaskDto>)
    ensures |r| == |tasks|
    ensures forall i :: 0 <= i < |r| && tasks[i].id == updated.id ==> r[i] == updated
    ensures forall i :: 0 <= i < |r| && tasks[i].id != updated.id ==> r[i] == tasks[i]
  {
    seq(|tasks|, i requires 0 <= i < |tasks| => if tasks[i].id == updated.id then updated else tasks[i])
  }

  /** The filter `handleTaskDeleted` applies: `task.id !== taskId`. */
  function Survives(id: int): TaskDto -> bool
  {
    (t: TaskDto) => t.id != id
  }

  /** `handleTaskDeleted`: keep the tasks whose id differs, in their order. */
  function RemoveById(tasks: seq<TaskDto>, id: int): (r: seq<TaskDto>)
    ensures |r| <= |tasks|
    ensures forall i :: 0 <= i < |r| ==> r[i].id != id && r[i] in tasks
    ensures forall t :: multiset(r)[t] == if t.id == id then 0 else multiset(tasks)[t]
  {
    Seqs.FilterCounts(tasks, Survives(id));
    Seqs.Filter(tasks, Survives(id))
  }

  /** Removing from a concatenation removes from each part: the survivors keep their relative order. */
  lemma RemoveKeepsOrder(front: seq<TaskDto>, back: seq<TaskDto>, id: int)
    ensures RemoveById(front + back, id) == RemoveById(front, id) + RemoveById(back, id)
  {
    Seqs.FilterAppend(front, back, Survives(id));
  }

  /** Removing an id no task has changes nothing. */
  lemma RemoveAbsentIsIdentity(tasks: seq<TaskDto>, id: int)
    requires forall i :: 0 <= i < |tasks| ==> tasks[i].id != id
    ensures RemoveById(tasks, id) == tasks
  {
    Seqs.FilterKeepsAll(tasks, Survives(id));
  }

  /** No two tasks in the list share an id. */
  predicate UniqueIds(tasks: seq<TaskDto>)
  {
    Seqs.DistinctBy(tasks, IdOf)
  }

  /** Replacing by id keeps ids unique: the ids stay exactly where they were. */
  lemma ReplaceKeepsUnique(tasks: seq<TaskDto>, updated: TaskDto)
    requires UniqueIds(tasks)
    ensures UniqueIds(ReplaceById(tasks, updated))
  {
    var r := ReplaceById(tasks, updated);
    assert forall i :: 0 <= i < |r| ==> IdOf(r[i]) == IdOf(tasks[i]);
  }

  /** Removing by id keeps ids unique. */
  lemma RemoveKeepsUnique(tasks: seq<TaskDto>, id: int)
    requires UniqueIds(tasks)
    ensures UniqueIds(RemoveById(tasks, id))
  {
    Seqs.FilterDistinct(tasks, Survives(id), IdOf);
  }

  /** The copy a list item hands to the update reducer after a successful toggle. */
  function Flipped(t: TaskDto): (f: TaskDto)
    ensures f.id == t.id && f.isCompleted != t.isCompleted
    ensures f.(isCompleted := t.isCompleted) == t
  {
    t.(isCompleted := !t.isCompleted)
  }

  /**
    Toggling an item twice through the update reducer restores the list,
    when ids are unique.
   */
  lemma ToggleTwiceRestoresList(tasks: seq<TaskDto>, i: int)
    requires UniqueIds(tasks)
    requires 0 <= i < |tasks|
    ensures var once := ReplaceById(tasks, Flipped(tasks[i]));
      ReplaceById(once, Flipped(once[i])) == tasks
  {
    var t := tasks[i];
    var once := ReplaceById(tasks, Flipped(t));
    assert once[i] == Flipped(t);
    var twice := ReplaceById(once, Flipped(once[i]));
    forall k | 0 <= k < |tasks|
      ensures twice[k] == tasks[k]
    {
      if k != i {
        assert IdOf(tasks[k]) != IdOf(t);
      }
    }
  }

  /** A created task can be removed again by its id, leaving the list as it was. */
  lemma CreateThenDeleteRestores(tasks: seq<TaskDto>, newTask: TaskDto)
    requires forall i :: 0 <= i < |tasks| ==> tasks[i].id != newTask.id
    ensures RemoveById(Prepend(newTask, tasks), newTask.id) == tasks
  {
    RemoveKeepsOrder([newTask], tasks, newTask.id);
    assert Prepend(newTask, tasks) == [newTask] + tasks;
    assert RemoveById([newTask], newTask.id) == [];
    RemoveAbsentIsIdentity(tasks, newTask.id);
  }

  /** The page's list and its error flag. */
  datatype PageState = PageState(tasks: seq<TaskDto>, hasError: bool)

  /**
    `loadTasks`: a successful fetch replaces the list and clears the error
    flag; a failed one raises the flag and keeps the list.
   */
  function LoadTasks(st: PageState, fetched: Call<seq<TaskDto>>): (r: PageState)
    ensures r.hasError <==> fetched.Threw?
    ensures fetched.Returned? ==> r.tasks == fetched.value
    ensures fetched.Threw? ==> r.tasks == st.tasks
  {
    match fetched
    case Returned(tasks) => PageState(tasks, false)
    case Threw => st.(hasError := true)
  }

  /** Loading after a failure recovers: the outcome never depends on the earlier state once the fetch succeeds. */
  lemma RetryAfterFailure(st: PageState, tasks: seq<TaskDto>)
    ensures LoadTasks(LoadTasks(st, Threw), Returned(tasks)) == LoadTasks(st, Returned(tasks))
  {
  }
}
