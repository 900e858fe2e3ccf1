/**
  The task list view: the filtered and sorted sequence it renders and the
  statistics panel. The sort key `key` stands for
  `new Date(task.createdAt).getTime()`, the time the client reads back from
  the formatted `createdAt` string.
 */
module TaskList {
  import opened TaskDto
  import Seqs
  import Ordering

  datatype FilterType = All | Completed | Pending
  datatype SortType = Newest | Oldest

  /** The filter step: keep the completed tasks, the pending ones, or all of them. */
  function FilterTasks(tasks: seq<TaskDto>, filter: FilterType): (r: seq<TaskDto>)
    ensures filter.All? ==> r == tasks
    ensures filter.Completed? ==> forall t :: multiset(r)[t] == if t.isCompleted then multiset(tasks)[t] else 0
    ensures filter.Pending? ==> forall t :: multiset(r)[t] == if t.isCompleted then 0 else multiset(tasks)[t]
  {
    match filter
    case All => tasks
    case Completed => Seqs.FilterCounts(tasks, IsDone); Seqs.Filter(tasks, IsDone)
    case Pending => Seqs.FilterCounts(tasks, IsPending); Seqs.Filter(tasks, IsPending)
  }

  /** `filteredAndSortedTasks`: the filtered tasks, oldest first or newest first by `key`. */
  function FilteredAndSorted(tasks: seq<TaskDto>, filter: FilterType, sortBy: SortType, key: TaskDto -> int): (r: seq<TaskDto>)
    ensures multiset(r) == multiset(FilterTasks(tasks, filter))
    ensures |r| == |FilterTasks(tasks, filter)|
    ensures sortBy.Oldest? ==> Ordering.Sorted(r, key, false)
    ensures sortBy.Newest? ==> Ordering.Sorted(r, key, true)
  {
    Ordering.Sort(FilterTasks(tasks, filter), key, sortBy.Newest?)
  }

  /** A view already in the requested order is shown as it is. */
  lemma AlreadyOrderedShownAsIs(tasks: seq<TaskDto>, sortBy: SortType, key: TaskDto -> int)
    requires Ordering.Sorted(tasks, key, sortBy.Newest?)
    ensures FilteredAndSorted(tasks, All, sortBy, key) == tasks
  {
    Ordering.SortSorted(tasks, key, sortBy.Newest?);
  }

  /** Every shown task is one of the loaded tasks and matches the filter. */
  lemma ShownTasksMatchFilter(tasks: seq<TaskDto>, filter: FilterType, sortBy: SortType, key: TaskDto -> int, i: int)
    requires 0 <= i < |FilteredAndSorted(tasks, filter, sortBy, key)|
    ensures var t := FilteredAndSorted(tasks, filter, sortBy, key)[i];
      && t in tasks
      && (filter.Completed? ==> t.isCompleted)
      && (filter.Pending? ==> !t.isCompleted)
  {
    var r := FilteredAndSorted(tasks, filter, sortBy, key);
    assert r[i] in multiset(r);
  }

  datatype TaskStats = TaskStats(total: int, completed: int, pending: int, completionPercentage: int)

  /**
    `taskStats`. The percentage is `Math.round(completed / total * 100)` on
    the exact quotient: the nearest integer, halves rounded up.
   */
  function Stats(tasks: seq<TaskDto>): (s: TaskStats)
    ensures s.total == |tasks|
    ensures s.completed == |Seqs.Filter(tasks, IsDone)|
    ensures 0 <= s.pending && s.completed + s.pending == s.total
    ensures 0 <= s.completionPercentage <= 100
    ensures s.total == 0 ==> s.completionPercentage == 0
    ensures s.total > 0 ==>
      200 * s.completed - s.total < 2 * s.total * s.completionPercentage <= 200 * s.completed + s.total
    ensures s.completed == 0 ==> s.completionPercentage == 0
    ensures s.total > 0 && s.completed == s.total ==> s.completionPercentage == 100
  {
    var total := |tasks|;
    var completed := |Seqs.Filter(tasks, IsDone)|;
    var percentage := if total > 0 then RoundedPercentage(completed, total) else 0;
    TaskStats(total, completed, total - completed, percentage)
  }

  /** `part / whole * 100` rounded to the nearest integer, halves up. */
  function RoundedPercentage(part: nat, whole: nat): (p: int)
    requires 0 < whole && part <= whole
    ensures 200 * part - whole < 2 * whole * p <= 200 * part + whole
    ensures 0 <= p <= 100
    ensures part == 0 ==> p == 0
    ensures part == whole ==> p == 100
  {
    PercentageBounds(part, whole);
    (200 * part + whole) / (2 * whole)
  }

  /** The bounds `RoundedPercentage` promises, for its quotient. */
  lemma PercentageBounds(part: nat, whole: nat)
    requires 0 < whole && part <= whole
    ensures var p := (200 * part + whole) / (2 * whole);
      && 200 * part - whole < 2 * whole * p <= 200 * part + whole
      && 0 <= p <= 100
      && (part == 0 ==> p == 0)
      && (part == whole ==> p == 100)
  {
    var d := 2 * whole;
    var x := 200 * part + whole;
    var p := x / d;
    DivBounds(x, d);
    if p < 0 {
      MulMonotone(d, p, -1);
    }
    if p > 100 {
      MulMonotone(d, 101, p);
    }
    if part == 0 && p >= 1 {
      MulMonotone(d, 1, p);
    }
    if part == whole && p <= 99 {
      MulMonotone(d, p, 99);
    }
  }

  /** Euclidean division brackets its dividend. */
  lemma DivBounds(x: int, d: int)
    requires d > 0
    ensures d * (x / d) <= x < d * (x / d) + d
  {
  }

  lemma MulMonotone(d: int, a: int, b: int)
    requires d >= 0 && a <= b
    ensures d * a <= d * b
  {
  }

  /** The filter options' counts are the sizes of the lists those options show. */
  lemma OptionCountsMatchViews(tasks: seq<TaskDto>, sortBy: SortType, key: TaskDto -> int)
    ensures |FilteredAndSorted(tasks, All, sortBy, key)| == Stats(tasks).total
    ensures |FilteredAndSorted(tasks, Completed, sortBy, key)| == Stats(tasks).completed
    ensures |FilteredAndSorted(tasks, Pending, sortBy, key)| == Stats(tasks).pending
  {
    Seqs.FilterComplement(tasks, IsDone, IsPending);
  }
}
