/** The task object both tiers exchange as JSON: `TaskDTO` on the server, `TaskDTO` on the client. */
module TaskDto {
  import opened Text

  /**
    A point in time as the store keeps it (`DateTime`), represented by its
    tick count; only its order matters to the model.
   */
  type Instant = int

  /**
    `createdAt` is sent as a formatted local-time string; the model carries
    the instant that string is formatted from. The string keeps only the
    minute.
   */
  datatype TaskDto = TaskDto(id: int, title: Text, description: Text, isCompleted: bool, createdAt: Instant)

  function IdOf(t: TaskDto): int
  {
    t.id
  }

  /** The key the server sorts by. */
  function CreatedAtKey(t: TaskDto): int
  {
    t.createdAt
  }

  /** The client's `task.isCompleted` filter predicate and its negation. */
  predicate IsDone(t: TaskDto)
  {
    t.isCompleted
  }

  predicate IsPending(t: TaskDto)
  {
    !t.isCompleted
  }
}
