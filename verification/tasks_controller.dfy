/**
  The HTTP controller: how each endpoint turns the validation result, the
  service's result or the service's exception into a status code and body,
  and what each endpoint does to the task table once composed with the
  service.
 */
module TasksController {
  import opened Outcomes
  import opened TaskDto
  import opened CreateTaskDto
  import opened Text
  import TaskService

  datatype Body =
    | TaskList(tasks: seq<TaskDto>)
    | CreatedTask(task: TaskDto)
    | ValidationProblem(errors: seq<FieldError>)
    | Message(message: string)
    /** `{ error = "Task with ID {id} not found." }` */
    | NotFound(id: int)
    | ServerError(error: string)
    | NoBody

  datatype Response = Response(status: int, body: Body)

  const RetrieveFailed: string := "An error occurred while retrieving tasks."
  const CreateFailed: string := "An error occurred while creating the task."
  const UpdateFailed: string := "An error occurred while updating the task."
  const DeleteFailed: string := "An error occurred while deleting the task."
  const ToggleSucceeded: string := "Task status toggled successfully."

  /** `GetTasks`: 200 with the service's list, or 500 when the service raises. */
  function GetTasks(call: Call<seq<TaskDto>>): (resp: Response)
    ensures resp.status == 200 <==> call.Returned?
    ensures resp.status == 500 <==> call.Threw?
    ensures call.Returned? ==> resp.body == TaskList(call.value)
    ensures call.Threw? ==> resp.body == ServerError(RetrieveFailed)
  {
    match call
    case Returned(tasks) => Response(200, TaskList(tasks))
    case Threw => Response(500, ServerError(RetrieveFailed))
  }

  /**
    `CreateTask`: 400 with the model-state errors when there are any (the
    service is then not called, so `call` is ignored); otherwise 200 with the
    service's DTO, or 500 when the service raises.
   */
  function CreateTask(errors: seq<FieldError>, call: Call<TaskDto>): (resp: Response)
    ensures resp.status == 400 <==> |errors| > 0
    ensures resp.status == 400 ==> resp.body == ValidationProblem(errors)
    ensures resp.status == 200 <==> |errors| == 0 && call.Returned?
    ensures resp.status == 200 ==> resp.body == CreatedTask(call.value)
    ensures resp.status == 500 <==> |errors| == 0 && call.Threw?
    ensures resp.status == 500 ==> resp.body == ServerError(CreateFailed)
  {
    if |errors| > 0 then Response(400, ValidationProblem(errors))
    else match call
      case Returned(task) => Response(200, CreatedTask(task))
      case Threw => Response(500, ServerError(CreateFailed))
  }

  /** `ToggleTaskStatus`: 404 when the service returns `null`, 200 otherwise, 500 when it raises. */
  function ToggleTaskStatus(id: int, call: Call<Option<bool>>): (resp: Response)
    ensures resp.status == 404 <==> call.Returned? && call.value.None?
    ensures resp.status == 404 ==> resp.body == NotFound(id)
    ensures resp.status == 200 <==> call.Returned? && call.value.Some?
    ensures resp.status == 200 ==> resp.body == Message(ToggleSucceeded)
    ensures resp.status == 500 <==> call.Threw?
    ensures resp.status == 500 ==> resp.body == ServerError(UpdateFailed)
  {
    match call
    case Returned(None) => Response(404, NotFound(id))
    case Returned(Some(_)) => Response(200, Message(ToggleSucceeded))
    case Threw => Response(500, ServerError(UpdateFailed))
  }

  /** `DeleteTask`: 404 when the service returns `false`, 204 with no body otherwise, 500 when it raises. */
  function DeleteTask(id: int, call: Call<bool>): (resp: Response)
    ensures resp.status == 404 <==> call.Returned? && !call.value
    ensures resp.status == 404 ==> resp.body == NotFound(id)
    ensures resp.status == 204 <==> call.Returned? && call.value
    ensures resp.status == 204 ==> resp.body == NoBody
    ensures resp.status == 500 <==> call.Threw?
    ensures resp.status == 500 ==> resp.body == ServerError(DeleteFailed)
  {
    match call
    case Returned(false) => Response(404, NotFound(id))
    case Returned(true) => Response(204, NoBody)
    case Threw => Response(500, ServerError(DeleteFailed))
  }

  /** A response together with the task table after the request. */
  datatype Exchange = Exchange(response: Response, store: TaskService.Store)

  /**
    POST end to end: validation, then the service. A request that fails
    validation gets 400 and leaves the table alone; one that passes never
    makes the service raise and gets 200 with the stored, trimmed task.
   */
  function HandleCreate(store: TaskService.Store, req: CreateTaskRequest, now: Instant, freshId: int): (x: Exchange)
    requires freshId !in store
    ensures x.response.status == 400 <==> !IsValid(req)
    ensures !IsValid(req) ==> x.store == store && x.response.body == ValidationProblem(Validate(req))
    ensures IsValid(req) ==>
      && x.response.status == 200
      && x.store == TaskService.CreateTask(store, req, now, freshId).value.store
      && x.store[freshId] == TaskService.NewRow(req.title.value, req.description.value, now)
      && x.response.body == CreatedTask(TaskService.ToDto(freshId, x.store[freshId]))
  {
    var errors := Validate(req);
    if |errors| > 0 then
      Exchange(CreateTask(errors, Threw), store)
    else
      ValidIffBothAcceptable(req);
      var created := TaskService.CreateTask(store, req, now, freshId);
      Exchange(CreateTask(errors, Returned(created.value.task)), created.value.store)
  }

  /** PATCH end to end: 404 exactly when the id is not in the table, and then nothing changes. */
  function HandleToggle(store: TaskService.Store, id: int): (x: Exchange)
    ensures x.response.status == 404 <==> id !in store
    ensures x.response.status == 404 ==> x.store == store
    ensures x.response.status != 404 ==>
      && x.response.status == 200
      && x.store.Keys == store.Keys
      && x.store[id] == store[id].(isCompleted := !store[id].isCompleted)
      && (forall k :: k in store && k != id ==> x.store[k] == store[k])
  {
    var t := TaskService.ToggleTaskStatus(store, id);
    Exchange(ToggleTaskStatus(id, Returned(t.result)), t.store)
  }

  /** DELETE end to end: 404 exactly when the id is not in the table, and then nothing changes; otherwise 204 and the row is gone. */
  function HandleDelete(store: TaskService.Store, id: int): (x: Exchange)
    ensures x.response.status == 404 <==> id !in store
    ensures x.response.status == 404 ==> x.store == store
    ensures x.response.status != 404 ==>
      && x.response.status == 204
      && x.store.Keys == store.Keys - {id}
      && (forall k :: k in x.store ==> x.store[k] == store[k])
  {
    var d := TaskService.DeleteTask(store, id);
    Exchange(DeleteTask(id, Returned(d.found)), d.store)
  }

  /** GET end to end: 200 with a newest-first listing of the table. */
  method HandleGetTasks(store: TaskService.Store) returns (resp: Response)
    ensures resp.status == 200
    ensures resp.body.TaskList? && TaskService.IsListingOf(resp.body.tasks, store)
  {
    var tasks := TaskService.GetAllTasks(store);
    resp := GetTasks(Returned(tasks));
  }

  /**
    What every stored row satisfies when rows enter only through the create
    endpoint: title and description are already trimmed, the title has 3 to
    200 code units and the description 3 to 1000.
   */
  predicate RowValid(row: TaskService.TaskRecord)
  {
    && Trim(IsDotNetWhitespace, row.title) == row.title
    && MinTrimmedLength <= |row.title| <= TitleMaxLength
    && Trim(IsDotNetWhitespace, row.description) == row.description
    && MinTrimmedLength <= |row.description| <= DescriptionMaxLength
  }

  predicate RowsValid(store: TaskService.Store)
  {
    forall k :: k in store ==> RowValid(store[k])
  }

  /** A field the server accepts, once trimmed, is a valid stored value: trimmed, and within both bounds. */
  lemma AcceptedFieldStoresValid(v: Option<Text>, maxLength: int)
    requires FieldAcceptable(v, maxLength)
    ensures Trim(IsDotNetWhitespace, Trim(IsDotNetWhitespace, v.value)) == Trim(IsDotNetWhitespace, v.value)
    ensures MinTrimmedLength <= |Trim(IsDotNetWhitespace, v.value)| <= maxLength
  {
    TrimIdempotent(IsDotNetWhitespace, v.value);
  }

  /** The create endpoint keeps every stored row valid. */
  lemma CreateKeepsRowsValid(store: TaskService.Store, req: CreateTaskRequest, now: Instant, freshId: int)
    requires freshId !in store
    requires RowsValid(store)
    ensures RowsValid(HandleCreate(store, req, now, freshId).store)
  {
    if IsValid(req) {
      ValidIffBothAcceptable(req);
      AcceptedFieldStoresValid(req.title, TitleMaxLength);
      AcceptedFieldStoresValid(req.description, DescriptionMaxLength);
    }
  }

  /** The toggle endpoint keeps every stored row valid. */
  lemma ToggleKeepsRowsValid(store: TaskService.Store, id: int)
    requires RowsValid(store)
    ensures RowsValid(HandleToggle(store, id).store)
  {
  }

  /** The delete endpoint keeps every stored row valid. */
  lemma DeleteKeepsRowsValid(store: TaskService.Store, id: int)
    requires RowsValid(store)
    ensures RowsValid(HandleDelete(store, id).store)
  {
  }
}
