# Task tracker: validation, service, controller and client state

This project models the rules of a small task tracker in Dafny. The tracker has an ASP.NET Core
backend and a React frontend. Both tiers appear in the model:

- **Backend.**
  - The `CreateTaskDTO` validation attributes, with `MinimumTrimmedLength`.
  - The task service over the task table: list, create, delete, toggle.
  - The HTTP controller's mapping of each outcome to a status code. It is also composed with the service end to end.
- **Frontend.**
  - The creation form's validation and the trimmed request it submits.
  - The task list's filter, sort and statistics.
  - The home page's three list reducers and the outcome of loading the list.

Strings are sequences of UTF-16 code units, the unit both `string.Length` in .NET and `length` in
JavaScript count. Trimming is parameterised by the set of code units treated as white space:

- `Text.IsDotNetWhitespace` is `char.IsWhiteSpace`, which `String.Trim()` strips.
- `Text.IsEcmaWhitespace` is the WhiteSpace and LineTerminator code points of section 12.2 and 12.3
  of ECMA-262, which `String.prototype.trim` strips.

The task table is a `map<int, TaskRecord>`. The id the database assigns on insert is any id not in
use, passed in as `freshId`. The clock reading `DateTime.UtcNow` is passed in as `now`.

A service call that may raise is modelled as a `Call<T>`: `Returned(value)` or `Threw`. Whether a
database call raises is an input of the controller functions. Of the exceptions the service can
raise by itself, `Trim()` on a `null` field is modelled. The other, `FindSystemTimeZoneById` inside
`FormatDate` failing on a host without the Eastern time zone, is not (see "## Left out").

Modules:

| file | module | contents |
|---|---|---|
| `outcomes.dfy` | `Outcomes` | `Option`, `Call` |
| `seqs.dfy` | `Seqs` | order-preserving filter (JavaScript's `filter`) and its laws |
| `ordering.dfy` | `Ordering` | sortedness by an integer key, insertion sort, its laws |
| `text.dfy` | `Text` | code units, the white-space classes, `Trim` and its laws |
| `create_task_dto.dfy` | `CreateTaskDto` | the request body, the three attributes, model-state validation |
| `task_dto.dfy` | `TaskDto` | the DTO both tiers exchange |
| `task_service.dfy` | `TaskService` | the task table and the four service operations |
| `tasks_controller.dfy` | `TasksController` | status codes and bodies, and the endpoints composed with the service |
| `task_form.dfy` | `TaskForm` | client-side validation, `handleSubmit`, the cross-tier lemma, the white-space finding |
| `task_list.dfy` | `TaskList` | filter, sort, statistics |
| `home_page.dfy` | `HomePage` | the create, update and delete reducers; `loadTasks` |

## Model

| member | source | states |
|---|---|---|
| Text.Trim | Backend/DTOs/CreateTaskDTO.cs:31 | The trimmed string is the stretch of the input between a leading and a trailing run of white space. It neither starts nor ends with white space, and it is never longer than the input. |
| Text.TrimUnique | Backend/DTOs/CreateTaskDTO.cs:31 | Any stretch of the input with only white space outside it and no white space at its ends is exactly the trim. |
| Text.TrimIdempotent | Frontend/src/components/TaskForm/TaskForm.tsx:77-80 | Trimming a trimmed string changes nothing. |
| Text.TrimNarrowerAfterWider | Frontend/src/components/TaskForm/TaskForm.tsx:77-80 | Trimming with a class of white space contained in the first one changes nothing. So the server's `Trim()` keeps a string the client already trimmed, when the client's class covers the server's. |
| Text.TrimEmptyIffAllWhitespace | Backend/DTOs/CreateTaskDTO.cs:7 | The trim is empty exactly when the string is all white space. This is how `Required` and `MinimumTrimmedLength` relate. |
| CreateTaskDto.MinimumTrimmedLengthIsValid | Backend/DTOs/CreateTaskDTO.cs:27-34 | Valid exactly for a string whose trimmed length is at least the minimum. `null` and non-strings are invalid. With a positive minimum, a valid string is not blank. |
| CreateTaskDto.AttributeIsValid | Backend/DTOs/CreateTaskDTO.cs:7-9 | `Required` accepts exactly a present value whose trim is not empty. `StringLength(max)` accepts a missing value and otherwise caps the raw, untrimmed length. `MinimumTrimmedLength(min)` accepts exactly a present value whose trim has at least `min` code units. |
| CreateTaskDto.IsValid | Backend/Controllers/TasksController.cs:37 | The model state is valid exactly when every attribute of both properties accepts that property's value. |
| CreateTaskDto.Failing | Backend/DTOs/CreateTaskDTO.cs:7-15 | Exactly the attributes of a property that reject its value; each attribute is evaluated. |
| CreateTaskDto.Validate | Backend/DTOs/CreateTaskDTO.cs:7-15 | A model-state error is produced exactly for each (property, attribute) pair whose attribute rejects that property. |
| CreateTaskDto.TitleAcceptance | Backend/DTOs/CreateTaskDTO.cs:7-10 | A title passes all its attributes iff it is non-null, not blank, at most 200 raw code units, and at least 3 once trimmed. |
| CreateTaskDto.DescriptionAcceptance | Backend/DTOs/CreateTaskDTO.cs:12-15 | The same, with a raw cap of 1000. |
| CreateTaskDto.ValidIffBothAcceptable | Backend/DTOs/CreateTaskDTO.cs:7-15 | The model state is valid iff both properties are acceptable. |
| CreateTaskDto.ShortOrBlankRejected | Backend/DTOs/CreateTaskDTO.cs:29-31 | A present field shorter than 3 once trimmed, blank ones included, draws the `MinimumTrimmedLength` error, for either property. |
| CreateTaskDto.PaddedTitleRejected | Backend/DTOs/CreateTaskDTO.cs:8 | 198 letters and 3 spaces trim to 198 code units yet draw the `StringLength(200)` error: the cap is on the raw string. |
| TaskService.ToDto | Backend/Services/TaskService.cs:23-30 | The DTO mirrors the row: same id, title, description, completion flag and creation time. |
| TaskService.ListingStep | Backend/Services/TaskService.cs:19-21 | Inserting one more row's DTO into a newest-first partial listing keeps it newest-first and lists that row exactly once. |
| TaskService.GetAllTasks | Backend/Services/TaskService.cs:17-31 | The result is newest first, as long as the table, lists each row exactly once as its DTO, and contains nothing else. |
| TaskService.ListingPutsNewerFirst | Backend/Services/TaskService.cs:20 | In any listing, a strictly newer task comes before an older one. |
| TaskService.NewRow | Backend/Services/TaskService.cs:37-43 | A new row holds the trimmed title and description, is not completed, and is stamped with the current time. |
| TaskService.CreateTask | Backend/Services/TaskService.cs:35-56 | It raises iff a field is `null`. Otherwise exactly one row is added under the fresh id, holding the new row, with every existing row unchanged. The returned DTO mirrors the new row and id. |
| TaskService.CreatedTaskListedOnce | Backend/Services/TaskService.cs:45-55 | After a create, any listing of the table contains the returned DTO exactly once. |
| TaskService.DeleteTask | Backend/Services/TaskService.cs:58-69 | It reports found iff the id is present. If absent, the table is unchanged; otherwise only that id is removed and every other row is unchanged. |
| TaskService.ToggleTaskStatus | Backend/Services/TaskService.cs:71-83 | It returns `null` iff the id is absent, leaving the table unchanged. Otherwise it returns `true` and flips only that row's completion flag. |
| TaskService.ToggleTwiceRestores | Backend/Services/TaskService.cs:78 | Toggling the same id twice restores the table. |
| TaskService.DeleteThenNotFound | Backend/Services/TaskService.cs:58-76 | After a delete, deleting or toggling the same id finds nothing. |
| TasksController.GetTasks | Backend/Controllers/TasksController.cs:19-31 | 200 with the list iff the service returns; 500 with the retrieval message iff it raises. |
| TasksController.CreateTask | Backend/Controllers/TasksController.cs:34-51 | 400 with the errors iff the model state has any. Otherwise 200 with the service's DTO, or 500 iff the service raises. |
| TasksController.ToggleTaskStatus | Backend/Controllers/TasksController.cs:54-72 | 404 iff the service returns `null`, 200 iff it returns a value, 500 iff it raises. |
| TasksController.DeleteTask | Backend/Controllers/TasksController.cs:75-93 | 404 iff the service returns `false`, 204 with no body iff `true`, 500 iff it raises. |
| TasksController.HandleCreate | Backend/Controllers/TasksController.cs:37-45 | Composed with validation and the service: 400 iff the request is invalid, and then the table is unchanged. Otherwise 200: given that the database and `FormatDate` do not raise, the service does not raise on a valid request, the new row is stored, and its DTO is returned. |
| TasksController.HandleToggle | Backend/Controllers/TasksController.cs:59-66 | Composed with the service: 404 iff the id is not in the table, and then nothing changes. Otherwise 200: only that row's completion flag is flipped, its other fields and every other row are unchanged. |
| TasksController.CreateKeepsRowsValid | Backend/Services/TaskService.cs:37-46 | If every stored title is trimmed with 3..200 code units and every description trimmed with 3..1000, that still holds after a create through the endpoint. This follows from validation, trim idempotence and a trim never being longer than its input. |
| TasksController.AcceptedFieldStoresValid | Backend/Services/TaskService.cs:39-40 | The trim of a field the server accepts is itself trimmed and has between 3 and the field's cap code units. |
| TasksController.ToggleKeepsRowsValid | Backend/Services/TaskService.cs:78 | A toggle through the endpoint keeps every stored row valid in that sense. |
| TasksController.DeleteKeepsRowsValid | Backend/Services/TaskService.cs:65 | A delete through the endpoint keeps every stored row valid in that sense. |
| TasksController.HandleDelete | Backend/Controllers/TasksController.cs:80-87 | Composed with the service: 404 iff the id is not in the table, and then nothing changes. Otherwise 204 and only that row is gone. |
| TasksController.HandleGetTasks | Backend/Controllers/TasksController.cs:24-25 | Composed with the service: 200 with a newest-first listing of the table. |
| TaskForm.CheckField | Frontend/src/components/TaskForm/TaskForm.tsx:46-52 | One issue per field in priority order. Missing iff the trim is empty; too short iff it is 1 or 2 long; too long iff it exceeds the cap; none iff its length is within the bounds. |
| TaskForm.ValidateForm | Frontend/src/components/TaskForm/TaskForm.tsx:40-65 | Each field's entry is that field's own check. |
| TaskForm.FormIsValid | Frontend/src/components/TaskForm/TaskForm.tsx:64 | The errors object has no keys exactly when no field issue and no general message is set. |
| TaskForm.ValidIffWithinBounds | Frontend/src/components/TaskForm/TaskForm.tsx:40-64 | The form is valid iff the trimmed title has 3..200 code units and the trimmed description 3..1000. |
| TaskForm.FieldsIndependent | Frontend/src/components/TaskForm/TaskForm.tsx:45-61 | Changing one field never changes the other field's issue. |
| TaskForm.HandleSubmit | Frontend/src/components/TaskForm/TaskForm.tsx:67-98 | A request is sent iff the form is valid, and it carries the trimmed fields. If invalid, the form shows the validation errors and nothing is created. On success the form is reset and the created task is passed on. On failure the data stays and only the general error is shown. |
| TaskForm.FormFieldPassesBackend | Frontend/src/components/TaskForm/TaskForm.tsx:42-61 | A field the form accepts and trims is acceptable to the server, when the form's white space covers the server's. |
| TaskForm.SentPassesBackend | Frontend/src/components/TaskForm/TaskForm.tsx:77-80 | Every request the form sends passes the server's model validation, under the same condition. |
| TaskForm.EcmaMissesNextLine | Frontend/src/components/TaskForm/TaskForm.tsx:42-43 | U+0085 is white space to .NET but not to ECMAScript, so the form's class does not cover the server's. |
| TaskForm.TrimsOfNextLineTitle | Frontend/src/components/TaskForm/TaskForm.tsx:42 | "ab" followed by U+0085 is kept whole by the form's trim and trimmed to 2 by the server's. |
| TaskForm.FormAcceptsWhatBackendRejects | Frontend/src/components/TaskForm/TaskForm.tsx:77-80 | The form as written sends that title, and the server rejects it with the `MinimumTrimmedLength` error. |
| TaskForm.CorrectedFormPassesBackend | Frontend/src/components/TaskForm/TaskForm.tsx:42-43 | A form trimming both platforms' white space only sends requests that pass the server's attribute validation. |
| Seqs.Filter | Frontend/src/components/TaskList/TaskList.tsx:32-35 | Only kept elements of the input remain, and the result is no longer than the input. |
| Seqs.FilterCounts | Frontend/src/components/TaskList/TaskList.tsx:32-35 | Every occurrence of a kept value remains, and no occurrence of a dropped one. |
| Seqs.FilterAppend | Frontend/src/pages/index.tsx:46 | Filtering distributes over concatenation, so relative order is preserved. |
| Seqs.FilterDistinct | Frontend/src/pages/index.tsx:46 | Filtering keeps keys distinct. |
| Ordering.InsertSorted | Frontend/src/components/TaskList/TaskList.tsx:41-50 | Inserting into a sorted sequence keeps it sorted. |
| Ordering.Sort | Frontend/src/components/TaskList/TaskList.tsx:41-50 | The result is sorted by the key in the requested direction and is a permutation of the input. |
| Ordering.SortSorted | Frontend/src/components/TaskList/TaskList.tsx:41-50 | An already sorted sequence is left as it is. |
| TaskList.FilterTasks | Frontend/src/components/TaskList/TaskList.tsx:30-39 | "all" keeps the list. "completed" keeps every occurrence of a completed task and nothing else; "pending" does the same for tasks that are not completed. |
| TaskList.FilteredAndSorted | Frontend/src/components/TaskList/TaskList.tsx:27-52 | The result is a permutation of the filtered tasks. "oldest" gives non-decreasing keys and "newest" non-increasing ones. |
| TaskList.AlreadyOrderedShownAsIs | Frontend/src/components/TaskList/TaskList.tsx:46-49 | A list already sorted by the client's key in the requested direction is shown unchanged under "all". |
| TaskList.ShownTasksMatchFilter | Frontend/src/components/TaskList/TaskList.tsx:30-39 | Every shown task is a loaded task and matches the selected filter. |
| TaskList.Stats | Frontend/src/components/TaskList/TaskList.tsx:55-62 | completed + pending = total. The percentage is 0 for an empty list; otherwise it is the nearest integer to 100·completed/total, with halves rounded up. It lies in 0..100, is 100 when all are completed and 0 when none are. |
| TaskList.RoundedPercentage | Frontend/src/components/TaskList/TaskList.tsx:59 | The nearest integer to 100·part/whole, with halves rounded up; it lies in 0..100, with 0 and 100 at the ends. |
| TaskList.PercentageBounds | Frontend/src/components/TaskList/TaskList.tsx:59 | The integer quotient used meets those rounding bounds. |
| TaskList.OptionCountsMatchViews | Frontend/src/components/TaskList/TaskList.tsx:111-113 | The counts in the filter options equal the sizes of the lists those options show. |
| HomePage.Prepend | Frontend/src/pages/index.tsx:37-39 | The created task is at index 0 and the previous list follows intact. |
| HomePage.ReplaceById | Frontend/src/pages/index.tsx:41-43 | Length and order are kept. Every task with the updated id is replaced and every other task is unchanged. |
| HomePage.RemoveById | Frontend/src/pages/index.tsx:45-47 | Every task with the id is removed, and every occurrence of every other task is kept. |
| HomePage.RemoveKeepsOrder | Frontend/src/pages/index.tsx:46 | The survivors keep their relative order. |
| HomePage.RemoveAbsentIsIdentity | Frontend/src/pages/index.tsx:46 | Deleting an id no task has leaves the list unchanged. |
| HomePage.ReplaceKeepsUnique | Frontend/src/pages/index.tsx:42 | Unique ids stay unique after an update. |
| HomePage.RemoveKeepsUnique | Frontend/src/pages/index.tsx:46 | Unique ids stay unique after a delete. |
| HomePage.Flipped | Frontend/src/components/TaskItem/TaskItem.tsx:24 | The copy a list item reports after a toggle has the same id and the opposite flag, and nothing else differs. |
| HomePage.ToggleTwiceRestoresList | Frontend/src/pages/index.tsx:42 | With unique ids, feeding the toggled copy of an item to the update reducer twice restores the list. |
| HomePage.CreateThenDeleteRestores | Frontend/src/pages/index.tsx:38-46 | Creating a task with a new id and then deleting it restores the list. |
| HomePage.LoadTasks | Frontend/src/pages/index.tsx:14-27 | The error flag is raised iff the fetch fails. A successful fetch replaces the list; a failed one keeps it. |
| HomePage.RetryAfterFailure | Frontend/src/pages/index.tsx:33-35 | A retry that succeeds after a failure ends in the same state as an immediate success. |

## Left out

- `FormatDate` in `Backend/Services/TaskService.cs` depends on the host's time-zone database and on .NET date formatting. The DTO's `createdAt` carries the instant the string is formatted from; the string itself keeps only the minute (`"MM/dd/yyyy hh:mm tt"`, TaskService.cs:93), so tasks created in the same minute send the same `createdAt` and share a client sort key.
- Date parsing on the client is left out: `new Date(createdAt).getTime()` is engine-dependent. The list's sort key is an arbitrary function `key` of the task. Nothing relates it to the server's `CreatedAt`, so the model does not promise that "newest" leaves the server's newest-first listing in place. It need not: `FormatDate` converts to Eastern time with daylight saving but always appends " EST", so across the autumn fall-back hour a newer task can render with an earlier clock time than an older one.
- Entity Framework, SQLite and the `async` plumbing are left out. The table is a map, and the id SQLite assigns is any id not currently in use. The model does not assume that ids are never reused.
- `UpdatedAt` of `Backend/DTOs/TaskDTO.cs` is never assigned, so there is nothing to model.
- `Program.cs`, the axios clients, `_app.tsx`, `Modal.tsx` and all rendering are wiring or UI and are left out. So are `handleChange`, toasts, and the `isLoading` and `isFetchingTasks` flags.
- `TaskItem.tsx`'s asynchronous handlers and modal state are left out; only the toggled copy on line 24 is modelled.
- Concurrent requests, including the read-modify-write race between two toggles, are left out: the code has no concurrency logic.
- TaskForm.CorrectedFormPassesBackend: JSON model binding is assumed to succeed, that is, the body parses into two strings or `null`s. A field holding a lone surrogate ("abc" followed by U+D800) passes the form's checks, is escaped as `\ud800` by `JSON.stringify`, and is refused by System.Text.Json at binding; `[ApiController]` then answers 400. This happens with the form as written and with the corrected one, so the lemma promises attribute validation only.
- TasksController.HandleCreate: the composed endpoints assume that the database and `FormatDate` do not raise. `FormatDate` calls `FindSystemTimeZoneById("Eastern Standard Time")`, which raises on a host without that zone. In a create this happens after `SaveChangesAsync`, so the answer is 500 with the create-failed message while the row is stored. In a listing the projection is deferred, so it raises while the response is serialized, outside the action's `try`, and the framework answers 500 without the retrieval message.
- Database failures are an input of the controller functions (`Threw`), not derived from any model of the database.
- `[ApiController]` answers an invalid body with 400 before the action runs. The model treats this as the action's own `ModelState` check, which gives the same status and the same errors.
- TaskService.GetAllTasks: the order among rows with equal `CreatedAt` is not stated, because `OrderByDescending` in SQL leaves it to the database.
- TaskList.FilteredAndSorted: stability (the relative order of tasks with equal keys) is not stated. `FilterType` and `SortType` are closed enumerations, as their TypeScript types declare.
- TaskList.RoundedPercentage: computes the exactly rounded value, not `Math.round` on the floating-point quotient, which can differ at exact halves (29 of 200 gives 14, not 15).
- TaskList.Stats: the percentage is the exactly rounded value. `Math.round` on the floating-point quotient can differ at exact halves (29 of 200 gives 14, not 15).
- A string-valued attribute handed a non-string value cannot occur through the request type; `MinimumTrimmedLengthIsValid` states the non-string case directly.

## Findings

| source | as written | input that shows it | evidently intended | confidence | as-written member | corrected member |
|---|---|---|---|---|---|---|
| Frontend/src/components/TaskForm/TaskForm.tsx:42-43 | The form trims with ECMAScript white space, which does not include U+0085 (NEXT LINE). The server's `Trim()` strips U+0085. | Title "ab" followed by U+0085, description "abc". The form's trimmed title has 3 code units and is sent; the server trims it to 2 and answers 400 with the `MinimumTrimmedLength` error. | Anything the form accepts passes the server's attribute validation, so the form should trim at least what the server trims. | low; not executed | TaskForm.FormAcceptsWhatBackendRejects | TaskForm.CorrectedFormPassesBackend |
