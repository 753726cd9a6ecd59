# Todo store, modelled in Dafny

This project models `TodoService`, the in-memory todo store of the TodoApi
service. The store owns an ordered list of todo records and an id counter. It
starts with three seed records and offers six operations: list all records, get
one by id, create, update, toggle completion, and delete.

Files:

- `wrappers.dfy` (module `Wrappers`): the `Option` type that stands in for C#'s
  nullable references and nullable `DateTime`.
- `todo_item.dfy` (module `TodoModels`): the `TodoItem` record as a value. It
  also holds the record-level invariant `Consistent`, meaning "`completedAt` is
  present iff `isCompleted`". Two functions give the record that an update or
  a toggle leaves behind (`ApplyUpdate`, `ApplyToggle`). Lemmas cover double
  toggles and repeated updates.
- `todo_service.dfy` (module `TodoServices`): the store.
  - Specification level: the list invariants `IdsIncreasing`, `IdsBelow` and
    `AllConsistent`. `FirstIndex` is the first-match search that C#'s
    `FirstOrDefault` performs, and `RemoveAt` is removal at a position.
  - `IndexOf` is that linear search written as a loop.
  - Lemmas show that appending, replacing and removing a record keep the
    invariants and the results of later lookups.
  - The class `TodoService` has the fields `todos: seq<TodoItem>` and
    `nextId: int`, plus a ghost set `issued` of every id it has ever handed
    out. `Valid()` is the store invariant: ids are positive, strictly
    increasing in list order, all issued, and all below `nextId`.
  - Each method states the whole new state in terms of the old state and the
    specification functions.
  - `Scenario` is a client method. It walks through a typical client session
    on a fresh store: create "Buy milk", toggle, un-complete by update, delete, get
    (a miss), create again (id 5, not 4), delete 999 (false). It relies only
    on the contracts.

The clock (`DateTime.UtcNow`) is an explicit `now: Timestamp` parameter, an
integer count of seconds. The seed's `AddHours(-1)` becomes `now - OneHour`,
where `OneHour` is 3600.

Two points about create:

- Create does not reset the completion fields. `CreateTodoAsync` sets only `Id`
  and `CreatedAt` and keeps the caller's `IsCompleted` and `CompletedAt`
  (TodoApi/Services/TodoService.cs:44-45). So `Create` takes a whole
  `TodoItem`. It promises `AllConsistent` afterwards only when the list and the
  incoming record were consistent before.
- The HTTP controller always passes a record with default completion fields
  (TodoApi/Controllers/TodosController.cs:57-61), so through that caller the
  invariant always holds.

## Model

| member | source | states |
|---|---|---|
| TodoModels.ApplyUpdate | TodoApi/Services/TodoService.cs:56-63 | update overwrites title, description and isCompleted and keeps id and createdAt; completing a record with no completedAt stamps `now`, an existing completedAt is kept, un-completing clears it; the result is always consistent |
| TodoModels.ApplyToggle | TodoApi/Services/TodoService.cs:84-85 | toggle flips isCompleted, sets completedAt to `now` when the new flag is true and clears it otherwise, changes no other field, and leaves the record consistent |
| TodoModels.ToggleTwiceRestoresOpen | TodoApi/Services/TodoService.cs:84-85 | toggling an open, consistent record twice gives back exactly that record (isCompleted false, completedAt absent) |
| TodoModels.ToggleTwiceRestoresFlag | TodoApi/Services/TodoService.cs:84-85 | two toggles restore any record's completion flag and leave it consistent |
| TodoModels.UpdateIdempotent | TodoApi/Services/TodoService.cs:60-63 | repeating the same update changes nothing, so re-completion does not refresh completedAt |
| TodoServices.FirstIndex | TodoApi/Services/TodoService.cs:38 | the lookup finds a position holding the id with no earlier match, or reports that no record holds the id |
| TodoServices.RemoveAt | TodoApi/Services/TodoService.cs:74 | removing one record shortens the list by one, keeps the others in their relative order, and drops exactly that record from the multiset |
| TodoServices.IndexOf | TodoApi/Services/TodoService.cs:38 | the front-to-back linear search returns exactly the first-match position `FirstIndex` |
| TodoServices.IdsUnique | TodoApi/Services/TodoService.cs:17-18 | strictly increasing ids are unique: two positions with one id are the same position |
| TodoServices.FirstIndexIsOnly | TodoApi/Services/TodoService.cs:36-40 | in a store with unique ids the lookup finds the one record that holds the id |
| TodoServices.AppendKeepsIds | TodoApi/Services/TodoService.cs:44-46 | appending a record stamped with the counter keeps ids increasing, positive and below the incremented counter |
| TodoServices.AppendedIsFound | TodoApi/Services/TodoService.cs:44-46 | a get of the new id finds the appended record at the end of the list |
| TodoServices.ReplaceKeepsIds | TodoApi/Services/TodoService.cs:56-58 | editing a record in place without changing its id keeps the id invariant and the result of every lookup |
| TodoServices.RemoveKeepsIds | TodoApi/Services/TodoService.cs:74 | removing a record keeps ids increasing and below the counter |
| TodoServices.RemovedIsGone | TodoApi/Services/TodoService.cs:68-76 | after delete the deleted id is no longer found, and every other id still finds the same record it found before |
| TodoServices.ReplaceKeepsConsistent | TodoApi/Services/TodoService.cs:56-63 | replacing one record by a consistent one keeps the whole list consistent |
| TodoServices.SeedTodos | TodoApi/Services/TodoService.cs:23-28 | the seed is three records with ids 1, 2, 3 in order; only the second is completed, with a completedAt in the past; the seed meets the id invariant for counter 4 and is consistent |
| TodoServices.TodoService.constructor | TodoApi/Services/TodoService.cs:20-29 | a new store holds exactly the seed, nextId is 4, ids 1 to 3 have been issued, and the store invariant holds |
| TodoServices.TodoService.GetAll | TodoApi/Services/TodoService.cs:31-34 | list returns all records in creation order |
| TodoServices.TodoService.GetById | TodoApi/Services/TodoService.cs:36-40 | get returns a record iff some record holds the id, and then the first one holding it; the store is not changed |
| TodoServices.TodoService.Create | TodoApi/Services/TodoService.cs:42-48 | the new id is the old counter, which goes up by one; the id was never issued before and is above every held id; the record is appended with createdAt `now` and the caller's other fields; earlier records are unchanged; consistency is kept for a consistent input |
| TodoServices.TodoService.Update | TodoApi/Services/TodoService.cs:50-66 | a missing id gives none and no change; otherwise only the first matching record is replaced by `ApplyUpdate` of it; every lookup keeps its position; the invariants are kept |
| TodoServices.TodoService.Toggle | TodoApi/Services/TodoService.cs:78-88 | a missing id gives none and no change; otherwise only the matching record is replaced by `ApplyToggle` of it; every lookup keeps its position; the invariants are kept |
| TodoServices.TodoService.Delete | TodoApi/Services/TodoService.cs:68-76 | returns true iff the id is held; false leaves the list unchanged; true removes exactly that record, keeps the order of the rest, and a later get of the id finds nothing; the counter is untouched |

## Left out

- TodoServices.TodoService.Create: does not model the 32-bit wrap-around of `_nextId`. The counter is an unbounded `int`; in C# it would overflow after 2^31 - 1 creates.
- The `Task` / `Task.FromResult` wrappers are left out: they add no behaviour.
- TodoServices.TodoService.Create: records are values, not shared objects, so the model assumes a caller that passes a fresh object to every create. In C#, `CreateTodoAsync` stores the caller's own object (TodoApi/Services/TodoService.cs:44-46): creating the same object twice renumbers the stored record and lists it twice. Id uniqueness, and with it `Valid()`, `RemovedIsGone` and Delete's "a later get finds nothing", holds in C# only for such callers. The HTTP controller is one: it builds a new record for every create and update (TodoApi/Controllers/TodosController.cs:57-61, 75-80).
- TodoServices.TodoService.GetAll: returns a value, while `GetAllTodosAsync` returns the live list, not a snapshot (TodoApi/Services/TodoService.cs:33), and every record the store returns is the stored object. The model assumes callers never mutate a list or record they get back; one that does can break the same invariants.
- The clock is a parameter. `DateTime` tick precision and the UTC conversion are not modelled; timestamps are integer seconds.
- TodoApi/Models/TodoItem.cs is not part of this model. The seed records do not set `CreatedAt` explicitly, and the model assumes the record's default is the construction time `now`.
- Update takes title, description and isCompleted. These are the only fields `UpdateTodoAsync` reads from its `updatedTodo` argument.
- The HTTP controller, its logging and its `Description ?? string.Empty` defaulting are left out. Callers pass a plain string, so a null description does not arise.
- The console demo and the unit tests are left out. The tests' claims appear as the lemmas above and as `Scenario`.
- Concurrency is left out. The store has no locking, and the model is sequential.
