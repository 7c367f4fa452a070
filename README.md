# To-do list backend: tasks and categories

A Dafny model of the backend of a to-do list application (NestJS over
TypeORM and PostgreSQL). Each user owns tasks and categories. A task has a
title, an optional description, a completed flag, an archived flag, an
optional planned day, an optional completion instant and an optional
category. The two services scope every operation to the calling user.

- **Tasks.** `TasksService` creates tasks and lists the active ones (newest
  first) or the archived ones (most recently completed first). It loads one
  task, patches it, archives it, un-archives it and deletes it. It also
  computes productivity metrics: total, completed, pending, on-time counts
  and the two rates.
- **Updates.** Completing a pending task stamps the current instant and
  archives the task. Marking a task not completed un-archives it.
- **Categories.** `CategoriesService` keeps category names unique per user
  (Conflict), lists categories oldest first, patches and deletes them.
  Deleting a category leaves its tasks without a category.
- **Validation.** The request bodies for a new task and a new category are
  checked by the global validation pipe (whitelist, reject unknown
  properties) and the DTO decorators.

How the model is built:

- The store is a class `Database.Store` holding two maps, tasks and
  categories, keyed by id. The invariant `Valid` says that each row sits
  under its own id and that every task's category exists (the foreign key).
  The services are classes holding the store; their methods modify it.
- The clock and the generated ids are parameters (`now`, `newId`). Times
  are milliseconds since the epoch. A planned day is a calendar date.
- A JSON property is `Absent`, `Null` or `Given(v)`, so the model can tell
  a property left out from one sent as `null`.
- The database's own rejections are modelled as error results: a taken
  primary key, a day that does not exist for the `date` column, NULL in a
  NOT NULL column, an unknown category for the foreign key.
- `find` with `order` is the loop `Queries.SelectSorted`. It is proved to
  list exactly the selected rows, once each, in the requested order.
  PostgreSQL's `DESC` puts NULLs first, so archived tasks without a
  completion date come first.
- The metrics are computed over the listed tasks, as the filters do. They
  are proved equal to the metrics of the underlying set, whatever the
  listing order. A task is on time when its completion instant is no later
  than midnight UTC at the start of its planned day, because that is the
  instant `new Date('YYYY-MM-DD')` denotes. The day count behind it is
  proved to advance by exactly one from each day to the next.

Where the code and its own comments disagree, the model follows the code:

- **Un-completing keeps the completion date.** The comment at
  backend/src/tasks/tasks.service.ts:83 says marking a task not completed
  removes its completion date, and `update` sets `completionDate` to null
  there. The null-dropping loop (lines 90-94) then deletes that entry, so
  the stored completion date stays
  (`TasksService.UncompletingUnarchivesAndKeepsDate`).
A consequence of the code worth knowing:

- **Completing a task through `update` removes it from the metrics.**
  `update` archives a task it completes (tasks.service.ts:78-81), and
  `getTaskMetrics` counts only tasks that are not archived
  (tasks.service.ts:118, through `findAll` without archived tasks). A user
  whose only task is completed this way has a completion rate of 0
  (`TasksService.CompletingSoleTaskEmptiesMetrics`). A task created already
  completed is not archived, so it does count as completed
  (`TaskMetrics.CompletedWithoutPlannedDate`).

## Model

| member | source | states |
|---|---|---|
| Results.StoredOrNull | backend/src/tasks/entities/task.entity.ts:21-22 | a nullable column stores the value the body gives, and NULL when the property is absent or null |
| Dates.DaysInMonth | backend/src/tasks/entities/task.entity.ts:30-31 | the `date` column knows 28 to 31 days per month, with 29 in February exactly in leap years |
| Dates.NextDay | backend/src/tasks/entities/task.entity.ts:30-31 | the day after a real calendar day is a real calendar day |
| Dates.EpochIsDayZero | backend/src/tasks/tasks.service.ts:129 | 1970-01-01 is day 0 of the count behind `new Date('YYYY-MM-DD')` |
| Dates.YearLength | backend/src/tasks/tasks.service.ts:129 | a year counted from March has 366 days exactly when the February it ends with is a leap February |
| Dates.StartOfDay | backend/src/tasks/tasks.service.ts:129 | `new Date('YYYY-MM-DD')` is a midnight: a whole number of days of milliseconds |
| Dates.StartOfNextDay | backend/src/tasks/tasks.service.ts:129 | the midnights of consecutive calendar days are exactly 86 400 000 ms apart |
| Dates.DaysFromCivilCountsDays | backend/src/tasks/tasks.service.ts:129 | the day count advances by exactly one from each real day to the next, across month, year and leap-day ends |
| Validators.IsUuidV4 | backend/src/tasks/dto/create-task.dto.ts:53-55 | an accepted id consists of hexadecimal digits and dashes only |
| Validators.UuidV4Examples | backend/src/tasks/dto/create-task.dto.ts:48-55 | the documented example id is accepted; the same id with version digit 1, or without dashes, is refused |
| Validators.ParseIsoDate | backend/src/tasks/dto/create-task.dto.ts:44-46 | a string accepted as a date string names a day with a 4-digit year, a month 1-12 and a day 1-31 |
| Validators.RenderIsoDate | backend/src/tasks/dto/create-task.dto.ts:44-46 | a day is written as ten characters, `YYYY-MM-DD` |
| Validators.ParseRenderedDate | backend/src/tasks/dto/create-task.dto.ts:44-46 | parsing the written form of a day gives the day back |
| Validators.RenderParsedDate | backend/src/tasks/dto/create-task.dto.ts:44-46 | an accepted date string is exactly the written form of the day it names |
| CreateTaskDto.ValidCreateTaskBody | backend/src/main.ts:16-22 | a valid body never sends the id, owner, archived flag, completion date or timestamps, so a caller cannot set them on create |
| CreateTaskDto.DecodeCreateTask | backend/src/tasks/dto/create-task.dto.ts:16-55 | the pipe yields a DTO exactly when the body is valid (non-empty string title, optional string description, boolean isCompleted, date-string plannedDate, version-4 UUID categoryId, no other property), and every DTO it yields is valid |
| CreateTaskDto.DecodeEncodedTask | backend/src/tasks/dto/create-task.dto.ts:16-55 | every valid DTO is what its own body decodes to |
| CreateTaskDto.EncodeDecodedTask | backend/src/main.ts:16-22 | a valid body is determined by its DTO: unknown properties are refused, so nothing is lost in decoding |
| CreateCategoryDto.ValidCreateCategoryBody | backend/src/main.ts:16-22 | a valid body never sends the id, owner or creation time |
| CreateCategoryDto.DecodeCreateCategory | backend/src/categories/dto/create-category.dto.ts:10-32 | the pipe yields a DTO exactly when the body has a non-empty name of at most 50 characters, an optional string description of at most 200, an optional string color and nothing else |
| CreateCategoryDto.DecodeEncodedCategory | backend/src/categories/dto/create-category.dto.ts:10-32 | every valid DTO is what its own body decodes to |
| CreateCategoryDto.EncodeDecodedCategory | backend/src/main.ts:16-22 | a valid body is determined by its DTO |
| TaskEntity.InsertTask | backend/src/tasks/entities/task.entity.ts:18-40 | the table takes a new row exactly when `isCompleted` is not NULL and any planned day is real; the row keeps the given title, description, category and planned day, is not completed unless the body says so, is not archived, has no completion date, and has both timestamps equal to `now` |
| TaskEntity.OnUserDeleted | backend/src/tasks/entities/task.entity.ts:42-44 | deleting a user removes exactly that user's tasks and leaves every other task as it was |
| TaskEntity.OnCategoryDeleted | backend/src/tasks/entities/task.entity.ts:46-51 | deleting a category keeps every task, sets the category of the tasks filed under it to NULL, and changes nothing else |
| TaskEntity.CategoryDeletionKeepsReferences | backend/src/tasks/entities/task.entity.ts:46-51 | after the deletion, every remaining category reference still resolves |
| TaskEntity.UserDeletionRemovesAllTasks | backend/src/tasks/entities/task.entity.ts:42-44 | after deleting a user, none of their tasks remain, and every category reference still resolves |
| Queries.InsertByRank | backend/src/tasks/tasks.service.ts:40-44 | placing a row into an ordered listing adds exactly that row |
| Queries.InsertKeepsSorted | backend/src/tasks/tasks.service.ts:40-44 | placing a row by its key keeps the listing in order |
| Queries.SelectSorted | backend/src/tasks/tasks.service.ts:40-44 | `find` with `where` and `order` lists every kept row exactly once, nothing else, ordered by the key |
| Queries.Filter | backend/src/tasks/tasks.service.ts:121 | a filter keeps exactly the elements that pass, as often as they occur |
| Queries.ListedFilter | backend/src/tasks/tasks.service.ts:124 | filtering a listing of a set lists exactly the passing members of the set |
| Queries.ListedCount | backend/src/tasks/tasks.service.ts:120 | a listing of a set has as many entries as the set has members |
| Queries.FilterTwiceCount | backend/src/tasks/tasks.service.ts:124-130 | filtering twice keeps no more than one filter implied by both |
| UpdateData.Lift | backend/src/tasks/tasks.service.ts:75 | a property of the patch keeps its state: absent stays absent, null stays null, a given value is carried |
| UpdateData.Spread | backend/src/tasks/tasks.service.ts:75 | `{ ...dto }` has an entry for exactly the properties sent, null for those sent as null |
| UpdateData.DropNullKeys | backend/src/tasks/tasks.service.ts:90-94 | the loop removes exactly the null entries and keeps every other entry unchanged |
| TaskMetrics.Rate | backend/src/tasks/tasks.service.ts:132-138 | a rate is 0 when its denominator is 0, otherwise part / whole × 100, and lies in 0 to 100 when part ≤ whole |
| TaskMetrics.CompletedOnTime | backend/src/tasks/tasks.service.ts:124-130 | a task on time is completed and has a planned day, so it is counted in both the completed count and the on-time denominator |
| TaskMetrics.ComputeMetrics | backend/src/tasks/tasks.service.ts:120-138 | the total is the number of listed tasks, the completed count is at most the total, and pending is their difference |
| TaskMetrics.ListedMetrics | backend/src/tasks/tasks.service.ts:117-147 | the metrics of a listing are those of the set it lists, whatever the order |
| TaskMetrics.MetricsAreConsistent | backend/src/tasks/tasks.service.ts:120-138 | pending = total − completed ≥ 0; on-time ≤ completed; on-time ≤ tasks with a planned day ≤ total; both rates in 0 to 100; both 0 when there is no task |
| TaskMetrics.CompletedWithoutPlannedDate | backend/src/tasks/tasks.service.ts:124-138 | a completed task without a planned day counts as completed (rate 100) and not towards the on-time count or its denominator |
| TaskMetrics.OnTimeAgainstPlannedDay | backend/src/tasks/tasks.service.ts:125-130 | completing at midnight starting the planned day is on time; completing the next day is not |
| TasksService.SpreadPatch | backend/src/tasks/tasks.service.ts:75 | the spread patch never names the archived flag |
| TasksService.ApplyTaskData | backend/src/tasks/tasks.service.ts:96 | a write keeps the id, owner and creation time and sets `updatedAt` to `now` |
| TasksService.CompletingStampsSpread | backend/src/tasks/tasks.service.ts:75-81 | when a pending task is completed, the update data is the spread patch with the current instant as completion date and the archived flag set written over it |
| TasksService.UncompletingClearsSpread | backend/src/tasks/tasks.service.ts:83-87 | when a task is marked not completed, the update data is the spread patch with a null completion date and a cleared archived flag written over it |
| TasksService.UnstampedIsSpread | backend/src/tasks/tasks.service.ts:75-87 | otherwise the update data is the spread patch alone |
| TasksService.StampedDataIsBuilt | backend/src/tasks/tasks.service.ts:75-87 | the three ways `update` builds its data are, together, the stamped patch |
| TasksService.DroppedNullsLeaveGiven | backend/src/tasks/tasks.service.ts:90-94 | once the nulls are dropped, the update data holds exactly the given properties and stamps |
| TasksService.WrittenDataIsUpdatedTask | backend/src/tasks/tasks.service.ts:75-96 | the store accepts the write exactly when any planned day is real and any category exists, and the row written is `UpdatedTask` |
| TasksService.UpdatedTask | backend/src/tasks/tasks.service.ts:67-98 | an update keeps id, owner and creation time and stamps `updatedAt`; a task that becomes completed is archived with `now` as completion date; a task that stops being completed is un-archived and keeps its completion date; a task is archived only if it is completed or already was |
| TasksService.CompletingStampsAndArchives | backend/src/tasks/tasks.service.ts:78-81 | completing a pending task stamps `now` as its completion date and archives it |
| TasksService.CompletingSoleTaskEmptiesMetrics | backend/src/tasks/tasks.service.ts:78-81 | a task completed through `update` is archived, so it leaves the metrics' task set |
| TasksService.UncompletingUnarchivesAndKeepsDate | backend/src/tasks/tasks.service.ts:84-94 | marking a task not completed un-archives it and keeps its stored completion date |
| TasksService.RecompletingKeepsArchiveState | backend/src/tasks/tasks.service.ts:78 | completing an already completed task neither re-stamps nor re-archives it |
| TasksService.UpdateNeverClears | backend/src/tasks/tasks.service.ts:90-96 | an update never clears a stored value, never changes the owner, and leaves every property the patch does not give as it was |
| TasksService.Archived | backend/src/tasks/tasks.service.ts:102 | archiving sets only the archived flag and `updatedAt` |
| TasksService.Unarchived | backend/src/tasks/tasks.service.ts:108 | un-archiving clears the archived and completed flags, sets `updatedAt`, and changes nothing else |
| TasksService.ArchiveIsIdempotent | backend/src/tasks/tasks.service.ts:100-104 | archiving twice is archiving once, and never touches completion |
| TasksService.UnarchiveRestoresActiveTask | backend/src/tasks/tasks.service.ts:106-110 | un-archiving makes a task active and pending, keeps its completion date, and undoes the archiving of a pending task |
| TasksService.TasksService.FindOne | backend/src/tasks/tasks.service.ts:55-65 | a task is found exactly when it exists and belongs to the caller; otherwise NotFound |
| TasksService.TasksService.Create | backend/src/tasks/tasks.service.ts:20-31 | creation succeeds exactly when the id is free, the row is acceptable and any category exists; then exactly the row `InsertTask` builds is added: the caller as owner, the given title, description, category and planned day, both timestamps `now`, not archived, no completion date; otherwise Internal and nothing changes |
| TasksService.TasksService.FindAll | backend/src/tasks/tasks.service.ts:33-45 | lists exactly the caller's tasks, without the archived ones unless asked, newest first |
| TasksService.TasksService.FindArchived | backend/src/tasks/tasks.service.ts:47-53 | lists exactly the caller's archived tasks, those without a completion date first, then latest completed first |
| TasksService.TasksService.Update | backend/src/tasks/tasks.service.ts:67-98 | NotFound for a task not the caller's; Internal when the store rejects the patch; otherwise exactly that task becomes `UpdatedTask`; the invariant is kept |
| TasksService.TasksService.Archive | backend/src/tasks/tasks.service.ts:100-104 | NotFound for a task not the caller's; otherwise exactly that task is archived |
| TasksService.TasksService.Unarchive | backend/src/tasks/tasks.service.ts:106-110 | NotFound for a task not the caller's; otherwise exactly that task is un-archived and made pending |
| TasksService.TasksService.Remove | backend/src/tasks/tasks.service.ts:112-115 | NotFound for a task not the caller's; otherwise exactly that task is deleted |
| TasksService.TasksService.GetTaskMetrics | backend/src/tasks/tasks.service.ts:117-147 | the metrics are those of the caller's active tasks: pending = total − completed ≥ 0, on-time ≤ completed, on-time ≤ active tasks with a planned day ≤ total, rates in 0 to 100 and both 0 without tasks |
| CategoriesService.CategoriesService.NameTaken | backend/src/categories/categories.service.ts:26-30 | the name lookup finds a row exactly when one of the user's categories has that name |
| CategoriesService.DroppedNullsLeaveGiven | backend/src/categories/categories.service.ts:91-96 | once the nulls are dropped, the update data holds exactly the text properties the patch gives |
| CategoriesService.ApplyCategoryData | backend/src/categories/categories.service.ts:98 | a write keeps the id, owner and creation time |
| CategoriesService.UpdatedCategory | backend/src/categories/categories.service.ts:90-98 | an update never clears a description or color, never changes the id, owner or creation time, and keeps the name unless one is given |
| CategoriesService.UpdateIsIdempotent | backend/src/categories/categories.service.ts:90-98 | applying the same patch twice is applying it once |
| CategoriesService.CategoriesService.FindOne | backend/src/categories/categories.service.ts:58-69 | a category is found exactly when it exists and belongs to the caller; otherwise NotFound |
| CategoriesService.CategoriesService.Create | backend/src/categories/categories.service.ts:20-48 | Conflict exactly when the caller already has a category of that name; Internal exactly when the name is free but the id is taken; success exactly when the name is free and the id unused, and then exactly the new category is added; per-user name uniqueness is kept |
| CategoriesService.CategoriesService.FindAll | backend/src/categories/categories.service.ts:50-56 | lists exactly the caller's categories, oldest first |
| CategoriesService.CategoriesService.Update | backend/src/categories/categories.service.ts:71-100 | NotFound for a category not the caller's; Conflict exactly when a new non-empty name is already used by the caller; otherwise exactly that category becomes `UpdatedCategory`; name uniqueness is kept for patches without an empty name |
| CategoriesService.CategoriesService.Remove | backend/src/categories/categories.service.ts:102-108 | NotFound for a category not the caller's; otherwise exactly that category is deleted, its tasks lose their category, and the invariants are kept |
| Database.Store.constructor | backend/src/tasks/entities/task.entity.ts:39-51 | an empty store satisfies the foreign-key invariant and name uniqueness |

## Left out

- TaskMetrics.Rate: the source rounds each rate to two decimals with `Math.round`; the model keeps the exact rational rate.
- CreateTaskDto.DecodeCreateTask: `IsDateString` accepts every ISO 8601 form; the model accepts only `YYYY-MM-DD`, the form the application sends, so other forms are refused here.
- TasksService.TasksService.Update: the completion date of a patch is an ISO timestamp string in the source; the model takes it already as a time in milliseconds, and the validation of the patch (`UpdateTaskDto`, a partial `CreateTaskDto`) is not modelled.
- CategoriesService.CategoriesService.Update: the validation of the patch is not modelled. A patch with an empty name skips the name check, as in the source, so uniqueness is proved only for patches without an empty name. The validation pipe refuses such patches anyway.
- The relations the `find` calls load (`relations: ['category']`, `['tasks']`) are not modelled; the lists hold bare rows.
- The time zone in which PostgreSQL reads back a `timestamp` column is not modelled; completion times are instants in UTC.
- Every operation is one atomic step. The gap between the `findOne` and the write that follows, where another request could interleave, is not modelled.
- The users table is not modelled. The owner id is a parameter, and the user foreign key is checked only through `TaskEntity.OnUserDeleted`.
- CreateCategoryDto.DecodeCreateCategory: `MaxLength` counts characters as validator.js's `isLength` does, which leaves out the variation selectors U+FE0E and U+FE0F; the model counts every character, so a name or description holding those selectors can be refused here although the source accepts it.
- An id that is not a UUID makes PostgreSQL raise an error in `findOne`. The model treats such an id as an id that is not found.
- Neither service checks that a task's category belongs to the same user. The foreign key checks only that the category exists, and the model does the same.
- The category entity, the update DTOs and the user entity are not part of this model. Their shapes follow from how the services use them.
- Authentication, the controllers and the frontend are not modelled.
