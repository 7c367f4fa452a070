/** The `tasks` table: one row per task, its column defaults, and what
    happens to its rows when a referenced user or category row is deleted. */
module TaskEntity {
  import opened Results
  import opened Dates

  /** A row of `tasks`. `title`, `userId` and the two flags are NOT NULL;
      the `Option` columns are nullable. */
  datatype Task = Task(
    id: Id,
    title: string,
    description: Option<string>,
    isCompleted: bool,
    isArchived: bool,
    plannedDate: Option<StoredDate>,
    completionDate: Option<Timestamp>,
    userId: Id,
    categoryId: Option<Id>,
    createdAt: Timestamp,
    updatedAt: Timestamp)

  const DefaultIsCompleted: bool := false
  const DefaultIsArchived: bool := false

  /** The row that saving a new entity inserts, or None when the table
      rejects it: an explicit NULL for the NOT NULL `is_completed` column, or
      a planned date that is not a day of the calendar. Left-out columns take
      their defaults; the creation and update stamps are `now`. */
  function InsertTask(id: Id, userId: Id, title: string, description: Field<string>,
                      isCompleted: Field<bool>, plannedDate: Field<CalendarDate>,
                      categoryId: Field<Id>, now: Timestamp): (r: Option<Task>)
    ensures r.Some? <==> !isCompleted.Null? && (plannedDate.Given? ==> IsRealDate(plannedDate.value))
    ensures r.Some? ==> r.value.id == id && r.value.userId == userId && r.value.title == title
    ensures r.Some? ==> r.value.description == StoredOrNull(description)
    ensures r.Some? ==> r.value.categoryId == StoredOrNull(categoryId)
    ensures r.Some? ==> (r.value.plannedDate.Some? <==> plannedDate.Given?)
    ensures r.Some? && plannedDate.Given? ==> r.value.plannedDate.value == plannedDate.value
    ensures r.Some? && isCompleted.Absent? ==> !r.value.isCompleted
    ensures r.Some? && isCompleted.Given? ==> r.value.isCompleted == isCompleted.value
    ensures r.Some? ==> !r.value.isArchived && r.value.completionDate == None
    ensures r.Some? ==> r.value.createdAt == now && r.value.updatedAt == now
  {
    if isCompleted.Null? || (plannedDate.Given? && !IsRealDate(plannedDate.value)) then None
    else
      var planned: Option<StoredDate> := if plannedDate.Given? then Some(plannedDate.value) else None;
      var completed := if isCompleted.Given? then isCompleted.value else DefaultIsCompleted;
      Some(Task(id, title, StoredOrNull(description), completed, DefaultIsArchived, planned,
                None, userId, StoredOrNull(categoryId), now, now))
  }

  /** Every category a task refers to is among `categoryIds`. */
  ghost predicate ReferencesExist(tasks: map<Id, Task>, categoryIds: set<Id>) {
    forall id :: id in tasks && tasks[id].categoryId.Some? ==> tasks[id].categoryId.value in categoryIds
  }

  /** `onDelete: 'CASCADE'` on the user relation: deleting a user deletes the
      rows of that user's tasks. */
  function OnUserDeleted(tasks: map<Id, Task>, userId: Id): (r: map<Id, Task>)
    ensures forall id :: id in r <==> id in tasks && tasks[id].userId != userId
    ensures forall id :: id in r ==> r[id] == tasks[id]
  {
    map id | id in tasks && tasks[id].userId != userId :: tasks[id]
  }

  /** `onDelete: 'SET NULL'` on the category relation: deleting a category
      clears the reference of the tasks that had it and deletes no task. */
  function OnCategoryDeleted(tasks: map<Id, Task>, categoryId: Id): (r: map<Id, Task>)
    ensures r.Keys == tasks.Keys
    ensures forall id :: id in r ==> r[id].categoryId != Some(categoryId)
    ensures forall id :: id in r && tasks[id].categoryId == Some(categoryId) ==> r[id].categoryId == None
    ensures forall id :: id in r && tasks[id].categoryId != Some(categoryId) ==> r[id] == tasks[id]
    ensures forall id :: id in r ==> r[id] == tasks[id].(categoryId := r[id].categoryId)
  {
    map id | id in tasks ::
      if tasks[id].categoryId == Some(categoryId) then tasks[id].(categoryId := None) else tasks[id]
  }

  /** After the category is deleted, every remaining reference still resolves. */
  lemma CategoryDeletionKeepsReferences(tasks: map<Id, Task>, categoryIds: set<Id>, categoryId: Id)
    requires ReferencesExist(tasks, categoryIds)
    ensures ReferencesExist(OnCategoryDeleted(tasks, categoryId), categoryIds - {categoryId})
  {
  }

  /** After the user is deleted, no task of that user is left, and the other
      users' tasks keep their references. */
  lemma UserDeletionRemovesAllTasks(tasks: map<Id, Task>, categoryIds: set<Id>, userId: Id)
    requires ReferencesExist(tasks, categoryIds)
    ensures forall t :: t in OnUserDeleted(tasks, userId).Values ==> t.userId != userId
    ensures ReferencesExist(OnUserDeleted(tasks, userId), categoryIds)
  {
  }
}
