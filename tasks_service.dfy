/** `TasksService`: the task lifecycle over the store, every operation scoped
    to the calling user. */
module TasksService {
  import opened Results
  import opened Dates
  import opened TaskEntity
  import opened Queries
  import opened UpdateData
  import opened TaskMetrics
  import opened CreateTaskDto
  import opened Database

  /** `UpdateTaskDto`: every `CreateTaskDto` property made optional, plus a
      completion date. */
  datatype UpdateTaskDto = UpdateTaskDto(
    title: Field<string>,
    description: Field<string>,
    isCompleted: Field<bool>,
    plannedDate: Field<CalendarDate>,
    categoryId: Field<Id>,
    completionDate: Field<Timestamp>)

  /** The columns an `updateData` object can name. */
  datatype Column = Title | Description | IsCompleted | IsArchived | PlannedDate | CompletionDate | CategoryId

  /** The columns a patch can name. */
  const PatchColumns: set<Column> := {Title, Description, IsCompleted, PlannedDate, CategoryId, CompletionDate}

  /** The value the patch sends for a column. */
  function Property(dto: UpdateTaskDto, c: Column): Field<Value> {
    match c
    case Title => Lift(dto.title, s => Text(s))
    case Description => Lift(dto.description, s => Text(s))
    case IsCompleted => Lift(dto.isCompleted, b => Flag(b))
    case PlannedDate => Lift(dto.plannedDate, d => Day(d))
    case CategoryId => Lift(dto.categoryId, s => Text(s))
    case CompletionDate => Lift(dto.completionDate, t => Instant(t))
    case IsArchived => Absent
  }

  /** `{ ...updateTaskDto }`. */
  function SpreadPatch(dto: UpdateTaskDto): (data: map<Column, Value>)
    ensures IsArchived !in data
  {
    Spread(PatchColumns, c => Property(dto, c))
  }

  /** The values fit their columns: no NULL for a NOT NULL column, only real
      days for the `date` column. */
  predicate ColumnsFit(data: map<Column, Value>) {
    && (Title in data ==> data[Title].Text?)
    && (IsCompleted in data ==> data[IsCompleted].Flag?)
    && (IsArchived in data ==> data[IsArchived].Flag?)
    && (Description in data ==> data[Description].NullValue? || data[Description].Text?)
    && (PlannedDate in data ==>
          data[PlannedDate].NullValue? || (data[PlannedDate].Day? && IsRealDate(data[PlannedDate].date)))
    && (CompletionDate in data ==> data[CompletionDate].NullValue? || data[CompletionDate].Instant?)
    && (CategoryId in data ==> data[CategoryId].NullValue? || data[CategoryId].Text?)
  }

  /** The `category_id` written, if any, names an existing category. */
  predicate CategoryResolves(data: map<Column, Value>, categoryIds: set<Id>) {
    CategoryId in data && data[CategoryId].Text? ==> data[CategoryId].text in categoryIds
  }

  /** `repository.update(id, data)` on row `t`: every named column takes its
      value (NULL for a null), the others keep theirs, `updated_at` is `now`. */
  function ApplyTaskData(t: Task, data: map<Column, Value>, now: Timestamp): (r: Task)
    requires ColumnsFit(data)
    ensures r.id == t.id && r.userId == t.userId && r.createdAt == t.createdAt && r.updatedAt == now
  {
    var planned: Option<StoredDate> :=
      if PlannedDate !in data then t.plannedDate
      else if data[PlannedDate].Day? then Some(data[PlannedDate].date) else None;
    t.(title := if Title in data then data[Title].text else t.title,
       description := if Description !in data then t.description
                      else if data[Description].Text? then Some(data[Description].text) else None,
       isCompleted := if IsCompleted in data then data[IsCompleted].flag else t.isCompleted,
       isArchived := if IsArchived in data then data[IsArchived].flag else t.isArchived,
       plannedDate := planned,
       completionDate := if CompletionDate !in data then t.completionDate
                         else if data[CompletionDate].Instant? then Some(data[CompletionDate].time) else None,
       categoryId := if CategoryId !in data then t.categoryId
                     else if data[CategoryId].Text? then Some(data[CategoryId].text) else None,
       updatedAt := now)
  }

  /** The table accepts the patch: a real planned day and an existing category. */
  predicate PatchAccepted(dto: UpdateTaskDto, categoryIds: set<Id>) {
    && (dto.plannedDate.Given? ==> IsRealDate(dto.plannedDate.value))
    && (dto.categoryId.Given? ==> dto.categoryId.value in categoryIds)
  }

  /** The value `updateData` holds for a column once the completion stamp,
      or its clearing, is written over the spread patch. */
  function StampedProperty(t: Task, dto: UpdateTaskDto, now: Timestamp, c: Column): Field<Value> {
    var completing := dto.isCompleted == Given(true) && !t.isCompleted;
    var uncompleting := dto.isCompleted == Given(false);
    match c
    case CompletionDate =>
      if completing then Given(Instant(now)) else if uncompleting then Null else Property(dto, c)
    case IsArchived =>
      if completing then Given(Flag(true)) else if uncompleting then Given(Flag(false)) else Absent
    case _ => Property(dto, c)
  }

  /** `updateData` before its nulls are dropped. */
  function StampedData(t: Task, dto: UpdateTaskDto, now: Timestamp): map<Column, Value> {
    Spread(PatchColumns + {IsArchived}, c => StampedProperty(t, dto, now, c))
  }

  /** Away from the stamped columns, `StampedData` is the spread patch. */
  lemma StampedDataAgreesWithSpread(t: Task, dto: UpdateTaskDto, now: Timestamp)
    ensures forall c :: c != CompletionDate && c != IsArchived ==>
              (c in StampedData(t, dto, now) <==> c in SpreadPatch(dto))
    ensures forall c :: c != CompletionDate && c != IsArchived && c in SpreadPatch(dto) ==>
              StampedData(t, dto, now)[c] == SpreadPatch(dto)[c]
  {
    forall c: Column | c != CompletionDate && c != IsArchived
      ensures StampedProperty(t, dto, now, c) == Property(dto, c)
    {
    }
  }

  /** Completing: the stamp and the archived flag are written over the spread patch. */
  lemma CompletingStampsSpread(t: Task, dto: UpdateTaskDto, now: Timestamp)
    requires dto.isCompleted == Given(true) && !t.isCompleted
    ensures StampedData(t, dto, now) == SpreadPatch(dto)[CompletionDate := Instant(now)][IsArchived := Flag(true)]
  {
    StampedDataAgreesWithSpread(t, dto, now);
  }

  /** Un-completing: a null completion date and a cleared archived flag are
      written over the spread patch. */
  lemma UncompletingClearsSpread(t: Task, dto: UpdateTaskDto, now: Timestamp)
    requires dto.isCompleted == Given(false)
    ensures StampedData(t, dto, now) == SpreadPatch(dto)[CompletionDate := NullValue][IsArchived := Flag(false)]
  {
    StampedDataAgreesWithSpread(t, dto, now);
  }

  /** Otherwise the update data is the spread patch. */
  lemma UnstampedIsSpread(t: Task, dto: UpdateTaskDto, now: Timestamp)
    requires dto.isCompleted != Given(false) && !(dto.isCompleted == Given(true) && !t.isCompleted)
    ensures StampedData(t, dto, now) == SpreadPatch(dto)
  {
    StampedDataAgreesWithSpread(t, dto, now);
    assert StampedProperty(t, dto, now, CompletionDate) == Property(dto, CompletionDate);
  }

  /** The three ways `update` builds its data, as one statement. */
  lemma StampedDataIsBuilt(t: Task, dto: UpdateTaskDto, now: Timestamp)
    ensures StampedData(t, dto, now) ==
              if dto.isCompleted == Given(true) && !t.isCompleted then
                SpreadPatch(dto)[CompletionDate := Instant(now)][IsArchived := Flag(true)]
              else if dto.isCompleted == Given(false) then
                SpreadPatch(dto)[CompletionDate := NullValue][IsArchived := Flag(false)]
              else SpreadPatch(dto)
  {
    if dto.isCompleted == Given(true) && !t.isCompleted {
      CompletingStampsSpread(t, dto, now);
    } else if dto.isCompleted == Given(false) {
      UncompletingClearsSpread(t, dto, now);
    } else {
      UnstampedIsSpread(t, dto, now);
    }
  }

  /** Column `c` of `StampedData`: present unless its property is absent,
      and never holding a null the property did not send. */
  lemma StampedEntry(t: Task, dto: UpdateTaskDto, now: Timestamp, c: Column)
    ensures var p := StampedProperty(t, dto, now, c);
      && (c in StampedData(t, dto, now) <==> !p.Absent?)
      && (p.Null? ==> StampedData(t, dto, now)[c] == NullValue)
      && (p.Given? ==> StampedData(t, dto, now)[c] == p.value != NullValue)
  {
    assert c in PatchColumns + {IsArchived};
  }

  /** After the nulls are dropped, `updateData` holds exactly the given
      stamped properties. */
  lemma DroppedNullsLeaveGiven(t: Task, dto: UpdateTaskDto, now: Timestamp, data: map<Column, Value>)
    requires forall k :: k in data <==> k in StampedData(t, dto, now) && StampedData(t, dto, now)[k] != NullValue
    requires forall k :: k in data ==> data[k] == StampedData(t, dto, now)[k]
    ensures forall c :: c in data <==> StampedProperty(t, dto, now, c).Given?
    ensures forall c :: c in data ==> data[c] == StampedProperty(t, dto, now, c).value
  {
    var stamped := StampedData(t, dto, now);
    forall c: Column
      ensures (c in data <==> StampedProperty(t, dto, now, c).Given?)
              && (c in data ==> data[c] == StampedProperty(t, dto, now, c).value)
    {
      StampedEntry(t, dto, now, c);
    }
  }

  /** The task `update` stores, property by property. Completing a task that
      was not completed stamps `now` and archives it; un-completing
      un-archives it and, since its null completion date is dropped with the
      other nulls, keeps the completion date; absent and null properties keep
      the stored value. */
  function UpdatedTask(t: Task, dto: UpdateTaskDto, now: Timestamp): (r: Task)
    requires dto.plannedDate.Given? ==> IsRealDate(dto.plannedDate.value)
    ensures r.id == t.id && r.userId == t.userId && r.createdAt == t.createdAt && r.updatedAt == now
    ensures r.isCompleted && !t.isCompleted ==> r.isArchived && r.completionDate == Some(now)
    ensures !r.isCompleted && t.isCompleted ==> !r.isArchived && r.completionDate == t.completionDate
    ensures r.isArchived ==> r.isCompleted || t.isArchived
  {
    var completing := dto.isCompleted == Given(true) && !t.isCompleted;
    var uncompleting := dto.isCompleted == Given(false);
    var planned: Option<StoredDate> :=
      if dto.plannedDate.Given? then Some(dto.plannedDate.value) else t.plannedDate;
    t.(title := if dto.title.Given? then dto.title.value else t.title,
       description := if dto.description.Given? then Some(dto.description.value) else t.description,
       isCompleted := if dto.isCompleted.Given? then dto.isCompleted.value else t.isCompleted,
       isArchived := if completing then true else if uncompleting then false else t.isArchived,
       plannedDate := planned,
       completionDate := if completing then Some(now)
                         else if uncompleting then t.completionDate
                         else if dto.completionDate.Given? then Some(dto.completionDate.value)
                         else t.completionDate,
       categoryId := if dto.categoryId.Given? then Some(dto.categoryId.value) else t.categoryId,
       updatedAt := now)
  }

  /** Once its nulls are dropped, `updateData` fits the columns exactly when
      the planned day is real, names an existing category exactly when the
      patch does, and writing it stores `UpdatedTask`. */
  lemma WrittenDataIsUpdatedTask(t: Task, dto: UpdateTaskDto, now: Timestamp,
                                 data: map<Column, Value>, categoryIds: set<Id>)
    requires forall k :: k in data <==> k in StampedData(t, dto, now) && StampedData(t, dto, now)[k] != NullValue
    requires forall k :: k in data ==> data[k] == StampedData(t, dto, now)[k]
    ensures ColumnsFit(data) && CategoryResolves(data, categoryIds) <==> PatchAccepted(dto, categoryIds)
    ensures PatchAccepted(dto, categoryIds) ==> ApplyTaskData(t, data, now) == UpdatedTask(t, dto, now)
  {
    DroppedNullsLeaveGiven(t, dto, now, data);
  }

  /** Marking a pending task completed stamps `now` as its completion date,
      whatever completion date the patch carries, and archives it. */
  lemma CompletingStampsAndArchives(t: Task, dto: UpdateTaskDto, now: Timestamp)
    requires dto.plannedDate.Given? ==> IsRealDate(dto.plannedDate.value)
    requires dto.isCompleted == Given(true) && !t.isCompleted
    ensures UpdatedTask(t, dto, now).isCompleted
    ensures UpdatedTask(t, dto, now).isArchived
    ensures UpdatedTask(t, dto, now).completionDate == Some(now)
  {
  }

  /** Completing a user's only active task through `update` leaves the
      metrics with nothing to count: the task is archived, and the metrics
      cover active tasks only, so the completion rate drops to 0, not 100. */
  lemma CompletingSoleTaskEmptiesMetrics(t: Task, dto: UpdateTaskDto, now: Timestamp)
    requires dto.plannedDate.Given? ==> IsRealDate(dto.plannedDate.value)
    requires dto.isCompleted == Given(true) && !t.isCompleted
    ensures MetricsOfSet(set x | x in {UpdatedTask(t, dto, now)} && !x.isArchived) == Metrics(0, 0, 0, 0.0, 0, 0.0)
  {
    assert (set x | x in {UpdatedTask(t, dto, now)} && !x.isArchived) == {};
  }

  /** Marking a task not completed un-archives it and keeps its completion date. */
  lemma UncompletingUnarchivesAndKeepsDate(t: Task, dto: UpdateTaskDto, now: Timestamp)
    requires dto.plannedDate.Given? ==> IsRealDate(dto.plannedDate.value)
    requires dto.isCompleted == Given(false)
    ensures !UpdatedTask(t, dto, now).isCompleted
    ensures !UpdatedTask(t, dto, now).isArchived
    ensures UpdatedTask(t, dto, now).completionDate == t.completionDate
  {
  }

  /** Re-completing a completed task neither re-stamps nor re-archives it. */
  lemma RecompletingKeepsArchiveState(t: Task, dto: UpdateTaskDto, now: Timestamp)
    requires dto.plannedDate.Given? ==> IsRealDate(dto.plannedDate.value)
    requires dto.isCompleted == Given(true) && t.isCompleted
    ensures UpdatedTask(t, dto, now).isArchived == t.isArchived
    ensures UpdatedTask(t, dto, now).completionDate
            == if dto.completionDate.Given? then Some(dto.completionDate.value) else t.completionDate
  {
  }

  /** An update never clears a stored value, never moves a task to another
      owner, and leaves every property the patch does not give unchanged. */
  lemma UpdateNeverClears(t: Task, dto: UpdateTaskDto, now: Timestamp)
    requires dto.plannedDate.Given? ==> IsRealDate(dto.plannedDate.value)
    ensures var u := UpdatedTask(t, dto, now);
      && u.id == t.id && u.userId == t.userId && u.createdAt == t.createdAt
      && (t.description.Some? ==> u.description.Some?)
      && (t.plannedDate.Some? ==> u.plannedDate.Some?)
      && (t.completionDate.Some? ==> u.completionDate.Some?)
      && (t.categoryId.Some? ==> u.categoryId.Some?)
      && (!dto.title.Given? ==> u.title == t.title)
      && (!dto.description.Given? ==> u.description == t.description)
      && (!dto.plannedDate.Given? ==> u.plannedDate == t.plannedDate)
      && (!dto.categoryId.Given? ==> u.categoryId == t.categoryId)
      && (!dto.isCompleted.Given? ==> u.isCompleted == t.isCompleted && u.isArchived == t.isArchived)
  {
  }

  /** `repository.update(id, { isArchived: true })`. */
  function Archived(t: Task, now: Timestamp): (r: Task)
    ensures r == t.(isArchived := true, updatedAt := now)
  {
    ApplyTaskData(t, map[IsArchived := Flag(true)], now)
  }

  /** `repository.update(id, { isArchived: false, isCompleted: false })`. */
  function Unarchived(t: Task, now: Timestamp): (r: Task)
    ensures r == t.(isArchived := false, isCompleted := false, updatedAt := now)
  {
    ApplyTaskData(t, map[IsArchived := Flag(false), IsCompleted := Flag(false)], now)
  }

  /** Archiving twice is archiving once, and never touches completion. */
  lemma ArchiveIsIdempotent(t: Task, first: Timestamp, second: Timestamp)
    ensures Archived(Archived(t, first), second) == Archived(t, second)
    ensures Archived(t, first).isCompleted == t.isCompleted
    ensures Archived(t, first).completionDate == t.completionDate
  {
  }

  /** Un-archiving makes a task active and pending, keeps its completion date,
      and undoes an archive of a pending task. */
  lemma UnarchiveRestoresActiveTask(t: Task, first: Timestamp, second: Timestamp)
    ensures !Unarchived(t, first).isArchived && !Unarchived(t, first).isCompleted
    ensures Unarchived(t, first).completionDate == t.completionDate
    ensures !t.isArchived && !t.isCompleted ==> Unarchived(Archived(t, first), second) == t.(updatedAt := second)
  {
  }

  /** Ordering keys: `createdAt DESC`, and `completionDate DESC` (NULLs first). */
  function CreatedKey(t: Task): Rank {
    Finite(t.createdAt)
  }

  function CompletionKey(t: Task): Rank {
    if t.completionDate.Some? then Finite(t.completionDate.value) else Top
  }

  class TasksService {
    const db: Store

    constructor (db: Store)
      ensures this.db == db
    {
      this.db := db;
    }

    /** The user's tasks, or all but the archived ones. */
    ghost function TasksOf(userId: Id, includeArchived: bool): set<Task>
      reads db
    {
      set t | t in db.tasks.Values && t.userId == userId && (includeArchived || !t.isArchived)
    }

    /** `findOne({ where: { id, userId } })`: NotFound unless the task exists
        and belongs to the caller. */
    function FindOne(id: Id, userId: Id): (r: Result<Task>)
      reads db
      ensures r.Ok? <==> id in db.tasks && db.tasks[id].userId == userId
      ensures r.Ok? ==> r.value == db.tasks[id]
      ensures r.Err? ==> r.error == NotFound
    {
      if id in db.tasks && db.tasks[id].userId == userId then Ok(db.tasks[id]) else Err(NotFound)
    }

    /** Saves `{ ...createTaskDto, userId }` under the generated id `newId`.
        Any rejection by the store (a taken id, a NULL for `isCompleted`, a
        day that does not exist, an unknown category) is an internal error.
        The new task is never completed by date or archived. */
    method Create(dto: CreateTaskDto, userId: Id, newId: Id, now: Timestamp) returns (r: Result<Task>)
      requires db.Valid()
      modifies db
      ensures db.Valid() && db.categories == old(db.categories)
      ensures var row := InsertTask(newId, userId, dto.title, dto.description, dto.isCompleted,
                                    dto.plannedDate, dto.categoryId, now);
        r.Ok? <==> newId !in old(db.tasks) && row.Some?
                   && (dto.categoryId.Given? ==> dto.categoryId.value in db.categories)
      ensures r.Err? ==> r.error == Internal && db.tasks == old(db.tasks)
      ensures r.Ok? ==> db.tasks == old(db.tasks)[newId := r.value]
      ensures r.Ok? ==> Some(r.value) == InsertTask(newId, userId, dto.title, dto.description, dto.isCompleted,
                                                    dto.plannedDate, dto.categoryId, now)
      ensures r.Ok? ==> r.value.createdAt == now && r.value.updatedAt == now
      ensures r.Ok? ==> r.value.plannedDate == (if dto.plannedDate.Given? then Some(dto.plannedDate.value) else None)
      ensures r.Ok? ==> r.value.userId == userId && r.value.title == dto.title
                        && r.value.description == StoredOrNull(dto.description)
                        && r.value.categoryId == StoredOrNull(dto.categoryId)
      ensures r.Ok? ==> !r.value.isArchived && r.value.completionDate == None
      ensures r.Ok? ==> r.value.isCompleted == (dto.isCompleted == Given(true))
    {
      var row := InsertTask(newId, userId, dto.title, dto.description, dto.isCompleted,
                            dto.plannedDate, dto.categoryId, now);
      if newId in db.tasks || row.None? || (dto.categoryId.Given? && dto.categoryId.value !in db.categories) {
        return Err(Internal);
      }
      db.tasks := db.tasks[newId := row.value];
      r := Ok(row.value);
    }

    /** `find({ where: { userId [, isArchived: false] }, order: { createdAt: 'DESC' } })`. */
    method FindAll(userId: Id, includeArchived: bool) returns (r: seq<Task>)
      requires db.Valid()
      ensures ListsExactly(r, TasksOf(userId, includeArchived))
      ensures forall i, j :: 0 <= i < j < |r| ==> r[i].createdAt >= r[j].createdAt
    {
      r := SelectSorted(db.tasks, (t: Task) => t.userId == userId && (includeArchived || !t.isArchived), CreatedKey);
      assert (set t | t in db.tasks.Values && t.userId == userId && (includeArchived || !t.isArchived))
             == TasksOf(userId, includeArchived);
    }

    /** `find({ where: { userId, isArchived: true }, order: { completionDate: 'DESC' } })`;
        the store puts tasks without a completion date first. */
    method FindArchived(userId: Id) returns (r: seq<Task>)
      requires db.Valid()
      ensures ListsExactly(r, TasksOf(userId, true) - TasksOf(userId, false))
      ensures forall i, j :: 0 <= i < j < |r| ==>
                r[i].completionDate.None?
                || (r[j].completionDate.Some? && r[i].completionDate.value >= r[j].completionDate.value)
    {
      r := SelectSorted(db.tasks, (t: Task) => t.userId == userId && t.isArchived, CompletionKey);
      assert (set t | t in db.tasks.Values && t.userId == userId && t.isArchived)
             == TasksOf(userId, true) - TasksOf(userId, false);
    }

    /** Loads the task (NotFound unless it is the caller's), builds
        `updateData` from the patch, stamps or clears completion, drops every
        null entry, writes the rest and re-reads the task. A write the store
        rejects surfaces as an internal error and changes nothing. */
    method Update(id: Id, dto: UpdateTaskDto, userId: Id, now: Timestamp) returns (r: Result<Task>)
      requires db.Valid()
      modifies db
      ensures db.Valid() && db.categories == old(db.categories)
      ensures old(FindOne(id, userId)).Err? ==> r == Err(NotFound) && db.tasks == old(db.tasks)
      ensures old(FindOne(id, userId)).Ok? && !PatchAccepted(dto, db.categories.Keys) ==>
                r == Err(Internal) && db.tasks == old(db.tasks)
      ensures old(FindOne(id, userId)).Ok? && PatchAccepted(dto, db.categories.Keys) ==>
                db.tasks == old(db.tasks)[id := UpdatedTask(old(db.tasks[id]), dto, now)]
                && r == Ok(db.tasks[id])
    {
      var found := FindOne(id, userId);
      if found.Err? {
        return Err(NotFound);
      }
      var task := found.value;
      var updateData := SpreadPatch(dto);
      if dto.isCompleted == Given(true) && !task.isCompleted {
        updateData := updateData[CompletionDate := Instant(now)][IsArchived := Flag(true)];
      }
      if dto.isCompleted == Given(false) {
        updateData := updateData[CompletionDate := NullValue][IsArchived := Flag(false)];
      }
      StampedDataIsBuilt(task, dto, now);
      updateData := DropNullKeys(updateData, NullValue);
      WrittenDataIsUpdatedTask(task, dto, now, updateData, db.categories.Keys);
      if !ColumnsFit(updateData) || !CategoryResolves(updateData, db.categories.Keys) {
        return Err(Internal);
      }
      db.tasks := db.tasks[id := ApplyTaskData(task, updateData, now)];
      r := FindOne(id, userId);
    }

    /** Sets `isArchived`; NotFound unless the task is the caller's. */
    method Archive(id: Id, userId: Id, now: Timestamp) returns (r: Result<Task>)
      requires db.Valid()
      modifies db
      ensures db.Valid() && db.categories == old(db.categories)
      ensures old(FindOne(id, userId)).Err? ==> r == Err(NotFound) && db.tasks == old(db.tasks)
      ensures old(FindOne(id, userId)).Ok? ==>
                db.tasks == old(db.tasks)[id := Archived(old(db.tasks[id]), now)] && r == Ok(db.tasks[id])
    {
      var found := FindOne(id, userId);
      if found.Err? {
        return Err(NotFound);
      }
      db.tasks := db.tasks[id := Archived(found.value, now)];
      r := FindOne(id, userId);
    }

    /** Clears `isArchived` and `isCompleted`; NotFound unless the task is the caller's. */
    method Unarchive(id: Id, userId: Id, now: Timestamp) returns (r: Result<Task>)
      requires db.Valid()
      modifies db
      ensures db.Valid() && db.categories == old(db.categories)
      ensures old(FindOne(id, userId)).Err? ==> r == Err(NotFound) && db.tasks == old(db.tasks)
      ensures old(FindOne(id, userId)).Ok? ==>
                db.tasks == old(db.tasks)[id := Unarchived(old(db.tasks[id]), now)] && r == Ok(db.tasks[id])
    {
      var found := FindOne(id, userId);
      if found.Err? {
        return Err(NotFound);
      }
      db.tasks := db.tasks[id := Unarchived(found.value, now)];
      r := FindOne(id, userId);
    }

    /** Deletes exactly the caller's task `id`; NotFound unless it is theirs. */
    method Remove(id: Id, userId: Id) returns (r: Result<()>)
      requires db.Valid()
      modifies db
      ensures db.Valid() && db.categories == old(db.categories)
      ensures old(FindOne(id, userId)).Err? ==> r == Err(NotFound) && db.tasks == old(db.tasks)
      ensures old(FindOne(id, userId)).Ok? ==> r == Ok(()) && db.tasks == old(db.tasks) - {id}
    {
      var found := FindOne(id, userId);
      if found.Err? {
        return Err(NotFound);
      }
      db.tasks := db.tasks - {id};
      r := Ok(());
    }

    /** The metrics of the caller's tasks that are not archived. */
    method GetTaskMetrics(userId: Id) returns (m: Metrics)
      requires db.Valid()
      ensures m == MetricsOfSet(TasksOf(userId, false))
      ensures 0 <= m.pendingTasks == m.totalTasks - m.completedTasks
      ensures m.completedOnTime <= m.completedTasks
      ensures m.completedOnTime <= |set t | t in TasksOf(userId, false) && HasPlannedDate(t)| <= m.totalTasks
      ensures 0.0 <= m.completionRate <= 100.0 && 0.0 <= m.onTimeRate <= 100.0
      ensures m.totalTasks == 0 ==> m.completionRate == 0.0 && m.onTimeRate == 0.0
    {
      var tasks := FindAll(userId, false);
      m := ComputeMetrics(tasks);
      ListedMetrics(tasks, TasksOf(userId, false));
      MetricsAreConsistent(tasks);
      ListedFilter(tasks, TasksOf(userId, false), HasPlannedDate);
      ListedCount(Filter(tasks, HasPlannedDate), set t | t in TasksOf(userId, false) && HasPlannedDate(t));
    }
  }
}
