/** `CategoriesService`: a user's categories over the store, with names kept
    unique per user by the service itself. */
module CategoriesService {
  import opened Results
  import opened Dates
  import opened TaskEntity
  import opened CategoryEntity
  import opened Queries
  import opened UpdateData
  import opened CreateCategoryDto
  import opened Database

  /** `UpdateCategoryDto`: every `CreateCategoryDto` property made optional. */
  datatype UpdateCategoryDto = UpdateCategoryDto(
    name: Field<string>,
    description: Field<string>,
    color: Field<string>)

  /** The columns a patch can name. */
  datatype Column = Name | Description | Color

  const PatchColumns: set<Column> := {Name, Description, Color}

  /** The value the patch sends for a column. */
  function Property(dto: UpdateCategoryDto, c: Column): Field<Value> {
    match c
    case Name => Lift(dto.name, s => Text(s))
    case Description => Lift(dto.description, s => Text(s))
    case Color => Lift(dto.color, s => Text(s))
  }

  /** `{ ...updateCategoryDto }`. */
  function SpreadPatch(dto: UpdateCategoryDto): map<Column, Value> {
    Spread(PatchColumns, c => Property(dto, c))
  }

  /** After the nulls are dropped, `updateData` holds exactly the text the
      patch gives. */
  lemma DroppedNullsLeaveGiven(dto: UpdateCategoryDto, data: map<Column, Value>)
    requires forall k :: k in data <==> k in SpreadPatch(dto) && SpreadPatch(dto)[k] != NullValue
    requires forall k :: k in data ==> data[k] == SpreadPatch(dto)[k]
    ensures forall c :: c in data <==> Property(dto, c).Given?
    ensures forall c :: c in data ==> data[c] == Property(dto, c).value && data[c].Text?
  {
  }

  /** `repository.update(id, data)` on category `c`, for data holding text only. */
  function ApplyCategoryData(c: Category, data: map<Column, Value>): (r: Category)
    requires forall k :: k in data ==> data[k].Text?
    ensures r.id == c.id && r.userId == c.userId && r.createdAt == c.createdAt
  {
    c.(name := if Name in data then data[Name].text else c.name,
       description := if Description in data then Some(data[Description].text) else c.description,
       color := if Color in data then Some(data[Color].text) else c.color)
  }

  /** The category `update` stores: every property the patch gives replaces
      the stored one; absent and null properties keep it. */
  function UpdatedCategory(c: Category, dto: UpdateCategoryDto): (r: Category)
    ensures r.id == c.id && r.userId == c.userId && r.createdAt == c.createdAt
    ensures c.description.Some? ==> r.description.Some?
    ensures c.color.Some? ==> r.color.Some?
    ensures !dto.name.Given? ==> r.name == c.name
  {
    c.(name := if dto.name.Given? then dto.name.value else c.name,
       description := if dto.description.Given? then Some(dto.description.value) else c.description,
       color := if dto.color.Given? then Some(dto.color.value) else c.color)
  }

  /** Applying the same patch twice is applying it once. */
  lemma UpdateIsIdempotent(c: Category, dto: UpdateCategoryDto)
    ensures UpdatedCategory(UpdatedCategory(c, dto), dto) == UpdatedCategory(c, dto)
  {
  }

  /** Ordering key for `createdAt ASC`. */
  function OldestFirst(c: Category): Rank {
    Finite(-c.createdAt)
  }

  class CategoriesService {
    const db: Store

    constructor (db: Store)
      ensures this.db == db
    {
      this.db := db;
    }

    /** The user's categories. */
    ghost function CategoriesOf(userId: Id): set<Category>
      reads db
    {
      set c | c in db.categories.Values && c.userId == userId
    }

    /** `findOne({ where: { name, userId } })` finds a row. */
    predicate NameTaken(name: string, userId: Id)
      reads db
      ensures NameTaken(name, userId) <==> exists c :: c in CategoriesOf(userId) && c.name == name
    {
      exists id :: id in db.categories && db.categories[id].name == name && db.categories[id].userId == userId
    }

    /** `findOne({ where: { id, userId } })`: NotFound unless the category
        exists and belongs to the caller. */
    function FindOne(id: Id, userId: Id): (r: Result<Category>)
      reads db
      ensures r.Ok? <==> id in db.categories && db.categories[id].userId == userId
      ensures r.Ok? ==> r.value == db.categories[id]
      ensures r.Err? ==> r.error == NotFound
    {
      if id in db.categories && db.categories[id].userId == userId then Ok(db.categories[id]) else Err(NotFound)
    }

    /** Saves `{ ...createCategoryDto, userId }` under the generated id
        `newId`, unless the user already has a category of that name
        (Conflict). A rejected save (a taken id) is an internal error. */
    method Create(dto: CreateCategoryDto, userId: Id, newId: Id, now: Timestamp) returns (r: Result<Category>)
      requires db.Valid()
      modifies db
      ensures db.Valid() && db.tasks == old(db.tasks)
      ensures old(db.UniqueCategoryNames()) ==> db.UniqueCategoryNames()
      ensures r == Err(Conflict) <==> old(NameTaken(dto.name, userId))
      ensures r == Err(Internal) <==> !old(NameTaken(dto.name, userId)) && newId in old(db.categories)
      ensures r.Ok? <==> !old(NameTaken(dto.name, userId)) && newId !in old(db.categories)
      ensures r.Err? ==> db.categories == old(db.categories)
      ensures r.Ok? ==> db.categories == old(db.categories)[newId := r.value]
      ensures r.Ok? ==> r.value == Category(newId, dto.name, StoredOrNull(dto.description),
                                             StoredOrNull(dto.color), userId, now)
    {
      if NameTaken(dto.name, userId) {
        return Err(Conflict);
      }
      if newId in db.categories {
        return Err(Internal);
      }
      var category := Category(newId, dto.name, StoredOrNull(dto.description), StoredOrNull(dto.color), userId, now);
      db.categories := db.categories[newId := category];
      r := Ok(category);
    }

    /** `find({ where: { userId }, order: { createdAt: 'ASC' } })`. */
    method FindAll(userId: Id) returns (r: seq<Category>)
      requires db.Valid()
      ensures ListsExactly(r, CategoriesOf(userId))
      ensures forall i, j :: 0 <= i < j < |r| ==> r[i].createdAt <= r[j].createdAt
    {
      r := SelectSorted(db.categories, (c: Category) => c.userId == userId, OldestFirst);
      assert (set c | c in db.categories.Values && c.userId == userId) == CategoriesOf(userId);
    }

    /** Loads the category (NotFound unless it is the caller's); when the
        patch gives a non-empty name other than the current one, fails with
        Conflict if the user has a category of that name; then drops the
        null entries of the patch, writes the rest and re-reads the row. */
    method Update(id: Id, dto: UpdateCategoryDto, userId: Id) returns (r: Result<Category>)
      requires db.Valid()
      modifies db
      ensures db.Valid() && db.tasks == old(db.tasks)
      ensures old(FindOne(id, userId)).Err? ==> r == Err(NotFound) && db.categories == old(db.categories)
      ensures old(FindOne(id, userId)).Ok? ==>
                var renaming := dto.name.Given? && dto.name.value != "" && dto.name.value != old(db.categories[id].name);
                && (r == Err(Conflict) <==> renaming && old(NameTaken(dto.name.value, userId)))
                && (r.Err? ==> r == Err(Conflict) && db.categories == old(db.categories))
                && (r.Ok? ==> db.categories == old(db.categories)[id := UpdatedCategory(old(db.categories[id]), dto)]
                              && r.value == db.categories[id])
      ensures old(db.UniqueCategoryNames()) && (dto.name.Given? ==> dto.name.value != "") ==> db.UniqueCategoryNames()
    {
      var found := FindOne(id, userId);
      if found.Err? {
        return Err(NotFound);
      }
      var category := found.value;
      if dto.name.Given? && dto.name.value != "" && dto.name.value != category.name {
        if NameTaken(dto.name.value, userId) {
          return Err(Conflict);
        }
      }
      var updateData := SpreadPatch(dto);
      updateData := DropNullKeys(updateData, NullValue);
      DroppedNullsLeaveGiven(dto, updateData);
      db.categories := db.categories[id := ApplyCategoryData(category, updateData)];
      r := FindOne(id, userId);
    }

    /** Deletes the caller's category `id` (NotFound unless it is theirs);
        the store's `ON DELETE SET NULL` un-files its tasks. */
    method Remove(id: Id, userId: Id) returns (r: Result<()>)
      requires db.Valid()
      modifies db
      ensures db.Valid()
      ensures old(db.UniqueCategoryNames()) ==> db.UniqueCategoryNames()
      ensures old(FindOne(id, userId)).Err? ==>
                r == Err(NotFound) && db.categories == old(db.categories) && db.tasks == old(db.tasks)
      ensures old(FindOne(id, userId)).Ok? ==>
                && r == Ok(())
                && db.categories == old(db.categories) - {id}
                && db.tasks == OnCategoryDeleted(old(db.tasks), id)
    {
      var found := FindOne(id, userId);
      if found.Err? {
        return Err(NotFound);
      }
      CategoryDeletionKeepsReferences(db.tasks, db.categories.Keys, id);
      db.tasks := OnCategoryDeleted(db.tasks, id);
      db.categories := db.categories - {id};
      r := Ok(());
    }
  }
}
