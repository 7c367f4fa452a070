/** The relational store behind both repositories, held as two tables keyed
    by row id. */
module Database {
  import opened Results
  import opened TaskEntity
  import opened CategoryEntity

  class Store {
    var tasks: map<Id, Task>
    var categories: map<Id, Category>

    /** Every row sits under its own id, and every task's category reference
        resolves (the foreign key of `category_id`). */
    ghost predicate Valid()
      reads this
    {
      && (forall id :: id in tasks ==> tasks[id].id == id)
      && (forall id :: id in categories ==> categories[id].id == id)
      && ReferencesExist(tasks, categories.Keys)
    }

    /** No two categories of one user share a name. */
    ghost predicate UniqueCategoryNames()
      reads this
    {
      forall a, b :: a in categories && b in categories && a != b
                     && categories[a].userId == categories[b].userId
                     ==> categories[a].name != categories[b].name
    }

    constructor ()
      ensures Valid() && UniqueCategoryNames()
      ensures tasks == map[] && categories == map[]
    {
      tasks := map[];
      categories := map[];
    }
  }
}
