/** A row of the `categories` table: owned by one user; `description` and
    `color` are nullable. */
module CategoryEntity {
  import opened Results
  import opened Dates

  datatype Category = Category(
    id: Id,
    name: string,
    description: Option<string>,
    color: Option<string>,
    userId: Id,
    createdAt: Timestamp)
}
