/** Outcomes shared by the services: optional values, the three states a JSON
    property can be in, and the errors the services raise. */
module Results {

  /** Row identifiers (UUIDs generated by the store) and user ids. */
  type Id = string

  datatype Option<+T> = None | Some(value: T)

  /** A property of a request body after validation: left out, sent as an
      explicit `null`, or given a value. */
  datatype Field<+T> = Absent | Null | Given(value: T)

  /** What a nullable column stores for a property: NULL unless a value is given. */
  function StoredOrNull<T>(f: Field<T>): (r: Option<T>)
    ensures r.Some? <==> f.Given?
    ensures f.Given? ==> r.value == f.value
  {
    match f
    case Given(v) => Some(v)
    case _ => None
  }

  /** NotFound, Conflict and InternalServerError exceptions of the services. */
  datatype Error = NotFound | Conflict | Internal

  datatype Result<+T> = Ok(value: T) | Err(error: Error)
}
