/** The `updateData` object both services build from a patch before handing
    it to `repository.update`: column values keyed by column. */
module UpdateData {
  import opened Results
  import opened Dates

  datatype Value = NullValue | Text(text: string) | Flag(flag: bool) | Day(date: CalendarDate) | Instant(time: Timestamp)

  /** A property of the patch as the value it puts in `updateData`. */
  function Lift<T>(f: Field<T>, wrap: T -> Value): (r: Field<Value>)
    ensures r.Absent? <==> f.Absent?
    ensures r.Null? <==> f.Null?
    ensures f.Given? ==> r == Given(wrap(f.value))
  {
    match f
    case Absent => Absent
    case Null => Null
    case Given(v) => Given(wrap(v))
  }

  /** `{ ...dto }` over the columns a patch can name: one entry per property
      sent, `null` for a property sent as null, none for one left out. */
  function Spread<K(!new)>(columns: set<K>, property: K -> Field<Value>): (data: map<K, Value>)
    ensures forall k :: k in data <==> k in columns && !property(k).Absent?
    ensures forall k :: k in data ==> data[k] == if property(k).Null? then NullValue else property(k).value
  {
    map k | k in columns && !property(k).Absent? :: if property(k).Null? then NullValue else property(k).value
  }

  /** `Object.keys(updateData).forEach(key => { if (updateData[key] === null)
      delete updateData[key]; })`: removes every key whose value is null and
      keeps every other entry as it was. */
  method DropNullKeys<K, V(==)>(data: map<K, V>, nullValue: V) returns (r: map<K, V>)
    ensures forall k :: k in r <==> k in data && data[k] != nullValue
    ensures forall k :: k in r ==> r[k] == data[k]
  {
    r := data;
    var keys := data.Keys;
    while keys != {}
      invariant keys <= data.Keys
      invariant forall k :: k in r <==> k in data && (k in keys || data[k] != nullValue)
      invariant forall k :: k in r ==> r[k] == data[k]
      decreases keys
    {
      var k :| k in keys;
      if r[k] == nullValue {
        r := r - {k};
      }
      keys := keys - {k};
    }
  }
}
