/** Configuration values as the service reads them from JSON or from the
    environment: Python's view of a decoded JSON document, its truthiness,
    and the two ways the code looks a key up. */
module PyJson {
  import opened Wrappers

  /** A decoded JSON value. Fractional numbers are not represented. */
  datatype Json =
    | JNull
    | JBool(b: bool)
    | JInt(i: int)
    | JStr(s: string)
    | JList(items: seq<Json>)
    | JObj(fields: map<string, Json>)
  {
    /** Python's `bool(value)`. */
    predicate Truthy() {
      match this
      case JNull => false
      case JBool(b) => b
      case JInt(i) => i != 0
      case JStr(s) => s != ""
      case JList(items) => items != []
      case JObj(fields) => fields != map[]
    }
  }

  /** The exceptions a lookup can raise. */
  datatype LookupError =
    | KeyError(key: string)   // `d[key]` on a dict without `key`
    | TypeError               // `v[key]` on a value that is not a dict
    | AttributeError          // `v.get(...)` on a value that is not a dict

  /** `value.get(key, default)` */
  function GetOr(value: Json, key: string, default: Json): (r: Result<Json, LookupError>)
    ensures r.Err? <==> !value.JObj?
    ensures r.Err? ==> r.error == AttributeError
    ensures r.Ok? ==> r.value == if key in value.fields then value.fields[key] else default
  {
    if !value.JObj? then Err(AttributeError)
    else if key in value.fields then Ok(value.fields[key])
    else Ok(default)
  }

  /** `value[key]` */
  function Index(value: Json, key: string): (r: Result<Json, LookupError>)
    ensures r.Ok? <==> value.JObj? && key in value.fields
    ensures r.Ok? ==> r.value == value.fields[key]
    ensures r.Err? ==> r.error == if value.JObj? then KeyError(key) else TypeError
  {
    if !value.JObj? then Err(TypeError)
    else if key !in value.fields then Err(KeyError(key))
    else Ok(value.fields[key])
  }
}
