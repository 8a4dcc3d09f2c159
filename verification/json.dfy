/**
 * JSON values as request bodies and `JSON.parse` results deliver them, and the
 * JavaScript truthiness the route handlers and the cookie form test them with.
 * Numbers are integers here: every number the modelled code inspects is an id,
 * a count or a flag.
 */
module Json {
  import opened Wrappers

  datatype Json =
    | JNull
    | JBool(b: bool)
    | JNum(n: int)
    | JStr(s: string)
    | JArr(items: seq<Json>)
    | JObj(fields: map<string, Json>)

  /** JavaScript truthiness: `null`, `false`, `0` and `""` are falsy, every array and object is truthy. */
  predicate Truthy(v: Json) {
    match v
    case JNull => false
    case JBool(b) => b
    case JNum(n) => n != 0
    case JStr(s) => s != ""
    case JArr(_) => true
    case JObj(_) => true
  }

  /** Truthiness of a possibly missing (`undefined`) value. */
  predicate TruthyOpt(v: Option<Json>) {
    v.Some? && Truthy(v.value)
  }

  /**
   * Reading `v.key`: `undefined` (`None`) when absent. Reading a property of
   * `null` throws a TypeError; the error is its `message`, which names the key.
   */
  function Member(v: Json, key: string): (r: Result<Option<Json>, string>)
    ensures r.Err? <==> v.JNull?
    ensures v.JNull? ==> r == Err("Cannot read properties of null (reading '" + key + "')")
    ensures v.JObj? ==> r == Ok(if key in v.fields then Some(v.fields[key]) else None)
  {
    match v
    case JNull => Err("Cannot read properties of null (reading '" + key + "')")
    case JObj(fields) => Ok(if key in fields then Some(fields[key]) else None)
    case _ => Ok(None)
  }
}
