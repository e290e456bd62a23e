/** JavaScript values as the connector sees them: a property that may be
    `undefined`, the way a template literal prints such a property, and
    the JSON documents the Dremio REST API returns as rows. */
module JsValue {

  /** A property read that may come back `undefined` (None). */
  datatype Option<+T> = None | Some(value: T)

  /** Text a template literal `${v}` produces for a string-valued property:
      an `undefined` property prints as the word "undefined". */
  function Show(v: Option<string>): (r: string)
    ensures v.Some? ==> r == v.value
    ensures v.None? ==> r == "undefined"
  {
    match v
    case Some(s) => s
    case None => "undefined"
  }

  /** A JSON value; a result row is a JSON object. */
  datatype Json =
    | JNull
    | JBool(b: bool)
    | JNumber(n: int)
    | JString(s: string)
    | JArray(elems: seq<Json>)
    | JObject(fields: map<string, Json>)

  /** One row of a result set: column name to value. The connector never
      looks inside a row. */
  type Row = map<string, Json>
}
