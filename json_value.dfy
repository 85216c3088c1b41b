/** JSON documents as both halves of the chat see them once parsed: Python's
    `json.loads` on the server and JavaScript's `JSON.parse` in the browser.
    Parsing and printing themselves are not modelled; a frame carries its
    parse result. */
module JsonValue {
  import opened Wrappers

  datatype Json =
    | JNull
    | JBool(b: bool)
    | JNumber(n: real)
    | JString(s: string)
    | JArray(items: seq<Json>)
    | JObject(fields: map<string, Json>)

  /** Property access `v.username` or `v.message` in JavaScript on a parsed
      value other than `null`: the member of an object, and `undefined`
      (None) for a missing key and for every primitive or array. No string,
      array or object inherits a property of either name, so only own members
      answer. Other keys are not modelled: inherited properties such as
      `length` or `toString` would answer for them. Reading a property of
      `null` throws, so callers must exclude it. */
  function Field(v: Json, key: string): (r: Option<Json>)
    requires !v.JNull?
    requires key == "username" || key == "message"
    ensures r.Some? <==> v.JObject? && key in v.fields
    ensures r.Some? ==> r.value == v.fields[key]
  {
    match v
    case JObject(fields) => if key in fields then Some(fields[key]) else None
    case _ => None
  }

  /** JavaScript truthiness of a property value (`undefined` is None). JSON
      numbers are never NaN, so a number is truthy exactly when it is not zero. */
  predicate Truthy(v: Option<Json>)
    ensures Truthy(v) ==> v.Some? && !v.value.JNull?
    ensures v.Some? && (v.value.JArray? || v.value.JObject?) ==> Truthy(v)
  {
    match v
    case None => false
    case Some(JNull) => false
    case Some(JBool(b)) => b
    case Some(JNumber(n)) => n != 0.0
    case Some(JString(s)) => s != ""
    case Some(JArray(_)) => true
    case Some(JObject(_)) => true
  }
}
