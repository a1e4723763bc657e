/**
 * The loosely typed values the store hands back for a JSON column, with the
 * JavaScript notions the availability parser tests them by.
 */
module Json {
  import opened Opt

  /** A JavaScript number, seen only as far as `Number.isInteger` and truthiness need. */
  datatype Num =
    | Int(i: int)     // an integral number
    | NonInteger      // a fraction or an infinity: truthy, not an integer
    | NaN             // not-a-number: falsy, not an integer

  datatype JsonValue =
    | JNull
    | JBool(b: bool)
    | JNumber(n: Num)
    | JString(s: string)
    | JArray(items: seq<JsonValue>)
    | JObject(fields: map<string, JsonValue>)

  /** JavaScript truthiness: `null`, `false`, `0`, `NaN` and `""` are the falsy values. */
  predicate Truthy(v: JsonValue) {
    match v
    case JNull => false
    case JBool(b) => b
    case JNumber(n) => n != Int(0) && n != NaN
    case JString(s) => s != ""
    case _ => true
  }

  /** `typeof v === "object" && v !== null`: objects and arrays. */
  predicate IsRecord(v: JsonValue) {
    v.JObject? || v.JArray?
  }

  /** The property `v[key]`, `None` standing for `undefined`; arrays carry no named properties here. */
  function Field(v: JsonValue, key: string): Option<JsonValue> {
    if v.JObject? && key in v.fields then Some(v.fields[key]) else None
  }

  /** `Number.isInteger(v) ? Number(v) : skip`. */
  function AsInteger(v: JsonValue): Option<int> {
    if v.JNumber? && v.n.Int? then Some(v.n.i) else None
  }
}
