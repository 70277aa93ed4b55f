/** The JSON values that `json.loads` and `request.json` can produce, and
    Python's truthiness test on them. */
module Json {

  /** A parsed JSON document. Integer and fractional numbers are told apart
      because `json.loads` gives them different Python types. */
  datatype Json =
    | JNull
    | JBool(b: bool)
    | JInt(i: int)
    | JFloat(x: real)
    | JString(s: string)
    | JArray(items: seq<Json>)
    | JObject(members: map<string, Json>)

  /** Python's `bool(v)` for the value `json.loads` returns: `None`, `False`,
      zero, and empty strings, lists and dicts are false. */
  predicate Truthy(j: Json)
    ensures !Truthy(j) <==>
      j in {JNull, JBool(false), JInt(0), JFloat(0.0), JString(""), JArray([]), JObject(map[])}
  {
    match j
    case JNull => false
    case JBool(b) => b
    case JInt(i) => i != 0
    case JFloat(x) => x != 0.0
    case JString(s) => |s| > 0
    case JArray(items) => |items| > 0
    case JObject(members) => |members| > 0
  }

  /** The name of the Python class of the decoded value, as it appears in the
      message of an `AttributeError`. */
  function TypeName(j: Json): (name: string)
    ensures name == "dict" <==> j.JObject?
    ensures name == "NoneType" <==> j.JNull?
  {
    match j
    case JNull => "NoneType"
    case JBool(_) => "bool"
    case JInt(_) => "int"
    case JFloat(_) => "float"
    case JString(_) => "str"
    case JArray(_) => "list"
    case JObject(_) => "dict"
  }
}
