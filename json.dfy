/**
 * Abstract JSON values (RFC 8259) as produced by Python's `json.loads`.
 * The grammar itself is not modelled: decoding is always passed in as a
 * partial function `string -> Option<Json>`.
 */
module Json {
  import opened Wrappers
  import Text

  /** A decoded JSON value. Numbers are integers; object key order is not kept. */
  datatype Json =
    | JNull
    | JBool(b: bool)
    | JNum(n: int)
    | JStr(s: string)
    | JArr(items: seq<Json>)
    | JObj(fields: map<string, Json>)

  /** A partial JSON decoder: `None` is a `json.JSONDecodeError`. */
  type Decoder = string -> Option<Json>

  /** Python truthiness of the decoded value (`if value:`). */
  predicate Truthy(v: Json) {
    match v
    case JNull => false
    case JBool(b) => b
    case JNum(n) => n != 0
    case JStr(s) => |s| > 0
    case JArr(items) => |items| > 0
    case JObj(fields) => |fields| > 0
  }

  /** Python `key in value` for a decoded value: a key test on objects, an element test on
      lists, a substring test on strings, and `None` where Python raises `TypeError`. */
  function HasKey(v: Json, key: string): (r: Option<bool>)
    ensures v.JObj? ==> r == Some(key in v.fields)
    ensures v.JArr? ==> r == Some(JStr(key) in v.items)
    ensures v.JStr? ==> r == Some(Text.Contains(v.s, key))
    ensures (v.JNull? || v.JBool? || v.JNum?) <==> r.None?
  {
    match v
    case JObj(fields) => Some(key in fields)
    case JArr(items) => Some(JStr(key) in items)
    case JStr(s) => Some(Text.Contains(s, key))
    case _ => None
  }
}
