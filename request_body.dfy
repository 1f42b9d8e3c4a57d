/**
 * The parsed body of a JSON request as the validators see it: either
 * something that is not an array (no body, a scalar), or a key => value
 * array whose values are JSON scalars or nested arrays.
 */
module RequestBody {
  import opened Wrappers
  import opened Strings
  import opened PhpArrays

  /** A decoded JSON value; nested arrays and objects are not looked into. */
  datatype JsonValue = JNull | JBool(b: bool) | JInt(i: int) | JString(s: string) | JArray

  /** `getParsedBody()`: `is_array` holds only for `Fields`. */
  datatype Body = NotAnArray | Fields(fields: OMap<string, JsonValue>)

  /** The message of a body that is not an array. */
  const BODY_INVALID: string := "Body inválido ou vazio."

  /** `isset($data[$key])`: present and not null. */
  predicate IsSet(data: OMap<string, JsonValue>, key: string) {
    Get(data, key).Some? && !Get(data, key).value.JNull?
  }

  /** PHP's `(string)` cast of a JSON value. */
  function StringCast(v: JsonValue): (s: string)
    ensures v.JString? ==> s == v.s
    ensures !v.JString? ==> (s == "" <==> v.JNull? || v == JBool(false))
  {
    match v
    case JNull => ""
    case JBool(b) => if b then "1" else ""
    case JInt(i) => IntToString(i)
    case JString(s) => s
    case JArray => "Array"
  }

  /** `isset($data[$key]) ? (string) $data[$key] : ''`. */
  function FieldText(data: OMap<string, JsonValue>, key: string): (s: string)
    ensures !IsSet(data, key) ==> s == ""
    ensures Get(data, key).Some? && Get(data, key).value.JString? ==> s == Get(data, key).value.s
  {
    if IsSet(data, key) then StringCast(Get(data, key).value) else ""
  }
}
