/**
 * JSON values as the record store sees them after decoding: every record is
 * a JSON object, and the identity rule inspects field values only through
 * Python's truth test (the `or` operator).
 */
module Json {

  /** A decoded JSON value. Numbers (Python int and finite float alike) are
      exact reals; an object is a map from keys to values. */
  datatype JValue =
    | JNull
    | JBool(b: bool)
    | JNumber(n: real)
    | JString(s: string)
    | JArray(items: seq<JValue>)
    | JObject(fields: map<string, JValue>)

  /** A schema-less record: one JSON object of the collection. */
  type Record = map<string, JValue>

  /** Python's truth value of a decoded value: `None`, `False`, zero, the
      empty string, the empty list and the empty dict are falsy. */
  predicate Truthy(v: JValue)
    ensures !Truthy(v) <==>
              v in {JNull, JBool(false), JNumber(0.0), JString(""), JArray([]), JObject(map[])}
  {
    match v
    case JNull => false
    case JBool(b) => b
    case JNumber(n) => n != 0.0
    case JString(s) => s != ""
    case JArray(items) => items != []
    case JObject(fields) => fields != map[]
  }

  /** `record.get(key)`: the stored value, or `None` (JSON null) when the key
      is absent. */
  function Get(record: Record, key: string): (v: JValue)
    ensures key in record ==> v == record[key]
    ensures v == JNull <==> key !in record || record[key] == JNull
  {
    if key in record then record[key] else JNull
  }

  /** Whether `record.get(key)` is truthy. */
  predicate TruthyAt(record: Record, key: string) {
    Truthy(Get(record, key))
  }

  /** Python's `left or right` on two values: the left one when it is truthy,
      otherwise the right one. */
  function Or(left: JValue, right: JValue): (v: JValue)
    ensures Truthy(v) <==> Truthy(left) || Truthy(right)
    ensures Truthy(left) ==> v == left
    ensures !Truthy(left) ==> v == right
  {
    if Truthy(left) then left else right
  }
}
