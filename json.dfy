/** JSON values as the reply parser and the knowledge-base loader produce them. */
module Json {

  /** A decoded JSON value. Numbers are kept as reals (JSON has one number kind). */
  datatype Value =
    | Null
    | Bool(b: bool)
    | Number(n: real)
    | Str(s: string)
    | Array(items: seq<Value>)
    | Object(fields: map<string, Value>)

  /** One object of the reply array: a timesheet entry as a string-keyed dictionary. */
  type Entry = map<string, Value>

  /** Python's `d.get(key, default)`. */
  function Get(e: Entry, key: string, default: Value): (v: Value)
    ensures key in e ==> v == e[key]
    ensures key !in e ==> v == default
  {
    if key in e then e[key] else default
  }
}
