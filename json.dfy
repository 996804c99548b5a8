/**
  JSON values as the bridge handles them: readings decoded from the sensor and
  the discovery documents it assembles. Numbers are opaque: nothing in the core
  does arithmetic on them.
 */
module JsonValue {
  import opened PyDict

  datatype Json =
    | Null
    | Bool(b: bool)
    | Num(n: real)
    | Str(s: string)
    | Arr(items: seq<Json>)
    | Obj(fields: Dict<Json>)
}
