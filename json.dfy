/** The values PHP arrays carry once they are serialised as JSON. */
module Json {
  /** `Object` keeps the insertion order of a PHP associative array. */
  datatype Json =
    | Null
    | Bool(b: bool)
    | Int(i: int)
    | Str(s: string)
    | List(items: seq<Json>)
    | Object(fields: seq<(string, Json)>)
}
