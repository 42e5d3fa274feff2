/** Decoded JSON as a pure tree. Numbers that come from the panel are floats; the port
    that the builder writes is an integer, as in the program. */
module JsonTree {
  datatype Scalar =
    | Null
    | Bool(b: bool)
    | Float(r: real)
    | Int(i: int)
    | Str(s: string)

  datatype Json =
    | Leaf(scalar: Scalar)
    | Obj(fields: Fields)
    | Arr(items: seq<Json>)

  type Fields = map<string, Json>

  /** Reading a missing key of a map yields nil. */
  function Field(fields: Fields, key: string): Json {
    if key in fields then fields[key] else Leaf(Null)
  }

  predicate IsStr(json: Json, s: string) {
    json == Leaf(Str(s))
  }
}
