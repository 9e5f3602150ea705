/** JSON values as Python sees them: a number is an int or a float, and the
    keys of an object have no order. */
module JsonValues {
  datatype Json =
    | Null
    | Bool(b: bool)
    | Int(i: int)
    | Float(r: real)
    | Str(s: string)
    | Arr(items: seq<Json>)
    | Obj(fields: map<string, Json>)
}
