/** Decoded JSON: what `encoding/json` yields with UseNumber. */
module Json {
  /** Numbers keep their literal text; texts are sequences of Unicode scalars. */
  datatype Value =
    | Null
    | Bool(flag: bool)
    | Num(literal: string)
    | Str(text: string)
    | Arr(items: seq<Value>)
    | Obj(members: map<string, Value>)
}
