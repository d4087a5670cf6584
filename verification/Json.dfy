/** Optional values, for the source's `value, ok` results and nil pointers. */
module Options {
  datatype Option<+T> = None | Some(value: T)
}

/** JSON values as Go's encoding/json decodes them into `any`. */
module Json {
  datatype Json =
    | Null
    | Bool(b: bool)
    | Num(n: real)
    | Str(s: string)
    | Arr(items: seq<Json>)
    | Obj(members: map<string, Json>)

  predicate Primitive(v: Json) {
    !v.Arr? && !v.Obj?
  }

  /** One step down a JSON tree: the member of an object or the item of an array. */
  datatype Step = Name(name: string) | Index(index: nat)
}
