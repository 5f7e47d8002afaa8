/** Decoded JSON documents, as `json.load` hands them to the program:
    objects become dicts keyed by strings. */
module Json {
  datatype Json =
    | Null
    | Bool(b: bool)
    | Num(n: int)
    | Str(s: string)
    | Arr(elems: seq<Json>)
    | Obj(fields: map<string, Json>)
}
