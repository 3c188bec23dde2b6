/** The JSON-like values the pipeline passes around: what `json.load` or
    the normalizer produces and what the loader reads.  Objects are Python
    dicts, so they keep their insertion order. */
module JsonValue {
  import opened Wrappers
  import Dict

  datatype Json =
    | Null
    | Bool(b: bool)
    | Int(i: int)
    | Str(s: string)
    | List(elems: seq<Json>)
    | Object(fields: Dict.Dict<Json>)

  /** A dict of strings as a JSON object with string members, in the same order. */
  function StrFields(d: Dict.Dict<string>): (r: Dict.Dict<Json>)
    ensures r.keys == d.keys
    ensures forall k :: Dict.Get(r, k) == if k in d.values then Some(Str(d.values[k])) else None
    ensures Dict.Valid(d) ==> Dict.Valid(r)
  {
    Dict.Entries(d.keys, map k | k in d.values :: Str(d.values[k]))
  }
}
