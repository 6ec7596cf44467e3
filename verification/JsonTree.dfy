/** Decoded JSON values. Objects are maps: the gateway's JSON library keeps members in key order. */
module JsonTree {
  import opened Wrappers

  datatype Json =
    | Null
    | Bool(value: bool)
    | Number(text: string)
    | Str(text: string)
    | Arr(items: seq<Json>)
    | Obj(members: map<string, Json>)

  type Path = seq<string>

  // The value at a path of member names, through objects only.
  function Get(v: Json, path: Path): Option<Json> {
    if path == [] then Some(v)
    else if v.Obj? && path[0] in v.members then Get(v.members[path[0]], path[1..])
    else None
  }

  predicate Comparable(p: Path, q: Path) {
    p <= q || q <= p
  }
}
