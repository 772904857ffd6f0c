/** What stands in a value along object keys. */
module KeyPaths {
  import opened Wrappers
  import opened Values

  function ValueAt(v: Json, keys: seq<string>): Option<Json>
    decreases |keys|
  {
    if keys == [] then Some(v)
    else if v.Obj? && keys[0] in v.fields then ValueAt(v.fields[keys[0]], keys[1..])
    else None
  }

  lemma ValueAtOne(v: Json, key: string)
    ensures ValueAt(v, [key]) == if v.Obj? && key in v.fields then Some(v.fields[key]) else None
  {
    if v.Obj? && key in v.fields {
      assert ValueAt(v.fields[key], [key][1..]) == Some(v.fields[key]);
    }
  }

  /** Objects all the way down to a place, before it. */
  ghost predicate ObjectsAbove(v: Json, keys: seq<string>) {
    forall n :: 0 <= n < |keys| ==> ValueAt(v, keys[..n]).Some? && ValueAt(v, keys[..n]).value.Obj?
  }
}
