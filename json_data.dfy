/**
 * The values `json.loads` produces, as the JSON extractors walk them: an
 * object keeps its members in insertion order (Python dicts are ordered)
 * and has distinct keys.
 */
module JsonData {
  import opened Wrappers

  datatype Json =
    | JNull
    | JBool(b: bool)
    | JNum(n: int)
    | JStr(s: string)
    | JArr(items: seq<Json>)
    | JObj(members: seq<(string, Json)>)

  /** Python's `isinstance(value, (dict, list))`. */
  predicate IsContainer(j: Json) {
    j.JArr? || j.JObj?
  }

  /** Python's `dict.get(key)` on an object's members: the value bound to `key`, if any. */
  function Get(members: seq<(string, Json)>, key: string): (r: Option<Json>)
    ensures r.Some? <==> exists k :: 0 <= k < |members| && members[k].0 == key
    ensures r.Some? ==> exists k :: 0 <= k < |members| && members[k] == (key, r.value)
  {
    if members == [] then None
    else if members[0].0 == key then Some(members[0].1)
    else
      var r := Get(members[1..], key);
      assert r.Some? ==> exists k :: 0 <= k < |members[1..]| && members[1..][k] == (key, r.value);
      r
  }

  /** Python truthiness of a JSON value. */
  predicate Truthy(j: Json) {
    match j
    case JNull => false
    case JBool(b) => b
    case JNum(n) => n != 0
    case JStr(s) => s != []
    case JArr(items) => items != []
    case JObj(members) => members != []
  }

  /** On a single member, `get` finds its value under its own key and nothing under any other. */
  lemma GetSingle(key: string, v: Json, name: string)
    ensures Get([(key, v)], name) == if key == name then Some(v) else None
  {
    if key != name {
      assert [(key, v)][1..] == [];
    }
  }

  /** Python's `dict.get(key, default)`. */
  function GetOr(members: seq<(string, Json)>, key: string, default: Json): (r: Json)
    ensures (exists k :: 0 <= k < |members| && members[k] == (key, r)) || r == default
  {
    match Get(members, key)
    case Some(v) => v
    case None => default
  }
}
