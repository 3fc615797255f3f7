/**
 * JSON values as `JSON.parse` produces them (the value grammar of section 3
 * of RFC 8259), with the three JavaScript operations the pipeline applies to
 * them: truthiness, `typeof v === 'object'` and property access.
 */
module Json {
  import opened Wrappers

  /** A parsed JSON value. An object is the map from member names to values
    * that `JSON.parse` builds (for a repeated name the last member wins). */
  datatype Json =
    | JNull
    | JBool(b: bool)
    | JNumber(n: real)
    | JString(s: string)
    | JArray(elems: seq<Json>)
    | JObject(members: map<string, Json>)

  /** JavaScript truthiness of a value that may be `undefined` (`None`): the
    * falsy values are `undefined`, `null`, `false`, zero and `''`.
    * `JSON.parse` never yields `NaN`, and the reals here have one zero. */
  function Truthy(v: Option<Json>): (b: bool)
    ensures !b <==> v == None || v == Some(JNull) || v == Some(JBool(false)) ||
                    v == Some(JNumber(0.0)) || v == Some(JString(""))
  {
    match v
    case None => false
    case Some(JNull) => false
    case Some(JBool(b)) => b
    case Some(JNumber(n)) => n != 0.0
    case Some(JString(s)) => s != []
    case Some(JArray(_)) => true
    case Some(JObject(_)) => true
  }

  /** `typeof v === 'object'`: true of `null`, arrays and objects. */
  predicate IsObjectType(v: Json)
  {
    v.JNull? || v.JArray? || v.JObject?
  }

  /** `v.key`: the named member of an object; `undefined` for every other
    * value, since none of the names the pipeline reads is a property of
    * arrays, strings, numbers or booleans. (`null.key` throws; callers that
    * can meet `null` handle it before asking.) */
  function Prop(v: Json, key: string): (r: Option<Json>)
    ensures r.Some? <==> v.JObject? && key in v.members
    ensures r.Some? ==> r.value == v.members[key]
  {
    if v.JObject? && key in v.members then Some(v.members[key]) else None
  }

  /** The property is a string (`typeof v.key === 'string'`). */
  predicate HasString(v: Json, key: string)
  {
    var p := Prop(v, key);
    p.Some? && p.value.JString?
  }

  /** The property is a number (`typeof v.key === 'number'`). */
  predicate HasNumber(v: Json, key: string)
  {
    var p := Prop(v, key);
    p.Some? && p.value.JNumber?
  }

  /** The property is an array (`Array.isArray(v.key)`). */
  predicate HasArray(v: Json, key: string)
  {
    var p := Prop(v, key);
    p.Some? && p.value.JArray?
  }
}
