// A parsed JSON value, as `JSON.parse` produces it, and the optional-chaining
// property reads the relay performs on it (`v?.key`, `v?.[0]`). A read that
// finds nothing, or reads through `null` or a non-object, gives None, which
// stands for `undefined`.
module Json {
  import opened Wrappers

  datatype Json =
    | JNull
    | JBool(b: bool)
    | JNum(n: real)
    | JStr(str: string)
    | JArr(elems: seq<Json>)
    | JObj(fields: map<string, Json>)

  /** `v?.key` for the keys the relay reads: only an object has them as own
      properties; `null` and `undefined` short-circuit. */
  function Get(v: Option<Json>, key: string): (r: Option<Json>)
    ensures r.Some? <==> v.Some? && v.value.JObj? && key in v.value.fields
    ensures r.Some? ==> r.value == v.value.fields[key] && r.value < v.value
  {
    match v
    case Some(JObj(m)) => if key in m then Some(m[key]) else None
    case _ => None
  }

  /** `v?.[0]`: the first element of an array, the property "0" of an object,
      the first character of a string. */
  function Index0(v: Option<Json>): (r: Option<Json>)
    ensures r.Some? ==> v.Some? && (v.value.JArr? || v.value.JObj? || v.value.JStr?)
    ensures v.Some? && v.value.JArr? ==> r == (if |v.value.elems| > 0 then Some(v.value.elems[0]) else None)
    ensures v.Some? && v.value.JObj? ==> (r.Some? <==> "0" in v.value.fields)
    ensures v.Some? && v.value.JObj? && "0" in v.value.fields ==> r == Some(v.value.fields["0"])
    ensures v.Some? && v.value.JStr? ==> (r.Some? <==> v.value.str != "")
    ensures v.Some? && v.value.JStr? && r.Some? ==> r.value.JStr? && |r.value.str| == 1 && r.value.str <= v.value.str
  {
    match v
    case Some(JArr(xs)) => if |xs| > 0 then Some(xs[0]) else None
    case Some(JObj(m)) => if "0" in m then Some(m["0"]) else None
    case Some(JStr(s)) => if |s| > 0 then Some(JStr([s[0]])) else None
    case _ => None
  }

  /** `typeof v === "string"`: the string, when it is one. */
  function AsString(v: Option<Json>): (r: Option<string>)
    ensures r.Some? <==> v.Some? && v.value.JStr?
    ensures r.Some? ==> v == Some(JStr(r.value))
  {
    match v
    case Some(JStr(s)) => Some(s)
    case _ => None
  }
}
