/**
 * The JSON document tree the codec produces and consumes, with the few
 * accessors of its library that the pipeline uses. Numbers keep their
 * origin: an integer node (the library's i64 form) or a float node.
 */
module Json {
  import opened Wrappers
  import opened Ints
  import opened Floats

  datatype Json =
    | JNull
    | JBool(flag: bool)
    | JInt(num: i64)
    | JFloat(fp: F64)
    | JString(str: string)
    | JArray(elems: seq<Json>)
    | JObject(fields: map<string, Json>)

  /** `Value::get(key)`: the member of an object, None for a missing key or a non-object. */
  function Get(j: Json, key: string): (r: Option<Json>)
    ensures r.Some? <==> j.JObject? && key in j.fields
    ensures r.Some? ==> r.value == j.fields[key]
  {
    if j.JObject? && key in j.fields then Some(j.fields[key]) else None
  }

  /** `Value::as_str`. */
  function AsStr(j: Json): (r: Option<string>)
    ensures r.Some? <==> j.JString?
    ensures r.Some? ==> r.value == j.str
  {
    if j.JString? then Some(j.str) else None
  }

  /** `Value::as_i64`: only integer nodes answer; a float node does not, even when integral. */
  function AsI64(j: Json): (r: Option<i64>)
    ensures r.Some? <==> j.JInt?
    ensures r.Some? ==> r.value == j.num
  {
    if j.JInt? then Some(j.num) else None
  }
}
