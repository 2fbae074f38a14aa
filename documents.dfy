/**
 * Parsed JSON sidecar documents and Python's `d[key]` on them: a dictionary
 * without the key raises `KeyError`, anything that is not a dictionary raises
 * `TypeError`.
 */
module Documents {
  import opened Wrappers

  datatype Json =
    | JNull
    | JBool(b: bool)
    | JNum(n: real)
    | JStr(s: string)
    | JArr(items: seq<Json>)
    | JObj(fields: map<string, Json>)

  datatype LookupError = KeyError(key: string) | TypeError

  /** `j[key]`. */
  function Get(j: Json, key: string): (r: Result<Json, LookupError>)
    ensures r.Ok? <==> j.JObj? && key in j.fields
    ensures r.Ok? ==> r.value == j.fields[key]
    ensures r.Err? ==> (r.error == TypeError <==> !j.JObj?)
    ensures r.Err? && j.JObj? ==> r.error == KeyError(key)
  {
    match j
    case JObj(fields) => if key in fields then Ok(fields[key]) else Err(KeyError(key))
    case _ => Err(TypeError)
  }

  /** `j[outer][inner]`. */
  function Get2(j: Json, outer: string, inner: string): (r: Result<Json, LookupError>)
    ensures r.Ok? <==> j.JObj? && outer in j.fields && j.fields[outer].JObj? && inner in j.fields[outer].fields
    ensures r.Ok? ==> r.value == j.fields[outer].fields[inner]
    ensures r.Err? ==> (r.error.KeyError? <==> KeyMissing2(j, outer, inner))
  {
    match Get(j, outer)
    case Err(e) => Err(e)
    case Ok(o) => Get(o, inner)
  }

  /** `j[outer][inner]` raises `KeyError`: one of the two keys is absent from a dictionary. */
  predicate KeyMissing2(j: Json, outer: string, inner: string)
  {
    j.JObj? && (outer !in j.fields || (j.fields[outer].JObj? && inner !in j.fields[outer].fields))
  }
}
