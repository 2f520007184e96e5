/**
 The decoded JSON body of the authentication server's reply, as `json_decode`
 hands it to PHP: objects become objects with properties, arrays become arrays.
 */
module Json {
  import opened Wrappers

  /** Non-integral numbers are not modelled; no field the filter inspects is one. */
  datatype Json =
    | JNull
    | JBool(b: bool)
    | JNum(n: int)
    | JStr(s: string)
    | JArr(items: seq<Json>)
    | JObj(members: map<string, Json>)

  /** The property `name` of an object, when the value is an object that has it. */
  function Member(j: Json, name: string): (r: Option<Json>)
    ensures r.Some? <==> j.JObj? && name in j.members
  {
    if j.JObj? && name in j.members then Some(j.members[name]) else None
  }

  /** The value at a path of property names, when every step finds an object
      that has the property. */
  function At(j: Json, path: seq<string>): Option<Json>
    decreases |path|
  {
    if |path| == 0 then Some(j)
    else
      match Member(j, path[0])
      case None => None
      case Some(c) => At(c, path[1..])
  }
}
