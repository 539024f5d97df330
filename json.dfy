/** The part of the JSON value library (SwiftyJSON) that the core relies on:
    a JSON value, member lookup and the typed accessors. */
module Json {
  import opened Wrappers

  /** A JSON value. Numbers are kept as integers: the core never interprets them. */
  datatype Json =
    | Null
    | Bool(b: bool)
    | Number(n: int)
    | Str(s: string)
    | Array(items: seq<Json>)
    | Object(members: map<string, Json>)

  /** `json[key]`: the member named `key` of an object; null when `json` is not
      an object or has no such member. */
  function Member(j: Json, key: string): Json
  {
    if j.Object? && key in j.members then j.members[key] else Null
  }

  /** `json.string`: the text of a string value, nil for any other kind. */
  function StringValue(j: Json): Option<string>
  {
    if j.Str? then Some(j.s) else None
  }

  /** `json.bool`: the value of a boolean, nil for any other kind. */
  function BoolValue(j: Json): Option<bool>
  {
    if j.Bool? then Some(j.b) else None
  }

  /** `json.dictionaryObject as! [String: String]?`: nil when `json` is not an
      object; the object's members when every one of them is a string; a trap
      (the force cast fails) otherwise. */
  function StringDictionary(j: Json): Checked<Option<map<string, string>>>
  {
    if !j.Object? then Value(None)
    else if forall k :: k in j.members ==> j.members[k].Str? then
      Value(Some(map k | k in j.members :: j.members[k].s))
    else Trap
  }
}
