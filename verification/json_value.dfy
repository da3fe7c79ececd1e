/** JSON values as the GraphQL client hands them to the tool handler. */
module JsonValue {
  import opened Wrappers

  /** A JSON value. Numbers are integers only; an object keeps its members
      in the order the response lists them, which is the order
      `Object.keys` reports for GraphQL field names. */
  datatype Json =
    | JNull
    | JBool(b: bool)
    | JNum(n: int)
    | JStr(s: string)
    | JArr(elems: seq<Json>)
    | JObj(fields: seq<(string, Json)>)

  /** The member names of an object, in order: `Object.keys` */
  function Keys(fields: seq<(string, Json)>): (ks: seq<string>)
    ensures |ks| == |fields|
    ensures forall i :: 0 <= i < |fields| ==> ks[i] == fields[i].0
  {
    seq(|fields|, i requires 0 <= i < |fields| => fields[i].0)
  }

  /** `Array.prototype.find` on a list of keys, reporting the position of
      the first key that satisfies `p`, or `None` when no key does. */
  function FindIndex(keys: seq<string>, p: string -> bool): (r: Option<nat>)
    ensures r.Some? ==> r.value < |keys| && p(keys[r.value])
    ensures r.Some? ==> forall j :: 0 <= j < r.value ==> !p(keys[j])
    ensures r.None? <==> forall j :: 0 <= j < |keys| ==> !p(keys[j])
  {
    if |keys| == 0 then None
    else if p(keys[0]) then Some(0)
    else
      match FindIndex(keys[1..], p)
      case None => None
      case Some(i) => Some(i + 1)
  }

  /** The value of the first member named `key`, or `None` when the object
      has no such own member. */
  function Lookup(fields: seq<(string, Json)>, key: string): (r: Option<Json>)
    ensures r.Some? <==> key in Keys(fields)
    ensures r.Some? ==>
      exists i :: 0 <= i < |fields| && fields[i] == (key, r.value) &&
        forall j :: 0 <= j < i ==> fields[j].0 != key
  {
    match FindIndex(Keys(fields), k => k == key)
    case None => None
    case Some(i) => Some(fields[i].1)
  }
}
