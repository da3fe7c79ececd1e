/** The result normaliser inside the `executeGraphQL` tool handler: from the
    GraphQL response it finds the `me` record, picks its data field, unwraps
    a connection or a plain list, drops nulls and maps every item to
    `{name, description, link}`. */
module Normalizer {
  import opened Wrappers
  import opened JsonValue
  import opened JsRuntime

  /** One entry of the tool's output; `None` is JavaScript `null` */
  datatype Item = Item(name: string, description: Option<string>, link: Option<string>)

  /** How the handler's try block ends: with the list it returns, or with an
      exception. Its catch block reads the unbound identifier `input`, so
      every exception leaves the handler (as a ReferenceError). */
  datatype Outcome = Ok(items: seq<Item>) | Raised

  /** The shape the selected data value is sorted into */
  datatype Shape = Connection(edges: seq<Json>) | List(elems: seq<Json>) | NoItems

  /** The type discriminator the GraphQL client adds to every record */
  const TypenameKey := "__typename"

  /** The fields tried, in this order, for an item's `name` */
  const NameFields: seq<string> := ["name", "title", "ticketNumber", "accountNumber"]

  /** The `name` of an item that has none of the `NameFields` */
  const NameSentinel := "N/A"

  /** The value of the first member of `me` whose key is not the type
      discriminator (src/index.js:79-80); `undefined` when there is none. An array
      lists its indices as keys, so it selects its first element; numbers
      and booleans have no keys. */
  function SelectData(me: JsVal): (r: JsVal)
    requires Readable(me)
    ensures me.Val? && me.j.JObj? ==>
      (r == Undefined <==> forall i :: 0 <= i < |me.j.fields| ==> me.j.fields[i].0 == TypenameKey)
    ensures me.Val? && me.j.JObj? && r != Undefined ==>
      exists i :: 0 <= i < |me.j.fields| && me.j.fields[i].0 != TypenameKey &&
        r == Val(me.j.fields[i].1) &&
        forall k :: 0 <= k < i ==> me.j.fields[k].0 == TypenameKey
    ensures me.Val? && me.j.JArr? ==> r == (if |me.j.elems| == 0 then Undefined else Val(me.j.elems[0]))
    ensures me.Val? && me.j.JStr? ==> r == Undefined || (r.Val? && r.j.JStr?)
    ensures me.NativeFunction? || (me.Val? && (me.j.JNum? || me.j.JBool?)) ==> r == Undefined
  {
    match me
    case Val(JObj(fields)) =>
      (match FindIndex(Keys(fields), key => key != TypenameKey)
       case None => Undefined
       case Some(i) =>
         var r := Get(me, fields[i].0).value;
         assert r == Val(fields[i].1);
         r)
    case Val(JArr(elems)) => if |elems| == 0 then Undefined else Val(elems[0])
    case Val(JStr(s)) => if |s| == 0 then Undefined else Val(JStr(s[..1]))
    case _ => Undefined
  }

  /** A truthy value whose `edges` member is an array is a connection; any
      other array is a plain list; everything else yields no items
      (src/index.js:84, 88). */
  function Classify(v: JsVal): (r: Shape)
    ensures r.Connection? <==>
      v.Val? && v.j.JObj? && Lookup(v.j.fields, "edges").Some? && Lookup(v.j.fields, "edges").value.JArr?
    ensures r.Connection? ==> Lookup(v.j.fields, "edges") == Some(JArr(r.edges))
    ensures r.List? <==> v.Val? && v.j.JArr?
    ensures r.List? ==> r.elems == v.j.elems
  {
    if Truthy(v) && Get(v, "edges").value.Val? && Get(v, "edges").value.j.JArr? then
      Connection(Get(v, "edges").value.j.elems)
    else if v.Val? && v.j.JArr? then
      List(v.j.elems)
    else
      NoItems
  }

  /** The `node` member of an edge that is not null (src/index.js:85): the
      edge's first `node` member when it is an object that has one, and
      `undefined` otherwise. */
  function NodeOf(edge: Json): (r: JsVal)
    ensures edge != JNull ==> Get(Val(edge), "node") == Some(r)
    ensures r != Undefined <==> edge.JObj? && "node" in Keys(edge.fields)
  {
    if edge.JObj? && "node" in Keys(edge.fields) then Val(Lookup(edge.fields, "node").value)
    else Undefined
  }

  /** The `node` of every edge, in order (src/index.js:85); `None` when a
      null edge makes the read throw. An edge without a `node` member gives
      `undefined`. */
  function EdgeNodes(edges: seq<Json>): (r: Option<seq<JsVal>>)
    ensures r.None? <==> exists i :: 0 <= i < |edges| && edges[i] == JNull
    ensures r.Some? ==> |r.value| == |edges|
    ensures r.Some? ==> forall i :: 0 <= i < |edges| ==> r.value[i] == NodeOf(edges[i])
  {
    if |edges| == 0 then Some([])
    else
      match Get(Val(edges[0]), "node")
      case None => None
      case Some(n) =>
        match EdgeNodes(edges[1..])
        case None => None
        case Some(rest) => Some([n] + rest)
  }

  /** The elements of a JSON array as JavaScript values */
  function Lift(xs: seq<Json>): (r: seq<JsVal>)
    ensures |r| == |xs|
    ensures forall i :: 0 <= i < |xs| ==> r[i] == Val(xs[i])
  {
    seq(|xs|, i requires 0 <= i < |xs| => Val(xs[i]))
  }

  /** Strict filtering against `null` (src/index.js:85, 89): drops `null`
      but keeps `undefined` */
  function DropNulls(xs: seq<JsVal>): (r: seq<JsVal>)
    ensures |r| <= |xs|
    ensures forall k :: 0 <= k < |r| ==> r[k] != Val(JNull) && r[k] in xs
  {
    if |xs| == 0 then []
    else (if xs[0] == Val(JNull) then [] else [xs[0]]) + DropNulls(xs[1..])
  }

  /** `vs[0] || vs[1] || ... || last`: the first truthy value, else `last` */
  function OrChain(vs: seq<JsVal>, last: JsVal): (r: JsVal)
    ensures (forall i :: 0 <= i < |vs| ==> !Truthy(vs[i])) ==> r == last
    ensures (exists i :: 0 <= i < |vs| && Truthy(vs[i])) ==>
      exists i :: 0 <= i < |vs| && Truthy(vs[i]) && r == vs[i] &&
        forall k :: 0 <= k < i ==> !Truthy(vs[k])
  {
    if |vs| == 0 then last
    else if Truthy(vs[0]) then vs[0]
    else
      var r := OrChain(vs[1..], last);
      assert forall i :: 1 <= i < |vs| ==> vs[i] == vs[1..][i - 1];
      r
  }

  /** The values of the `NameFields` of a readable item, in order */
  function NameCandidates(item: JsVal): (cs: seq<JsVal>)
    requires Readable(item)
    ensures |cs| == |NameFields|
    ensures forall i :: 0 <= i < |NameFields| ==> Get(item, NameFields[i]) == Some(cs[i])
  {
    seq(|NameFields|, i requires 0 <= i < |NameFields| => Get(item, NameFields[i]).value)
  }

  /** An item's `name` (src/index.js:97): the string form of the first
      truthy `NameFields` member, or the sentinel when none is truthy */
  function NameOf(item: JsVal, toStr: Json -> string): (name: string)
    requires Readable(item)
    ensures (forall i :: 0 <= i < |NameFields| ==> !Truthy(Get(item, NameFields[i]).value)) ==>
      name == NameSentinel
    ensures forall i | 0 <= i < |NameFields| && Truthy(Get(item, NameFields[i]).value) &&
        forall k :: 0 <= k < i ==> !Truthy(Get(item, NameFields[k]).value)
      :: name == Stringify(Get(item, NameFields[i]).value, toStr)
  {
    var cs := NameCandidates(item);
    var chosen := OrChain(cs, Val(JStr(NameSentinel)));
    assert forall i :: 0 <= i < |NameFields| ==> Get(item, NameFields[i]).value == cs[i];
    Stringify(chosen, toStr)
  }

  /** An optional text field (src/index.js:98-99): the string form of the
      member when it is truthy, and `null` otherwise */
  function FieldText(item: JsVal, key: string, toStr: Json -> string): (r: Option<string>)
    requires Readable(item)
    ensures r.Some? <==> Truthy(Get(item, key).value)
    ensures r.None? <==> Get(item, key).value in FalsyValues
    ensures r.Some? ==> r.value == Stringify(Get(item, key).value, toStr)
    ensures Get(item, key).value.Val? && Get(item, key).value.j.JStr? && Get(item, key).value.j.s != "" ==>
      r == Some(Get(item, key).value.j.s)
  {
    var f := Get(item, key).value;
    if Truthy(f) then Some(Stringify(f, toStr)) else None
  }

  /** The object literal built for one item; `None` when reading `item.name`
      throws because the item is `undefined` or `null`. */
  function ToItem(item: JsVal, toStr: Json -> string): (r: Option<Item>)
    ensures r.None? <==> !Readable(item)
    ensures r.Some? ==> r.value.name == NameOf(item, toStr)
    ensures r.Some? ==>
      r.value.description == FieldText(item, "description", toStr) &&
      r.value.link == FieldText(item, "link", toStr)
  {
    if !Readable(item) then None
    else Some(Item(NameOf(item, toStr), FieldText(item, "description", toStr), FieldText(item, "link", toStr)))
  }

  /** One item per entry, in order (src/index.js:94-100); `None` when some
      entry cannot be read */
  function MapItems(xs: seq<JsVal>, toStr: Json -> string): (r: Option<seq<Item>>)
    ensures r.None? <==> exists i :: 0 <= i < |xs| && !Readable(xs[i])
    ensures r.Some? ==> |r.value| == |xs|
    ensures r.Some? ==> forall i :: 0 <= i < |xs| ==> ToItem(xs[i], toStr) == Some(r.value[i])
  {
    if forall i :: 0 <= i < |xs| ==> Readable(xs[i]) then
      Some(seq(|xs|, i requires 0 <= i < |xs| && Readable(xs[i]) => ToItem(xs[i], toStr).value))
    else
      None
  }

  /** The items of a classified data value (src/index.js:84-100). Only a
      connection can raise, and only through an edge that is null or has no
      `node`; no shape yields more items than it has entries. */
  function Extract(shape: Shape, toStr: Json -> string): (r: Outcome)
    ensures shape.NoItems? ==> r == Ok([])
    ensures shape.List? ==> r.Ok? && |r.items| <= |shape.elems|
    ensures shape.Connection? && r.Ok? ==> |r.items| <= |shape.edges|
    ensures shape.Connection? && (exists i :: 0 <= i < |shape.edges| && shape.edges[i] == JNull) ==>
      r.Raised?
    ensures r.Raised? ==>
      shape.Connection? &&
      exists i :: 0 <= i < |shape.edges| && (shape.edges[i] == JNull || NodeOf(shape.edges[i]) == Undefined)
  {
    match shape
    case NoItems => Ok([])
    case List(elems) =>
      (match MapItems(DropNulls(Lift(elems)), toStr)
       case None => Raised
       case Some(items) => Ok(items))
    case Connection(edges) =>
      (match EdgeNodes(edges)
       case None => Raised
       case Some(nodes) =>
         match MapItems(DropNulls(nodes), toStr)
         case None => Raised
         case Some(items) => Ok(items))
  }

  /** What reading `data.me` of the client's result gives, past the guard
      that returns `[]` when either is falsy (src/index.js:70-75) */
  datatype MeRead = ReadThrows | NoMe | Me(me: JsVal)

  /** Reads `data`, then `data.me`; a falsy value on the way is `NoMe` */
  function ReadMe(response: Json): (r: MeRead)
    ensures r == ReadThrows <==> response == JNull
    ensures r.Me? ==> Truthy(r.me)
  {
    match Get(Val(response), "data")
    case None => ReadThrows
    case Some(data) =>
      if !Truthy(data) then NoMe
      else
        var me := Get(data, "me").value;
        if !Truthy(me) then NoMe else Me(me)
  }

  /** The handler's try block from the moment the GraphQL client answers */
  function Normalize(response: Json, toStr: Json -> string): (r: Outcome)
    ensures response == JNull ==> r == Raised
  {
    match ReadMe(response)
    case ReadThrows => Raised
    case NoMe => Ok([])
    case Me(me) => Extract(Classify(SelectData(me)), toStr)
  }
}
