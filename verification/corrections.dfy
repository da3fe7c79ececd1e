/** The handler as its comments and its catch block evidently intend:
    failures inside the tool become the empty list, and an edge without a
    `node` is skipped rather than crashing the item mapping. */
module Corrections {
  import opened Wrappers
  import opened JsonValue
  import opened JsRuntime
  import opened Normalizer
  import opened NormalizerProperties
  import opened ToolAdapter

  /** The handler with a catch block that logs `query` and returns `[]` */
  function ExecuteGraphQLFailSoft(query: string, parses: string -> bool, execute: string -> ExecResult,
                                  toStr: Json -> string): (r: seq<Item>)
    ensures query != "" && !parses(query) ==> r == []
    ensures query != "" && parses(query) && execute(query).ExecFailed? ==> r == []
    ensures query != "" && parses(query) && execute(query).Responded? && HasBrokenConnection(execute(query).response)
      ==> r == []
    ensures ExecuteGraphQL(query, parses, execute, toStr).Ok? ==>
      r == ExecuteGraphQL(query, parses, execute, toStr).items
  {
    ExecuteGraphQLRaisedIff(query, parses, execute, toStr);
    match ExecuteGraphQL(query, parses, execute, toStr)
    case Ok(items) => items
    case Raised => []
  }

  /** The nodes that are present and not null, in edge order: a null edge
      and an edge without a `node` are skipped alike, where src/index.js:85
      would throw on the first and keep `undefined` for the second */
  function PresentNodes(edges: seq<Json>): (r: seq<Json>)
    ensures |r| <= |edges|
    ensures forall k :: 0 <= k < |r| ==> r[k] != JNull
  {
    if |edges| == 0 then []
    else
      var n := NodeOf(edges[0]);
      var rest := PresentNodes(edges[1..]);
      if n.Val? && n.j != JNull then [n.j] + rest else rest
  }

  /** The normaliser with connections unwrapped by `PresentNodes` */
  function NormalizeSkippingMissingNodes(response: Json, toStr: Json -> string): (r: Outcome)
    ensures r.Raised? <==> response == JNull
  {
    match ReadMe(response)
    case ReadThrows => Raised
    case NoMe => Ok([])
    case Me(me) =>
      match Classify(SelectData(me))
      case Connection(edges) =>
        var kept := Lift(PresentNodes(edges));
        assert forall k :: 0 <= k < |kept| ==> Readable(kept[k]);
        Ok(MapItems(kept, toStr).value)
      case List(elems) =>
        ListNeverRaises(elems, toStr);
        Extract(List(elems), toStr)
      case NoItems => Ok([])
  }
}
