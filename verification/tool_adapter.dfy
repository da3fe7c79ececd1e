/** The `executeGraphQL` tool handler as written: the empty-query guard,
    the syntax check, one execution through the GraphQL client, and the
    normaliser. The grammar check, the client and `String(x)` of non-string
    values are parameters, since their code is not part of this model. */
module ToolAdapter {
  import opened JsonValue
  import opened Normalizer
  import opened NormalizerProperties

  /** What awaiting the GraphQL client's `query` gives: the result object,
      or a rejection (transport failure, GraphQL errors, a bad context). */
  datatype ExecResult = Responded(response: Json) | ExecFailed

  /** The handler body. The query is a string, so `if (query)` fails only
      for the empty string. A failed parse is rethrown as a syntax error;
      every exception then reaches the catch block, which itself throws. */
  function ExecuteGraphQL(query: string, parses: string -> bool, execute: string -> ExecResult,
                          toStr: Json -> string): (r: Outcome)
    ensures query == "" ==> r == Ok([])
    ensures query != "" && !parses(query) ==> r == Raised
    ensures query != "" && parses(query) && execute(query).ExecFailed? ==> r == Raised
    ensures r.Ok? && query != "" ==>
      parses(query) && execute(query).Responded? && r == Normalize(execute(query).response, toStr)
  {
    if query == "" then Ok([])
    else if !parses(query) then Raised
    else
      match execute(query)
      case ExecFailed => Raised
      case Responded(response) => Normalize(response, toStr)
  }

  /** Exactly the inputs that make the handler throw: a non-empty query that
      does not parse, fails to execute, or is answered by a null result or
      by a connection with an edge lacking a `node`. The empty result is
      never what an error produces. */
  lemma ExecuteGraphQLRaisedIff(query: string, parses: string -> bool, execute: string -> ExecResult,
                                toStr: Json -> string)
    ensures ExecuteGraphQL(query, parses, execute, toStr).Raised? <==>
      query != "" &&
      (!parses(query) || execute(query).ExecFailed? ||
       execute(query).response == JNull || HasBrokenConnection(execute(query).response))
  {
    if query != "" && parses(query) && execute(query).Responded? {
      NormalizeRaisedIff(execute(query).response, toStr);
    }
  }

  /** A concrete syntax error escapes the handler instead of giving `[]` */
  lemma SyntaxErrorEscapes()
    ensures ExecuteGraphQL("{", q => false, q => ExecFailed, j => "") == Raised
  {
  }
}
