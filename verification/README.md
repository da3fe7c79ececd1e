# executeGraphQL tool handler, modelled in Dafny

The repository runs an LLM agent that answers questions about a user's data
by writing GraphQL queries. The agent calls one tool, `executeGraphQL`
(`src/index.js`). The tool checks the query's syntax and runs it through
the Apollo client. It then reduces the unknown response shape to a list of
`{name, description, link}` items. This project models the tool handler's
body. The heart of it is the result normaliser:

1. read `data.me`;
2. select the first key of `me` that is not `__typename`;
3. unwrap a connection (`edges[].node`) or take a plain list, and give
   nothing for anything else;
4. drop `null` entries;
5. map each item to `{name, description, link}`.

Names, description and link follow JavaScript truthiness.

The model is functional. Modules:

- `JsonValue` (`json_value.dfy`): the JSON response as an immutable
  `Json` tree. Objects keep their members in order. It also has
  `Object.keys` and `Array.prototype.find`.
- `JsRuntime` (`js_runtime.dfy`): the JavaScript semantics the handler
  depends on:
  - `JsVal` adds `undefined` and built-in functions to JSON;
  - truthiness;
  - property reads, which throw on `undefined` and `null` and are modelled
    as `None`;
  - `String(x)`.
- `Normalizer` (`normalizer.dfy`): one function per step of the handler.
  The handler's outcome is `Ok(items)` or `Raised`.
- `NormalizerProperties` (`normalizer_properties.dfy`): the normaliser's
  behaviour, stated over the response's members.
- `ToolAdapter` (`tool_adapter.dfy`): the handler body. It has the
  empty-query guard, the syntax check and a single execution.
- `Corrections` (`corrections.dfy`) and `CorrectionsProperties`
  (`corrections_properties.dfy`): the behaviour the code evidently
  intends, for the two defects listed under Findings, and what it
  guarantees.

The handler's collaborators are parameters:

- the GraphQL grammar check is `parses: string -> bool`;
- the Apollo client call, including building its headers from the
  request context, is `execute: string -> ExecResult`;
- `String(x)` of a non-string JSON value is `toStr: Json -> string`.

Behaviour of the code worth knowing, all of it modelled:

- The name fallback order is `name`, `title`, `ticketNumber`,
  `accountNumber` (src/index.js:97). A generic `title` therefore beats the
  business identifiers.
- The name and the optional fields are chosen by JavaScript truthiness
  (src/index.js:97-99). So `0`, `false` and `""` are skipped as well as
  `null` and missing fields.
- A whitespace-only query is truthy, so it reaches `parse`
  (src/index.js:50-54).
- Syntax and execution errors do not become `[]`. The catch block itself
  throws (src/index.js:106-112; Findings, row 1).
- Only `null` nodes are filtered out (src/index.js:85). An edge without a
  `node` keeps `undefined`, which crashes the item mapping (Findings,
  row 2).
- If `me` is an array, `Object.keys` lists its indices, so its first
  element is selected (src/index.js:79-80).
- An item that is a bare string inherits `String.prototype.link`. That
  method is truthy, so such an item's `link` is the function's
  native-code source text (src/index.js:99).

## Model

| member | source | states |
|---|---|---|
| JsonValue.Keys | src/index.js:79 | `Object.keys` of an object lists one key per member, the member names in member order |
| JsonValue.FindIndex | src/index.js:79 | `find` returns the position of the first key satisfying the callback, every earlier key fails it, and it returns nothing exactly when no key satisfies it |
| JsonValue.Lookup | src/index.js:80 | an own member is found exactly when its name is among the object's keys, and the value returned is that of the first member with that name |
| JsRuntime.Truthy | src/index.js:97-99 | a value is falsy exactly when it is `undefined`, `null`, `false`, `0` or `""`; every truthy value can be read from, every object and array is truthy however empty, and a string is truthy exactly when it is non-empty |
| JsRuntime.Get | src/index.js:97-99 | a property read throws exactly on `undefined` or `null`; an object yields its own member or `undefined`; a non-object JSON value yields no JSON data |
| JsRuntime.Stringify | src/index.js:97-99 | `String` of a string is the string itself, and a built-in function prints as its native-code source |
| Normalizer.ReadMe | src/index.js:70-75 | reading `data` throws only for a null result, and a `me` that gets past the guard is truthy |
| Normalizer.SelectData | src/index.js:79-80 | for an object `me`, the selected value is that of the first member not named `__typename`, all earlier members are `__typename`, and nothing is selected exactly when every member is `__typename`; an array `me` selects its first element; numbers and booleans select nothing |
| Normalizer.Classify | src/index.js:84-90 | the value is a connection exactly when it is an object whose `edges` member is an array, carrying those edges; it is a list exactly when it is an array |
| Normalizer.EdgeNodes | src/index.js:85 | unwrapping throws exactly when some edge is null; otherwise each position holds that edge's `node`, or `undefined` when the edge has none |
| Normalizer.DropNulls | src/index.js:89 | every entry left is a non-null entry of the input, and the result is no longer than the input |
| Normalizer.OrChain | src/index.js:97 | a chain of `\|\|` yields the first truthy operand, all earlier ones falsy, or the last operand when none is truthy |
| Normalizer.NameOf | src/index.js:97 | the name is "N/A" when none of `name`, `title`, `ticketNumber`, `accountNumber` is truthy, and otherwise the string form of the first truthy one in that order |
| Normalizer.FieldText | src/index.js:98-99 | a field is `null` exactly when its value is `undefined`, `null`, `false`, `0` or `""`; otherwise it is reported as its string form, and a non-empty string field as itself |
| Normalizer.ToItem | src/index.js:94-100 | building an item throws exactly when the item is `undefined` or `null`; its name follows the fallback chain, and its `description` and `link` are those fields' string forms when truthy and `null` otherwise |
| Normalizer.MapItems | src/index.js:94-100 | the mapping throws exactly when some entry is `undefined` or `null`, and otherwise gives one item per entry, in entry order, each the item built from that entry |
| Normalizer.NodeOf | src/index.js:85 | the `node` read from an edge that is not null is what a property read of `node` gives, and it is defined exactly when the edge is an object with a `node` member |
| Normalizer.Extract | src/index.js:84-100 | no shape gives `[]`; a list never throws; only a connection throws, and only when some edge is null or lacks a `node`; a null edge always makes it throw; no shape gives more items than it has entries |
| Normalizer.Normalize | src/index.js:70-100 | a null result makes the normaliser throw (the other cases are stated by the lemmas below) |
| NormalizerProperties.ReadMeAgrees | src/index.js:70-75 | the guarded reads find `me` exactly when the result is an object whose `data` is an object with a truthy `me` |
| NormalizerProperties.MeDecides | src/index.js:70-90 | without such a `me` the result is `[]`; with one, the outcome depends only on the value selected from `me` |
| NormalizerProperties.NoMeGivesEmpty | src/index.js:70-73 | no `data`, a falsy `data`, or a falsy `data.me` gives `[]` |
| NormalizerProperties.ConnectionGivesNodeItems | src/index.js:84-85 | a connection whose edges all have a `node` gives one item per non-null node, in edge order, so at most one per edge |
| NormalizerProperties.EdgesWithNodes | src/index.js:85 | edges that all have a `node` unwrap to exactly those nodes |
| NormalizerProperties.ConnectionWithBadEdgeRaises | src/index.js:84-97 | a connection with a null edge or an edge without `node` makes the handler throw |
| NormalizerProperties.ListGivesElementItems | src/index.js:88-89 | a plain list gives one item per non-null element, in order, and never throws |
| NormalizerProperties.ListNeverRaises | src/index.js:88-100 | every element of a plain list left after dropping nulls can be mapped |
| NormalizerProperties.OtherValuesGiveEmpty | src/index.js:81-90 | a selected value that is neither an array nor an object with an array `edges` gives `[]` |
| NormalizerProperties.OnlyTypenameGivesEmpty | src/index.js:79-81 | when every member of `me` is `__typename`, nothing is selected and the result is `[]` |
| NormalizerProperties.NormalizeRaisedIff | src/index.js:70-100 | the normaliser throws exactly for a null result or a selected connection with an edge lacking `node` |
| NormalizerProperties.DropNullsCounts | src/index.js:89 | dropping nulls keeps every non-null entry, `undefined` included, as often as it occurs, and removes every `null` |
| NormalizerProperties.DropNullsMembers | src/index.js:89 | a value survives dropping nulls exactly when it occurs in the input and is not `null` |
| NormalizerProperties.DropNullsAppend | src/index.js:89 | dropping nulls distributes over concatenation, so the kept elements stay in their original order |
| NormalizerProperties.DropNullsKeepsNonNull | src/index.js:89 | a list without nulls passes through unchanged |
| NormalizerProperties.DropNullsIdempotent | src/index.js:89 | dropping nulls twice is the same as dropping them once |
| NormalizerProperties.TitleBeatsTicketNumber | src/index.js:97 | with a falsy `name` and a truthy `title`, the name is the title, whatever `ticketNumber` and `accountNumber` hold |
| NormalizerProperties.StringNameIsNonEmpty | src/index.js:97 | when the name candidates are strings or falsy, the name is never empty |
| NormalizerProperties.EmptyStringFieldIsNull | src/index.js:98-99 | an empty-string `description` or `link` is reported as `null` |
| NormalizerProperties.ItemReadsOnlyItsFields | src/index.js:94-100 | two items that agree on the six source fields give the same output item |
| NormalizerProperties.StringItemShape | src/index.js:97-99 | a bare string item gives name "N/A", no description, and the native source of `String.prototype.link` as its link |
| ToolAdapter.ExecuteGraphQL | src/index.js:46-114 | an empty query gives `[]`; a failed parse or a failed execution raises; a successful call is the normalised response |
| ToolAdapter.ExecuteGraphQLRaisedIff | src/index.js:48-112 | the handler raises exactly for a non-empty query that does not parse, fails to execute, or gets a null result or a broken connection back, so an error never yields `[]` |
| ToolAdapter.SyntaxErrorEscapes | src/index.js:106-112 | a query that fails to parse makes the handler raise instead of returning `[]` |
| Corrections.ExecuteGraphQLFailSoft | src/index.js:106-112 | with a catch block that returns `[]`, syntax errors, execution errors and broken connections all give `[]`, and successful calls give the same items as before |
| Corrections.PresentNodes | src/index.js:85 | no kept node is `null`, and there are at most as many as there are edges |
| Corrections.NormalizeSkippingMissingNodes | src/index.js:84-100 | skipping edges without a `node`, the normaliser throws only for a null result |
| CorrectionsProperties.PresentNodesMembers | src/index.js:85 | the nodes kept are exactly the present, non-null `node` members of the edges |
| CorrectionsProperties.SkippingAgreesWhenNoneMissing | src/index.js:84-100 | whenever the handler as written succeeds, the corrected normaliser gives the same items |
| CorrectionsProperties.PresentNodesOfFullEdges | src/index.js:85 | when every edge has a `node`, skipping missing nodes gives the same list as unwrapping the edges and dropping nulls |
| CorrectionsProperties.EdgeWithoutNodeShape | src/index.js:79-85 | the response `{data: {me: {__typename: "User", tickets: {edges: [{cursor: "a"}]}}}}` selects a connection whose only edge has no `node` |
| CorrectionsProperties.MissingNodeCrashes | src/index.js:85-97 | that response makes the handler as written raise |
| CorrectionsProperties.MissingNodeSkipped | src/index.js:85-97 | the corrected normaliser gives `[]` for that response |

## Left out

- The agent flow `toolsFlow`, the Express endpoint and `src/logger.js`
  (`src/index.js:117-216`) are not modelled. They cover token validation
  over HTTP, reading the schema file, rendering the prompt, the LLM's tool
  loop, JWT decoding and the HTTP response. All of that is I/O or a call
  into foreign code.
- What happens to a `Raised` outcome after it leaves the handler is not
  modelled. The tool's promise rejects, Genkit's generate call fails, the
  flow rethrows it, and the endpoint answers 500.
- The Genkit tool registration and its zod input and output schemas
  (`src/index.js:32-45`) are not modelled. That includes the `.url()`
  check on `link`. Genkit applies them, not the handler. The model takes
  the query as a string, as the input schema guarantees.
- The Apollo client, its cache and its headers (`src/index.js:24-30`,
  `60-69`) are not modelled. The `execute` parameter stands for them,
  together with reading `context.access_token` and
  `context.headers["x-user-location"]`. Any failure there is
  `ExecFailed`. The `gql` re-parse is assumed to succeed whenever `parse`
  does.
- `parse` from `graphql` is not modelled. It is the `parses` parameter.
- The `console.warn` and `console.error` logging calls are not modelled.
- `String(x)` of a non-string JSON value is the `toStr` parameter. The
  case where `String` itself throws is not modelled. That would be an
  object with an own `toString` member, or an array holding one, since
  no JSON value can be called.
- Numbers are integers only. NaN, `-0` and fractions are not modelled,
  so the truthiness of a number is `n != 0`.
- Object keys are not distinct in the model. `Lookup` takes the first
  member with a name, which matches any JavaScript object, since those
  never repeat a key.
- JsRuntime.Get: inherited properties are modelled only for the names the
  handler reads (`data`, `me`, `edges`, `node`, `name`, `title`,
  `ticketNumber`, `accountNumber`, `description`, `link`). Of these, only
  `link` exists on a prototype (`String.prototype`). A built-in function
  also has its own `name`.
- Normalizer.SelectData: the model keeps the keys of an object `me` in
  member order. JavaScript's `Object.keys` would list integer-like keys
  first, but GraphQL field names and aliases never look like integers.
- Normalizer.SelectData: for a string `me` the contract states only that
  the selected value is a string (its first character) or nothing. That
  is enough to show it gives no items.
- JavaScript strings are UTF-16 code units. The model's `string` is a
  sequence of `char`.

## Findings

| source | as written | input that shows it | evidently intended | confidence | as-written member | corrected member |
|---|---|---|---|---|---|---|
| src/index.js:106-112 | the catch block logs `input.query`, but the handler binds only `{query}`. So the catch throws a ReferenceError and `return []` is never reached | any non-empty query that fails to parse, such as `{`, or any query whose execution fails | the catch logs and returns `[]`, so tool failures never reach the agent loop | high; not executed | ToolAdapter.SyntaxErrorEscapes | Corrections.ExecuteGraphQLFailSoft |
| src/index.js:85 | an edge without `node` gives `undefined`, which the `!== null` filter keeps. Reading `item.name` at line 97 then throws. A null edge throws already at `edge.node` | `{data: {me: {__typename: "User", tickets: {edges: [{cursor: "a"}]}}}}` | missing nodes are skipped like null ones; the comment at line 93 says the mapping "won't crash if a field is missing" | medium; not executed | CorrectionsProperties.MissingNodeCrashes | Corrections.NormalizeSkippingMissingNodes |
