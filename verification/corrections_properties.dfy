/** What the corrected handler promises, and the concrete response that
    separates it from the handler as written. */
module CorrectionsProperties {
  import opened Wrappers
  import opened JsonValue
  import opened JsRuntime
  import opened Normalizer
  import opened NormalizerProperties
  import opened Corrections

  /** The present nodes are exactly the non-null `node` members of the edges */
  lemma {:induction false} PresentNodesMembers(edges: seq<Json>)
    ensures forall x :: x in PresentNodes(edges) <==>
      exists i :: 0 <= i < |edges| && NodeOf(edges[i]) == Val(x) && x != JNull
  {
    if |edges| > 0 {
      PresentNodesMembers(edges[1..]);
      assert forall i :: 1 <= i < |edges| ==> edges[i] == edges[1..][i - 1];
    }
  }

  /** Where the handler as written succeeds, the corrected one agrees */
  lemma SkippingAgreesWhenNoneMissing(response: Json, toStr: Json -> string)
    requires Normalize(response, toStr).Ok?
    ensures NormalizeSkippingMissingNodes(response, toStr) == Normalize(response, toStr)
  {
    NormalizeRaisedIff(response, toStr);
    MeDecides(response, toStr);
    if MeOf(response).Some? {
      ReadMeAgrees(response);
      var shape := Classify(Selected(response));
      if shape.Connection? {
        assert forall i :: 0 <= i < |shape.edges| ==> HasNode(shape.edges[i]);
        PresentNodesOfFullEdges(shape.edges);
      }
    }
  }

  /** With every edge carrying a `node`, skipping missing nodes gives the
      unwrapped nodes with their nulls dropped */
  lemma {:induction false} PresentNodesOfFullEdges(edges: seq<Json>)
    requires forall i :: 0 <= i < |edges| ==> HasNode(edges[i])
    ensures EdgeNodes(edges).Some? && Lift(PresentNodes(edges)) == DropNulls(EdgeNodes(edges).value)
  {
    if |edges| > 0 {
      var tail := edges[1..];
      assert forall i :: 0 <= i < |tail| ==> HasNode(tail[i]);
      PresentNodesOfFullEdges(tail);
      var n := NodeOf(edges[0]);
      var rest := EdgeNodes(tail).value;
      EdgeNodesStep(edges);
      DropNullsStep(n, rest);
      if n != Val(JNull) {
        LiftStep(n.j, PresentNodes(tail));
      }
    }
  }

  /** Unwrapping the edges reads the first one's `node`, then the rest */
  lemma EdgeNodesStep(edges: seq<Json>)
    requires |edges| > 0 && edges[0] != JNull && EdgeNodes(edges[1..]).Some?
    ensures EdgeNodes(edges) == Some([NodeOf(edges[0])] + EdgeNodes(edges[1..]).value)
  {
    assert Get(Val(edges[0]), "node") == Some(NodeOf(edges[0]));
  }

  /** Dropping nulls decides the first value, then filters the rest */
  lemma DropNullsStep(n: JsVal, rest: seq<JsVal>)
    ensures DropNulls([n] + rest) == (if n == Val(JNull) then [] else [n]) + DropNulls(rest)
  {
    assert ([n] + rest)[1..] == rest;
  }

  /** Lifting distributes over a leading element */
  lemma LiftStep(x: Json, xs: seq<Json>)
    ensures Lift([x] + xs) == [Val(x)] + Lift(xs)
  {
  }

  /** An edge with a cursor and no `node` */
  const CursorOnlyEdge := JObj([("cursor", JStr("a"))])

  /** A `me` record holding one connection with that edge */
  const TicketsMe := JObj([("__typename", JStr("User")), ("tickets", JObj([("edges", JArr([CursorOnlyEdge]))]))])

  /** The response `{data: {me: {__typename: "User", tickets: {edges: [{cursor: "a"}]}}}}` */
  const EdgeWithoutNode := JObj([("data", JObj([("me", TicketsMe)]))])

  /** That response selects a connection whose only edge has no `node` */
  lemma EdgeWithoutNodeShape()
    ensures ReadMe(EdgeWithoutNode) == Me(Val(TicketsMe))
    ensures IsConnection(Selected(EdgeWithoutNode), [CursorOnlyEdge])
    ensures !HasNode(CursorOnlyEdge)
  {
    assert Keys(EdgeWithoutNode.fields) == ["data"];
    assert Keys(EdgeWithoutNode.fields[0].1.fields) == ["me"];
    assert MeOf(EdgeWithoutNode) == Some(TicketsMe);
    assert TicketsMe.fields[0].0 == TypenameKey && TicketsMe.fields[1].0 != TypenameKey;
    assert Keys(TicketsMe.fields[1].1.fields) == ["edges"];
    assert Keys(CursorOnlyEdge.fields) == ["cursor"];
    ReadMeAgrees(EdgeWithoutNode);
  }

  /** An edge without `node` crashes the handler as written */
  lemma MissingNodeCrashes(toStr: Json -> string)
    ensures Normalize(EdgeWithoutNode, toStr) == Raised
  {
    EdgeWithoutNodeShape();
    ConnectionWithBadEdgeRaises(EdgeWithoutNode, toStr, [CursorOnlyEdge], 0);
  }

  /** The corrected normaliser skips that edge and returns no items */
  lemma MissingNodeSkipped(toStr: Json -> string)
    ensures NormalizeSkippingMissingNodes(EdgeWithoutNode, toStr) == Ok([])
  {
    EdgeWithoutNodeShape();
    assert Classify(SelectData(Val(TicketsMe))) == Connection([CursorOnlyEdge]);
    CursorOnlyEdgeIsSkipped();
    NoPresentNodesGivesEmpty(EdgeWithoutNode, toStr, [CursorOnlyEdge]);
  }

  /** The cursor-only edge contributes no node */
  lemma CursorOnlyEdgeIsSkipped()
    ensures PresentNodes([CursorOnlyEdge]) == []
  {
    assert Keys(CursorOnlyEdge.fields) == ["cursor"];
    assert NodeOf(CursorOnlyEdge) == Undefined;
  }

  /** A selected connection none of whose edges has a present node gives no items */
  lemma NoPresentNodesGivesEmpty(response: Json, toStr: Json -> string, edges: seq<Json>)
    requires ReadMe(response).Me?
    requires Classify(SelectData(ReadMe(response).me)) == Connection(edges)
    requires PresentNodes(edges) == []
    ensures NormalizeSkippingMissingNodes(response, toStr) == Ok([])
  {
    assert Lift([]) == [];
  }
}
