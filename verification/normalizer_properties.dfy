/** What the normaliser promises about the GraphQL response it is given,
    stated member by member over the response rather than through the
    JavaScript reads the handler performs. */
module NormalizerProperties {
  import opened Wrappers
  import opened JsonValue
  import opened JsRuntime
  import opened Normalizer

  /** The `me` record: present when the response is an object whose `data`
      member is an object with a truthy `me` member. */
  ghost function MeOf(response: Json): Option<Json> {
    if !response.JObj? then None
    else
      match Lookup(response.fields, "data")
      case Some(JObj(df)) =>
        (match Lookup(df, "me")
         case Some(me) => if Truthy(Val(me)) then Some(me) else None
         case None => None)
      case _ => None
  }

  /** The data value the handler selects from `me`, or `undefined` */
  ghost function Selected(response: Json): JsVal {
    match MeOf(response)
    case None => Undefined
    case Some(me) => SelectData(Val(me))
  }

  /** `v` is a connection: an object whose `edges` member is an array */
  ghost predicate IsConnection(v: JsVal, edges: seq<Json>) {
    v.Val? && v.j.JObj? && Lookup(v.j.fields, "edges") == Some(JArr(edges))
  }

  /** An edge that is an object with a `node` member */
  ghost predicate HasNode(edge: Json) {
    edge.JObj? && "node" in Keys(edge.fields)
  }

  /** The `node` members of edges that all have one */
  ghost function Nodes(edges: seq<Json>): (ns: seq<Json>)
    requires forall i :: 0 <= i < |edges| ==> HasNode(edges[i])
    ensures |ns| == |edges|
  {
    seq(|edges|, i requires 0 <= i < |edges| && HasNode(edges[i]) => Lookup(edges[i].fields, "node").value)
  }

  /** The normaliser's outcome follows from `me` alone; with no `me` (no
      `data`, or a falsy one, or a falsy `me`) the result is empty. */
  lemma MeDecides(response: Json, toStr: Json -> string)
    requires response != JNull
    ensures MeOf(response).None? ==> Normalize(response, toStr) == Ok([])
    ensures MeOf(response).Some? ==>
      Normalize(response, toStr) == Extract(Classify(Selected(response)), toStr)
  {
    ReadMeAgrees(response);
  }

  /** The handler's reads of `data` and `me` find the member-wise `me` */
  lemma ReadMeAgrees(response: Json)
    requires response != JNull
    ensures MeOf(response).None? <==> ReadMe(response) == NoMe
    ensures MeOf(response).Some? ==> ReadMe(response) == Me(Val(MeOf(response).value))
  {
    var d := Get(Val(response), "data").value;
    if response.JObj? && Truthy(d) {
      var me := Get(d, "me").value;
      assert d.Val?;
      if d.j.JObj? {
        assert me == (match Lookup(d.j.fields, "me") case Some(x) => Val(x) case None => Undefined);
      }
    }
  }

  /** A response without a truthy `data.me` yields no items */
  lemma NoMeGivesEmpty(response: Json, toStr: Json -> string)
    requires response != JNull && MeOf(response).None?
    ensures Normalize(response, toStr) == Ok([])
  {
    MeDecides(response, toStr);
  }

  /** A connection whose edges all carry a `node` yields one item per
      non-null node, in edge order. */
  lemma ConnectionGivesNodeItems(response: Json, toStr: Json -> string, edges: seq<Json>)
    requires IsConnection(Selected(response), edges)
    requires forall i :: 0 <= i < |edges| ==> HasNode(edges[i])
    ensures Normalize(response, toStr).Ok?
    ensures var kept := DropNulls(Lift(Nodes(edges)));
      var items := Normalize(response, toStr).items;
      |items| == |kept| <= |edges| &&
      forall k :: 0 <= k < |kept| ==> ToItem(kept[k], toStr) == Some(items[k])
  {
    MeDecides(response, toStr);
    assert Classify(Selected(response)) == Connection(edges);
    EdgesWithNodes(edges);
    DroppedJsonIsReadable(Nodes(edges));
  }

  /** Edges that all carry a `node` unwrap to exactly those nodes */
  lemma EdgesWithNodes(edges: seq<Json>)
    requires forall i :: 0 <= i < |edges| ==> HasNode(edges[i])
    ensures EdgeNodes(edges) == Some(Lift(Nodes(edges)))
  {
    var ns := EdgeNodes(edges);
    assert ns.Some?;
    var want := Lift(Nodes(edges));
    forall i | 0 <= i < |edges|
      ensures ns.value[i] == want[i]
    {
      assert ns.value[i] == NodeOf(edges[i]);
    }
    assert ns.value == want;
  }

  /** Lifted JSON with its nulls dropped can be read everywhere */
  lemma DroppedJsonIsReadable(xs: seq<Json>)
    ensures forall k :: 0 <= k < |DropNulls(Lift(xs))| ==> Readable(DropNulls(Lift(xs))[k])
  {
    var kept := DropNulls(Lift(xs));
    forall k | 0 <= k < |kept|
      ensures Readable(kept[k])
    {
      assert kept[k] in Lift(xs);
    }
  }

  /** A connection with an edge that is not an object holding a `node`
      (a null edge, or one without `node`) makes the handler throw. */
  lemma ConnectionWithBadEdgeRaises(response: Json, toStr: Json -> string, edges: seq<Json>, i: nat)
    requires IsConnection(Selected(response), edges)
    requires i < |edges| && !HasNode(edges[i])
    ensures Normalize(response, toStr) == Raised
  {
    MeDecides(response, toStr);
    assert Classify(Selected(response)) == Connection(edges);
    var ns := EdgeNodes(edges);
    if ns.Some? {
      assert ns.value[i] == Undefined;
      var kept := DropNulls(ns.value);
      DropNullsMembers(ns.value);
      assert Undefined in kept;
      var j :| 0 <= j < |kept| && kept[j] == Undefined;
      assert MapItems(kept, toStr).None?;
    }
  }

  /** A plain list yields one item per non-null element, in order */
  lemma ListGivesElementItems(response: Json, toStr: Json -> string, elems: seq<Json>)
    requires Selected(response) == Val(JArr(elems))
    ensures Normalize(response, toStr).Ok?
    ensures var kept := DropNulls(Lift(elems));
      var items := Normalize(response, toStr).items;
      |items| == |kept| <= |elems| &&
      forall k :: 0 <= k < |kept| ==> ToItem(kept[k], toStr) == Some(items[k])
  {
    MeDecides(response, toStr);
    ListNeverRaises(elems, toStr);
  }

  /** The elements of a plain list can all be read once nulls are dropped */
  lemma ListNeverRaises(elems: seq<Json>, toStr: Json -> string)
    ensures Extract(List(elems), toStr).Ok?
  {
    DroppedJsonIsReadable(elems);
  }

  /** Any other selected value (a scalar, an object without an array
      `edges`, or nothing at all) yields no items. */
  lemma OtherValuesGiveEmpty(response: Json, toStr: Json -> string)
    requires response != JNull
    requires var v := Selected(response);
      !(v.Val? && v.j.JArr?) &&
      !(v.Val? && v.j.JObj? && Lookup(v.j.fields, "edges").Some? && Lookup(v.j.fields, "edges").value.JArr?)
    ensures Normalize(response, toStr) == Ok([])
  {
    MeDecides(response, toStr);
  }

  /** A `me` whose every member is `__typename` has no data field and
      yields no items */
  lemma OnlyTypenameGivesEmpty(response: Json, toStr: Json -> string)
    requires MeOf(response).Some? && MeOf(response).value.JObj?
    requires forall i :: 0 <= i < |MeOf(response).value.fields| ==> MeOf(response).value.fields[i].0 == TypenameKey
    ensures Normalize(response, toStr) == Ok([])
  {
    assert Selected(response) == Undefined;
    OtherValuesGiveEmpty(response, toStr);
  }

  /** The selected value is a connection with an edge lacking a `node` */
  ghost predicate HasBrokenConnection(response: Json) {
    var v := Selected(response);
    && v.Val? && v.j.JObj?
    && Lookup(v.j.fields, "edges").Some? && Lookup(v.j.fields, "edges").value.JArr?
    && exists i :: 0 <= i < |Lookup(v.j.fields, "edges").value.elems| &&
         !HasNode(Lookup(v.j.fields, "edges").value.elems[i])
  }

  /** Exactly which responses make the normaliser throw: a null response,
      or a selected connection with an edge that has no `node`. */
  lemma NormalizeRaisedIff(response: Json, toStr: Json -> string)
    ensures Normalize(response, toStr).Raised? <==> response == JNull || HasBrokenConnection(response)
  {
    if response != JNull {
      var v := Selected(response);
      if v.Val? && v.j.JArr? {
        ListGivesElementItems(response, toStr, v.j.elems);
      } else if v.Val? && v.j.JObj? && Lookup(v.j.fields, "edges").Some? && Lookup(v.j.fields, "edges").value.JArr? {
        var edges := Lookup(v.j.fields, "edges").value.elems;
        if i :| 0 <= i < |edges| && !HasNode(edges[i]) {
          ConnectionWithBadEdgeRaises(response, toStr, edges, i);
        } else {
          ConnectionGivesNodeItems(response, toStr, edges);
        }
      } else {
        OtherValuesGiveEmpty(response, toStr);
      }
    }
  }

  /** Dropping nulls keeps every non-null element with its multiplicity
      and removes every `null` */
  lemma {:induction false} DropNullsCounts(xs: seq<JsVal>)
    ensures multiset(DropNulls(xs)) == multiset(xs)[Val(JNull) := 0]
  {
    if |xs| > 0 {
      DropNullsCounts(xs[1..]);
      assert xs == [xs[0]] + xs[1..];
    }
  }

  /** Dropping nulls removes exactly the nulls: any other element stays */
  lemma DropNullsMembers(xs: seq<JsVal>)
    ensures forall x :: x in DropNulls(xs) <==> x in xs && x != Val(JNull)
  {
    DropNullsCounts(xs);
    forall x
      ensures x in DropNulls(xs) <==> x in xs && x != Val(JNull)
    {
      assert x in DropNulls(xs) <==> x in multiset(DropNulls(xs));
      assert x in xs <==> x in multiset(xs);
    }
  }

  /** Dropping nulls distributes over concatenation, so order is kept */
  lemma {:induction false} DropNullsAppend(a: seq<JsVal>, b: seq<JsVal>)
    ensures DropNulls(a + b) == DropNulls(a) + DropNulls(b)
  {
    if |a| == 0 {
      assert a + b == b;
    } else {
      assert (a + b)[1..] == a[1..] + b;
      DropNullsAppend(a[1..], b);
    }
  }

  /** A list without nulls passes through unchanged */
  lemma {:induction false} DropNullsKeepsNonNull(xs: seq<JsVal>)
    requires forall i :: 0 <= i < |xs| ==> xs[i] != Val(JNull)
    ensures DropNulls(xs) == xs
  {
    if |xs| > 0 {
      DropNullsKeepsNonNull(xs[1..]);
    }
  }

  /** Dropping nulls twice is dropping them once */
  lemma DropNullsIdempotent(xs: seq<JsVal>)
    ensures DropNulls(DropNulls(xs)) == DropNulls(xs)
  {
    DropNullsKeepsNonNull(DropNulls(xs));
  }

  /** `title` beats `ticketNumber`: with a falsy `name` and a truthy
      `title`, the name is the title. */
  lemma TitleBeatsTicketNumber(item: JsVal, toStr: Json -> string)
    requires Readable(item)
    requires !Truthy(Get(item, "name").value) && Truthy(Get(item, "title").value)
    ensures NameOf(item, toStr) == Stringify(Get(item, "title").value, toStr)
  {
    assert NameFields[0] == "name" && NameFields[1] == "title";
  }

  /** When every name candidate is a string or falsy, the name is never
      empty: an empty string is falsy and the fallback is "N/A". */
  lemma StringNameIsNonEmpty(item: JsVal, toStr: Json -> string)
    requires Readable(item)
    requires forall i :: 0 <= i < |NameFields| ==>
      var c := Get(item, NameFields[i]).value;
      !Truthy(c) || (c.Val? && c.j.JStr?)
    ensures NameOf(item, toStr) != ""
  {
    if i :| 0 <= i < |NameFields| && Truthy(Get(item, NameFields[i]).value) {
      var m :| 0 <= m < |NameFields| && Truthy(Get(item, NameFields[m]).value) &&
        forall k :: 0 <= k < m ==> !Truthy(Get(item, NameFields[k]).value) by {
        if Truthy(Get(item, NameFields[0]).value) {
        } else if Truthy(Get(item, NameFields[1]).value) {
        } else if Truthy(Get(item, NameFields[2]).value) {
        } else {
          assert Truthy(Get(item, NameFields[3]).value);
        }
      }
      var c := Get(item, NameFields[m]).value;
      assert NameOf(item, toStr) == Stringify(c, toStr);
      assert c.Val? && c.j.JStr? && c.j.s != "";
    } else {
      assert NameOf(item, toStr) == NameSentinel;
    }
  }

  /** A falsy `description` or `link` (the empty string among them) is null */
  lemma EmptyStringFieldIsNull(item: JsVal, key: string, toStr: Json -> string)
    requires Readable(item)
    requires Get(item, key) == Some(Val(JStr("")))
    ensures FieldText(item, key, toStr).None?
  {
  }

  /** The member names an output item is built from */
  const OutputSources: seq<string> := NameFields + ["description", "link"]

  /** Nothing but the six source fields reaches the output item */
  lemma ItemReadsOnlyItsFields(a: JsVal, b: JsVal, toStr: Json -> string)
    requires Readable(a) && Readable(b)
    requires forall i :: 0 <= i < |OutputSources| ==> Get(a, OutputSources[i]) == Get(b, OutputSources[i])
    ensures ToItem(a, toStr) == ToItem(b, toStr)
  {
    assert forall i :: 0 <= i < |NameFields| ==> NameFields[i] == OutputSources[i];
    assert NameCandidates(a) == NameCandidates(b);
    assert OutputSources[4] == "description" && OutputSources[5] == "link";
  }

  /** A bare string item has no name fields, so its name is "N/A"; its
      `link` is the built-in `String.prototype.link` method, which is
      truthy and prints as native code. */
  lemma StringItemShape(s: string, toStr: Json -> string)
    ensures ToItem(Val(JStr(s)), toStr) == Some(Item(NameSentinel, None, Some(NativeSource("link"))))
  {
    var item := Val(JStr(s));
    forall i | 0 <= i < |NameFields|
      ensures !Truthy(Get(item, NameFields[i]).value)
    {
      assert NameFields[i] != "link";
    }
  }
}
