/**
 * The read-only lookups between edges and their aux nodes (`auxNode`, `_auxNodeId`,
 * `_auxNodeIdIfAvailable`, `isAuxNode`, `edge`, `edgeId`) and the aux-node color mapping.
 * Each takes the element object it is called on; a thrown error is an `Err` result.
 */
module Lookup {
  import opened Wrappers
  import opened Elements

  /** The "auxNodeId" data of an element; nodes carry none. */
  function AuxNodeIdIfAvailable(x: Element): (r: Option<string>)
    ensures r.Some? ==> x.Edge?
    ensures x.Edge? ==> r == x.auxNodeId
  {
    if x.Edge? then x.auxNodeId else None
  }

  /** The aux node id of an edge used as an endpoint; throws when the edge has none. */
  function AuxNodeId(x: Element): (r: Result<string, Error>)
    ensures r.Ok? <==> x.Edge? && Truthy(x.auxNodeId)
    ensures r.Ok? ==> r.value != "" && x.auxNodeId == Some(r.value)
    ensures r.Err? ==> r.error == NoAuxNodeId
  {
    var id := AuxNodeIdIfAvailable(x);
    if !Truthy(id) then Err(NoAuxNodeId) else Ok(id.value)
  }

  /**
   * The edge's aux node: none when the edge carries no aux node id; throws when called on
   * a non-edge, and throws a data inconsistency when the id names no element of the graph.
   */
  function AuxNode(els: map<string, Element>, x: Element): (r: Result<Option<Handle>, Error>)
    ensures r == Err(NotAnEdge) <==> !x.Edge?
    ensures r == Ok(None) <==> x.Edge? && !Truthy(x.auxNodeId)
    ensures r.Err? && r.error.AuxNodeMissing? <==>
              x.Edge? && Truthy(x.auxNodeId) && x.auxNodeId.value !in els
    ensures r.Ok? && r.value.Some? ==>
              var h := r.value.value;
              x.auxNodeId == Some(h.id) && h.id in els && els[h.id] == h.element
    ensures x.Edge? && Truthy(x.auxNodeId) && x.auxNodeId.value in els ==>
              r == Ok(Some(Handle(x.auxNodeId.value, els[x.auxNodeId.value])))
  {
    if !x.Edge? then Err(NotAnEdge)
    else
      var id := AuxNodeIdIfAvailable(x);
      if !Truthy(id) then Ok(None)
      else if id.value !in els then Err(AuxNodeMissing(id.value))
      else Ok(Some(Handle(id.value, els[id.value])))
  }

  /** The edge id an aux node carries; none for other nodes; throws on a non-node. */
  function EdgeId(x: Element): (r: Result<Option<string>, Error>)
    ensures r.Err? <==> !x.Node?
    ensures r.Err? ==> r.error == NotANode
    ensures r.Ok? ==> r.value == x.edgeId
  {
    if !x.Node? then Err(NotANode) else Ok(x.edgeId)
  }

  /** Whether a node is an aux node: its edge id is not `undefined`. */
  function IsAuxNode(x: Element): Result<bool, Error> {
    match EdgeId(x)
    case Err(e) => Err(e)
    case Ok(id) => Ok(id.Some?)
  }

  /**
   * The aux node's edge: none when that edge is no longer in the graph; throws when the
   * argument is not a node or carries no (truthy) edge id.
   */
  function EdgeOf(els: map<string, Element>, x: Element): (r: Result<Option<Handle>, Error>)
    ensures r.Err? <==> !x.Node? || !Truthy(x.edgeId)
    ensures r.Err? ==> r.error == if !x.Node? then NotANode else NotAnAuxNode
    ensures r.Ok? && r.value.Some? ==>
              var h := r.value.value;
              x.edgeId == Some(h.id) && h.id in els && els[h.id] == h.element
    ensures r == Ok(None) <==> x.Node? && Truthy(x.edgeId) && x.edgeId.value !in els
  {
    match EdgeId(x)
    case Err(e) => Err(e)
    case Ok(id) =>
      if !Truthy(id) then Err(NotAnAuxNode)
      else if id.value in els then Ok(Some(Handle(id.value, els[id.value])))
      else Ok(None)
  }

  /** The fallback color when an aux node's edge cannot be found. */
  const FallbackColor: string := "white"

  /**
   * The aux node's background color: its edge's line color (read through `lineColor`, the
   * host's style query), or white while the edge is already gone.
   */
  function ColorAuxNode(els: map<string, Element>, x: Element, lineColor: Handle -> string): Result<string, Error> {
    match EdgeOf(els, x)
    case Err(e) => Err(e)
    case Ok(None) => Ok(FallbackColor)
    case Ok(Some(h)) => Ok(lineColor(h))
  }

  /** `isAuxNode` holds exactly when `edgeId` returns an id, and throws exactly when it throws. */
  lemma IsAuxNodeMatchesEdgeId(x: Element)
    ensures IsAuxNode(x) == Ok(true) <==> EdgeId(x).Ok? && EdgeId(x).value.Some?
    ensures IsAuxNode(x).Err? <==> EdgeId(x).Err?
  {
  }

  /** In a consistent graph a node is an aux node exactly when some edge names it as its aux node. */
  lemma IsAuxNodeExactlyWhenNamed(els: map<string, Element>, a: string)
    requires Consistent(els) && a in els && els[a].Node?
    ensures IsAuxNode(els[a]) == Ok(true) <==> exists e :: e in els && els[e].Edge? && els[e].auxNodeId == Some(a)
  {
    if els[a].edgeId.Some? {
      assert EdgeLinked(els, a, els[a].edgeId.value);
    }
    if exists e :: e in els && els[e].Edge? && els[e].auxNodeId == Some(a) {
      var e :| e in els && els[e].Edge? && els[e].auxNodeId == Some(a);
      assert AuxLinked(els, e, a);
    }
  }

  /**
   * `isAuxNode` tests `!== undefined` while `edge` tests falsiness: a node whose edge id is
   * the empty string counts as an aux node, yet `edge` throws on it.
   */
  lemma EmptyEdgeIdIsAuxNodeWithoutEdge(els: map<string, Element>, x: Element)
    requires x.Node? && x.edgeId == Some("")
    ensures IsAuxNode(x) == Ok(true) && EdgeOf(els, x) == Err(NotAnAuxNode)
  {
  }

  /** In a consistent graph `auxNode` never throws on an edge of the graph. */
  lemma AuxNodeNeverFailsWhenConsistent(els: map<string, Element>, e: string)
    requires Consistent(els) && e in els && els[e].Edge?
    ensures AuxNode(els, els[e]).Ok?
    ensures AuxNode(els, els[e]) == Ok(None) <==> els[e].auxNodeId.None?
  {
    if els[e].auxNodeId.Some? {
      assert AuxLinked(els, e, els[e].auxNodeId.value);
    }
  }

  /** Round trip from an edge: `edge(auxNode(e)) == e`. */
  lemma EdgeOfAuxNode(els: map<string, Element>, e: string)
    requires Consistent(els) && e in els && els[e].Edge? && els[e].auxNodeId.Some?
    ensures var a := els[e].auxNodeId.value;
            AuxNode(els, els[e]) == Ok(Some(Handle(a, els[a]))) &&
            EdgeOf(els, els[a]) == Ok(Some(Handle(e, els[e])))
  {
    assert AuxLinked(els, e, els[e].auxNodeId.value);
  }

  /** Round trip from an aux node: `auxNode(edge(a)) == a`. */
  lemma AuxNodeOfEdge(els: map<string, Element>, a: string)
    requires Consistent(els) && a in els && els[a].Node? && els[a].edgeId.Some?
    ensures var e := els[a].edgeId.value;
            EdgeOf(els, els[a]) == Ok(Some(Handle(e, els[e]))) &&
            AuxNode(els, els[e]) == Ok(Some(Handle(a, els[a])))
  {
    assert EdgeLinked(els, a, els[a].edgeId.value);
  }

  /** Between an edge's removal and its aux node's removal the aux node is colored white. */
  lemma ColorWhileEdgeRemoved(els: map<string, Element>, e: string, lineColor: Handle -> string)
    requires Consistent(els) && e in els && els[e].Edge? && els[e].auxNodeId.Some?
    ensures var a := els[e].auxNodeId.value;
            a in els - {e} && ColorAuxNode(els - {e}, els[a], lineColor) == Ok(FallbackColor)
  {
    assert AuxLinked(els, e, els[e].auxNodeId.value);
  }

  /** While its edge is present an aux node mirrors the edge's line color. */
  lemma ColorMirrorsEdge(els: map<string, Element>, a: string, lineColor: Handle -> string)
    requires Consistent(els) && a in els && els[a].Node? && els[a].edgeId.Some?
    ensures var e := els[a].edgeId.value;
            ColorAuxNode(els, els[a], lineColor) == Ok(lineColor(Handle(e, els[e])))
  {
    assert EdgeLinked(els, a, els[a].edgeId.value);
  }
}
