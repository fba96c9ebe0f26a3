/**
 * The aux-node lifecycle as functions of the graph: creation when an edge is added,
 * repositioning when a node moves, removal when an edge is removed.
 */
module AuxNodes {
  import opened Wrappers
  import opened Ids
  import opened Geometry
  import opened Elements
  import opened Lookup

  // ---- creation (`createAuxNode`) ----

  /** What `createAuxNode` needs: a fresh edge of a well-formed graph between two nodes. */
  predicate CanCreateAuxNode(st: Store, e: string) {
    && Wellformed(st)
    && e != "" && e in st.elements && st.elements[e].Edge?
    && st.elements[e].auxNodeId.None?
    && st.elements[e].source in st.elements && st.elements[st.elements[e].source].Node?
    && st.elements[e].target in st.elements && st.elements[st.elements[e].target].Node?
  }

  /** The id `createAuxNode` gives the aux node of an edge added in state `st`. */
  function NewAuxId(st: Store): string {
    GenId(st.genCount)
  }

  /**
   * The graph after `createAuxNode(e)`: a new node at the mean of the endpoint positions,
   * carrying `edgeId` e and locked, and e's `auxNodeId` set to it.
   */
  function WithAuxNode(st: Store, e: string): (r: Store)
    requires CanCreateAuxNode(st, e)
    ensures r.elements.Keys == st.elements.Keys + {NewAuxId(st)}
    ensures forall k :: k in st.elements && k != e ==> r.elements[k] == st.elements[k]
  {
    var els := st.elements;
    var edge := els[e];
    var a := NewAuxId(st);
    NextIdIsFree(st);
    var node := Node(Mean(els[edge.source].pos, els[edge.target].pos), Some(e), false);
    Store(els[a := node.(locked := true)][e := edge.(auxNodeId := Some(a))], st.genCount + 1)
  }

  /**
   * After `createAuxNode(e)` the graph is still well formed; the new node sits at the mean of
   * e's endpoint positions, is locked, and the round trips `edge(auxNode(e)) == e` and
   * `auxNode(edge(a)) == a` hold.
   */
  lemma CreatedAuxNode(st: Store, e: string)
    requires CanCreateAuxNode(st, e)
    ensures var r := WithAuxNode(st, e);
            var a := NewAuxId(st);
            var edge := st.elements[e];
            && Wellformed(r)
            && a !in st.elements
            && r.elements[a] == Node(Mean(st.elements[edge.source].pos, st.elements[edge.target].pos), Some(e), true)
            && r.elements[e] == edge.(auxNodeId := Some(a))
            && AuxNode(r.elements, r.elements[e]) == Ok(Some(Handle(a, r.elements[a])))
            && EdgeOf(r.elements, r.elements[a]) == Ok(Some(Handle(e, r.elements[e])))
  {
    var r := WithAuxNode(st, e);
    var els, els' := st.elements, r.elements;
    var a := NewAuxId(st);
    NextIdIsFree(st);
    forall x | x in els' && els'[x].Edge? && els'[x].auxNodeId.Some?
      ensures AuxLinked(els', x, els'[x].auxNodeId.value)
    {
      if x != e {
        assert AuxLinked(els, x, els[x].auxNodeId.value);
        assert els[x].auxNodeId.value != a;
      }
    }
    forall x | x in els' && els'[x].Node? && els'[x].edgeId.Some?
      ensures EdgeLinked(els', x, els'[x].edgeId.value)
    {
      if x != a {
        assert EdgeLinked(els, x, els[x].edgeId.value);
        assert els[x].edgeId.value != e;
      }
    }
    assert IdsBelow(els', r.genCount) by {
      forall k | k in els' && IsGenerated(k) ensures GenNumber(k) < r.genCount {
        if k != a {
          assert k in els;
        }
      }
    }
    EdgeOfAuxNode(els', e);
  }

  // ---- repositioning (`repositionAuxNodes`) ----

  /** Edge `e` is one of `node`'s connected edges. */
  predicate IsConnected(els: map<string, Element>, node: string, e: string) {
    e in els && els[e].Edge? && (els[e].source == node || els[e].target == node)
  }

  function ConnectedEdges(els: map<string, Element>, node: string): set<string> {
    set e | e in els && IsConnected(els, node, e)
  }

  /** Element `k` is the aux node of an edge in `edges` whose midpoint is valid. */
  predicate Moves(els: map<string, Element>, edges: set<string>, midpoint: string -> RawPos, k: string) {
    k in els && els[k].Node? && els[k].edgeId.Some? && els[k].edgeId.value in edges &&
    IsValidPos(midpoint(els[k].edgeId.value))
  }

  /** Aux node `k` moved to its edge's midpoint and locked again. */
  function MovedAuxNode(els: map<string, Element>, midpoint: string -> RawPos, k: string): Element
    requires k in els && els[k].Node? && els[k].edgeId.Some?
    requires IsValidPos(midpoint(els[k].edgeId.value))
  {
    els[k].(pos := ToPoint(midpoint(els[k].edgeId.value)), locked := true)
  }

  /** The graph after the aux nodes of `edges` are moved to those edges' valid midpoints. */
  function MoveAuxNodes(els: map<string, Element>, edges: set<string>, midpoint: string -> RawPos): map<string, Element> {
    map k | k in els :: if Moves(els, edges, midpoint, k) then MovedAuxNode(els, midpoint, k) else els[k]
  }

  /** The graph after `repositionAuxNodes(node)`, where `midpoint` is the host's edge midpoint. */
  function Repositioned(els: map<string, Element>, node: string, midpoint: string -> RawPos): map<string, Element> {
    MoveAuxNodes(els, ConnectedEdges(els, node), midpoint)
  }

  /** Handling one more connected edge moves at most that edge's aux node. */
  lemma MoveAuxNodesOneMore(els: map<string, Element>, done: set<string>, e: string, midpoint: string -> RawPos)
    requires Consistent(els) && e in els && els[e].Edge? && e !in done
    ensures els[e].auxNodeId.Some? ==> AuxLinked(els, e, els[e].auxNodeId.value)
    ensures var m := MoveAuxNodes(els, done, midpoint);
            var aux := els[e].auxNodeId;
            MoveAuxNodes(els, done + {e}, midpoint) ==
              if aux.Some? && IsValidPos(midpoint(e))
              then m[aux.value := MovedAuxNode(els, midpoint, aux.value)]
              else m
  {
    var aux := els[e].auxNodeId;
    if aux.Some? {
      assert AuxLinked(els, e, aux.value);
    }
  }

  /**
   * Repositioning changes only the positions of the aux nodes of `node`'s connected edges,
   * and only where the midpoint is valid, leaving those nodes locked; all other elements,
   * and every back-reference, stay as they were.
   */
  lemma RepositionedChangesOnlyConnectedAuxNodes(els: map<string, Element>, node: string, midpoint: string -> RawPos)
    requires Consistent(els)
    ensures var r := Repositioned(els, node, midpoint);
            && r.Keys == els.Keys
            && Consistent(r)
            && (forall k :: k in els && r[k] != els[k] ==>
                  els[k].Node? && els[k].edgeId.Some? &&
                  IsConnected(els, node, els[k].edgeId.value) &&
                  IsValidPos(midpoint(els[k].edgeId.value)) &&
                  r[k] == els[k].(pos := ToPoint(midpoint(els[k].edgeId.value)), locked := true))
            && (forall e :: IsConnected(els, node, e) && els[e].auxNodeId.Some? && !IsValidPos(midpoint(e)) ==>
                  r[els[e].auxNodeId.value] == els[els[e].auxNodeId.value])
            && (forall e :: IsConnected(els, node, e) && els[e].auxNodeId.Some? && IsValidPos(midpoint(e)) ==>
                  r[els[e].auxNodeId.value] ==
                    els[els[e].auxNodeId.value].(pos := ToPoint(midpoint(e)), locked := true))
  {
    var r := Repositioned(els, node, midpoint);
    forall e | e in r && r[e].Edge? && r[e].auxNodeId.Some?
      ensures AuxLinked(r, e, r[e].auxNodeId.value)
    {
      assert AuxLinked(els, e, els[e].auxNodeId.value);
    }
    forall a | a in r && r[a].Node? && r[a].edgeId.Some?
      ensures EdgeLinked(r, a, r[a].edgeId.value)
    {
      assert EdgeLinked(els, a, els[a].edgeId.value);
    }
    forall e | IsConnected(els, node, e) && els[e].auxNodeId.Some? && !IsValidPos(midpoint(e))
      ensures r[els[e].auxNodeId.value] == els[els[e].auxNodeId.value]
    {
      assert AuxLinked(els, e, els[e].auxNodeId.value);
    }
    forall e | IsConnected(els, node, e) && els[e].auxNodeId.Some? && IsValidPos(midpoint(e))
      ensures r[els[e].auxNodeId.value] == els[els[e].auxNodeId.value].(pos := ToPoint(midpoint(e)), locked := true)
    {
      assert AuxLinked(els, e, els[e].auxNodeId.value);
    }
  }

  /**
   * Repositioning twice with the same midpoints is the same as repositioning once: when no
   * connected edge's midpoint changed, a further repositioning changes nothing.
   */
  lemma RepositionedIdempotent(els: map<string, Element>, node: string, midpoint: string -> RawPos)
    ensures Repositioned(Repositioned(els, node, midpoint), node, midpoint) == Repositioned(els, node, midpoint)
  {
    var r := Repositioned(els, node, midpoint);
    assert ConnectedEdges(r, node) == ConnectedEdges(els, node) by {
      forall e | e in els ensures IsConnected(r, node, e) == IsConnected(els, node, e) {
        assert r[e].Edge? == els[e].Edge?;
        if els[e].Edge? {
          assert r[e] == els[e];
        }
      }
    }
    var rr := Repositioned(r, node, midpoint);
    assert rr.Keys == r.Keys;
    forall k | k in r ensures rr[k] == r[k] {
      assert r[k].Node? == els[k].Node?;
      if els[k].Node? {
        assert r[k].edgeId == els[k].edgeId;
      }
    }
  }

  // ---- removal (`removeAuxNode`) ----

  /** The outcome of `removeAuxNode` and the graph it leaves. */
  datatype Removal = Removal(outcome: Outcome<Error>, elements: map<string, Element>)

  /**
   * `removeAuxNode(x)`: removes the aux node `auxNode(x)` names, does nothing when there is
   * none, and throws what `auxNode` throws.
   */
  function RemoveAuxNodeOf(els: map<string, Element>, x: Element): (r: Removal)
    ensures r.outcome.Fail? <==> AuxNode(els, x).Err?
    ensures r.outcome.Fail? ==> r.outcome.error == AuxNode(els, x).error && r.elements == els
    ensures r.outcome.Pass? ==> x.Edge?
    ensures r.outcome.Pass? && !Truthy(x.auxNodeId) ==> r.elements == els
    ensures r.outcome.Pass? && Truthy(x.auxNodeId) ==>
              x.auxNodeId.value in els && r.elements == els - {x.auxNodeId.value}
  {
    match AuxNode(els, x)
    case Err(e) => Removal(Fail(e), els)
    case Ok(None) => Removal(Pass, els)
    case Ok(Some(h)) => Removal(Pass, els - {h.id})
  }

  /** The host removes edge `id`; its 'remove' event then runs `removeAuxNode` on it. */
  function RemoveEdge(els: map<string, Element>, id: string): Removal
    requires id in els && els[id].Edge?
  {
    RemoveAuxNodeOf(els - {id}, els[id])
  }

  /**
   * Removing an edge of a consistent graph succeeds, removes exactly the edge and its aux
   * node, leaves every other element as it was, and keeps the graph consistent; a later
   * `auxNode` on the removed edge's object throws a data inconsistency.
   */
  lemma RemoveEdgeKeepsConsistent(els: map<string, Element>, id: string)
    requires Consistent(els) && id in els && els[id].Edge?
    ensures var r := RemoveEdge(els, id);
            var gone := if els[id].auxNodeId.Some? then {id, els[id].auxNodeId.value} else {id};
            && r.outcome == Pass
            && r.elements == els - gone
            && Consistent(r.elements)
            && (els[id].auxNodeId.Some? ==>
                  AuxNode(r.elements, els[id]) == Err(AuxNodeMissing(els[id].auxNodeId.value)))
  {
    var r := RemoveEdge(els, id);
    if els[id].auxNodeId.Some? {
      var a := els[id].auxNodeId.value;
      assert AuxLinked(els, id, a);
      assert r.elements == els - {id, a};
    }
    var els' := r.elements;
    forall e | e in els' && els'[e].Edge? && els'[e].auxNodeId.Some?
      ensures AuxLinked(els', e, els'[e].auxNodeId.value)
    {
      assert AuxLinked(els, e, els[e].auxNodeId.value);
    }
    forall a | a in els' && els'[a].Node? && els'[a].edgeId.Some?
      ensures EdgeLinked(els', a, els'[a].edgeId.value)
    {
      assert EdgeLinked(els, a, els[a].edgeId.value);
    }
  }
}
