/**
 * The abstract graph the plugin works on: elements keyed by id, each a node or an edge,
 * and the invariants that tie edges to their aux nodes.
 */
module Elements {
  import opened Wrappers
  import opened Ids
  import opened Geometry

  /**
   * A graph element with the data the plugin reads and writes: a node's position, lock
   * state and `edgeId` (set on aux nodes only); an edge's endpoint ids and `auxNodeId`.
   */
  datatype Element =
    | Node(pos: Point, edgeId: Option<string>, locked: bool)
    | Edge(source: string, target: string, auxNodeId: Option<string>)

  /** An element object as the host hands it out: its id and the data it carries. */
  datatype Handle = Handle(id: string, element: Element)

  /** The errors the source throws. */
  datatype Error =
    | NotAnEdge                        // auxNode() called on something that is not an edge
    | NotANode                         // edgeId() called on something that is not a node
    | NotAnAuxNode                     // edge() called on a node without an edge id
    | AuxNodeMissing(auxNodeId: string) // data inconsistency: the edge's aux node is not in the graph
    | NoAuxNodeId                      // an edge used as endpoint carries no "auxNodeId" data
    | TooManyPasses(limit: nat)        // addEdges reached its pass limit

  /** The shared graph: its elements and the counter the host draws fresh ids from. */
  datatype Store = Store(elements: map<string, Element>, genCount: nat)

  /** JavaScript truthiness of an optional id: present and not the empty string. */
  predicate Truthy(o: Option<string>) {
    o.Some? && o.value != ""
  }

  /** Edge `e` points at aux node `a`, which points back at `e` and is locked. */
  predicate AuxLinked(els: map<string, Element>, e: string, a: string) {
    a != "" && a in els && els[a].Node? && els[a].edgeId == Some(e) && els[a].locked
  }

  /** Aux node `a` points at edge `e`, which is present and points back at `a`. */
  predicate EdgeLinked(els: map<string, Element>, a: string, e: string) {
    e != "" && e in els && els[e].Edge? && els[e].auxNodeId == Some(a)
  }

  /**
   * The back-references agree both ways: every edge's `auxNodeId` names a locked node whose
   * `edgeId` is that edge, and every node's `edgeId` names a live edge whose `auxNodeId` is
   * that node.
   */
  predicate Consistent(els: map<string, Element>) {
    && (forall e :: e in els && els[e].Edge? && els[e].auxNodeId.Some? ==>
          AuxLinked(els, e, els[e].auxNodeId.value))
    && (forall a :: a in els && els[a].Node? && els[a].edgeId.Some? ==>
          EdgeLinked(els, a, els[a].edgeId.value))
  }

  /** Every generated id in the graph was drawn before counter value `n`. */
  predicate IdsBelow(els: map<string, Element>, n: nat) {
    forall k :: k in els && IsGenerated(k) ==> GenNumber(k) < n
  }

  predicate Wellformed(st: Store) {
    Consistent(st.elements) && IdsBelow(st.elements, st.genCount)
  }

  /** The next id the host generates is not taken. */
  lemma NextIdIsFree(st: Store)
    requires IdsBelow(st.elements, st.genCount)
    ensures GenId(st.genCount) !in st.elements
  {
  }

  /** An aux node's edge has no other aux node: the edge-to-aux-node mapping is one-to-one. */
  lemma AuxNodeUnique(els: map<string, Element>, a1: string, a2: string)
    requires Consistent(els)
    requires a1 in els && els[a1].Node? && els[a1].edgeId.Some?
    requires a2 in els && els[a2].Node? && els[a2].edgeId == els[a1].edgeId
    ensures a1 == a2
  {
    assert EdgeLinked(els, a1, els[a1].edgeId.value);
    assert EdgeLinked(els, a2, els[a2].edgeId.value);
  }
}
