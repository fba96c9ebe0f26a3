/**
 * The plugin instance over a live graph: the graph whose elements the host and the plugin
 * update in place, the edge descriptors `addEdge`/`addEdges` rewrite in place, and the
 * event handlers that keep aux nodes in step with their edges. Each method is proved
 * against the functions of `Resolver` and `AuxNodes`.
 */
module EdgeConnections {
  import opened Wrappers
  import opened Ids
  import opened Geometry
  import opened Elements
  import opened Lookup
  import opened AuxNodes
  import opened Resolver

  /** The pass limit of `addEdges` when the configuration sets none. */
  const DefaultMaxPasses: nat := 10

  /** An edge description handed to `addEdge`/`addEdges`; `resolve` rewrites its ends. */
  class EdgeDescriptor {
    const id: Option<string>
    var source: EndpointRef
    var target: EndpointRef

    constructor (id: Option<string>, source: EndpointRef, target: EndpointRef)
      ensures Value() == Desc(id, source, target)
    {
      this.id := id;
      this.source := source;
      this.target := target;
    }

    /** The descriptor's current value. */
    function Value(): Desc
      reads this
    {
      Desc(id, source, target)
    }
  }

  /** The current values of a list of descriptors. */
  function Values(ds: seq<EdgeDescriptor>): (vs: seq<Desc>)
    reads set d | d in ds
    ensures |vs| == |ds| && forall i :: 0 <= i < |ds| ==> vs[i] == ds[i].Value()
  {
    if ds == [] then [] else [ds[0].Value()] + Values(ds[1..])
  }

  /** No descriptor object occurs twice in the list. */
  predicate Distinct(ds: seq<EdgeDescriptor>) {
    forall i, j :: 0 <= i < j < |ds| ==> ds[i] != ds[j]
  }

  /**
   * The descriptors of a pass after `i` of them: the handled ones hold values `hv`, those
   * not yet handled still hold their values from `vals0`, and `kept` holds (distinct, in
   * order) the ones not added, with values `kv`.
   */
  ghost predicate Filtering(edges: seq<EdgeDescriptor>, vals0: seq<Desc>, i: int,
                            kept: seq<EdgeDescriptor>, kv: seq<Desc>, hv: seq<Desc>)
    reads set x | x in edges, set x | x in kept
  {
    && 0 <= i <= |edges| == |vals0| && |hv| == i
    && Distinct(edges)
    && (forall j :: 0 <= j < i ==> edges[j].Value() == hv[j])
    && (forall j :: i <= j < |edges| ==> edges[j].Value() == vals0[j])
    && Distinct(kept) && (forall x :: x in kept ==> x in edges[..i])
    && |kv| == |kept| && (forall k :: 0 <= k < |kept| ==> kept[k].Value() == kv[k])
  }

  /**
   * `Filtering` moves past descriptor `i` once every other descriptor still holds its
   * value and the kept ones still hold theirs; `edges[i]` joins `kept` when `keep` holds.
   */
  lemma FilteringAdvance(edges: seq<EdgeDescriptor>, vals0: seq<Desc>, i: int,
                         kept: seq<EdgeDescriptor>, kv: seq<Desc>, hv: seq<Desc>, keep: bool)
    requires 0 <= i < |edges| == |vals0| && |hv| == i && Distinct(edges)
    requires Distinct(kept) && (forall x :: x in kept ==> x in edges[..i]) && |kv| == |kept|
    requires forall j :: 0 <= j < i ==> edges[j].Value() == hv[j]
    requires forall j :: i < j < |edges| ==> edges[j].Value() == vals0[j]
    requires forall k :: 0 <= k < |kept| ==> kept[k].Value() == kv[k]
    ensures Filtering(edges, vals0, i + 1, if keep then kept + [edges[i]] else kept,
                      if keep then kv + [edges[i].Value()] else kv, hv + [edges[i].Value()])
  {
    assert edges[i] !in kept by {
      assert forall j :: 0 <= j < i ==> edges[j] != edges[i];
    }
  }

  /** A list whose first descriptors hold `front` and whose others hold `back` has values `front + back`. */
  lemma ValuesSplit(ds: seq<EdgeDescriptor>, front: seq<Desc>, back: seq<Desc>)
    requires |ds| == |front| + |back|
    requires forall j :: 0 <= j < |front| ==> ds[j].Value() == front[j]
    requires forall j :: |front| <= j < |ds| ==> ds[j].Value() == back[j - |front|]
    ensures Values(ds) == front + back
  {
  }

  /** The graph the plugin instance is attached to, with its `addEdges` pass limit. */
  class Graph {
    var elements: map<string, Element>
    var genCount: nat
    var maxPasses: nat

    function Snapshot(): Store
      reads this
    {
      Store(elements, genCount)
    }

    ghost predicate Valid()
      reads this
    {
      Wellformed(Snapshot()) && 0 < maxPasses
    }

    /**
     * `edgeConnections(config)` on an empty graph: a configured pass limit replaces the
     * default; 0, like an absent setting, keeps it.
     */
    constructor (maxPassesConfig: nat)
      ensures Valid() && elements == map[] && genCount == 0
      ensures maxPasses == if maxPassesConfig != 0 then maxPassesConfig else DefaultMaxPasses
    {
      elements := map[];
      genCount := 0;
      maxPasses := if maxPassesConfig != 0 then maxPassesConfig else DefaultMaxPasses;
    }

    // ---- host operations ----

    /** The host adds a plain node under a fresh user id. */
    method AddNode(id: string, pos: Point)
      requires Valid() && IsUserId(id) && id !in elements
      modifies this
      ensures Valid() && maxPasses == old(maxPasses) && genCount == old(genCount)
      ensures elements == old(elements)[id := Node(pos, None, false)]
    {
      elements := elements[id := Node(pos, None, false)];
    }

    /**
     * The host moves node `id` (a locked node does not move); its 'position' event then
     * repositions the aux nodes of its edges to their `midpoint`s.
     */
    method MoveNode(id: string, p: Point, midpoint: string -> RawPos)
      requires Valid() && id in elements && elements[id].Node?
      modifies this
      ensures Valid() && maxPasses == old(maxPasses) && genCount == old(genCount)
      ensures old(elements[id].locked) ==> elements == old(elements)
      ensures !old(elements[id].locked) ==>
                elements == Repositioned(old(elements)[id := old(elements[id]).(pos := p)], id, midpoint)
    {
      if !elements[id].locked {
        elements := elements[id := elements[id].(pos := p)];
        RepositionedChangesOnlyConnectedAuxNodes(elements, id, midpoint);
        RepositionAuxNodes(id, midpoint);
      }
    }

    /** The host removes edge `id`; its 'remove' event then removes the edge's aux node. */
    method RemoveEdge(id: string) returns (r: Outcome<Error>)
      requires Valid() && id in elements && elements[id].Edge?
      modifies this
      ensures Valid() && maxPasses == old(maxPasses) && genCount == old(genCount)
      ensures var rem := AuxNodes.RemoveEdge(old(elements), id);
              r == rem.outcome && elements == rem.elements
    {
      AuxNodes.RemoveEdgeKeepsConsistent(elements, id);
      var x := elements[id];
      elements := elements - {id};
      r := RemoveAuxNode(x);
    }

    /** `cy.add(edge)`: inserts the edge under its own id or a generated one. */
    method AddEdgeElement(d: EdgeDescriptor) returns (e: string)
      modifies this
      ensures e == NewEdgeId(old(Snapshot()), d.Value())
      ensures Snapshot() == AddToGraph(old(Snapshot()), d.Value()) && maxPasses == old(maxPasses)
    {
      if d.id.Some? {
        e := d.id.value;
      } else {
        e := GenId(genCount);
        genCount := genCount + 1;
      }
      elements := elements[e := Edge(d.source.Key(), d.target.Key(), None)];
    }

    // ---- the plugin ----

    /**
     * `resolve(edge, end)`: false when the end names no element; when it names an edge, the
     * end is rewritten to that edge's aux node id, and throws when the edge has none.
     */
    method Resolve(d: EdgeDescriptor, end: End) returns (r: Result<bool, Error>)
      modifies d
      ensures var res := ResolveRef(elements, old(d.Value()).Get(end));
              && r == (if res.Err? then Err(res.error) else Ok(res.value.Resolved?))
              && d.Value() == if r == Ok(true) then old(d.Value()).Set(end, res.value.ref) else old(d.Value())
    {
      var ref := if end == Source then d.source else d.target;
      var key := ref.Key();
      if key !in elements {
        return Ok(false);
      }
      var ele := elements[key];
      if ele.Edge? {
        var a := AuxNodeId(ele);
        if a.Err? {
          return Err(a.error);
        }
        if end == Source {
          d.source := IdString(a.value);
        } else {
          d.target := IdString(a.value);
        }
      }
      r := Ok(true);
    }

    /**
     * `createAuxNode(edge)`: adds a node at the mean of the endpoint positions carrying the
     * edge's id, locks it, and records its id on the edge.
     */
    method CreateAuxNode(e: string)
      requires CanCreateAuxNode(Snapshot(), e)
      modifies this
      ensures Snapshot() == WithAuxNode(old(Snapshot()), e) && maxPasses == old(maxPasses)
    {
      var edge := elements[e];
      var p1 := elements[edge.source].pos;
      var p2 := elements[edge.target].pos;
      var a := GenId(genCount);
      genCount := genCount + 1;
      elements := elements[a := Node(Mean(p1, p2), Some(e), false)];
      elements := elements[a := elements[a].(locked := true)];
      elements := elements[e := edge.(auxNodeId := Some(a))];
    }

    /**
     * `_addEdge(edge)`: resolves the source, then the target, and only when both resolve adds
     * the edge and creates its aux node; follows `AddEdgeStep` on the descriptor's value.
     */
    method TryAddEdge(d: EdgeDescriptor) returns (r: Result<bool, Error>)
      requires Valid() && DescFresh(Snapshot(), d.Value())
      modifies this, d
      ensures Valid() && maxPasses == old(maxPasses)
      ensures var s := AddEdgeStep(old(Snapshot()), old(d.Value()));
              r == s.result && Snapshot() == s.store && d.Value() == s.desc
    {
      ghost var st, d0 := Snapshot(), d.Value();
      AddEdgeStepFacts(st, d0);
      ghost var res0 := ResolveRef(st.elements, d0.source);
      r := Resolve(d, Source);
      if r != Ok(true) {
        assert res0 == if r.Err? then Err(r.error) else Ok(Unresolved);
        assert AddEdgeStep(st, d0) == Step(r, st, d0);
        return;
      }
      ghost var d1 := d.Value();
      assert res0 == Ok(Resolved(d1.source)) && d1 == d0.(source := d1.source);
      ghost var res1 := ResolveRef(st.elements, d1.target);
      r := Resolve(d, Target);
      if r != Ok(true) {
        assert res1 == if r.Err? then Err(r.error) else Ok(Unresolved);
        assert AddEdgeStep(st, d0) == Step(r, st, d1);
        return;
      }
      ResolvedNamesNode(st.elements, d0.source);
      ResolvedNamesNode(st.elements, d0.target);
      AddToGraphCanCreateAuxNode(st, d.Value());
      var e := AddEdgeElement(d);
      CreateAuxNode(e);
      r := Ok(true);
    }

    /** `addEdge(edge)`: one `_addEdge`; `warned` when the edge could not be added. */
    method AddEdge(d: EdgeDescriptor) returns (r: Outcome<Error>, warned: bool)
      requires Valid() && DescFresh(Snapshot(), d.Value())
      modifies this, d
      ensures Valid() && maxPasses == old(maxPasses)
      ensures var s := AddEdgeStep(old(Snapshot()), old(d.Value()));
              && Snapshot() == s.store && d.Value() == s.desc
              && r == (if s.result.Err? then Fail(s.result.error) else Pass)
              && (warned <==> s.result == Ok(false))
              && (warned ==> Snapshot() == old(Snapshot()))
    {
      var added := TryAddEdge(d);
      r := if added.Err? then Fail(added.error) else Pass;
      warned := added == Ok(false);
    }

    /**
     * The filter callback on descriptor `i`: `_addEdge`, which rewrites that descriptor and
     * no other; the descriptor joins `kept` exactly when `_addEdge` returns false.
     */
    method HandleDescriptor(edges: seq<EdgeDescriptor>, ghost vals0: seq<Desc>, i: nat,
                      kept: seq<EdgeDescriptor>, ghost kv: seq<Desc>, ghost hv: seq<Desc>)
      returns (added: Result<bool, Error>, kept': seq<EdgeDescriptor>, ghost kv': seq<Desc>, ghost hv': seq<Desc>)
      requires Valid() && Filtering(edges, vals0, i, kept, kv, hv) && i < |edges|
      requires DescFresh(Snapshot(), edges[i].Value())
      modifies this, edges[i]
      ensures Valid() && maxPasses == old(maxPasses)
      ensures var s := AddEdgeStep(old(Snapshot()), old(edges[i].Value()));
              added == s.result && Snapshot() == s.store && edges[i].Value() == s.desc
      ensures kept' == if added == Ok(false) then kept + [edges[i]] else kept
      ensures kv' == kv + (if added == Ok(false) then [edges[i].Value()] else [])
      ensures hv' == hv + [edges[i].Value()]
      ensures Filtering(edges, vals0, i + 1, kept', kv', hv')
    {
      var d := edges[i];
      added := TryAddEdge(d);
      forall k | 0 <= k < |kept| ensures kept[k].Value() == kv[k] {
        assert kept[k] in edges[..i];
        assert kept[k] != d;
      }
      forall j | 0 <= j < i ensures edges[j].Value() == hv[j] {
        assert edges[j] != d;
      }
      forall j | i < j < |edges| ensures edges[j].Value() == vals0[j] {
        assert edges[j] != d;
      }
      FilteringAdvance(edges, vals0, i, kept, kv, hv, added == Ok(false));
      hv' := hv + [d.Value()];
      kept' := if added == Ok(false) then kept + [d] else kept;
      kv' := kv + (if added == Ok(false) then [d.Value()] else []);
    }

    /**
     * One step of the pass loop, stated against the pass: on an error the pass is over, with
     * `PassSpec`'s error and every descriptor holding the value `PassValues` gives; otherwise
     * the pass state moves past descriptor `i`.
     */
    method FilterStep(edges: seq<EdgeDescriptor>, ghost st0: Store, ghost vals0: seq<Desc>, i: nat,
                      kept: seq<EdgeDescriptor>, ghost kv: seq<Desc>, ghost hv: seq<Desc>)
      returns (added: Result<bool, Error>, kept': seq<EdgeDescriptor>, ghost kv': seq<Desc>, ghost hv': seq<Desc>)
      requires Valid() && Filtering(edges, vals0, i, kept, kv, hv) && i < |edges|
      requires PassState(st0, vals0, kv, hv, Snapshot(), i)
      modifies this, edges[i]
      ensures Valid() && maxPasses == old(maxPasses)
      ensures kept' == if added == Ok(false) then kept + [edges[i]] else kept
      ensures added.Err? ==>
                PassSpec(st0, vals0) == PassOutcome(Err(added.error), Snapshot()) &&
                Values(edges) == PassValues(st0, vals0)
      ensures added.Ok? ==>
                Filtering(edges, vals0, i + 1, kept', kv', hv') && PassState(st0, vals0, kv', hv', Snapshot(), i + 1)
    {
      assert edges[i].Value() == vals0[i];
      PassStateAdvance(st0, vals0, kv, hv, Snapshot(), i);
      added, kept', kv', hv' := HandleDescriptor(edges, vals0, i, kept, kv, hv);
      if added.Err? {
        ValuesSplit(edges, hv', vals0[i + 1..]);
      }
    }

    /**
     * One pass of `addEdges`: `_addEdge` on each descriptor in order, keeping those not added;
     * follows `PassSpec` on the descriptors' values, and leaves every descriptor with the
     * value `PassValues` gives.
     */
    method FilterPass(edges: seq<EdgeDescriptor>) returns (r: Result<seq<EdgeDescriptor>, Error>)
      requires Valid() && Distinct(edges) && FreshDescs(Snapshot(), Values(edges))
      modifies this, edges
      ensures Valid() && maxPasses == old(maxPasses)
      ensures var p := PassSpec(old(Snapshot()), old(Values(edges)));
              && Snapshot() == p.store
              && (r.Err? ==> p.result == Err(r.error))
              && (r.Ok? ==> p.result == Ok(Values(r.value)))
      ensures Values(edges) == PassValues(old(Snapshot()), old(Values(edges)))
      ensures r.Ok? ==> Distinct(r.value) && forall x :: x in r.value ==> x in edges
    {
      ghost var st0, vals0 := Snapshot(), Values(edges);
      var kept: seq<EdgeDescriptor> := [];
      ghost var kv: seq<Desc> := [];
      ghost var hv: seq<Desc> := [];
      var i := 0;
      PassStart(st0, vals0);
      ValuesStart(st0, vals0);
      while i < |edges|
        invariant Valid() && maxPasses == old(maxPasses)
        invariant Filtering(edges, vals0, i, kept, kv, hv)
        invariant PassState(st0, vals0, kv, hv, Snapshot(), i)
      {
        var added;
        added, kept, kv, hv := FilterStep(edges, st0, vals0, i, kept, kv, hv);
        if added.Err? {
          return Err(added.error);
        }
        i := i + 1;
      }
      PassDone(st0, vals0, kv, Snapshot());
      ValuesDone(st0, vals0, hv, Snapshot());
      ValuesSplit(kept, kv, []);
      ValuesSplit(edges, hv, []);
      assert kv + [] == kv && hv + [] == hv;
      r := Ok(kept);
    }

    /**
     * `addEdges(edges)`: passes until no descriptor is left, throwing once the pass counter
     * reaches the limit; follows `BatchSpec`. `passes` is the counter when it returns or throws.
     */
    method AddEdges(descs: seq<EdgeDescriptor>) returns (r: Outcome<Error>, passes: nat)
      requires Valid() && Distinct(descs) && FreshDescs(Snapshot(), Values(descs))
      modifies this, descs
      ensures Valid() && maxPasses == old(maxPasses)
      ensures BatchSpec(old(Snapshot()), old(Values(descs)), 0, maxPasses) == BatchOutcome(r, Snapshot(), passes)
    {
      var edges := descs;
      passes := 0;
      ghost var st0, vals0 := Snapshot(), Values(descs);
      while true
        invariant Valid() && maxPasses == old(maxPasses)
        invariant Distinct(edges) && forall x :: x in edges ==> x in descs
        invariant BatchProgress(st0, vals0, maxPasses, Snapshot(), Values(edges), passes)
        decreases maxPasses - passes
      {
        BatchAdvance(st0, vals0, maxPasses, Snapshot(), Values(edges), passes);
        assert forall i :: 0 <= i < |edges| ==> edges[i] in descs;
        var p := FilterPass(edges);
        if p.Err? {
          return Fail(p.error), passes;
        }
        edges := p.value;
        passes := passes + 1;
        if passes == maxPasses {
          return Fail(TooManyPasses(maxPasses)), passes;
        }
        if edges == [] {
          return Pass, passes;
        }
      }
    }

    /**
     * `repositionAuxNodes(node)`: each aux node of an edge connected to `node` is unlocked,
     * moved to the edge's midpoint when that midpoint is valid, and locked again.
     */
    method RepositionAuxNodes(node: string, midpoint: string -> RawPos)
      requires Consistent(elements)
      modifies this
      ensures elements == Repositioned(old(elements), node, midpoint)
      ensures genCount == old(genCount) && maxPasses == old(maxPasses)
    {
      ghost var els0 := elements;
      var todo := ConnectedEdges(elements, node);
      ghost var done: set<string> := {};
      while todo != {}
        invariant todo + done == ConnectedEdges(els0, node) && todo !! done
        invariant elements == MoveAuxNodes(els0, done, midpoint)
        invariant genCount == old(genCount) && maxPasses == old(maxPasses)
        decreases |todo|
      {
        var e :| e in todo;
        MoveAuxNodeOf(e, midpoint, els0, done);
        todo := todo - {e};
        done := done + {e};
      }
    }

    /** One step of `repositionAuxNodes`: the aux node of connected edge `e`, if any, is moved. */
    method MoveAuxNodeOf(e: string, midpoint: string -> RawPos, ghost els0: map<string, Element>, ghost done: set<string>)
      requires Consistent(els0) && e in els0 && els0[e].Edge? && e !in done
      requires elements == MoveAuxNodes(els0, done, midpoint)
      modifies this
      ensures elements == MoveAuxNodes(els0, done + {e}, midpoint)
      ensures genCount == old(genCount) && maxPasses == old(maxPasses)
    {
      MoveAuxNodesOneMore(els0, done, e, midpoint);
      assert elements[e] == els0[e];
      var h := AuxNode(elements, elements[e]);
      if h.Ok? && h.value.Some? {
        var mp := midpoint(e);
        if IsValidPos(mp) {
          var a := h.value.value.id;
          assert elements[a] == els0[a];
          var aux := elements[a].(locked := false);
          aux := aux.(pos := ToPoint(mp));
          aux := aux.(locked := true);
          assert aux == MovedAuxNode(els0, midpoint, a);
          elements := elements[a := aux];
        }
      }
    }

    /** `removeAuxNode(edge)`: removes the edge's aux node, if it has one; follows `RemoveAuxNodeOf`. */
    method RemoveAuxNode(x: Element) returns (r: Outcome<Error>)
      modifies this
      ensures var rem := RemoveAuxNodeOf(old(elements), x);
              r == rem.outcome && elements == rem.elements
      ensures genCount == old(genCount) && maxPasses == old(maxPasses)
    {
      var h := AuxNode(elements, x);
      if h.Err? {
        return Fail(h.error);
      }
      if h.value.Some? {
        elements := elements - {h.value.value.id};
      }
      r := Pass;
    }
  }
}
