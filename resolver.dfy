/**
 * Edge insertion as functions of the graph and of edge-descriptor values: endpoint
 * resolution (`resolve`), single insertion (`_addEdge`), one filter pass of `addEdges` and
 * the bounded pass loop around it.
 */
module Resolver {
  import opened Wrappers
  import opened Ids
  import opened Geometry
  import opened Elements
  import opened Lookup
  import opened AuxNodes

  datatype End = Source | Target

  /** The value of an edge descriptor: its optional id and its two endpoint references. */
  datatype Desc = Desc(id: Option<string>, source: EndpointRef, target: EndpointRef) {
    function Get(end: End): EndpointRef {
      match end
      case Source => source
      case Target => target
    }

    function Set(end: End, r: EndpointRef): Desc {
      match end
      case Source => this.(source := r)
      case Target => this.(target := r)
    }
  }

  /** An endpoint that names nothing, or the reference it resolves to. */
  datatype Resolution = Unresolved | Resolved(ref: EndpointRef)

  /**
   * `resolve` on one endpoint: unresolved when its key names no element; unchanged when it
   * names a node; the aux node id of the edge it names, which throws when that edge has none.
   */
  function ResolveRef(els: map<string, Element>, r: EndpointRef): (res: Result<Resolution, Error>)
    ensures res == Ok(Unresolved) <==> r.Key() !in els
    ensures r.Key() in els && els[r.Key()].Node? ==> res == Ok(Resolved(r))
    ensures r.Key() in els && els[r.Key()].Edge? ==>
              if Truthy(els[r.Key()].auxNodeId)
              then res == Ok(Resolved(IdString(els[r.Key()].auxNodeId.value)))
              else res == Err(NoAuxNodeId)
  {
    var key := r.Key();
    if key !in els then Ok(Unresolved)
    else if els[key].Edge? then
      match AuxNodeId(els[key])
      case Err(e) => Err(e)
      case Ok(a) => Ok(Resolved(IdString(a)))
    else Ok(Resolved(r))
  }

  /**
   * In a consistent graph a resolved endpoint names a node, and resolving it again leaves it
   * as it is.
   */
  lemma ResolvedNamesNode(els: map<string, Element>, r: EndpointRef)
    requires Consistent(els) && ResolveRef(els, r).Ok? && ResolveRef(els, r).value.Resolved?
    ensures var r' := ResolveRef(els, r).value.ref;
            r'.Key() in els && els[r'.Key()].Node? && ResolveRef(els, r') == Ok(Resolved(r'))
  {
    var key := r.Key();
    if els[key].Edge? {
      assert AuxLinked(els, key, els[key].auxNodeId.value);
    }
  }

  // ---- single insertion (`_addEdge`) ----

  /** A descriptor's id, when it has one, is a user id not yet in the graph. */
  predicate DescFresh(st: Store, d: Desc) {
    d.id.Some? ==> IsUserId(d.id.value) && d.id.value !in st.elements
  }

  /** Both endpoint keys name nodes of the graph. */
  predicate EndpointsAreNodes(els: map<string, Element>, d: Desc) {
    d.source.Key() in els && els[d.source.Key()].Node? &&
    d.target.Key() in els && els[d.target.Key()].Node?
  }

  /** The id `cy.add` gives the edge: the descriptor's own, or a generated one. */
  function NewEdgeId(st: Store, d: Desc): string {
    if d.id.Some? then d.id.value else GenId(st.genCount)
  }

  /** `cy.add(edge)`: the edge joins the graph, without aux node data yet. */
  function AddToGraph(st: Store, d: Desc): Store {
    Store(st.elements[NewEdgeId(st, d) := Edge(d.source.Key(), d.target.Key(), None)],
          if d.id.Some? then st.genCount else st.genCount + 1)
  }

  lemma AddToGraphCanCreateAuxNode(st: Store, d: Desc)
    requires Wellformed(st) && DescFresh(st, d) && EndpointsAreNodes(st.elements, d)
    ensures NewEdgeId(st, d) !in st.elements
    ensures CanCreateAuxNode(AddToGraph(st, d), NewEdgeId(st, d))
  {
    NextIdIsFree(st);
    var st' := AddToGraph(st, d);
    var e := NewEdgeId(st, d);
    var els, els' := st.elements, st'.elements;
    forall x | x in els' && els'[x].Edge? && els'[x].auxNodeId.Some?
      ensures AuxLinked(els', x, els'[x].auxNodeId.value)
    {
      assert AuxLinked(els, x, els[x].auxNodeId.value);
    }
    forall x | x in els' && els'[x].Node? && els'[x].edgeId.Some?
      ensures EdgeLinked(els', x, els'[x].edgeId.value)
    {
      assert EdgeLinked(els, x, els[x].edgeId.value);
    }
    assert IdsBelow(els', st'.genCount) by {
      forall k | k in els' && IsGenerated(k) ensures GenNumber(k) < st'.genCount {
        if k != e {
          assert k in els;
        }
      }
    }
  }

  /** The graph after `createAuxNode(cy.add(edge))`. */
  function Insert(st: Store, d: Desc): Store
    requires Wellformed(st) && DescFresh(st, d) && EndpointsAreNodes(st.elements, d)
  {
    AddToGraphCanCreateAuxNode(st, d);
    WithAuxNode(AddToGraph(st, d), NewEdgeId(st, d))
  }

  /**
   * Inserting adds exactly the edge, with the endpoint keys, and one fresh aux node at the
   * mean of the endpoint positions that points back at it; nothing else changes.
   */
  lemma InsertedEdgeAndAuxNode(st: Store, d: Desc)
    requires Wellformed(st) && DescFresh(st, d) && EndpointsAreNodes(st.elements, d)
    ensures var r := Insert(st, d);
            var e := NewEdgeId(st, d);
            var a := NewAuxId(AddToGraph(st, d));
            var els := st.elements;
            && Wellformed(r)
            && e !in els && a !in els && e != a && IsGenerated(a)
            && r.elements.Keys == els.Keys + {e, a}
            && (forall k :: k in els ==> r.elements[k] == els[k])
            && r.elements[e] == Edge(d.source.Key(), d.target.Key(), Some(a))
            && r.elements[a] == Node(Mean(els[d.source.Key()].pos, els[d.target.Key()].pos), Some(e), true)
  {
    AddToGraphCanCreateAuxNode(st, d);
    CreatedAuxNode(AddToGraph(st, d), NewEdgeId(st, d));
  }

  /** The result of `_addEdge`, the graph after it, and the descriptor as rewritten in place. */
  datatype Step = Step(result: Result<bool, Error>, store: Store, desc: Desc)

  /** Elements of `st` stay as they were in `st'`; each new id is generated or in `ids`. */
  predicate Grows(st: Store, st': Store, ids: set<string>) {
    && (forall k :: k in st.elements ==> k in st'.elements && st'.elements[k] == st.elements[k])
    && (forall k :: k in st'.elements && k !in st.elements ==> IsGenerated(k) || k in ids)
  }

  function IdSet(id: Option<string>): set<string> {
    if id.Some? then {id.value} else {}
  }

  /**
   * `_addEdge`: resolve the source, then the target (both rewritten in place); insert the
   * edge and create its aux node only when both resolve. A rewritten source stays rewritten
   * when the target then fails; an error thrown by `resolve` propagates.
   */
  function AddEdgeStep(st: Store, d: Desc): Step
    requires Wellformed(st) && DescFresh(st, d)
  {
    match ResolveRef(st.elements, d.source)
    case Err(e) => Step(Err(e), st, d)
    case Ok(Unresolved) => Step(Ok(false), st, d)
    case Ok(Resolved(src)) =>
      var d1 := d.(source := src);
      match ResolveRef(st.elements, d1.target)
      case Err(e) => Step(Err(e), st, d1)
      case Ok(Unresolved) => Step(Ok(false), st, d1)
      case Ok(Resolved(tgt)) =>
        var d2 := d1.(target := tgt);
        ResolvedNamesNode(st.elements, d.source);
        ResolvedNamesNode(st.elements, d.target);
        Step(Ok(true), Insert(st, d2), d2)
  }

  /**
   * `_addEdge` keeps the graph well formed and only adds to it: when it reports an insertion
   * both resolved endpoints name nodes and exactly the edge and its aux node were added;
   * otherwise the graph is unchanged. The only error it throws is a missing aux node id, and
   * a resolved source stays rewritten whatever happens to the target.
   */
  lemma AddEdgeStepFacts(st: Store, d: Desc)
    requires Wellformed(st) && DescFresh(st, d)
    ensures var s := AddEdgeStep(st, d);
            && Wellformed(s.store) && s.desc.id == d.id
            && (s.result.Err? ==> s.result.error == NoAuxNodeId)
            && (s.result != Ok(true) ==> s.store == st)
            && (s.result == Ok(true) ==>
                  EndpointsAreNodes(st.elements, s.desc) && s.store == Insert(st, s.desc) &&
                  s.store.elements.Keys == st.elements.Keys + {NewEdgeId(st, d), NewAuxId(AddToGraph(st, d))} &&
                  |s.store.elements.Keys| == |st.elements.Keys| + 2)
            && Grows(st, s.store, IdSet(d.id))
            && (ResolveRef(st.elements, d.source).Ok? && ResolveRef(st.elements, d.source).value.Resolved? ==>
                  s.desc.source == ResolveRef(st.elements, d.source).value.ref)
  {
    match ResolveRef(st.elements, d.source)
    case Err(e) =>
      assert AddEdgeStep(st, d) == Step(Err(e), st, d);
    case Ok(Unresolved) =>
      assert AddEdgeStep(st, d) == Step(Ok(false), st, d);
    case Ok(Resolved(src)) =>
      var d1 := d.(source := src);
      match ResolveRef(st.elements, d1.target)
      case Err(e) =>
        assert AddEdgeStep(st, d) == Step(Err(e), st, d1);
      case Ok(Unresolved) =>
        assert AddEdgeStep(st, d) == Step(Ok(false), st, d1);
      case Ok(Resolved(tgt)) =>
        var d2 := d1.(target := tgt);
        ResolvedNamesNode(st.elements, d.source);
        ResolvedNamesNode(st.elements, d.target);
        assert AddEdgeStep(st, d) == Step(Ok(true), Insert(st, d2), d2);
        InsertedEdgeAndAuxNode(st, d2);
        var e, a := NewEdgeId(st, d2), NewAuxId(AddToGraph(st, d2));
        assert st.elements.Keys !! {e, a};
  }

  /**
   * `_addEdge` inserts exactly when both ends resolve, with both ends rewritten; it throws
   * exactly when resolving the source throws, or the source resolves and resolving the
   * target throws; otherwise an end names nothing and it returns false.
   */
  lemma AddEdgeStepResult(st: Store, d: Desc)
    requires Wellformed(st) && DescFresh(st, d)
    ensures var s := AddEdgeStep(st, d);
            var rs, rt := ResolveRef(st.elements, d.source), ResolveRef(st.elements, d.target);
            && (s.result == Ok(true) <==> rs.Ok? && rs.value.Resolved? && rt.Ok? && rt.value.Resolved?)
            && (s.result.Err? <==> rs.Err? || (rs.Ok? && rs.value.Resolved? && rt.Err?))
            && (s.result == Ok(true) ==> s.desc == Desc(d.id, rs.value.ref, rt.value.ref))
            && (rs == Ok(Unresolved) || (rs.Ok? && rt == Ok(Unresolved)) ==> s.result == Ok(false))
  {
    match ResolveRef(st.elements, d.source)
    case Err(e) =>
      assert AddEdgeStep(st, d) == Step(Err(e), st, d);
    case Ok(Unresolved) =>
      assert AddEdgeStep(st, d) == Step(Ok(false), st, d);
    case Ok(Resolved(src)) =>
      var d1 := d.(source := src);
      match ResolveRef(st.elements, d1.target)
      case Err(e) =>
        assert AddEdgeStep(st, d) == Step(Err(e), st, d1);
      case Ok(Unresolved) =>
        assert AddEdgeStep(st, d) == Step(Ok(false), st, d1);
      case Ok(Resolved(tgt)) =>
        ResolvedNamesNode(st.elements, d.source);
        ResolvedNamesNode(st.elements, d.target);
        assert AddEdgeStep(st, d).result == Ok(true);
  }

  /**
   * A descriptor `_addEdge` could not insert stays uninsertable while the graph is unchanged:
   * retrying its rewritten value changes neither the graph nor the descriptor.
   */
  lemma FailedStepIsStable(st: Store, d: Desc)
    requires Wellformed(st) && DescFresh(st, d) && AddEdgeStep(st, d).result == Ok(false)
    ensures var s := AddEdgeStep(st, d);
            AddEdgeStep(st, s.desc) == Step(Ok(false), st, s.desc)
  {
    if ResolveRef(st.elements, d.source).Ok? && ResolveRef(st.elements, d.source).value.Resolved? {
      ResolvedNamesNode(st.elements, d.source);
    }
  }

  // ---- one pass of `addEdges`: `edges.filter(edge => !_addEdge(edge))` ----

  /** The ids the descriptors carry. */
  function DescIds(ds: seq<Desc>): set<string> {
    if ds == [] then {} else IdSet(ds[0].id) + DescIds(ds[1..])
  }

  /** Every descriptor id is fresh in `st`, and no two descriptors carry the same id. */
  predicate FreshDescs(st: Store, ds: seq<Desc>) {
    ds == [] ||
    (DescFresh(st, ds[0]) && IdSet(ds[0].id) !! DescIds(ds[1..]) && FreshDescs(st, ds[1..]))
  }

  lemma {:induction false} FreshDescsPreserved(st: Store, st': Store, ds: seq<Desc>, ids: set<string>)
    requires FreshDescs(st, ds) && Grows(st, st', ids) && ids !! DescIds(ds)
    ensures FreshDescs(st', ds)
  {
    if ds != [] {
      FreshDescsPreserved(st, st', ds[1..], ids);
    }
  }

  /** Two descriptors with fresh, distinct ids form a batch of fresh descriptors. */
  lemma FreshPair(st: Store, d0: Desc, d1: Desc)
    requires DescFresh(st, d0) && DescFresh(st, d1) && IdSet(d0.id) !! IdSet(d1.id)
    ensures FreshDescs(st, [d1]) && FreshDescs(st, [d0, d1])
  {
    assert [d0, d1][1..] == [d1] && [d1][1..] == [];
    assert DescIds([d1]) == IdSet(d1.id);
  }

  /** The outcome of one pass: the descriptors kept for the next pass, or the error thrown. */
  datatype PassOutcome = PassOutcome(result: Result<seq<Desc>, Error>, store: Store)

  /** The outcome of a pass over a list whose first descriptors `kept` were already kept. */
  function Prepend(kept: seq<Desc>, p: PassOutcome): PassOutcome {
    if p.result.Err? then p else PassOutcome(Ok(kept + p.result.value), p.store)
  }

  /**
   * One pass: `_addEdge` on each descriptor in order, keeping (as rewritten) exactly those it
   * did not insert; an error thrown by `_addEdge` ends the pass.
   */
  function PassSpec(st: Store, ds: seq<Desc>): PassOutcome
    requires Wellformed(st) && FreshDescs(st, ds)
    decreases |ds|
  {
    if ds == [] then PassOutcome(Ok([]), st)
    else
      AddEdgeStepFacts(st, ds[0]);
      var s := AddEdgeStep(st, ds[0]);
      if s.result.Err? then PassOutcome(Err(s.result.error), s.store)
      else
        FreshDescsPreserved(st, s.store, ds[1..], IdSet(ds[0].id));
        Prepend(if s.result.value then [] else [s.desc], PassSpec(s.store, ds[1..]))
  }

  /** A pass keeps the graph well formed and only adds to it; it throws only a missing aux node id. */
  lemma {:induction false} PassGrows(st: Store, ds: seq<Desc>)
    requires Wellformed(st) && FreshDescs(st, ds)
    ensures var p := PassSpec(st, ds);
            && Wellformed(p.store) && Grows(st, p.store, DescIds(ds))
            && (p.result.Err? ==> p.result.error == NoAuxNodeId)
    decreases |ds|
  {
    if ds != [] {
      PassSpecStep(st, ds);
      AddEdgeStepFacts(st, ds[0]);
      var s := AddEdgeStep(st, ds[0]);
      if s.result.Ok? {
        PassGrows(s.store, ds[1..]);
      }
    }
  }

  /**
   * The descriptors a pass keeps are among those it was given, and it keeps every one of
   * them exactly when it leaves the graph unchanged.
   */
  lemma {:induction false} PassKeeps(st: Store, ds: seq<Desc>)
    requires Wellformed(st) && FreshDescs(st, ds)
    ensures var p := PassSpec(st, ds);
            p.result.Ok? ==>
              && |p.result.value| <= |ds| && DescIds(p.result.value) <= DescIds(ds)
              && (|p.result.value| == |ds| <==> p.store == st)
    decreases |ds|
  {
    if ds != [] {
      PassSpecStep(st, ds);
      AddEdgeStepFacts(st, ds[0]);
      var s := AddEdgeStep(st, ds[0]);
      if s.result.Ok? {
        PassKeeps(s.store, ds[1..]);
        PassGrows(s.store, ds[1..]);
        var rest := PassSpec(s.store, ds[1..]);
        if rest.result.Ok? {
          var kept := rest.result.value;
          if s.result.value {
            assert s.store.elements.Keys != st.elements.Keys;
            assert rest.store.elements.Keys != st.elements.Keys;
            assert [] + kept == kept;
          } else {
            assert ([s.desc] + kept)[1..] == kept;
          }
        }
      }
    }
  }

  /** The descriptors a pass keeps can still be inserted into the graph it leaves. */
  lemma {:induction false} PassKeptFresh(st: Store, ds: seq<Desc>)
    requires Wellformed(st) && FreshDescs(st, ds)
    ensures var p := PassSpec(st, ds);
            p.result.Ok? ==> FreshDescs(p.store, p.result.value)
    decreases |ds|
  {
    if ds != [] {
      PassSpecStep(st, ds);
      AddEdgeStepFacts(st, ds[0]);
      var s := AddEdgeStep(st, ds[0]);
      if s.result.Ok? {
        PassKeptFresh(s.store, ds[1..]);
        var rest := PassSpec(s.store, ds[1..]);
        if rest.result.Ok? {
          var kept := rest.result.value;
          if s.result.value {
            assert [] + kept == kept;
          } else {
            PassKeeps(s.store, ds[1..]);
            PassGrows(s.store, ds[1..]);
            assert DescFresh(rest.store, s.desc);
            assert IdSet(s.desc.id) !! DescIds(kept);
            assert ([s.desc] + kept)[0] == s.desc && ([s.desc] + kept)[1..] == kept;
          }
        }
      }
    }
  }

  /**
   * Every descriptor a pass does not keep was inserted: its id, if any, is in the graph the
   * pass leaves, and each such descriptor added exactly two elements.
   */
  lemma {:induction false} PassInserts(st: Store, ds: seq<Desc>)
    requires Wellformed(st) && FreshDescs(st, ds)
    ensures var p := PassSpec(st, ds);
            p.result.Ok? ==>
              && DescIds(ds) <= p.store.elements.Keys + DescIds(p.result.value)
              && |p.store.elements.Keys| == |st.elements.Keys| + 2 * (|ds| - |p.result.value|)
    decreases |ds|
  {
    if ds != [] {
      PassSpecStep(st, ds);
      AddEdgeStepFacts(st, ds[0]);
      var s := AddEdgeStep(st, ds[0]);
      if s.result.Ok? {
        PassInserts(s.store, ds[1..]);
        PassGrows(s.store, ds[1..]);
        PassKeeps(s.store, ds[1..]);
        var rest := PassSpec(s.store, ds[1..]);
        if rest.result.Ok? {
          var kept := rest.result.value;
          if s.result.value {
            assert [] + kept == kept;
            assert IdSet(ds[0].id) <= s.store.elements.Keys;
          } else {
            assert ([s.desc] + kept)[0] == s.desc && ([s.desc] + kept)[1..] == kept;
            assert DescIds([s.desc] + kept) == IdSet(ds[0].id) + DescIds(kept);
          }
        }
      }
    }
  }

  lemma PassSpecFacts(st: Store, ds: seq<Desc>)
    requires Wellformed(st) && FreshDescs(st, ds)
    ensures var p := PassSpec(st, ds);
            && Wellformed(p.store) && Grows(st, p.store, DescIds(ds))
            && (p.result.Err? ==> p.result.error == NoAuxNodeId)
            && (p.result.Ok? ==>
                  |p.result.value| <= |ds| && FreshDescs(p.store, p.result.value) &&
                  DescIds(p.result.value) <= DescIds(ds))
            && (p.result.Ok? ==> (|p.result.value| == |ds| <==> p.store == st))
  {
    PassGrows(st, ds);
    PassKeeps(st, ds);
    PassKeptFresh(st, ds);
  }

  lemma PrependTwice(k0: seq<Desc>, k1: seq<Desc>, p: PassOutcome)
    ensures Prepend(k0, Prepend(k1, p)) == Prepend(k0 + k1, p)
  {
    if p.result.Ok? {
      assert k0 + (k1 + p.result.value) == (k0 + k1) + p.result.value;
    }
  }

  lemma PrependNothing(p: PassOutcome)
    ensures Prepend([], p) == p
  {
    if p.result.Ok? {
      assert [] + p.result.value == p.result.value;
    }
  }

  /** A pass is `_addEdge` on the first descriptor followed by the pass over the others. */
  lemma PassSpecStep(st: Store, ds: seq<Desc>)
    requires Wellformed(st) && FreshDescs(st, ds) && ds != []
    ensures DescFresh(st, ds[0])
    ensures var s := AddEdgeStep(st, ds[0]);
            && (s.result.Err? ==> PassSpec(st, ds) == PassOutcome(Err(s.result.error), s.store))
            && (s.result.Ok? ==>
                  && Wellformed(s.store) && FreshDescs(s.store, ds[1..])
                  && PassSpec(st, ds) == Prepend(if s.result.value then [] else [s.desc], PassSpec(s.store, ds[1..])))
  {
    AddEdgeStepFacts(st, ds[0]);
    var s := AddEdgeStep(st, ds[0]);
    if s.result.Ok? {
      FreshDescsPreserved(st, s.store, ds[1..], IdSet(ds[0].id));
    }
  }

  /**
   * A pass over `ds0` from graph `st0` has handled its first `i` descriptors, leaving graph
   * `st` and keeping `kept`: the pass over the others from `st` completes it.
   */
  predicate PassProgress(st0: Store, ds0: seq<Desc>, kept: seq<Desc>, st: Store, i: int) {
    && Wellformed(st0) && FreshDescs(st0, ds0) && 0 <= i <= |ds0|
    && Wellformed(st) && FreshDescs(st, ds0[i..])
    && PassSpec(st0, ds0) == Prepend(kept, PassSpec(st, ds0[i..]))
  }

  lemma PassStart(st0: Store, ds0: seq<Desc>)
    requires Wellformed(st0) && FreshDescs(st0, ds0)
    ensures PassProgress(st0, ds0, [], st0, 0)
  {
    assert ds0[0..] == ds0;
    PrependNothing(PassSpec(st0, ds0));
  }

  lemma PassDone(st0: Store, ds0: seq<Desc>, kept: seq<Desc>, st: Store)
    requires PassProgress(st0, ds0, kept, st, |ds0|)
    ensures PassSpec(st0, ds0) == PassOutcome(Ok(kept), st)
  {
    assert ds0[|ds0|..] == [];
    assert kept + [] == kept;
  }

  /** The pass advances by `_addEdge` on descriptor `i`. */
  lemma PassAdvance(st0: Store, ds0: seq<Desc>, kept: seq<Desc>, st: Store, i: int)
    requires PassProgress(st0, ds0, kept, st, i) && i < |ds0|
    ensures DescFresh(st, ds0[i])
    ensures var s := AddEdgeStep(st, ds0[i]);
            && (s.result.Err? ==> PassSpec(st0, ds0) == PassOutcome(Err(s.result.error), s.store))
            && (s.result.Ok? ==>
                  PassProgress(st0, ds0, kept + (if s.result.value then [] else [s.desc]), s.store, i + 1))
  {
    var ds := ds0[i..];
    assert ds[0] == ds0[i] && ds[1..] == ds0[i + 1..];
    PassSpecStep(st, ds);
    var s := AddEdgeStep(st, ds0[i]);
    if s.result.Ok? {
      PrependTwice(kept, if s.result.value then [] else [s.desc], PassSpec(s.store, ds0[i + 1..]));
    }
  }

  /**
   * The values of a pass's descriptors afterwards, in order: each handled descriptor as
   * `_addEdge` rewrote it, whether inserted, kept or the one that threw; the descriptors
   * after a throw as they were.
   */
  function PassValues(st: Store, ds: seq<Desc>): seq<Desc>
    requires Wellformed(st) && FreshDescs(st, ds)
    decreases |ds|
  {
    if ds == [] then []
    else
      AddEdgeStepFacts(st, ds[0]);
      var s := AddEdgeStep(st, ds[0]);
      if s.result.Err? then [s.desc] + ds[1..]
      else
        FreshDescsPreserved(st, s.store, ds[1..], IdSet(ds[0].id));
        [s.desc] + PassValues(s.store, ds[1..])
  }

  /** Regrouping a concatenation of descriptor values. */
  lemma Regroup(a: seq<Desc>, b: seq<Desc>, c: seq<Desc>)
    ensures a + (b + c) == a + b + c
  {
  }

  /** The values a pass leaves: `_addEdge`'s rewrite of the first descriptor, then the rest's. */
  lemma PassValuesStep(st: Store, ds: seq<Desc>)
    requires Wellformed(st) && FreshDescs(st, ds) && ds != []
    ensures DescFresh(st, ds[0])
    ensures var s := AddEdgeStep(st, ds[0]);
            && (s.result.Err? ==> PassValues(st, ds) == [s.desc] + ds[1..])
            && (s.result.Ok? ==>
                  && Wellformed(s.store) && FreshDescs(s.store, ds[1..])
                  && PassValues(st, ds) == [s.desc] + PassValues(s.store, ds[1..]))
  {
    AddEdgeStepFacts(st, ds[0]);
    var s := AddEdgeStep(st, ds[0]);
    if s.result.Ok? {
      FreshDescsPreserved(st, s.store, ds[1..], IdSet(ds[0].id));
    }
  }

  /** A pass rewrites only endpoints: each descriptor keeps its place and its id. */
  lemma {:induction false} PassValuesKeepIds(st: Store, ds: seq<Desc>)
    requires Wellformed(st) && FreshDescs(st, ds)
    ensures var vs := PassValues(st, ds);
            |vs| == |ds| && forall k :: 0 <= k < |ds| ==> vs[k].id == ds[k].id
    decreases |ds|
  {
    if ds != [] {
      PassValuesStep(st, ds);
      var s := AddEdgeStep(st, ds[0]);
      if s.result.Ok? {
        PassValuesKeepIds(s.store, ds[1..]);
        forall k | 0 < k < |ds| ensures PassValues(st, ds)[k].id == ds[k].id {
          assert ds[k] == ds[1..][k - 1];
        }
      }
    }
  }

  /** Every descriptor a pass keeps is, as rewritten, among the values the pass leaves. */
  lemma {:induction false} PassKeptAmongValues(st: Store, ds: seq<Desc>)
    requires Wellformed(st) && FreshDescs(st, ds)
    ensures PassSpec(st, ds).result.Ok? ==>
              forall x :: x in PassSpec(st, ds).result.value ==> x in PassValues(st, ds)
    decreases |ds|
  {
    if ds != [] {
      PassSpecStep(st, ds);
      PassValuesStep(st, ds);
      var s := AddEdgeStep(st, ds[0]);
      if s.result.Ok? {
        PassKeptAmongValues(s.store, ds[1..]);
      }
    }
  }

  /**
   * The pass over `ds0` from `st0` has handled its first `i` descriptors, which now hold
   * values `hv`, and left graph `st`: the values the rest of the pass leaves complete them.
   */
  predicate ValuesProgress(st0: Store, ds0: seq<Desc>, hv: seq<Desc>, st: Store, i: int) {
    && Wellformed(st0) && FreshDescs(st0, ds0) && 0 <= i <= |ds0|
    && Wellformed(st) && FreshDescs(st, ds0[i..])
    && PassValues(st0, ds0) == hv + PassValues(st, ds0[i..])
  }

  lemma ValuesStart(st0: Store, ds0: seq<Desc>)
    requires Wellformed(st0) && FreshDescs(st0, ds0)
    ensures ValuesProgress(st0, ds0, [], st0, 0)
  {
    assert ds0[0..] == ds0;
  }

  lemma ValuesDone(st0: Store, ds0: seq<Desc>, hv: seq<Desc>, st: Store)
    requires ValuesProgress(st0, ds0, hv, st, |ds0|)
    ensures PassValues(st0, ds0) == hv
  {
    assert ds0[|ds0|..] == [];
    assert hv + [] == hv;
  }

  /** Both the outcome and the values of a pass over `ds0` are on course after `i` descriptors. */
  predicate PassState(st0: Store, ds0: seq<Desc>, kept: seq<Desc>, hv: seq<Desc>, st: Store, i: int) {
    PassProgress(st0, ds0, kept, st, i) && ValuesProgress(st0, ds0, hv, st, i)
  }

  /** Descriptor `i` takes the value `_addEdge` leaves it; after a throw the rest keep theirs. */
  lemma ValuesAdvance(st0: Store, ds0: seq<Desc>, hv: seq<Desc>, st: Store, i: int)
    requires ValuesProgress(st0, ds0, hv, st, i) && i < |ds0|
    ensures DescFresh(st, ds0[i])
    ensures var s := AddEdgeStep(st, ds0[i]);
            && (s.result.Err? ==> PassValues(st0, ds0) == hv + [s.desc] + ds0[i + 1..])
            && (s.result.Ok? ==> ValuesProgress(st0, ds0, hv + [s.desc], s.store, i + 1))
  {
    var ds := ds0[i..];
    assert ds[0] == ds0[i] && ds[1..] == ds0[i + 1..];
    PassValuesStep(st, ds);
    var s := AddEdgeStep(st, ds0[i]);
    if s.result.Err? {
      Regroup(hv, [s.desc], ds0[i + 1..]);
    } else {
      Regroup(hv, [s.desc], PassValues(s.store, ds0[i + 1..]));
    }
  }

  /** The pass and the descriptor values both advance by `_addEdge` on descriptor `i`. */
  lemma PassStateAdvance(st0: Store, ds0: seq<Desc>, kept: seq<Desc>, hv: seq<Desc>, st: Store, i: int)
    requires PassState(st0, ds0, kept, hv, st, i) && i < |ds0|
    ensures DescFresh(st, ds0[i])
    ensures var s := AddEdgeStep(st, ds0[i]);
            && (s.result.Err? ==>
                  PassSpec(st0, ds0) == PassOutcome(Err(s.result.error), s.store) &&
                  PassValues(st0, ds0) == hv + [s.desc] + ds0[i + 1..])
            && (s.result.Ok? ==>
                  PassState(st0, ds0, kept + (if s.result.value then [] else [s.desc]), hv + [s.desc], s.store, i + 1))
  {
    PassAdvance(st0, ds0, kept, st, i);
    ValuesAdvance(st0, ds0, hv, st, i);
  }

  /** A pass over a single descriptor is one `_addEdge`, keeping the descriptor when it fails. */
  lemma PassOfOne(st: Store, d: Desc)
    requires Wellformed(st) && FreshDescs(st, [d])
    ensures var s := AddEdgeStep(st, d);
            PassSpec(st, [d]) ==
              if s.result.Err? then PassOutcome(Err(s.result.error), s.store)
              else if s.result.value then PassOutcome(Ok([]), s.store)
              else PassOutcome(Ok([s.desc]), s.store)
  {
    PassSpecStep(st, [d]);
    var s := AddEdgeStep(st, d);
    assert [d][1..] == [];
    if s.result.Ok? {
      var none: seq<Desc> := [];
      assert PassSpec(s.store, []) == PassOutcome(Ok(none), s.store);
      assert [s.desc] + none == [s.desc] && none + none == none;
    }
  }

  /** A pass over two descriptors: `_addEdge` on the first, then the pass over the second. */
  lemma PassOfTwo(st: Store, d0: Desc, d1: Desc)
    requires Wellformed(st) && FreshDescs(st, [d0, d1]) && AddEdgeStep(st, d0).result.Ok?
    ensures var s := AddEdgeStep(st, d0);
            && Wellformed(s.store) && FreshDescs(s.store, [d1])
            && var rest := PassSpec(s.store, [d1]);
               PassSpec(st, [d0, d1]) ==
                 if rest.result.Err? then rest
                 else PassOutcome(Ok((if s.result.value then [] else [s.desc]) + rest.result.value), rest.store)
  {
    PassSpecStep(st, [d0, d1]);
    assert [d0, d1][1..] == [d1];
  }

  /**
   * A pass that inserts nothing leaves the graph as it was, and repeating it on the
   * descriptors it kept inserts nothing again and keeps them all unchanged.
   */
  lemma {:induction false} NoProgressIsStable(st: Store, ds: seq<Desc>)
    requires Wellformed(st) && FreshDescs(st, ds)
    requires PassSpec(st, ds).result.Ok? && |PassSpec(st, ds).result.value| == |ds|
    ensures var kept := PassSpec(st, ds).result.value;
            && PassSpec(st, ds).store == st && FreshDescs(st, kept)
            && PassSpec(st, kept) == PassOutcome(Ok(kept), st)
  {
    PassSpecFacts(st, ds);
    if ds != [] {
      PassSpecStep(st, ds);
      AddEdgeStepFacts(st, ds[0]);
      var s := AddEdgeStep(st, ds[0]);
      var rest := PassSpec(s.store, ds[1..]);
      PassSpecFacts(s.store, ds[1..]);
      assert s.result == Ok(false) && s.store == st;
      var kept := rest.result.value;
      assert PassSpec(st, ds) == PassOutcome(Ok([s.desc] + kept), rest.store);
      NoProgressIsStable(st, ds[1..]);
      FailedStepIsStable(st, ds[0]);
      assert ([s.desc] + kept)[1..] == kept;
    }
  }

  // ---- the pass loop of `addEdges` ----

  /** How `addEdges` ends, the graph it leaves and the value of its pass counter. */
  datatype BatchOutcome = BatchOutcome(outcome: Outcome<Error>, store: Store, passes: nat)

  /**
   * The do/while loop of `addEdges` from pass counter `pass`: run a pass, count it, throw
   * once the counter equals `maxPasses` (even when that pass emptied the list), and stop
   * normally when no descriptor is left. An error thrown inside a pass propagates with the
   * counter not yet incremented.
   */
  function BatchSpec(st: Store, ds: seq<Desc>, pass: nat, maxPasses: nat): BatchOutcome
    requires Wellformed(st) && FreshDescs(st, ds) && pass < maxPasses
    decreases maxPasses - pass
  {
    PassSpecFacts(st, ds);
    var p := PassSpec(st, ds);
    if p.result.Err? then
      BatchOutcome(Fail(p.result.error), p.store, pass)
    else if pass + 1 == maxPasses then
      BatchOutcome(Fail(TooManyPasses(maxPasses)), p.store, pass + 1)
    else if p.result.value == [] then
      BatchOutcome(Pass, p.store, pass + 1)
    else
      BatchSpec(p.store, p.result.value, pass + 1, maxPasses)
  }

  /**
   * The pass loop keeps the graph well formed and only adds to it; the counter stays within
   * the limit; it throws the pass-limit error exactly when the counter reaches the limit, and
   * a normal end comes strictly before it.
   */
  lemma {:induction false} BatchSpecFacts(st: Store, ds: seq<Desc>, pass: nat, maxPasses: nat)
    requires Wellformed(st) && FreshDescs(st, ds) && pass < maxPasses
    ensures var b := BatchSpec(st, ds, pass, maxPasses);
            && Wellformed(b.store) && Grows(st, b.store, DescIds(ds))
            && pass <= b.passes <= maxPasses
            && (b.outcome == Fail(TooManyPasses(maxPasses)) <==> b.passes == maxPasses)
            && (b.outcome == Pass ==> pass < b.passes < maxPasses)
            && (b.outcome == Pass ==>
                  DescIds(ds) <= b.store.elements.Keys &&
                  |b.store.elements.Keys| == |st.elements.Keys| + 2 * |ds|)
    decreases maxPasses - pass
  {
    PassSpecFacts(st, ds);
    PassInserts(st, ds);
    var p := PassSpec(st, ds);
    if p.result.Ok? && pass + 1 < maxPasses && p.result.value != [] {
      BatchSpecFacts(p.store, p.result.value, pass + 1, maxPasses);
    }
  }

  /**
   * The pass loop over `ds0` from graph `st0` has reached counter value `pass` with graph
   * `st` and descriptors `ds` left: the loop from here ends as the whole loop does.
   */
  predicate BatchProgress(st0: Store, ds0: seq<Desc>, maxPasses: nat, st: Store, ds: seq<Desc>, pass: nat) {
    && Wellformed(st0) && FreshDescs(st0, ds0) && 0 < maxPasses
    && Wellformed(st) && FreshDescs(st, ds) && pass < maxPasses
    && BatchSpec(st, ds, pass, maxPasses) == BatchSpec(st0, ds0, 0, maxPasses)
  }

  /** The pass loop runs one pass, then throws, stops, or continues with the next counter value. */
  lemma BatchAdvance(st0: Store, ds0: seq<Desc>, maxPasses: nat, st: Store, ds: seq<Desc>, pass: nat)
    requires BatchProgress(st0, ds0, maxPasses, st, ds, pass)
    ensures var p := PassSpec(st, ds);
            var b := BatchSpec(st0, ds0, 0, maxPasses);
            && (p.result.Err? ==> b == BatchOutcome(Fail(p.result.error), p.store, pass))
            && (p.result.Ok? && pass + 1 == maxPasses ==>
                  b == BatchOutcome(Fail(TooManyPasses(maxPasses)), p.store, pass + 1))
            && (p.result.Ok? && pass + 1 < maxPasses && p.result.value == [] ==>
                  b == BatchOutcome(Pass, p.store, pass + 1))
            && (p.result.Ok? && pass + 1 < maxPasses && p.result.value != [] ==>
                  BatchProgress(st0, ds0, maxPasses, p.store, p.result.value, pass + 1))
  {
    PassSpecFacts(st, ds);
  }

  /**
   * A batch whose pass inserts nothing never converges: it runs into the pass limit and
   * throws, leaving the graph as it was.
   */
  lemma {:induction false} StuckBatchThrows(st: Store, ds: seq<Desc>, pass: nat, maxPasses: nat)
    requires Wellformed(st) && FreshDescs(st, ds) && pass < maxPasses && ds != []
    requires PassSpec(st, ds).result.Ok? && |PassSpec(st, ds).result.value| == |ds|
    ensures BatchSpec(st, ds, pass, maxPasses) == BatchOutcome(Fail(TooManyPasses(maxPasses)), st, maxPasses)
    decreases maxPasses - pass
  {
    NoProgressIsStable(st, ds);
    if pass + 1 < maxPasses {
      StuckBatchThrows(st, PassSpec(st, ds).result.value, pass + 1, maxPasses);
    }
  }

  /**
   * Two edges each naming the other as source form a genuine cycle: `addEdges` throws at the
   * pass limit and inserts neither.
   */
  lemma CycleNeverConverges(st: Store, a: string, b: string, ta: EndpointRef, tb: EndpointRef, maxPasses: nat)
    requires Wellformed(st) && IsUserId(a) && IsUserId(b) && a != b
    requires a !in st.elements && b !in st.elements && 0 < maxPasses
    ensures var ds := [Desc(Some(a), IdString(b), ta), Desc(Some(b), IdString(a), tb)];
            FreshDescs(st, ds) &&
            BatchSpec(st, ds, 0, maxPasses) == BatchOutcome(Fail(TooManyPasses(maxPasses)), st, maxPasses)
  {
    var d0, d1 := Desc(Some(a), IdString(b), ta), Desc(Some(b), IdString(a), tb);
    var ds := [d0, d1];
    FreshPair(st, d0, d1);
    assert AddEdgeStep(st, d0) == Step(Ok(false), st, d0);
    assert AddEdgeStep(st, d1) == Step(Ok(false), st, d1);
    PassOfTwo(st, d0, d1);
    PassOfOne(st, d1);
    assert [d0] + [d1] == ds;
    StuckBatchThrows(st, ds, 0, maxPasses);
  }

  /**
   * With a pass limit of one, `addEdges` throws on every batch, even one its single pass
   * inserted completely.
   */
  lemma PassLimitOneAlwaysThrows(st: Store, ds: seq<Desc>)
    requires Wellformed(st) && FreshDescs(st, ds)
    ensures BatchSpec(st, ds, 0, 1).outcome.Fail?
  {
  }

  /** The first pass of the dependency-inverted batch below inserts only its second edge. */
  lemma DependencyInvertedFirstPass(st: Store, d0: Desc, d1: Desc)
    requires Wellformed(st) && DescFresh(st, d1) && d0.id.None?
    requires d0.source.Key() in st.elements && st.elements[d0.source.Key()].Node?
    requires d0.target.Key() !in st.elements
    requires EndpointsAreNodes(st.elements, d1)
    ensures FreshDescs(st, [d0, d1])
    ensures PassSpec(st, [d0, d1]) == PassOutcome(Ok([d0]), Insert(st, d1))
  {
    FreshPair(st, d0, d1);
    assert AddEdgeStep(st, d0) == Step(Ok(false), st, d0);
    assert AddEdgeStep(st, d1) == Step(Ok(true), Insert(st, d1), d1);
    PassOfTwo(st, d0, d1);
    PassOfOne(st, d1);
    assert [d0] + [] == [d0];
  }

  /**
   * The second pass resolves the first edge's target, which names the edge inserted in pass
   * one, to that edge's aux node, and inserts the first edge ending there.
   */
  lemma DependencyInvertedSecondPass(st: Store, d0: Desc, d1: Desc)
    requires Wellformed(st) && DescFresh(st, d1) && d0.id.None?
    requires d0.source.Key() in st.elements && st.elements[d0.source.Key()].Node?
    requires d1.id.Some? && d0.target == IdString(d1.id.value) && EndpointsAreNodes(st.elements, d1)
    ensures Wellformed(Insert(st, d1)) && FreshDescs(Insert(st, d1), [d0])
    ensures var st1 := Insert(st, d1);
            var aux := NewAuxId(AddToGraph(st, d1));
            var e0 := GenId(st1.genCount);
            var p := PassSpec(st1, [d0]);
            && ResolveRef(st1.elements, d0.target) == Ok(Resolved(IdString(aux)))
            && p.result == Ok([])
            && e0 !in st1.elements && e0 in p.store.elements
            && p.store.elements[e0].Edge?
            && p.store.elements[e0].source == d0.source.Key()
            && p.store.elements[e0].target == aux
  {
    InsertedEdgeAndAuxNode(st, d1);
    var st1 := Insert(st, d1);
    var e1 := d1.id.value;
    assert NewEdgeId(st, d1) == e1;
    var aux := NewAuxId(AddToGraph(st, d1));
    assert st1.elements[e1] == Edge(d1.source.Key(), d1.target.Key(), Some(aux));
    assert AuxLinked(st1.elements, e1, aux);
    assert [d0][1..] == [];
    assert FreshDescs(st1, [d0]);
    assert ResolveRef(st1.elements, d0.target) == Ok(Resolved(IdString(aux)));
    var d0' := d0.(target := IdString(aux));
    assert ResolveRef(st1.elements, d0.source) == Ok(Resolved(d0.source));
    assert AddEdgeStep(st1, d0) == Step(Ok(true), Insert(st1, d0'), d0');
    InsertedEdgeAndAuxNode(st1, d0');
    PassOfOne(st1, d0);
  }

  /**
   * An edge listed before the edge it attaches to: the first pass inserts the second edge
   * (and its aux node), the second pass rewrites the first edge's target to that aux node
   * and inserts it, and the batch ends normally after two passes.
   */
  lemma DependencyInvertedBatchTakesTwoPasses(st: Store, x: string, a: string, b: string, e1: string, maxPasses: nat)
    requires Wellformed(st) && IsUserId(e1) && e1 !in st.elements && 2 < maxPasses
    requires x in st.elements && st.elements[x].Node?
    requires a in st.elements && st.elements[a].Node?
    requires b in st.elements && st.elements[b].Node?
    ensures var ds := [Desc(None, IdString(x), IdString(e1)), Desc(Some(e1), IdString(a), IdString(b))];
            FreshDescs(st, ds) && BatchSpec(st, ds, 0, maxPasses).outcome == Pass &&
            BatchSpec(st, ds, 0, maxPasses).passes == 2
  {
    var d0, d1 := Desc(None, IdString(x), IdString(e1)), Desc(Some(e1), IdString(a), IdString(b));
    DependencyInvertedFirstPass(st, d0, d1);
    DependencyInvertedSecondPass(st, d0, d1);
  }
}
