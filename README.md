# cytoscape-edge-connections, modelled in Dafny

This project models the core of the Cytoscape plugin `cytoscape-edge-connections`, which lets an edge end on
another edge. Each edge gets an *aux node*: a locked proxy node that sits on the edge. An edge that names
another edge as its source or target is connected to that edge's aux node instead. All of this lives in
`src/index.js`.

The model has two layers.

- Functions over values.
  - `Elements` is the graph as a map from id to element. A node has a position, a lock flag and an optional
    `edgeId`. An edge has its endpoint ids and an optional `auxNodeId`. `Wellformed` is the invariant: the
    back-references agree both ways, aux nodes are locked, and generated ids are fresh.
  - `Lookup` holds the lookups `auxNode`, `_auxNodeId`, `_auxNodeIdIfAvailable`, `isAuxNode`, `edge`,
    `edgeId` and the aux-node colour mapping. Every `throw` of the source is an `Err` result.
  - `AuxNodes` holds the aux-node lifecycle: creation, repositioning and removal.
  - `Resolver` holds endpoint resolution and `_addEdge`. It also holds `PassSpec`, one
    `edges.filter(edge => !_addEdge(edge))` pass, `PassValues`, the values such a pass leaves in the
    descriptors it handles, and `BatchSpec`, the bounded do/while loop of `addEdges`.
- Imperative Dafny, in module `EdgeConnections`.
  - `Graph` is a class whose `elements` map the plugin and the host update in place.
  - `EdgeDescriptor` is a class whose `source`/`target` fields `resolve` rewrites in place, as the source
    does with the edge objects the caller passes.
  - Each method (`Resolve`, `TryAddEdge`, `FilterPass`, `AddEdges`, `CreateAuxNode`, `RepositionAuxNodes`,
    `RemoveAuxNode`) is proved against the function that specifies it. The loops carry their invariants.

Several behaviours of the code are kept as written:

- `addEdges` throws once its pass counter reaches the limit, even when that last pass inserted every
  remaining edge. So a limit of 1 makes every call throw.
- A resolved source stays rewritten in the caller's descriptor when the target then fails to resolve.
- `isAuxNode` tests `!== undefined` while `edge()` tests falsiness. A node whose edge id is the empty string
  is therefore an aux node on which `edge()` throws.

Generated ids are modelled as `'#'` followed by a decimal counter. Callers' ids must be non-empty and must
not start with `'#'`, so the two namespaces never collide.

## Model

| member | source | states |
|---|---|---|
| Ids.NumberKeysInjective | src/index.js:86 | Numeric endpoint ids are looked up by their decimal string, and distinct numbers never share a key. |
| Geometry.ValidExactlyWhenPoint | src/index.js:244-250 | `isValidPos` holds exactly when neither coordinate is NaN, i.e. when the reported position is some real point. |
| Geometry.Mean | src/index.js:105-108 | The aux node's initial position lies halfway between the endpoint positions on both axes. |
| Elements.NextIdIsFree | src/index.js:102 | In a well-formed graph the next generated id is not taken. |
| Elements.AuxNodeUnique | src/index.js:165-180 | In a consistent graph no two aux nodes claim the same edge. |
| Lookup.AuxNodeId | src/index.js:187-201 | `_auxNodeId` returns the non-empty aux node id exactly when the edge has one, and otherwise throws the missing-"auxNodeId" error. |
| Lookup.AuxNode | src/index.js:165-180 | `auxNode` throws "not an edge" exactly on non-edges. It returns nothing exactly when the id is falsy, and throws a data inconsistency exactly when the id names no element. When the id is truthy and present it returns the element under that id. |
| Lookup.EdgeId | src/index.js:236-242 | `edgeId` throws exactly on non-nodes and otherwise returns the node's edge id. |
| Lookup.IsAuxNodeMatchesEdgeId | src/index.js:206-208 | `isAuxNode` is true exactly when `edgeId` returns an id, and throws exactly when `edgeId` throws. |
| Lookup.EdgeOf | src/index.js:217-241 | `edge` throws exactly on non-nodes and nodes without a truthy edge id. A non-node gets `edgeId`'s "not called on a node" error, and any other node gets "not an aux node". It returns nothing exactly when that edge is gone, and otherwise returns the edge under that id. |
| Lookup.IsAuxNodeExactlyWhenNamed | src/index.js:206-208 | In a consistent graph `isAuxNode` holds on a node exactly when some edge names it as its aux node. |
| Lookup.EmptyEdgeIdIsAuxNodeWithoutEdge | src/index.js:206-222 | A node with edge id `""` counts as an aux node, yet `edge()` throws on it. |
| Lookup.AuxNodeNeverFailsWhenConsistent | src/index.js:165-180 | In a consistent graph `auxNode` never throws on an edge, and finds an aux node exactly when the edge has an id. |
| Lookup.EdgeOfAuxNode | src/index.js:165-227 | Round trip `edge(auxNode(e)) == e` in a consistent graph. |
| Lookup.AuxNodeOfEdge | src/index.js:165-227 | Round trip `auxNode(edge(a)) == a` in a consistent graph. |
| Lookup.ColorWhileEdgeRemoved | src/index.js:118-123 | Between an edge's removal and its aux node's removal the aux node is coloured white. |
| Lookup.ColorMirrorsEdge | src/index.js:118-123 | While its edge is present an aux node takes the edge's line colour. |
| AuxNodes.WithAuxNode | src/index.js:99-116 | Creating an aux node adds exactly one new id and changes no element except the edge. |
| AuxNodes.CreatedAuxNode | src/index.js:99-116 | After `createAuxNode` the graph is well formed. The new node is locked, sits at the mean of the endpoints and carries the edge id; the edge carries the new id; both lookup round trips hold. |
| AuxNodes.MoveAuxNodesOneMore | src/index.js:136-148 | Handling one more connected edge moves at most that edge's aux node, and only when the midpoint is valid. |
| AuxNodes.RepositionedChangesOnlyConnectedAuxNodes | src/index.js:135-149 | Repositioning keeps the graph consistent and its ids unchanged. It changes only aux nodes of connected edges with a valid midpoint. Each such aux node is moved to its edge's midpoint and locked. Aux nodes whose midpoint is invalid stay put. |
| AuxNodes.RepositionedIdempotent | src/index.js:135-149 | Repositioning twice with the same midpoints equals repositioning once. |
| AuxNodes.RemoveAuxNodeOf | src/index.js:151-155 | `removeAuxNode` throws exactly when `auxNode` throws, with the same error, and then changes nothing. On success it removes exactly the aux node the edge names, or nothing when the id is falsy. |
| AuxNodes.RemoveEdgeKeepsConsistent | src/index.js:131 | Removing an edge removes exactly it and its aux node and keeps the graph consistent. A later `auxNode` on the removed edge object throws a data inconsistency. |
| Resolver.ResolveRef | src/index.js:84-94 | `resolve` leaves an endpoint unresolved exactly when its key names nothing. A node endpoint is kept. An edge endpoint becomes that edge's aux node id, or throws when the edge has none. |
| Resolver.ResolvedNamesNode | src/index.js:84-94 | In a consistent graph a resolved endpoint names a node, and resolving it again is the identity. |
| Resolver.AddToGraphCanCreateAuxNode | src/index.js:71 | After `cy.add(edge)` of a fresh edge between nodes, `createAuxNode` has what it needs. |
| Resolver.InsertedEdgeAndAuxNode | src/index.js:71 | Inserting adds exactly the edge, with the endpoint keys, plus one fresh locked aux node at the endpoints' mean pointing back at it. No other element changes and the graph stays well formed. |
| Resolver.AddEdgeStepFacts | src/index.js:69-74 | `_addEdge` keeps the graph well formed and only adds to it. It throws only the missing-"auxNodeId" error. It changes the graph only when it reports success, and then both endpoints name nodes and exactly two elements were added. A resolved source stays rewritten. |
| Resolver.AddEdgeStepResult | src/index.js:69-74 | `_addEdge` inserts exactly when both ends resolve, and both ends are then rewritten. It throws exactly when resolving the source throws, or the source resolves and resolving the target throws. An end that names nothing makes it return false. |
| Resolver.FailedStepIsStable | src/index.js:69-74 | An edge `_addEdge` could not add, retried on an unchanged graph, again adds nothing and stays as it is. |
| Resolver.PassGrows | src/index.js:56 | A filter pass keeps the graph well formed, only adds to it, and throws only the missing-"auxNodeId" error. |
| Resolver.PassKeeps | src/index.js:56 | The descriptors a pass keeps are among those it got. It keeps all of them exactly when it leaves the graph unchanged. |
| Resolver.PassKeptFresh | src/index.js:56 | The kept descriptors can still be inserted into the graph the pass leaves, because their ids are still fresh and distinct. |
| Resolver.PassInserts | src/index.js:56 | Every descriptor a pass does not keep was inserted: its id is in the graph afterwards, and each such descriptor added exactly two elements. |
| Resolver.PassSpecStep | src/index.js:56 | A pass is `_addEdge` on the first descriptor, which keeps it when not added, followed by the pass over the rest. An error ends the pass. |
| Resolver.PassValuesStep | src/index.js:56 | After a pass, the first descriptor holds the value `_addEdge` rewrote it to. After a throw, the rest hold their old values; otherwise they hold what the pass over the rest leaves. |
| Resolver.PassValuesKeepIds | src/index.js:84-94 | A pass rewrites only endpoints: every descriptor keeps its place and its id. |
| Resolver.PassKeptAmongValues | src/index.js:56 | Every descriptor a pass keeps, with its rewritten value, is among the values the pass leaves. |
| Resolver.PassOfOne | src/index.js:56 | A pass over one descriptor keeps it, rewritten, exactly when `_addEdge` returns false. |
| Resolver.PassOfTwo | src/index.js:56 | A pass over two descriptors keeps them in order. |
| Resolver.NoProgressIsStable | src/index.js:56 | A pass that adds nothing leaves the graph unchanged, and repeating it keeps every descriptor unchanged. |
| Resolver.BatchSpecFacts | src/index.js:53-62 | The `addEdges` loop keeps the graph well formed and only adds to it. The counter stays within the limit. The pass-limit error is thrown exactly when the counter reaches the limit, and a normal end comes before it. A normal end means every descriptor was inserted: every descriptor id is in the graph, which grew by exactly two elements per descriptor. |
| Resolver.StuckBatchThrows | src/index.js:53-62 | A batch whose pass adds nothing runs into the pass limit and throws, leaving the graph unchanged. |
| Resolver.CycleNeverConverges | src/index.js:53-62 | Two edges naming each other as source never get inserted: `addEdges` throws at the limit and the graph is unchanged. |
| Resolver.PassLimitOneAlwaysThrows | src/index.js:57-59 | With a pass limit of 1, `addEdges` always throws. |
| Resolver.DependencyInvertedFirstPass | src/index.js:53-62 | An edge listed before the edge it attaches to is kept in pass one, while the other edge is inserted. |
| Resolver.DependencyInvertedSecondPass | src/index.js:84-94 | In pass two, the waiting edge's target resolves to the aux node of the edge inserted in pass one. The waiting edge is then inserted under a new id, ending at that aux node, and nothing is kept. |
| Resolver.DependencyInvertedBatchTakesTwoPasses | src/index.js:53-62 | Such a batch ends normally after exactly two passes. |
| EdgeConnections.Graph.constructor | src/index.js:17-20 | The plugin starts on an empty graph. A truthy `maxPasses` setting replaces the default 10, and 0 keeps it. |
| EdgeConnections.Graph.MoveNode | src/index.js:130 | Moving an unlocked node then runs `repositionAuxNodes` on it; a locked node does not move. |
| EdgeConnections.Graph.RemoveEdge | src/index.js:131 | Removing an edge fires `removeAuxNode`; the graph afterwards is the one `AuxNodes.RemoveEdge` gives. |
| EdgeConnections.Graph.AddEdgeElement | src/index.js:71 | `cy.add(edge)` inserts the edge, without aux node data, under its own id or a generated one. |
| EdgeConnections.Graph.Resolve | src/index.js:84-94 | `resolve` returns or throws what `ResolveRef` gives, and rewrites the descriptor's end in place exactly when that end resolved. |
| EdgeConnections.Graph.CreateAuxNode | src/index.js:99-116 | `createAuxNode` leaves the graph that `WithAuxNode` describes. |
| EdgeConnections.Graph.TryAddEdge | src/index.js:69-74 | `_addEdge` returns, throws, changes the graph and rewrites the descriptor exactly as `AddEdgeStep` says, keeping the graph well formed. |
| EdgeConnections.Graph.AddEdge | src/index.js:44-48 | `addEdge` throws exactly when `_addEdge` throws, and then throws the same error. It warns exactly when the edge could not be added, and then the graph is unchanged. |
| EdgeConnections.Graph.HandleDescriptor | src/index.js:56 | The filter callback on one descriptor returns or throws, changes the graph and rewrites that descriptor exactly as `AddEdgeStep` says, and changes no other descriptor. The descriptor joins the kept list exactly when `_addEdge` returns false. |
| EdgeConnections.Graph.FilterStep | src/index.js:56 | One filter step adds the descriptor to the kept list exactly when `_addEdge` returns false. A throw ends the pass with `PassSpec`'s error and graph, and every descriptor then holds the value `PassValues` gives. Otherwise the pass is still on course with `PassSpec` and `PassValues` after this descriptor. |
| EdgeConnections.Graph.FilterPass | src/index.js:56 | One `edges.filter(...)` pass leaves the graph `PassSpec` gives. It returns distinct descriptors from its input whose values are those `PassSpec` keeps, or throws its error. Inserted, kept, thrown-on and untouched descriptors all end with the values `PassValues` gives. |
| EdgeConnections.Graph.AddEdges | src/index.js:53-62 | `addEdges` ends, throws, counts passes and leaves the graph exactly as `BatchSpec` says, keeping the graph well formed. |
| EdgeConnections.Graph.RepositionAuxNodes | src/index.js:135-149 | Repositioning leaves exactly the graph `Repositioned` gives. |
| EdgeConnections.Graph.MoveAuxNodeOf | src/index.js:136-148 | One loop step moves the aux node of one connected edge as `MoveAuxNodes` says. |
| EdgeConnections.Graph.RemoveAuxNode | src/index.js:151-155 | `removeAuxNode` throws or removes exactly as `RemoveAuxNodeOf` says. |

## Left out

- Plugin registration (`register`, the global `cytoscape` check) and the style selector are not modelled; they only hand the API to the host. The `style` event (`cy.style().update()`) is covered only as the colour function `ColorAuxNode`.
- `console.warn`/`console.log` are not modelled. `AddEdge` returns a `warned` flag in place of the warning.
- `edge.midpoint()` is Cytoscape's rendering geometry, so the model takes it as a parameter. Within one call the midpoints do not change.
- Cytoscape's own behaviour is left out: removing an aux node does not cascade to edges attached to it. The position events of moved aux nodes (the reposition cascade) are the host's business.
- Coordinates are reals or NaN (`undefined` coerces to NaN in `isNaN`). Infinities and floating-point rounding of the mean are not modelled.
- Ids the host generates are `#<counter>`. The model requires callers' edge and node ids to be fresh, non-empty and not start with `#`. An edge id that collides with an existing element makes Cytoscape throw, and that case is not modelled.
- Null or undefined arguments (`!edge`, `!node`) and objects that are not graph elements are not modelled. A non-edge or non-node is modelled by the element kind.
- The `aux-node` class tag and the colour value itself are not modelled.
- EdgeConnections.Graph.constructor: `maxPasses` is a natural number; a negative configured limit (which would make `addEdges` loop forever) is not modelled. The source keeps the limit in a module-level variable shared by all instances, while the model keeps it per `Graph`.
- EdgeConnections.Graph.AddEdges: the values of the descriptors after a whole batch (their rewritten endpoints) are not stated. Each pass states them: `FilterPass` leaves every descriptor with the value `PassValues` gives. `BatchSpec` does not compose those values across passes. Descriptor objects must be distinct within one batch, so a caller's list that repeats an object is not covered.
- `addEdges` throws when the pass counter reaches the limit, and throws when an endpoint edge lacks an aux node id; it does not report the descriptors it could not add. The model follows the code.
- `createAuxNode` places the aux node at the mean of the endpoint positions, not at the edge's own midpoint, and nothing repositions parallel edges as a bundle. The model follows the code.
- Ids.EndpointRef.Key: numeric endpoint ids are integers written in plain decimal. JavaScript's `toString` writes numbers of magnitude 10^21 or more in exponent form, and non-integer numbers with a fraction; neither is modelled.
- Resolver.Desc: a descriptor always has a source and a target. A descriptor missing one makes `id.toString()` throw a TypeError in `resolve`; that case is not modelled.
- EdgeConnections.Graph.RepositionAuxNodes: requires a consistent graph, and no operation of the model breaks consistency. So the data-inconsistency error `auxNode` can throw inside `repositionAuxNodes` is unreachable here. In the source that error stops the loop after some aux nodes have already moved, in the host's edge order; that partial update is not modelled.
