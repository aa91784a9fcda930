# depgraph-maven-plugin core, modelled in Dafny

This project models the core of the depgraph Maven plugin. The core has three parts:

- **Node renderers** (`node_renderers.dfy`, module `NodeRenderers`). These are the identity keys of graph nodes. `SCOPED_GROUP_ID`, `VERSIONLESS_ID` and `VERSIONLESS_ID_WITH_SCOPE` each join a fixed list of artifact coordinates with `:` and write a null coordinate as an empty segment.
- **The JSON builder** (`json_builder.dfy`, module `Interactive`). This is the graph builder behind the interactive view. It keeps an insertion-ordered table from artifact to node, and the first node seen for an artifact wins. It keeps an append-only list of dependencies between the stored nodes. It projects both into artifact and dependency records, which it serialises as `var graph = <json>;`.
- **The aggregating graph factory** (`aggregating_graph_factory.dfy`, module `Depgraph`). For a multi-module build, it optionally draws the module tree: one dotted edge per step up each collected project's parent chain, stopping at the aggregating project. It then asks the dependency-graph adapter for the graph of every collected project that belongs in the picture. All of this goes into one shared builder.

Shared values are in `graph.dfy` (module `Graph`): `Artifact`, `NodeResolution` and `GraphNode`. `Option` and `Outcome` are in `wrappers.dfy`.

How the model is built:

- `JsonBuilder` is a class. Its fields `artifacts` (a `seq` of key/node entries with unique keys) and `dependencies` (a `seq`) are reassigned by `AddEdge`. `AddEdge` is proved against the specification function `AddEdgeStep`. The lemmas beside it are stated about `AddEdgeStep`, about runs of it (`AddEdges`), and about the projection `ToGraphJson`.
- `toString`'s two loops are the method `ToGraphJsonRecords`.
- The factory is a class. `createGraph` and `buildModuleTree` are loops that append to a recording builder (`DotBuilder`). They are proved against the specification functions `ModuleTree`, `Walk` and `DependencyGraphs`.

Facts about the code that the model keeps:

- Dependencies are not deduplicated. The builder's inner `Dependency` class has no value equality, so each added pair is a new element of the `LinkedHashSet`. Adding the same pair twice leaves two dependencies (`RepeatedEdgeKept`).
- Node ids come from `GraphNode.getId()` and are opaque. The builder does not assign them, so nothing here claims they are dense or zero-based. What is proved holds whatever the ids are: every dependency record's `from` and `to` is the id of some artifact record (`DependencyIdsResolve`).
- The builder does not merge scopes. Adding an edge stores nothing about scopes; the target node's resolution and scopes are copied into the record when the builder renders.
- There are three key modes. `SCOPED_GROUP_ID` joins only the group id and the scope; `VERSIONLESS_ID` and `VERSIONLESS_ID_WITH_SCOPE` join the artifact coordinates without the version.

## Model

| member | source | states |
|---|---|---|
| NodeRenderers.SplitJoin | src/main/java/com/github/ferstl/depgraph/graph/NodeRenderers.java:64 | Splitting the colon-joined key at `:` gives back every part in order, with null read back as `""`, as long as no part contains `:` |
| NodeRenderers.RenderRoundTrip | src/main/java/com/github/ferstl/depgraph/graph/NodeRenderers.java:25-62 | If no joined coordinate contains `:`, each mode's key splits into exactly its 2, 4 or 5 coordinates (group/scope; group/artifact/type/classifier; those four plus scope), with null read back as `""` |
| NodeRenderers.WithScopeExtendsVersionless | src/main/java/com/github/ferstl/depgraph/graph/NodeRenderers.java:34-60 | The `VERSIONLESS_ID_WITH_SCOPE` key equals the `VERSIONLESS_ID` key followed by `:` and the scope, with `""` for a null scope |
| NodeRenderers.VersionIndependent | src/main/java/com/github/ferstl/depgraph/graph/NodeRenderers.java:25-62 | No mode reads the version, so two nodes whose artifacts differ only in version get equal keys |
| NodeRenderers.NullIsEmptySegment | src/main/java/com/github/ferstl/depgraph/graph/NodeRenderers.java:64 | A null coordinate is an empty segment and is never omitted: replacing every null field by `""` leaves every key unchanged |
| NodeRenderers.RenderInjective | src/main/java/com/github/ferstl/depgraph/graph/NodeRenderers.java:25-64 | Without `:` in the coordinates, two nodes share a key exactly when their joined coordinates agree, with null equal to `""` (both directions) |
| NodeRenderers.WithScopeRefinesVersionless | src/main/java/com/github/ferstl/depgraph/graph/NodeRenderers.java:34-60 | Without `:` in the coordinates, nodes with equal `VERSIONLESS_ID_WITH_SCOPE` keys have equal `VERSIONLESS_ID` keys |
| NodeRenderers.OrEmpty | src/main/java/com/github/ferstl/depgraph/graph/NodeRenderers.java:64 | Definition of `useForNull("")`: a null coordinate is written as `""`. Its properties are stated by `NullIsEmptySegment` and `JoinDependsOnSegments` |
| NodeRenderers.Join | src/main/java/com/github/ferstl/depgraph/graph/NodeRenderers.java:64 | Definition of the `:` joiner. Its properties are stated by `SplitJoin`, `JoinSnoc` and `JoinDependsOnSegments` |
| NodeRenderers.Fields | src/main/java/com/github/ferstl/depgraph/graph/NodeRenderers.java:25-62 | Definition of the coordinates each mode joins, in order. Its properties are stated by `RenderRoundTrip`, `VersionIndependent` and `WithScopeExtendsVersionless` |
| NodeRenderers.Render | src/main/java/com/github/ferstl/depgraph/graph/NodeRenderers.java:25-64 | Definition of a mode's key for a node. Its properties are stated by `RenderRoundTrip`, `RenderInjective`, `VersionIndependent`, `NullIsEmptySegment`, `WithScopeExtendsVersionless` and `WithScopeRefinesVersionless` |
| NodeRenderers.JoinSnoc | src/main/java/com/github/ferstl/depgraph/graph/NodeRenderers.java:64 | Joining one more part appends `:` and that part's rendering to the key |
| NodeRenderers.JoinDependsOnSegments | src/main/java/com/github/ferstl/depgraph/graph/NodeRenderers.java:64 | The joiner sees a part only through its rendering, so parts that render alike (null and `""`) give the same key |
| Interactive.IndexOf | src/main/java/com/github/ferstl/depgraph/interactive/JsonBuilder.java:172 | The lookup finds the first table position holding the key, and it finds none exactly when no entry has that key |
| Interactive.PutIfAbsent | src/main/java/com/github/ferstl/depgraph/interactive/JsonBuilder.java:160-161 | `putIfAbsent` leaves the table unchanged when the node's key is present. Otherwise it appends the node under its own artifact. Either way, keys stay unique |
| Interactive.EffectiveNode | src/main/java/com/github/ferstl/depgraph/interactive/JsonBuilder.java:168-177 | `getEffectiveNode` returns the node stored for the argument's key when there is one, and otherwise the argument itself |
| Interactive.ToGraphJson | src/main/java/com/github/ferstl/depgraph/interactive/JsonBuilder.java:184-204 | One artifact record (node id, artifactId, version) per table entry and one dependency record per dependency, both in insertion order. `resolution` and `scopes` are taken from the target node |
| Interactive.AddEdgeStep | src/main/java/com/github/ferstl/depgraph/interactive/JsonBuilder.java:157-166 | Definition of one `addEdge(from, to)` on the table and dependency list. Its properties are stated by `NullEndpointIgnored`, `AddEdgeAppendsStoredDependency`, `AddEdgePreservesConsistent`, `RepeatedEdgeKept` and `AddEdgeExtendsJson` |
| Interactive.NullEndpointIgnored | src/main/java/com/github/ferstl/depgraph/interactive/JsonBuilder.java:158-166 | If either endpoint is null, `addEdge` leaves the table and the dependency list unchanged |
| Interactive.AddEdgeAppendsStoredDependency | src/main/java/com/github/ferstl/depgraph/interactive/JsonBuilder.java:159-163 | With two endpoints, `addEdge` appends exactly one dependency, at the end. Its endpoints are the nodes stored for the endpoints' keys. Earlier table entries stay in place, and at most two are added at the end |
| Interactive.AddEdgePreservesConsistent | src/main/java/com/github/ferstl/depgraph/interactive/JsonBuilder.java:157-166 | `addEdge` keeps the builder's invariant: one entry per key, each keyed by its own node's artifact, and both ends of every dependency are stored nodes |
| Interactive.FirstSeenWins | src/main/java/com/github/ferstl/depgraph/interactive/JsonBuilder.java:160-161 | After any run of `addEdge` calls, every entry the table had is still there, unchanged and in its position. A later node for a stored key never replaces the first |
| Interactive.AddEdgesPreserveConsistent | src/main/java/com/github/ferstl/depgraph/interactive/JsonBuilder.java:157-166 | Any run of `addEdge` calls keeps the builder's invariant, so each key has exactly one node |
| Interactive.RepeatedEdgeKept | src/main/java/com/github/ferstl/depgraph/interactive/JsonBuilder.java:125-136 | Adding the same pair twice appends two equal dependencies, because dependencies are not deduplicated. The second call does not change the table |
| Interactive.DependencyIdsResolve | src/main/java/com/github/ferstl/depgraph/interactive/JsonBuilder.java:196-204 | In a consistent builder, each dependency record's `from` and `to` is the id of some artifact record |
| Interactive.AddEdgeExtendsJson | src/main/java/com/github/ferstl/depgraph/interactive/JsonBuilder.java:157-204 | Each two-endpoint `addEdge` adds exactly one dependency record, at the end. Artifact records are only ever added at the end, so the rendered order is insertion order |
| Interactive.JsonBuilder.constructor | src/main/java/com/github/ferstl/depgraph/interactive/JsonBuilder.java:139-142 | A new builder has no name, an empty table and no dependencies, and its invariant holds |
| Interactive.JsonBuilder.GraphName | src/main/java/com/github/ferstl/depgraph/interactive/JsonBuilder.java:145-149 | `graphName` stores the name and changes nothing else |
| Interactive.JsonBuilder.AddEdgeWithRenderer | src/main/java/com/github/ferstl/depgraph/interactive/JsonBuilder.java:151-154 | The renderer-taking `addEdge` always fails with an unsupported-operation error and changes nothing |
| Interactive.JsonBuilder.AddEdge | src/main/java/com/github/ferstl/depgraph/interactive/JsonBuilder.java:157-166 | The new table and dependency list are `AddEdgeStep` of the old ones, and the invariant is preserved |
| Interactive.JsonBuilder.GetEffectiveNode | src/main/java/com/github/ferstl/depgraph/interactive/JsonBuilder.java:168-177 | With no entry for the node's key the node itself is returned. In a consistent builder, it is the node stored under that key |
| Interactive.JsonBuilder.ToGraphJsonRecords | src/main/java/com/github/ferstl/depgraph/interactive/JsonBuilder.java:182-204 | The two loops of `toString` build exactly the records `ToGraphJson` gives for the current table and dependency list |
| Interactive.JsonBuilder.ToString | src/main/java/com/github/ferstl/depgraph/interactive/JsonBuilder.java:179-215 | The output is `"var graph = "`, the serialised records, and `";"`. The graph name is not an input |
| Depgraph.FilterProject | src/main/java/com/github/ferstl/depgraph/AggregatingGraphFactory.java:99-106 | A project rejected by the filter becomes a null node, and it is passed on, not skipped. An accepted one becomes a node for its own artifact |
| Depgraph.IsPartOfGraph | src/main/java/com/github/ferstl/depgraph/AggregatingGraphFactory.java:89-97 | A project is part of the graph iff the filter accepts its artifact and (it has no modules or parent projects are included) |
| Depgraph.ModuleEdge | src/main/java/com/github/ferstl/depgraph/AggregatingGraphFactory.java:73-76 | The module-tree call is a dotted edge. Each endpoint is null exactly when the filter rejects that project's artifact, and otherwise is a node for that artifact |
| Depgraph.ChainEdges | src/main/java/com/github/ferstl/depgraph/AggregatingGraphFactory.java:72-85 | With no parent the loop emits nothing. Otherwise it emits at least one edge and at most one per project above the child, so on a parent chain numbered parent-before-child it ends |
| Depgraph.Walk | src/main/java/com/github/ferstl/depgraph/AggregatingGraphFactory.java:69-85 | A collected project gets a module-tree edge iff it has a parent, and project number c gets at most c edges |
| Depgraph.ModuleTree | src/main/java/com/github/ferstl/depgraph/AggregatingGraphFactory.java:65-87 | Definition of the calls `buildModuleTree` makes: the walks of the collected projects in list order. Its properties are stated by `ModuleTreeDotted`, `WalkShape`, `WalkLength` and `WalkChains` |
| Depgraph.DependencyGraphs | src/main/java/com/github/ferstl/depgraph/AggregatingGraphFactory.java:55-60 | The loop makes at most one call per collected project, and every call is a dependency-graph request for a collected project. `DependencyGraphsExactly` states which projects get one |
| Depgraph.WalkShape | src/main/java/com/github/ferstl/depgraph/AggregatingGraphFactory.java:68-86 | Edge i of a collected project's walk is the dotted edge from its (i+1)-th ancestor to its i-th. No earlier edge enters the root. The walk ends right after the edge into the root or when the parent is null |
| Depgraph.WalkLength | src/main/java/com/github/ferstl/depgraph/AggregatingGraphFactory.java:72-85 | A project k levels below the aggregating project gets exactly k module-tree edges |
| Depgraph.WalkChains | src/main/java/com/github/ferstl/depgraph/AggregatingGraphFactory.java:83-84 | Consecutive edges of a walk chain: each edge's child node is the previous edge's parent node |
| Depgraph.ModuleTreeDotted | src/main/java/com/github/ferstl/depgraph/AggregatingGraphFactory.java:76 | Every module-tree call is an edge with the dotted renderer |
| Depgraph.DependencyGraphsExactly | src/main/java/com/github/ferstl/depgraph/AggregatingGraphFactory.java:55-60 | A dependency graph is requested for a project iff the project is collected and part of the graph. Nothing else is requested, and there is at most one request per collected project |
| Depgraph.AggregatingGraphFactory.constructor | src/main/java/com/github/ferstl/depgraph/AggregatingGraphFactory.java:38-44 | The factory stores its graph-builder adapter, artifact filter, DOT builder and the include-parent-projects flag |
| Depgraph.AggregatingGraphFactory.CreateGraph | src/main/java/com/github/ferstl/depgraph/AggregatingGraphFactory.java:46-63 | The builder receives the module tree first, and only when parent projects are included. The dependency-graph requests follow, in list order. The result is the builder's rendering after all of them |
| Depgraph.AggregatingGraphFactory.BuildModuleTree | src/main/java/com/github/ferstl/depgraph/AggregatingGraphFactory.java:65-87 | The builder receives the walks of the collected projects, in list order |
| Depgraph.AggregatingGraphFactory.ClimbParentChain | src/main/java/com/github/ferstl/depgraph/AggregatingGraphFactory.java:69-85 | The inner `while` loop appends exactly the walk of one collected project |

## Left out

- Jackson serialisation is not modelled. `ObjectMapper` is a foreign library, so the serialiser is a parameter of `ToString`, and the `JsonProcessingException` path (an internal error) is not modelled.
- Graph nodes are values. In the source, a stored `GraphNode` is a shared object. If the dependency adapter changes its scopes or resolution after `addEdge`, `toString` shows the change. The model does not capture this aliasing.
- Maven `Artifact` equality is not shown. The table is generic over a key type, with a key function `keyOf` standing for that equality.
- Maven project equality (`parent.equals(parentProject)`) is modelled as equality of positions in the project sequence.
- `Depgraph.WellFormed` numbers every parent before its child, so the model has no cyclic parent chain at all. That excludes the cycles that never reach the aggregating project, on which the source's `while` loop would never end, and also the cycles that pass through it, on which the source does end at the `break` (AggregatingGraphFactory.java lines 79-81).
- Dependency resolution is not modelled. `GraphBuilderAdapter.buildDependencyGraph` resolves a project's dependency tree, which is external, so the model only records the request. Its failure (`DependencyGraphException`) is not modelled.
- The DOT builder's rendering is not modelled. Its node and edge text and the `AttributeBuilder` text of the dotted style are not part of this model. `DotBuilder` records the calls it receives, and its rendering is that record.
- `NodeResolution` is an abstract type with equality. Its values are not part of this model; they only travel from a node into its dependency record.
- The `omitSelfReferences` field is never used by the builder and is not modelled.
- The `return this` of the builder methods is not modelled. It exists only for call chaining.
- The Maven mojos, `DotGraphStyleConfigurer` and the `GraphBuilder` interface are outside the core. They hold plumbing, flag storage and signatures only.
