/** The builder behind the interactive (JSON) graph: a first-seen-wins table
    of nodes keyed by artifact, an append-only list of dependencies between
    the stored nodes, and their projection into the records the browser view
    reads as `var graph = <json>;`. */
module Interactive {
  import opened Wrappers
  import opened Graph

  /** One entry of the artifact table: the key artifact and the stored node. */
  datatype Entry = Entry(artifact: Artifact, node: GraphNode)

  /** A dependency between two stored nodes. It has no value equality in the
      source, so the list of dependencies keeps every one that is added. */
  datatype Dependency = Dependency(from: GraphNode, to: GraphNode)

  /** The node table and the dependency list together, as one value. */
  datatype Table = Table(entries: seq<Entry>, dependencies: seq<Dependency>)

  datatype ArtifactJson = ArtifactJson(id: int, artifactId: Option<string>, version: Option<string>)

  datatype DependencyJson = DependencyJson(from: int, to: int, resolution: NodeResolution, scopes: set<string>)

  datatype GraphJson = GraphJson(artifacts: seq<ArtifactJson>, dependencies: seq<DependencyJson>)

  datatype Unsupported = UnsupportedOperation(operation: string)

  /** The artifact equality the table uses is given as a key function: two
      artifacts are equal for the table when their keys are equal. */
  function KeyAt<K>(keyOf: Artifact -> K, entries: seq<Entry>, i: nat): K
    requires i < |entries|
  {
    keyOf(entries[i].artifact)
  }

  /** Position of the entry with key k, if any. */
  function IndexOf<K(==)>(keyOf: Artifact -> K, entries: seq<Entry>, k: K): (r: Option<nat>)
    ensures r.Some? ==> r.value < |entries| && KeyAt(keyOf, entries, r.value) == k
    ensures r.Some? ==> forall j :: 0 <= j < r.value ==> KeyAt(keyOf, entries, j) != k
    ensures r.None? <==> forall j :: 0 <= j < |entries| ==> KeyAt(keyOf, entries, j) != k
    decreases |entries|
  {
    if |entries| == 0 then None
    else if keyOf(entries[0].artifact) == k then Some(0)
    else
      assert forall j :: 1 <= j < |entries| ==> KeyAt(keyOf, entries, j) == KeyAt(keyOf, entries[1..], j - 1);
      match IndexOf(keyOf, entries[1..], k)
      case None => None
      case Some(i) => Some(i + 1)
  }

  ghost predicate HasKey<K>(keyOf: Artifact -> K, entries: seq<Entry>, k: K)
  {
    exists i :: 0 <= i < |entries| && KeyAt(keyOf, entries, i) == k
  }

  ghost predicate UniqueKeys<K>(keyOf: Artifact -> K, entries: seq<Entry>)
  {
    forall i, j :: 0 <= i < j < |entries| ==> KeyAt(keyOf, entries, i) != KeyAt(keyOf, entries, j)
  }

  /** Every entry is keyed by the artifact of its own node. */
  ghost predicate SelfKeyed(entries: seq<Entry>)
  {
    forall i :: 0 <= i < |entries| ==> entries[i].artifact == entries[i].node.artifact
  }

  ghost predicate Stored(entries: seq<Entry>, n: GraphNode)
  {
    exists i :: 0 <= i < |entries| && entries[i].node == n
  }

  /** The builder's invariant: one entry per key, each keyed by its own node,
      and every dependency joins two stored nodes. */
  ghost predicate Consistent<K>(keyOf: Artifact -> K, t: Table)
  {
    && UniqueKeys(keyOf, t.entries)
    && SelfKeyed(t.entries)
    && forall d :: d in t.dependencies ==> Stored(t.entries, d.from) && Stored(t.entries, d.to)
  }

  /** `putIfAbsent(node.getArtifact(), node)` on the insertion-ordered table. */
  function PutIfAbsent<K(==)>(keyOf: Artifact -> K, entries: seq<Entry>, node: GraphNode): (r: seq<Entry>)
    ensures HasKey(keyOf, entries, keyOf(node.artifact)) ==> r == entries
    ensures !HasKey(keyOf, entries, keyOf(node.artifact)) ==> r == entries + [Entry(node.artifact, node)]
    ensures UniqueKeys(keyOf, entries) ==> UniqueKeys(keyOf, r)
  {
    if IndexOf(keyOf, entries, keyOf(node.artifact)).Some? then entries
    else
      var r := entries + [Entry(node.artifact, node)];
      assert forall i :: 0 <= i < |entries| ==> KeyAt(keyOf, r, i) == KeyAt(keyOf, entries, i);
      r
  }

  /** The stored node for the node's key, or the node itself when its key is absent. */
  function EffectiveNode<K(==)>(keyOf: Artifact -> K, entries: seq<Entry>, node: GraphNode): (r: GraphNode)
    ensures !HasKey(keyOf, entries, keyOf(node.artifact)) ==> r == node
    ensures forall i :: (0 <= i < |entries| && KeyAt(keyOf, entries, i) == keyOf(node.artifact) &&
                         UniqueKeys(keyOf, entries)) ==> r == entries[i].node
  {
    match IndexOf(keyOf, entries, keyOf(node.artifact))
    case Some(i) => entries[i].node
    case None => node
  }

  /** One `addEdge(from, to)`: nothing when an endpoint is null; otherwise
      register both endpoints, then append a dependency between the stored
      nodes for their keys. */
  function AddEdgeStep<K(==)>(keyOf: Artifact -> K, t: Table, from: Option<GraphNode>, to: Option<GraphNode>): Table
  {
    if from.None? || to.None? then t
    else
      var entries := PutIfAbsent(keyOf, PutIfAbsent(keyOf, t.entries, from.value), to.value);
      var d := Dependency(EffectiveNode(keyOf, entries, from.value), EffectiveNode(keyOf, entries, to.value));
      Table(entries, t.dependencies + [d])
  }

  /** Many `addEdge` calls in order. */
  function AddEdges<K(==)>(keyOf: Artifact -> K, t: Table, edges: seq<(Option<GraphNode>, Option<GraphNode>)>): Table
    decreases |edges|
  {
    if |edges| == 0 then t
    else AddEdges(keyOf, AddEdgeStep(keyOf, t, edges[0].0, edges[0].1), edges[1..])
  }

  function ArtifactRecord(e: Entry): ArtifactJson
  {
    ArtifactJson(e.node.id, e.artifact.artifactId, e.artifact.version)
  }

  /** A dependency record: the endpoints' ids, and the resolution and scopes of the target. */
  function DependencyRecord(d: Dependency): DependencyJson
  {
    DependencyJson(d.from.id, d.to.id, d.to.resolution, d.to.scopes)
  }

  /** The records `toString` hands to the JSON serialiser: one artifact record
      per table entry and one dependency record per dependency, both in
      insertion order. */
  function ToGraphJson(t: Table): (g: GraphJson)
    ensures |g.artifacts| == |t.entries|
    ensures forall i :: 0 <= i < |t.entries| ==> g.artifacts[i] == ArtifactRecord(t.entries[i])
    ensures |g.dependencies| == |t.dependencies|
    ensures forall k :: 0 <= k < |t.dependencies| ==> g.dependencies[k] == DependencyRecord(t.dependencies[k])
  {
    GraphJson(
      seq(|t.entries|, i requires 0 <= i < |t.entries| => ArtifactRecord(t.entries[i])),
      seq(|t.dependencies|, k requires 0 <= k < |t.dependencies| => DependencyRecord(t.dependencies[k])))
  }

  // ---------------------------------------------------------------------------
  // Properties of addEdge and of the projection

  /** A null endpoint leaves the table and the dependency list as they were. */
  lemma NullEndpointIgnored<K>(keyOf: Artifact -> K, t: Table, from: Option<GraphNode>, to: Option<GraphNode>)
    requires from.None? || to.None?
    ensures AddEdgeStep(keyOf, t, from, to) == t
  {
  }

  /** With two endpoints, addEdge appends exactly one dependency, at the end,
      whose endpoints are the nodes stored for the endpoints' keys; the table
      keeps every entry it had, in place, and gains at most two at the end. */
  lemma AddEdgeAppendsStoredDependency<K>(keyOf: Artifact -> K, t: Table, from: GraphNode, to: GraphNode)
    requires Consistent(keyOf, t)
    ensures var t' := AddEdgeStep(keyOf, t, Some(from), Some(to));
      && |t'.dependencies| == |t.dependencies| + 1
      && t'.dependencies[..|t.dependencies|] == t.dependencies
      && |t.entries| <= |t'.entries| <= |t.entries| + 2
      && t'.entries[..|t.entries|] == t.entries
      && var d := t'.dependencies[|t.dependencies|];
      && (exists i :: 0 <= i < |t'.entries| && t'.entries[i].node == d.from && KeyAt(keyOf, t'.entries, i) == keyOf(from.artifact))
      && (exists j :: 0 <= j < |t'.entries| && t'.entries[j].node == d.to && KeyAt(keyOf, t'.entries, j) == keyOf(to.artifact))
  {
    var e1 := PutIfAbsent(keyOf, t.entries, from);
    var e2 := PutIfAbsent(keyOf, e1, to);
    var i := StoredForKey(keyOf, t.entries, from);
    assert KeyAt(keyOf, e2, i) == keyOf(from.artifact);
    var j := StoredForKey(keyOf, e1, to);
    assert KeyAt(keyOf, e2, j) == keyOf(to.artifact);
  }

  /** After putIfAbsent the node's key is present, at a position of the new table. */
  lemma StoredForKey<K>(keyOf: Artifact -> K, entries: seq<Entry>, node: GraphNode) returns (i: nat)
    ensures var r := PutIfAbsent(keyOf, entries, node);
      i < |r| && KeyAt(keyOf, r, i) == keyOf(node.artifact)
  {
    var r := PutIfAbsent(keyOf, entries, node);
    match IndexOf(keyOf, entries, keyOf(node.artifact))
    case Some(k) => i := k;
    case None =>
      i := |entries|;
      assert r[i] == Entry(node.artifact, node);
  }

  /** A node stored in a table is still stored once entries are appended. */
  lemma StoredInExtension(entries: seq<Entry>, entries': seq<Entry>, n: GraphNode)
    requires |entries| <= |entries'| && entries'[..|entries|] == entries
    requires Stored(entries, n)
    ensures Stored(entries', n)
  {
    var i :| 0 <= i < |entries| && entries[i].node == n;
    assert entries'[i] == entries[i];
  }

  lemma PutIfAbsentSelfKeyed<K>(keyOf: Artifact -> K, entries: seq<Entry>, node: GraphNode)
    requires SelfKeyed(entries)
    ensures SelfKeyed(PutIfAbsent(keyOf, entries, node))
  {
  }

  /** addEdge keeps the builder's invariant: keys stay unique and both endpoints
      of every dependency, old and new, are stored nodes. */
  lemma AddEdgePreservesConsistent<K>(keyOf: Artifact -> K, t: Table, from: Option<GraphNode>, to: Option<GraphNode>)
    requires Consistent(keyOf, t)
    ensures Consistent(keyOf, AddEdgeStep(keyOf, t, from, to))
  {
    if from.Some? && to.Some? {
      var t' := AddEdgeStep(keyOf, t, from, to);
      var e1 := PutIfAbsent(keyOf, t.entries, from.value);
      PutIfAbsentSelfKeyed(keyOf, t.entries, from.value);
      PutIfAbsentSelfKeyed(keyOf, e1, to.value);
      AddEdgeAppendsStoredDependency(keyOf, t, from.value, to.value);
      forall d | d in t'.dependencies ensures Stored(t'.entries, d.from) && Stored(t'.entries, d.to) {
        if d in t.dependencies {
          StoredInExtension(t.entries, t'.entries, d.from);
          StoredInExtension(t.entries, t'.entries, d.to);
        } else {
          assert d == t'.dependencies[|t.dependencies|];
        }
      }
    }
  }

  /** First seen wins, across any run of addEdge calls: an entry in the table
      is never replaced or moved, whatever nodes later calls bring for its key. */
  lemma {:induction false} FirstSeenWins<K>(keyOf: Artifact -> K, t: Table, edges: seq<(Option<GraphNode>, Option<GraphNode>)>)
    ensures var t' := AddEdges(keyOf, t, edges);
      |t.entries| <= |t'.entries| && t'.entries[..|t.entries|] == t.entries
    decreases |edges|
  {
    if |edges| > 0 {
      var t1 := AddEdgeStep(keyOf, t, edges[0].0, edges[0].1);
      FirstSeenWins(keyOf, t1, edges[1..]);
      var t' := AddEdges(keyOf, t, edges);
      assert t1.entries[..|t.entries|] == t.entries;
      assert t'.entries[..|t.entries|] == t'.entries[..|t1.entries|][..|t.entries|];
    }
  }

  /** Any run of addEdge calls keeps the invariant, so every key has one node. */
  lemma {:induction false} AddEdgesPreserveConsistent<K>(keyOf: Artifact -> K, t: Table, edges: seq<(Option<GraphNode>, Option<GraphNode>)>)
    requires Consistent(keyOf, t)
    ensures Consistent(keyOf, AddEdges(keyOf, t, edges))
    decreases |edges|
  {
    if |edges| > 0 {
      AddEdgePreservesConsistent(keyOf, t, edges[0].0, edges[0].1);
      AddEdgesPreserveConsistent(keyOf, AddEdgeStep(keyOf, t, edges[0].0, edges[0].1), edges[1..]);
    }
  }

  /** Dependencies are not deduplicated: adding the same pair twice leaves two
      equal dependencies at the end of the list. */
  lemma RepeatedEdgeKept<K>(keyOf: Artifact -> K, t: Table, from: GraphNode, to: GraphNode)
    ensures var t1 := AddEdgeStep(keyOf, t, Some(from), Some(to));
      var t2 := AddEdgeStep(keyOf, t1, Some(from), Some(to));
      && |t2.dependencies| == |t.dependencies| + 2
      && t2.dependencies[|t.dependencies|] == t2.dependencies[|t.dependencies| + 1]
      && t2.entries == t1.entries
  {
    var t1 := AddEdgeStep(keyOf, t, Some(from), Some(to));
    var e1 := PutIfAbsent(keyOf, t.entries, from);
    var a := StoredForKey(keyOf, t.entries, from);
    assert KeyAt(keyOf, t1.entries, a) == keyOf(from.artifact);
    var b := StoredForKey(keyOf, e1, to);
    assert KeyAt(keyOf, t1.entries, b) == keyOf(to.artifact);
  }

  /** Every dependency record refers, by `from` and by `to`, to the id of some artifact record. */
  ghost predicate ReferencesResolve(g: GraphJson)
  {
    forall k :: 0 <= k < |g.dependencies| ==>
      IsArtifactId(g, g.dependencies[k].from) && IsArtifactId(g, g.dependencies[k].to)
  }

  ghost predicate IsArtifactId(g: GraphJson, id: int)
  {
    exists i :: 0 <= i < |g.artifacts| && g.artifacts[i].id == id
  }

  /** The JSON references resolve: in a consistent builder, the `from` and `to`
      of every dependency record are ids of artifact records. */
  lemma DependencyIdsResolve<K>(keyOf: Artifact -> K, t: Table)
    requires Consistent(keyOf, t)
    ensures ReferencesResolve(ToGraphJson(t))
  {
  }

  /** Each addEdge with two endpoints adds exactly one dependency record, at the
      end, and artifact records only at the end, so the rendered order is
      insertion order. */
  lemma AddEdgeExtendsJson<K>(keyOf: Artifact -> K, t: Table, from: GraphNode, to: GraphNode)
    requires Consistent(keyOf, t)
    ensures var g := ToGraphJson(t);
      var g' := ToGraphJson(AddEdgeStep(keyOf, t, Some(from), Some(to)));
      && |g'.dependencies| == |g.dependencies| + 1
      && g'.dependencies[..|g.dependencies|] == g.dependencies
      && g'.artifacts[..|g.artifacts|] == g.artifacts
  {
  }

  // ---------------------------------------------------------------------------
  // The builder itself

  class JsonBuilder<K(==)> {
    const keyOf: Artifact -> K
    var graphName: Option<string>
    var artifacts: seq<Entry>
    var dependencies: seq<Dependency>

    ghost predicate Valid()
      reads this
    {
      Consistent(keyOf, Table(artifacts, dependencies))
    }

    constructor(keyOf: Artifact -> K)
      ensures Valid()
      ensures this.keyOf == keyOf && graphName == None && artifacts == [] && dependencies == []
    {
      this.keyOf := keyOf;
      graphName := None;
      artifacts := [];
      dependencies := [];
    }

    /** Stores the graph name; nothing reads it when rendering. */
    method GraphName(name: Option<string>)
      modifies this`graphName
      ensures graphName == name
    {
      graphName := name;
    }

    /** The edge-attribute variant is not supported by this builder: it always fails. */
    method AddEdgeWithRenderer<R>(from: Option<GraphNode>, to: Option<GraphNode>, renderer: R)
      returns (r: Outcome<Unsupported>)
      ensures r == Fail(UnsupportedOperation("addEdge"))
    {
      r := Fail(UnsupportedOperation("addEdge"));
    }

    method AddEdge(from: Option<GraphNode>, to: Option<GraphNode>)
      requires Valid()
      modifies this`artifacts, this`dependencies
      ensures Valid()
      ensures Table(artifacts, dependencies) == AddEdgeStep(keyOf, old(Table(artifacts, dependencies)), from, to)
    {
      AddEdgePreservesConsistent(keyOf, Table(artifacts, dependencies), from, to);
      if from.Some? && to.Some? {
        artifacts := PutIfAbsent(keyOf, artifacts, from.value);
        artifacts := PutIfAbsent(keyOf, artifacts, to.value);
        dependencies := dependencies + [Dependency(GetEffectiveNode(from.value), GetEffectiveNode(to.value))];
      }
    }

    /** The node stored for the argument's artifact, or the argument itself. */
    function GetEffectiveNode(node: GraphNode): (r: GraphNode)
      reads this
      ensures !HasKey(keyOf, artifacts, keyOf(node.artifact)) ==> r == node
      ensures Valid() ==> forall i :: 0 <= i < |artifacts| && KeyAt(keyOf, artifacts, i) == keyOf(node.artifact) ==>
                                      r == artifacts[i].node
    {
      EffectiveNode(keyOf, artifacts, node)
    }

    /** Collects the records: one pass over the table, one over the dependencies. */
    method ToGraphJsonRecords() returns (g: GraphJson)
      ensures g == ToGraphJson(Table(artifacts, dependencies))
    {
      var records: seq<ArtifactJson> := [];
      var i := 0;
      while i < |artifacts|
        invariant 0 <= i <= |artifacts|
        invariant records == ToGraphJson(Table(artifacts[..i], [])).artifacts
      {
        records := records + [ArtifactJson(artifacts[i].node.id, artifacts[i].artifact.artifactId, artifacts[i].artifact.version)];
        i := i + 1;
      }
      var deps: seq<DependencyJson> := [];
      var k := 0;
      while k < |dependencies|
        invariant 0 <= k <= |dependencies|
        invariant deps == ToGraphJson(Table([], dependencies[..k])).dependencies
      {
        var d := dependencies[k];
        deps := deps + [DependencyJson(d.from.id, d.to.id, d.to.resolution, d.to.scopes)];
        k := k + 1;
      }
      assert artifacts[..i] == artifacts;
      assert dependencies[..k] == dependencies;
      g := GraphJson(records, deps);
    }

    /** `toString`: the serialised records wrapped as a script assignment. The
        serialiser is a parameter; the graph name is not an input. */
    method ToString(writeValueAsString: GraphJson -> string) returns (s: string)
      ensures s == "var graph = " + writeValueAsString(ToGraphJson(Table(artifacts, dependencies))) + ";"
    {
      var g := ToGraphJsonRecords();
      s := "var graph = " + writeValueAsString(g) + ";";
    }
  }
}
