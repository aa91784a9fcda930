/** The graph factory for a multi-module build: optionally draws the module
    tree (dotted edges from each parent project to its child) and then asks
    the dependency-graph adapter to add the graph of every collected project
    that belongs in the picture, all into one shared builder. */
module Depgraph {
  import opened Wrappers
  import opened Graph

  /** A Maven project of the build. Projects live in one sequence and refer
      to their parent and their collected projects by position. */
  datatype Project = Project(
    artifact: Artifact,
    modules: seq<string>,
    parent: Option<nat>,
    collectedProjects: seq<nat>)

  /** Positions are in range, and a parent comes before its child, which is how
      an acyclic parent chain is numbered (every chain ends). */
  ghost predicate WellFormed(projects: seq<Project>)
  {
    forall i :: 0 <= i < |projects| ==>
      && (projects[i].parent.Some? ==> projects[i].parent.value < i)
      && InRange(projects, projects[i].collectedProjects)
  }

  ghost predicate InRange(projects: seq<Project>, cs: seq<nat>)
  {
    forall i :: 0 <= i < |cs| ==> cs[i] < |projects|
  }

  /** The DOT node for a project's artifact. */
  datatype Node = DependencyNodeAdapter(artifact: Artifact)

  /** The edge renderer used for module-tree edges; it draws a dotted line. */
  datatype EdgeRenderer = DottedEdgeRenderer

  /** What the shared builder is asked to do, in order. */
  datatype Call =
    | AddEdge(from: Option<Node>, to: Option<Node>, renderer: EdgeRenderer)
    | BuildDependencyGraph(project: nat)

  /** The node for a project, or null when the filter rejects its artifact. */
  function FilterProject(accepts: Artifact -> bool, project: Project): (r: Option<Node>)
    ensures r.None? <==> !accepts(project.artifact)
    ensures r.Some? ==> r.value.artifact == project.artifact
  {
    if accepts(project.artifact) then Some(DependencyNodeAdapter(project.artifact)) else None
  }

  /** Whether a collected project's own dependency graph is drawn: its artifact
      passes the filter and, if it has modules, parent projects are wanted. */
  predicate IsPartOfGraph(accepts: Artifact -> bool, includeParentProjects: bool, project: Project)
    ensures IsPartOfGraph(accepts, includeParentProjects, project) <==>
            accepts(project.artifact) && (|project.modules| == 0 || includeParentProjects)
  {
    var result := accepts(project.artifact);
    if result && |project.modules| > 0 then result && includeParentProjects else result
  }

  /** The dotted edge from a parent project to a child project. */
  function ModuleEdge(accepts: Artifact -> bool, projects: seq<Project>, parent: nat, child: nat): (r: Call)
    requires parent < |projects| && child < |projects|
    ensures r.AddEdge? && r.renderer == DottedEdgeRenderer
    ensures r.from.None? <==> !accepts(projects[parent].artifact)
    ensures r.to.None? <==> !accepts(projects[child].artifact)
    ensures r.from.Some? ==> r.from.value.artifact == projects[parent].artifact
    ensures r.to.Some? ==> r.to.value.artifact == projects[child].artifact
  {
    AddEdge(FilterProject(accepts, projects[parent]), FilterProject(accepts, projects[child]), DottedEdgeRenderer)
  }

  /** The edges the walk emits from the pair (child, parent) on: one per step,
      ending after the edge into the root, or when there is no parent. */
  function ChainEdges(accepts: Artifact -> bool, projects: seq<Project>, root: nat, child: nat, parent: Option<nat>): (r: seq<Call>)
    requires WellFormed(projects)
    requires child < |projects| && (parent.Some? ==> parent.value < |projects|)
    ensures parent.None? ==> r == []
    ensures parent.Some? ==> 1 <= |r| <= parent.value + 1
    decreases if parent.Some? then parent.value + 1 else 0
  {
    match parent
    case None => []
    case Some(p) =>
      [ModuleEdge(accepts, projects, p, child)] +
      (if p == root then [] else ChainEdges(accepts, projects, root, p, projects[p].parent))
  }

  /** The walk for one collected project c. */
  function Walk(accepts: Artifact -> bool, projects: seq<Project>, root: nat, c: nat): (r: seq<Call>)
    requires WellFormed(projects) && c < |projects|
    ensures |r| <= c
    ensures projects[c].parent.Some? <==> |r| > 0
  {
    ChainEdges(accepts, projects, root, c, projects[c].parent)
  }

  /** The walks of the given collected projects, in order. */
  function ModuleTree(accepts: Artifact -> bool, projects: seq<Project>, root: nat, cs: seq<nat>): seq<Call>
    requires WellFormed(projects)
    requires InRange(projects, cs)
  {
    if |cs| == 0 then []
    else ModuleTree(accepts, projects, root, cs[..|cs| - 1]) + Walk(accepts, projects, root, cs[|cs| - 1])
  }

  /** The dependency-graph requests for the given collected projects, in order. */
  function DependencyGraphs(accepts: Artifact -> bool, includeParentProjects: bool, projects: seq<Project>, cs: seq<nat>): (r: seq<Call>)
    requires InRange(projects, cs)
    ensures |r| <= |cs|
    ensures forall k :: 0 <= k < |r| ==> r[k].BuildDependencyGraph? && r[k].project in cs
  {
    if |cs| == 0 then []
    else
      var c := cs[|cs| - 1];
      DependencyGraphs(accepts, includeParentProjects, projects, cs[..|cs| - 1]) +
      (if IsPartOfGraph(accepts, includeParentProjects, projects[c]) then [BuildDependencyGraph(c)] else [])
  }

  /** The k-th project up the parent chain of c (c itself for k = 0), if it exists. */
  function Ancestor(projects: seq<Project>, c: nat, k: nat): (r: Option<nat>)
    requires WellFormed(projects) && c < |projects|
    ensures r.Some? ==> r.value < |projects|
    decreases k
  {
    if k == 0 then Some(c)
    else
      match projects[c].parent
      case None => None
      case Some(p) => Ancestor(projects, p, k - 1)
  }

  /** The call e is the dotted edge from the (i+1)-th ancestor of c to its i-th. */
  ghost predicate StepEdge(accepts: Artifact -> bool, projects: seq<Project>, c: nat, i: nat, e: Call)
    requires WellFormed(projects) && c < |projects|
  {
    && Ancestor(projects, c, i).Some?
    && Ancestor(projects, c, i + 1).Some?
    && e == ModuleEdge(accepts, projects, Ancestor(projects, c, i + 1).value, Ancestor(projects, c, i).value)
  }

  // ---------------------------------------------------------------------------
  // Properties of the module-tree walk and of the driver

  /** The walk for c is exactly: for i = 0, 1, ..., the dotted edge from the
      (i+1)-th ancestor to the i-th; no edge before the last goes into the
      root; and it ends either after the edge into the root or at the top of
      the chain. */
  lemma {:induction false} WalkShape(accepts: Artifact -> bool, projects: seq<Project>, root: nat, c: nat)
    requires WellFormed(projects) && c < |projects|
    ensures var w := Walk(accepts, projects, root, c);
      && (forall i :: 0 <= i < |w| ==> StepEdge(accepts, projects, c, i, w[i]))
      && (forall j :: 1 <= j < |w| ==> Ancestor(projects, c, j) != Some(root))
      && ((|w| >= 1 && Ancestor(projects, c, |w|) == Some(root)) || Ancestor(projects, c, |w| + 1) == None)
    decreases c
  {
    var w := Walk(accepts, projects, root, c);
    match projects[c].parent
    case None =>
      assert w == [];
    case Some(p) =>
      assert Ancestor(projects, c, 1) == Some(p);
      if p == root {
        assert w == [ModuleEdge(accepts, projects, p, c)];
      } else {
        var w' := Walk(accepts, projects, root, p);
        WalkShape(accepts, projects, root, p);
        assert w == [ModuleEdge(accepts, projects, p, c)] + w';
        forall k: nat ensures Ancestor(projects, c, k + 1) == Ancestor(projects, p, k) {
        }
        forall i | 0 <= i < |w| ensures StepEdge(accepts, projects, c, i, w[i]) {
          if i > 0 {
            assert w[i] == w'[i - 1];
          }
        }
      }
  }

  lemma {:induction false} AncestorAbsentAbove(projects: seq<Project>, c: nat, n: nat, m: nat)
    requires WellFormed(projects) && c < |projects|
    requires n <= m && Ancestor(projects, c, n) == None
    ensures Ancestor(projects, c, m) == None
    decreases n
  {
    match projects[c].parent
    case None =>
    case Some(p) =>
      assert n > 0;
      AncestorAbsentAbove(projects, p, n - 1, m - 1);
  }

  /** Where a walk stops: no edge before the last goes into the root, and the
      walk ends after the edge into the root or at the top of the chain. */
  lemma WalkStops(accepts: Artifact -> bool, projects: seq<Project>, root: nat, c: nat)
    requires WellFormed(projects) && c < |projects|
    ensures var n := |Walk(accepts, projects, root, c)|;
      && (forall j :: 1 <= j < n ==> Ancestor(projects, c, j) != Some(root))
      && ((n >= 1 && Ancestor(projects, c, n) == Some(root)) || Ancestor(projects, c, n + 1) == None)
  {
    WalkShape(accepts, projects, root, c);
  }

  /** A chain that stops as a walk does, k levels below the root, has length k. */
  lemma StopsAtDepth(projects: seq<Project>, root: nat, c: nat, n: nat, k: nat)
    requires WellFormed(projects) && c < |projects|
    requires k >= 1 && Ancestor(projects, c, k) == Some(root)
    requires forall j :: 1 <= j < k ==> Ancestor(projects, c, j) != Some(root)
    requires forall j :: 1 <= j < n ==> Ancestor(projects, c, j) != Some(root)
    requires (n >= 1 && Ancestor(projects, c, n) == Some(root)) || Ancestor(projects, c, n + 1) == None
    ensures n == k
  {
    if n < k && Ancestor(projects, c, n + 1) == None {
      AncestorAbsentAbove(projects, c, n + 1, k);
    }
  }

  /** A project k levels below the root gets exactly k module-tree edges. */
  lemma WalkLength(accepts: Artifact -> bool, projects: seq<Project>, root: nat, c: nat, k: nat)
    requires WellFormed(projects) && c < |projects|
    requires k >= 1 && Ancestor(projects, c, k) == Some(root)
    requires forall j :: 1 <= j < k ==> Ancestor(projects, c, j) != Some(root)
    ensures |Walk(accepts, projects, root, c)| == k
  {
    WalkStops(accepts, projects, root, c);
    StopsAtDepth(projects, root, c, |Walk(accepts, projects, root, c)|, k);
  }

  /** Every call is an edge and each edge starts where the previous one ends.
      Adjacent positions are named i and j (j == i + 1) so that the quantifier
      has the index terms w[i] and w[j] to trigger on; w[i + 1] gives none. */
  ghost predicate Chained(w: seq<Call>)
  {
    forall i, j :: 0 <= i < j < |w| && j == i + 1 ==> w[i].AddEdge? && w[j].AddEdge? && w[j].to == w[i].from
  }

  /** Consecutive edges of a walk chain: each edge's child is the previous edge's parent. */
  lemma WalkChains(accepts: Artifact -> bool, projects: seq<Project>, root: nat, c: nat)
    requires WellFormed(projects) && c < |projects|
    ensures Chained(Walk(accepts, projects, root, c))
  {
    WalkShape(accepts, projects, root, c);
  }

  /** Every module-tree call is an edge drawn with the dotted renderer. */
  lemma {:induction false} ModuleTreeDotted(accepts: Artifact -> bool, projects: seq<Project>, root: nat, cs: seq<nat>)
    requires WellFormed(projects)
    requires InRange(projects, cs)
    ensures forall x :: x in ModuleTree(accepts, projects, root, cs) ==> x.AddEdge? && x.renderer == DottedEdgeRenderer
    decreases |cs|
  {
    if |cs| > 0 {
      ModuleTreeDotted(accepts, projects, root, cs[..|cs| - 1]);
      var c := cs[|cs| - 1];
      var w := Walk(accepts, projects, root, c);
      WalkShape(accepts, projects, root, c);
      forall x | x in w ensures x.AddEdge? && x.renderer == DottedEdgeRenderer {
        var i :| 0 <= i < |w| && w[i] == x;
      }
    }
  }

  /** A dependency graph is requested for a project exactly when it is one of the
      collected projects and is part of the graph, and nothing else is requested. */
  lemma {:induction false} DependencyGraphsExactly(accepts: Artifact -> bool, includeParentProjects: bool, projects: seq<Project>, cs: seq<nat>)
    requires InRange(projects, cs)
    ensures var calls := DependencyGraphs(accepts, includeParentProjects, projects, cs);
      && |calls| <= |cs|
      && (forall x :: x in calls ==> x.BuildDependencyGraph?)
      && (forall c: nat :: BuildDependencyGraph(c) in calls <==>
            c in cs && IsPartOfGraph(accepts, includeParentProjects, projects[c]))
    decreases |cs|
  {
    if |cs| > 0 {
      var init := cs[..|cs| - 1];
      DependencyGraphsExactly(accepts, includeParentProjects, projects, init);
      assert forall c :: c in cs <==> c in init || c == cs[|cs| - 1];
    }
  }

  // ---------------------------------------------------------------------------
  // The collaborators, as recorders of calls

  /** The shared graph builder. It records what it is asked to draw; its
      rendering is that record. */
  class DotBuilder {
    var calls: seq<Call>

    constructor()
      ensures calls == []
    {
      calls := [];
    }

    method AddEdge(from: Option<Node>, to: Option<Node>, renderer: EdgeRenderer)
      modifies this
      ensures calls == old(calls) + [Call.AddEdge(from, to, renderer)]
    {
      calls := calls + [Call.AddEdge(from, to, renderer)];
    }

    function ToString(): seq<Call>
      reads this
    {
      calls
    }
  }

  /** Resolves a project's dependencies and adds them to the builder. The
      resolution itself is not modelled: the request is recorded. */
  class GraphBuilderAdapter {
    constructor() {}

    method BuildDependencyGraph(project: nat, filter: Artifact -> bool, builder: DotBuilder)
      modifies builder
      ensures builder.calls == old(builder.calls) + [Call.BuildDependencyGraph(project)]
    {
      builder.calls := builder.calls + [Call.BuildDependencyGraph(project)];
    }
  }

  class AggregatingGraphFactory {
    const graphBuilderAdapter: GraphBuilderAdapter
    const artifactFilter: Artifact -> bool
    const dotBuilder: DotBuilder
    const includeParentProjects: bool

    constructor(graphBuilderAdapter: GraphBuilderAdapter, artifactFilter: Artifact -> bool,
                dotBuilder: DotBuilder, includeParentProjects: bool)
      ensures this.graphBuilderAdapter == graphBuilderAdapter && this.artifactFilter == artifactFilter
      ensures this.dotBuilder == dotBuilder && this.includeParentProjects == includeParentProjects
    {
      this.graphBuilderAdapter := graphBuilderAdapter;
      this.artifactFilter := artifactFilter;
      this.dotBuilder := dotBuilder;
      this.includeParentProjects := includeParentProjects;
    }

    /** The module tree (only when parent projects are wanted) comes first, then
        the dependency graphs of the collected projects that are part of the
        graph, in their order; the result is the builder's rendering. */
    method CreateGraph(projects: seq<Project>, parent: nat) returns (graph: seq<Call>)
      requires WellFormed(projects) && parent < |projects|
      modifies dotBuilder
      ensures var cs := projects[parent].collectedProjects;
        dotBuilder.calls ==
          old(dotBuilder.calls) +
          (if includeParentProjects then ModuleTree(artifactFilter, projects, parent, cs) else []) +
          DependencyGraphs(artifactFilter, includeParentProjects, projects, cs)
      ensures graph == dotBuilder.calls
    {
      var collectedProjects := projects[parent].collectedProjects;
      if includeParentProjects {
        BuildModuleTree(projects, parent, dotBuilder);
      }
      ghost var afterTree := dotBuilder.calls;
      var i := 0;
      while i < |collectedProjects|
        invariant 0 <= i <= |collectedProjects|
        invariant dotBuilder.calls ==
          afterTree + DependencyGraphs(artifactFilter, includeParentProjects, projects, collectedProjects[..i])
      {
        var collectedProject := collectedProjects[i];
        assert collectedProjects[..i + 1][..i] == collectedProjects[..i];
        if IsPartOfGraph(artifactFilter, includeParentProjects, projects[collectedProject]) {
          graphBuilderAdapter.BuildDependencyGraph(collectedProject, artifactFilter, dotBuilder);
        }
        i := i + 1;
      }
      assert collectedProjects[..i] == collectedProjects;
      graph := dotBuilder.ToString();
    }

    /** For every collected project, climbs its parent chain adding one dotted
        edge per step, and stops after the edge into `parentProject` or at a
        project without a parent. */
    method BuildModuleTree(projects: seq<Project>, parentProject: nat, dotBuilder: DotBuilder)
      requires WellFormed(projects) && parentProject < |projects|
      modifies dotBuilder
      ensures dotBuilder.calls ==
        old(dotBuilder.calls) + ModuleTree(artifactFilter, projects, parentProject, projects[parentProject].collectedProjects)
    {
      var collectedProjects := projects[parentProject].collectedProjects;
      var n := 0;
      while n < |collectedProjects|
        invariant 0 <= n <= |collectedProjects|
        invariant dotBuilder.calls ==
          old(dotBuilder.calls) + ModuleTree(artifactFilter, projects, parentProject, collectedProjects[..n])
      {
        var collectedProject := collectedProjects[n];
        ClimbParentChain(projects, parentProject, collectedProject, dotBuilder);
        assert collectedProjects[..n + 1][..n] == collectedProjects[..n];
        n := n + 1;
      }
      assert collectedProjects[..n] == collectedProjects;
    }

    /** The body of the module-tree loop for one collected project: the walk up
        its parent chain. */
    method ClimbParentChain(projects: seq<Project>, parentProject: nat, collectedProject: nat, dotBuilder: DotBuilder)
      requires WellFormed(projects) && collectedProject < |projects|
      modifies dotBuilder
      ensures dotBuilder.calls == old(dotBuilder.calls) + Walk(artifactFilter, projects, parentProject, collectedProject)
    {
      ghost var walk := Walk(artifactFilter, projects, parentProject, collectedProject);
      var child: nat := collectedProject;
      var parent: Option<nat> := projects[collectedProject].parent;
      while parent.Some?
        invariant child < |projects| && (parent.Some? ==> parent.value < |projects|)
        invariant dotBuilder.calls + ChainEdges(artifactFilter, projects, parentProject, child, parent) == old(dotBuilder.calls) + walk
        decreases if parent.Some? then parent.value + 1 else 0
      {
        ghost var rest := if parent.value == parentProject then [] else
          ChainEdges(artifactFilter, projects, parentProject, parent.value, projects[parent.value].parent);
        assert ChainEdges(artifactFilter, projects, parentProject, child, parent) ==
          [ModuleEdge(artifactFilter, projects, parent.value, child)] + rest;
        var parentNode := FilterProject(artifactFilter, projects[parent.value]);
        var childNode := FilterProject(artifactFilter, projects[child]);
        dotBuilder.AddEdge(parentNode, childNode, DottedEdgeRenderer);
        assert dotBuilder.calls + rest == old(dotBuilder.calls) + walk;

        // Stop once the edge into the aggregating project is drawn.
        if parent.value == parentProject {
          break;
        }

        child := parent.value;
        parent := projects[parent.value].parent;
      }
    }
  }
}
