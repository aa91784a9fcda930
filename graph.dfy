/** The values shared by the renderers, the JSON builder and the aggregating
    factory: Maven artifact coordinates and the graph node that wraps them. */
module Graph {
  import opened Wrappers

  /** Maven artifact coordinates. Every coordinate may be null in Maven's
      `Artifact` interface, so each one is optional. */
  datatype Artifact = Artifact(
    groupId: Option<string>,
    artifactId: Option<string>,
    version: Option<string>,
    scope: Option<string>,
    artifactType: Option<string>,
    classifier: Option<string>)

  /** Why a dependency was kept or left out by Maven's resolution. Its values
      are only carried from a node into a JSON record; no modelled operation
      branches on them, so the type is left abstract. */
  type NodeResolution(==)

  /** A node of the dependency graph. The id is assigned outside the modelled
      code and is treated as an opaque number. */
  datatype GraphNode = GraphNode(
    id: int,
    artifact: Artifact,
    resolution: NodeResolution,
    scopes: set<string>)
}
