/** The workspace dependency graph: package versions and typed, ranged dependency edges. */
module DepGraph {
  import opened Outcome
  import opened SemVer
  import opened Ranges

  /** How a dependent declares a dependency: in `dependencies` or in `peerDependencies`. */
  datatype DepKind = Normal | Peer

  /** `dependent` declares `dependency` with the given kind and range. */
  datatype Edge = Edge(dependent: string, dependency: string, kind: DepKind, range: Range)

  /** Current version of every package, and all dependency edges in declaration order. */
  datatype Graph = Graph(versions: map<string, Version>, edges: seq<Edge>)

  datatype GraphError = DanglingEdge(dependent: string, dependency: string)

  predicate Resolves(g: Graph, e: Edge)
  {
    e.dependent in g.versions && e.dependency in g.versions
  }

  /** Every edge names two packages of the workspace. */
  predicate Valid(g: Graph)
  {
    forall k :: 0 <= k < |g.edges| ==> Resolves(g, g.edges[k])
  }

  /** The range `e` declares admits the current version of the package it is declared on. */
  predicate EdgeConsistent(g: Graph, e: Edge)
  {
    e.dependency in g.versions ==> Admits(e.range, g.versions[e.dependency])
  }

  /** Every declared range admits the current version of the package it is declared on. */
  predicate Consistent(g: Graph)
  {
    forall k :: 0 <= k < |g.edges| ==> EdgeConsistent(g, g.edges[k])
  }

  predicate DependsOn(g: Graph, d: string, n: string)
  {
    exists k :: 0 <= k < |g.edges| && g.edges[k].dependent == d && g.edges[k].dependency == n
  }

  /** The first edge, from index `from` on, that names a package absent from the workspace. */
  function CheckEdgesFrom(g: Graph, from: nat): (r: Option<GraphError>)
    requires from <= |g.edges|
    ensures r.None? <==> forall k :: from <= k < |g.edges| ==> Resolves(g, g.edges[k])
    ensures r.Some? ==> exists k :: from <= k < |g.edges| && !Resolves(g, g.edges[k])
                          && r.value == DanglingEdge(g.edges[k].dependent, g.edges[k].dependency)
    decreases |g.edges| - from
  {
    if from == |g.edges| then None
    else if !Resolves(g, g.edges[from]) then
      Some(DanglingEdge(g.edges[from].dependent, g.edges[from].dependency))
    else CheckEdgesFrom(g, from + 1)
  }

  /** Graph integrity: a dangling edge is reported, never dropped. */
  function CheckGraph(g: Graph): (r: Option<GraphError>)
    ensures r.None? <==> Valid(g)
    ensures r.Some? ==> exists k :: 0 <= k < |g.edges| && !Resolves(g, g.edges[k])
                          && r.value == DanglingEdge(g.edges[k].dependent, g.edges[k].dependency)
  {
    CheckEdgesFrom(g, 0)
  }
}
