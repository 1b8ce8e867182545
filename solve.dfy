/**
 * The dispatcher (`solve_graph` in src/pathfinding.rs): runs the search
 * the caller picked on the graph, from its start to its end.
 */
module Solve {
  import opened Graphs
  import opened Paths
  import Dfs
  import Bfs
  import Dijkstra

  /** The three searches, spelled as the source spells them. */
  datatype PathfindingAlgorithm = DepthFirst | BreadthFirst | Djikstra

  /**
   * Whichever search runs, a returned path runs along stored edges from
   * start to end without repeating a vertex, and nothing is returned only
   * when the end cannot be reached; breadth-first returns a path of fewest
   * edges and Dijkstra one of least cost.
   */
  method SolveGraph(g: Graph, algo: PathfindingAlgorithm) returns (r: Option<seq<nat>>)
    requires WellFormed(g)
    ensures r.Some? ==> IsPath(g, r.value, g.start, g.end) && Distinct(r.value)
    ensures r.None? <==> !Reachable(g, g.start, g.end)
    ensures g.start == g.end ==> r == Some([g.start])
    ensures algo.BreadthFirst? && r.Some? ==> forall q :: IsPath(g, q, g.start, g.end) ==> |r.value| <= |q|
    ensures algo.Djikstra? && r.Some? ==>
      forall q :: IsPath(g, q, g.start, g.end) ==> MinPathCost(g, r.value) <= MinPathCost(g, q)
  {
    match algo
    case DepthFirst =>
      r := Dfs.DfsIterative(g);
    case BreadthFirst =>
      r := Bfs.Bfs(g);
    case Djikstra =>
      r := Dijkstra.Dijkstra(g);
  }
}
