/**
 * The index-based graph of src/graph.rs: vertices stored in one sequence,
 * each holding its position and an ordered list of (target index, weight)
 * edges; plus the graph-level notions (well-formedness, edges, paths) that
 * the construction and search modules are specified with.
 */
module Graphs {
  import opened Geometry

  datatype Option<T> = None | Some(value: T)

  /** An edge stored on its source vertex. Weights are the whole numbers the source's f32 weights take. */
  datatype Edge = Edge(target: nat, weight: nat)

  datatype Vertex = Vertex(pos: Coord, neighbors: seq<Edge>)

  datatype Graph = Graph(start: nat, end: nat, vertices: seq<Vertex>)

  /** Every edge of every vertex targets an index of `vs`. */
  predicate TargetsValid(vs: seq<Vertex>) {
    forall i, k :: 0 <= i < |vs| && 0 <= k < |vs[i].neighbors| ==> vs[i].neighbors[k].target < |vs|
  }

  /** What the searches need to index their scratch vectors safely. */
  predicate WellFormed(g: Graph) {
    g.start < |g.vertices| && g.end < |g.vertices| && TargetsValid(g.vertices)
  }

  predicate HasEdge(es: seq<Edge>, v: nat) {
    exists k :: 0 <= k < |es| && es[k].target == v
  }

  /** The stored edge list of `u` holds an edge to `v`. */
  predicate Links(g: Graph, u: nat, v: nat) {
    u < |g.vertices| && HasEdge(g.vertices[u].neighbors, v)
  }

  /**
   * A walk along stored edges: a non-empty sequence of vertex indices in
   * which each element lists the next one among its neighbours.
   */
  predicate IsWalk(g: Graph, p: seq<nat>) {
    && |p| >= 1
    && (forall k :: 0 <= k < |p| ==> p[k] < |g.vertices|)
    && (forall k :: 0 <= k < |p| - 1 ==> Links(g, p[k], p[k + 1]))
  }

  predicate IsPath(g: Graph, p: seq<nat>, s: nat, t: nat) {
    IsWalk(g, p) && p[0] == s && p[|p| - 1] == t
  }

  ghost predicate Reachable(g: Graph, s: nat, t: nat) {
    exists p :: IsPath(g, p, s, t)
  }

  /** No two elements of `ps` are equal. */
  predicate Distinct<T(==)>(ps: seq<T>) {
    forall i, j :: 0 <= i < j < |ps| ==> ps[i] != ps[j]
  }

  function Positions(vs: seq<Vertex>): (ps: seq<Coord>)
    ensures |ps| == |vs|
    ensures forall k :: 0 <= k < |vs| ==> ps[k] == vs[k].pos
  {
    seq(|vs|, k requires 0 <= k < |vs| => vs[k].pos)
  }

  /**
   * The position-to-index map that the source collects from the
   * enumerated vertices; on a repeated position the later index wins.
   */
  function PositionIndex(ps: seq<Coord>): (m: map<Coord, nat>)
    ensures |ps| > 0 ==> ps[|ps| - 1] in m && m[ps[|ps| - 1]] == |ps| - 1
  {
    if |ps| == 0 then map[]
    else PositionIndex(ps[..|ps| - 1])[ps[|ps| - 1] := |ps| - 1]
  }

  /** Every listed position is a key, mapped to the last index holding it. */
  lemma {:induction false} PositionIndexSound(ps: seq<Coord>)
    ensures forall c :: c in PositionIndex(ps) ==> PositionIndex(ps)[c] < |ps| && ps[PositionIndex(ps)[c]] == c
    ensures forall j :: 0 <= j < |ps| ==> ps[j] in PositionIndex(ps) && j <= PositionIndex(ps)[ps[j]]
  {
    if |ps| > 0 {
      PositionIndexSound(ps[..|ps| - 1]);
    }
  }

  /** With distinct positions the map is the exact inverse of the enumeration. */
  lemma PositionIndexInverse(ps: seq<Coord>)
    requires Distinct(ps)
    ensures forall c :: c in PositionIndex(ps) ==> PositionIndex(ps)[c] < |ps| && ps[PositionIndex(ps)[c]] == c
    ensures forall j :: 0 <= j < |ps| ==> ps[j] in PositionIndex(ps) && PositionIndex(ps)[ps[j]] == j
  {
    PositionIndexSound(ps);
  }

  /**
   * The index of the first edge in `es` that targets `v`: the `find` the
   * source runs over a neighbour list.
   */
  function FirstEdgeTo(es: seq<Edge>, v: nat): (r: Option<nat>)
    ensures r.None? <==> !HasEdge(es, v)
    ensures r.Some? ==> r.value < |es| && es[r.value].target == v
    ensures r.Some? ==> forall k :: 0 <= k < r.value ==> es[k].target != v
  {
    if |es| == 0 then None
    else if es[0].target == v then Some(0)
    else match FirstEdgeTo(es[1..], v)
      case None => None
      case Some(k) => Some(k + 1)
  }
}
