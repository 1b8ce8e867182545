/**
 * The adjacency builder (`populate_vertex_neighbors` in src/graph.rs): for
 * every vertex, each candidate neighbour position that belongs to a vertex
 * becomes an edge of unit weight, appended in candidate order.
 */
module Adjacency {
  import opened Geometry
  import opened Graphs

  /** The one weight the builder assigns. */
  const UNIT_WEIGHT: nat := 1

  /** The edges appended for the candidate positions `cands`, in order. */
  function LinkEdges(cands: seq<Coord>, index: map<Coord, nat>): seq<Edge> {
    if |cands| == 0 then []
    else
      var c := cands[|cands| - 1];
      LinkEdges(cands[..|cands| - 1], index) + (if c in index then [Edge(index[c], UNIT_WEIGHT)] else [])
  }

  lemma LinkEdgesStep(cands: seq<Coord>, index: map<Coord, nat>, k: nat)
    requires k < |cands|
    ensures LinkEdges(cands[..k + 1], index) ==
      LinkEdges(cands[..k], index) + (if cands[k] in index then [Edge(index[cands[k]], UNIT_WEIGHT)] else [])
  {
    assert cands[..k + 1][..k] == cands[..k];
  }

  lemma LinkEdgesSnoc(cands: seq<Coord>, c: Coord, index: map<Coord, nat>)
    ensures LinkEdges(cands + [c], index) ==
      LinkEdges(cands, index) + (if c in index then [Edge(index[c], UNIT_WEIGHT)] else [])
  {
    assert (cands + [c])[..|cands|] == cands;
  }

  /** A candidate that holds no vertex adds no edge. */
  lemma LinkEdgesSkip(cands: seq<Coord>, c: Coord, index: map<Coord, nat>)
    requires c !in index
    ensures LinkEdges(cands + [c], index) == LinkEdges(cands, index)
  {
    LinkEdgesSnoc(cands, c, index);
  }

  /** A candidate that holds vertex `t` adds one unit-weight edge to `t`. */
  lemma LinkEdgesTake(cands: seq<Coord>, c: Coord, index: map<Coord, nat>, t: nat)
    requires c in index && index[c] == t
    ensures LinkEdges(cands + [c], index) == LinkEdges(cands, index) + [Edge(t, UNIT_WEIGHT)]
  {
    LinkEdgesSnoc(cands, c, index);
  }

  /** At most one edge per candidate, each of unit weight. */
  lemma {:induction false} LinkEdgesShape(cands: seq<Coord>, index: map<Coord, nat>)
    ensures |LinkEdges(cands, index)| <= |cands|
    ensures forall k :: 0 <= k < |LinkEdges(cands, index)| ==> LinkEdges(cands, index)[k].weight == UNIT_WEIGHT
  {
    if |cands| > 0 {
      LinkEdgesShape(cands[..|cands| - 1], index);
    }
  }

  /** Vertex `v` with the edges to its present candidate neighbours appended. */
  function WithLinks(v: Vertex, index: map<Coord, nat>): Vertex {
    Vertex(v.pos, v.neighbors + LinkEdges(PotentialNeighbors(v.pos), index))
  }

  /** The vertex list after the builder ran on `vs`. */
  function Populated(vs: seq<Vertex>): (r: seq<Vertex>)
    ensures |r| == |vs|
    ensures forall i :: 0 <= i < |vs| ==> r[i].pos == vs[i].pos
  {
    var index := PositionIndex(Positions(vs));
    seq(|vs|, i requires 0 <= i < |vs| => WithLinks(vs[i], index))
  }

  /** Appends to every vertex the edges to the vertices at its candidate neighbour positions. */
  method PopulateVertexNeighbors(vs: array<Vertex>)
    modifies vs
    ensures vs[..] == Populated(old(vs[..]))
  {
    ghost var before := vs[..];
    var index := PositionIndex(Positions(vs[..]));
    var i := 0;
    while i < vs.Length
      invariant 0 <= i <= vs.Length
      invariant forall j :: 0 <= j < i ==> vs[j] == WithLinks(before[j], index)
      invariant forall j :: i <= j < vs.Length ==> vs[j] == before[j]
    {
      LinkVertex(vs, i, index);
      i := i + 1;
    }
    assert forall j :: 0 <= j < vs.Length ==> vs[..][j] == Populated(before)[j];
  }

  /** The body of the builder's loop for vertex `i`: one push per candidate that has a vertex. */
  method LinkVertex(vs: array<Vertex>, i: nat, index: map<Coord, nat>)
    requires i < vs.Length
    modifies vs
    ensures vs[i] == WithLinks(old(vs[i]), index)
    ensures forall j :: 0 <= j < vs.Length && j != i ==> vs[j] == old(vs[j])
  {
    var cands := PotentialNeighbors(vs[i].pos);
    var k := 0;
    while k < |cands|
      invariant 0 <= k <= |cands|
      invariant vs[i] == Vertex(old(vs[i]).pos, old(vs[i]).neighbors + LinkEdges(cands[..k], index))
      invariant forall j :: 0 <= j < vs.Length && j != i ==> vs[j] == old(vs[j])
    {
      LinkEdgesStep(cands, index, k);
      if cands[k] in index {
        var e := Edge(index[cands[k]], UNIT_WEIGHT);
        assert old(vs[i]).neighbors + LinkEdges(cands[..k], index) + [e] ==
          old(vs[i]).neighbors + (LinkEdges(cands[..k], index) + [e]);
        vs[i] := vs[i].(neighbors := vs[i].neighbors + [e]);
      } else {
        assert LinkEdges(cands[..k], index) + [] == LinkEdges(cands[..k], index);
      }
      k := k + 1;
    }
    assert cands[..k] == cands;
  }

  /** An edge is appended for exactly the candidates that have a vertex, pointing at that vertex. */
  lemma {:induction false} LinkEdgesTargets(cands: seq<Coord>, index: map<Coord, nat>, t: nat)
    ensures HasEdge(LinkEdges(cands, index), t) <==> exists c :: c in cands && c in index && index[c] == t
  {
    if |cands| > 0 {
      var init := cands[..|cands| - 1];
      var c := cands[|cands| - 1];
      LinkEdgesTargets(init, index, t);
      var es := LinkEdges(cands, index);
      var tail := if c in index then [Edge(index[c], UNIT_WEIGHT)] else [];
      assert es == LinkEdges(init, index) + tail;
      if HasEdge(es, t) {
        var k :| 0 <= k < |es| && es[k].target == t;
        if k < |LinkEdges(init, index)| {
          assert LinkEdges(init, index)[k] == es[k];
          var d :| d in init && d in index && index[d] == t;
          assert d in cands;
        } else {
          assert c in cands;
        }
      }
      if exists d :: d in cands && d in index && index[d] == t {
        var d :| d in cands && d in index && index[d] == t;
        if d in init {
          var k :| 0 <= k < |LinkEdges(init, index)| && LinkEdges(init, index)[k].target == t;
          assert es[k] == LinkEdges(init, index)[k];
        } else {
          assert d == c;
          assert es[|es| - 1].target == t;
        }
      }
    }
  }

  /** Without duplicate candidates and with an injective index, no two edges share a target. */
  lemma {:induction false} LinkEdgesDistinct(cands: seq<Coord>, index: map<Coord, nat>)
    requires Distinct(cands)
    requires forall c, d :: c in index && d in index && c != d ==> index[c] != index[d]
    ensures forall j, k :: 0 <= j < k < |LinkEdges(cands, index)| ==>
      LinkEdges(cands, index)[j].target != LinkEdges(cands, index)[k].target
  {
    if |cands| > 0 {
      var init := cands[..|cands| - 1];
      var c := cands[|cands| - 1];
      LinkEdgesDistinct(init, index);
      if c in index {
        var es := LinkEdges(cands, index);
        var head := LinkEdges(init, index);
        forall j | 0 <= j < |head|
          ensures head[j].target != index[c]
        {
          assert HasEdge(head, head[j].target);
          LinkEdgesTargets(init, index, head[j].target);
          var d :| d in init && d in index && index[d] == head[j].target;
          assert d != c;
        }
      }
    }
  }

  /**
   * Built from unconnected vertices at distinct positions, vertex i lists
   * vertex j exactly when their positions are orthogonally adjacent.
   */
  lemma AdjacencyExact(vs: seq<Vertex>)
    requires Distinct(Positions(vs))
    requires forall i :: 0 <= i < |vs| ==> vs[i].neighbors == []
    ensures forall i, j :: 0 <= i < |vs| && 0 <= j < |vs| ==>
      (HasEdge(Populated(vs)[i].neighbors, j) <==> Adjacent(vs[i].pos, vs[j].pos))
  {
    var ps := Positions(vs);
    var index := PositionIndex(ps);
    PositionIndexInverse(ps);
    forall i, j | 0 <= i < |vs| && 0 <= j < |vs|
      ensures HasEdge(Populated(vs)[i].neighbors, j) <==> Adjacent(vs[i].pos, vs[j].pos)
    {
      var cands := PotentialNeighbors(vs[i].pos);
      assert Populated(vs)[i].neighbors == LinkEdges(cands, index);
      LinkEdgesTargets(cands, index, j);
      if Adjacent(vs[i].pos, vs[j].pos) {
        assert ps[j] in cands && ps[j] in index && index[ps[j]] == j;
      }
    }
  }

  /** Built from unconnected vertices at distinct positions, adjacency is symmetric. */
  lemma PopulatedSymmetric(vs: seq<Vertex>)
    requires Distinct(Positions(vs))
    requires forall i :: 0 <= i < |vs| ==> vs[i].neighbors == []
    ensures forall i, j :: 0 <= i < |vs| && 0 <= j < |vs| ==>
      (HasEdge(Populated(vs)[i].neighbors, j) <==> HasEdge(Populated(vs)[j].neighbors, i))
  {
    AdjacencyExact(vs);
  }

  /** Every appended edge targets a vertex of the list. */
  lemma PopulatedTargetsValid(vs: seq<Vertex>)
    requires TargetsValid(vs)
    ensures TargetsValid(Populated(vs))
  {
    var r := Populated(vs);
    var index := PositionIndex(Positions(vs));
    PositionIndexSound(Positions(vs));
    forall i, k | 0 <= i < |r| && 0 <= k < |r[i].neighbors|
      ensures r[i].neighbors[k].target < |r|
    {
      var old_ := vs[i].neighbors;
      var added := LinkEdges(PotentialNeighbors(vs[i].pos), index);
      assert r[i].neighbors == old_ + added;
      if k >= |old_| {
        var t := added[k - |old_|].target;
        assert HasEdge(added, t);
        LinkEdgesTargets(PotentialNeighbors(vs[i].pos), index, t);
      }
    }
  }

  /**
   * On a freshly sampled vertex list every vertex gets at most four edges,
   * all of unit weight, none to itself and no two to the same vertex.
   */
  lemma PopulatedDegree(vs: seq<Vertex>)
    requires Distinct(Positions(vs))
    requires forall i :: 0 <= i < |vs| ==> vs[i].neighbors == []
    ensures forall i :: 0 <= i < |vs| ==>
      var es := Populated(vs)[i].neighbors;
      && |es| <= 4
      && !HasEdge(es, i)
      && (forall k :: 0 <= k < |es| ==> es[k].weight == UNIT_WEIGHT)
      && (forall j, k :: 0 <= j < k < |es| ==> es[j].target != es[k].target)
  {
    forall i | 0 <= i < |vs|
      ensures var es := Populated(vs)[i].neighbors;
        && |es| <= 4
        && !HasEdge(es, i)
        && (forall k :: 0 <= k < |es| ==> es[k].weight == UNIT_WEIGHT)
        && (forall j, k :: 0 <= j < k < |es| ==> es[j].target != es[k].target)
    {
      VertexDegree(vs, i);
    }
  }

  lemma VertexDegree(vs: seq<Vertex>, i: nat)
    requires Distinct(Positions(vs))
    requires forall j :: 0 <= j < |vs| ==> vs[j].neighbors == []
    requires i < |vs|
    ensures var es := Populated(vs)[i].neighbors;
      && |es| <= 4
      && !HasEdge(es, i)
      && (forall k :: 0 <= k < |es| ==> es[k].weight == UNIT_WEIGHT)
      && (forall j, k :: 0 <= j < k < |es| ==> es[j].target != es[k].target)
  {
    var ps := Positions(vs);
    var index := PositionIndex(ps);
    PositionIndexInverse(ps);
    var cands := PotentialNeighbors(vs[i].pos);
    assert Distinct(cands) by {
      forall a, b | 0 <= a < b < |cands| ensures cands[a] != cands[b] {
        assert Direction(vs[i].pos, cands[a]) < Direction(vs[i].pos, cands[b]);
      }
    }
    LinkEdgesDistinct(cands, index);
    LinkEdgesShape(cands, index);
    assert Populated(vs)[i].neighbors == LinkEdges(cands, index);
    LinkEdgesTargets(cands, index, i);
    assert !Adjacent(vs[i].pos, vs[i].pos);
  }
}
