/**
 * The graph reducer (`reduce_vertex_count` in src/graph.rs): one forward
 * sweep over the vertex indices that collapses every vertex having exactly
 * two edges into a direct edge between its two neighbours, rewriting the
 * neighbours' edges in place and clearing the collapsed vertex's list.
 */
module Reducer {
  import opened Geometry
  import opened Graphs

  /** `es` with its first edge to `from` replaced by `e`; `es` itself when no edge targets `from`. */
  function RedirectFirst(es: seq<Edge>, from: nat, e: Edge): (r: seq<Edge>)
    ensures |r| == |es|
    ensures forall k :: 0 <= k < |es| ==> r[k] == if FirstEdgeTo(es, from) == Some(k) then e else es[k]
  {
    match FirstEdgeTo(es, from)
    case None => es
    case Some(k) => es[k := e]
  }

  /** `vs` with the first edge of vertex `v` to `from` replaced by `e`. */
  function Redirected(vs: seq<Vertex>, v: nat, from: nat, e: Edge): (r: seq<Vertex>)
    requires v < |vs|
    ensures |r| == |vs|
    ensures forall j :: 0 <= j < |vs| ==> r[j].pos == vs[j].pos && |r[j].neighbors| == |vs[j].neighbors|
    ensures TargetsValid(vs) && e.target < |vs| ==> TargetsValid(r)
    ensures forall j :: 0 <= j < |vs| && j != v ==> r[j] == vs[j]
    ensures forall k :: 0 <= k < |vs[v].neighbors| ==>
      r[v].neighbors[k] == if FirstEdgeTo(vs[v].neighbors, from) == Some(k) then e else vs[v].neighbors[k]
  {
    vs[v := vs[v].(neighbors := RedirectFirst(vs[v].neighbors, from, e))]
  }

  /**
   * The sweep's step at index `i`. With edges (a, wa), (b, wb) on `i`: a's
   * first edge to `i` becomes (b, wa + wb), then b's first edge to `i`
   * becomes (a, wb + wb) -- the source doubles wb here -- and `i` loses
   * all its edges. Any other vertex is left as it is.
   */
  function Collapse(vs: seq<Vertex>, i: nat): (r: seq<Vertex>)
    requires i < |vs| && TargetsValid(vs)
    ensures |r| == |vs|
    ensures forall j :: 0 <= j < |vs| ==> r[j].pos == vs[j].pos
    ensures forall j :: 0 <= j < |vs| ==>
      |r[j].neighbors| == if j == i && |vs[i].neighbors| == 2 then 0 else |vs[j].neighbors|
    ensures TargetsValid(r)
  {
    if |vs[i].neighbors| != 2 then vs
    else
      var ea, eb := vs[i].neighbors[0], vs[i].neighbors[1];
      var a, b := ea.target, eb.target;
      var s1 := Redirected(vs, a, i, Edge(b, ea.weight + eb.weight));
      var s2 := Redirected(s1, b, i, Edge(a, eb.weight + eb.weight));
      s2[i := s2[i].(neighbors := [])]
  }

  /** The vertex list after the sweep has visited indices `i` onwards. */
  function ReduceFrom(vs: seq<Vertex>, i: nat): seq<Vertex>
    requires i <= |vs| && TargetsValid(vs)
    decreases |vs| - i
  {
    if i == |vs| then vs else ReduceFrom(Collapse(vs, i), i + 1)
  }

  function Reduced(vs: seq<Vertex>): seq<Vertex>
    requires TargetsValid(vs)
  {
    ReduceFrom(vs, 0)
  }

  /** Collapses, in one forward sweep and in place, every vertex that has exactly two edges when reached. */
  method ReduceVertexCount(vs: array<Vertex>)
    requires TargetsValid(vs[..])
    modifies vs
    ensures vs[..] == Reduced(old(vs[..]))
  {
    for i := 0 to vs.Length
      invariant TargetsValid(vs[..])
      invariant ReduceFrom(vs[..], i) == Reduced(old(vs[..]))
    {
      CollapseAt(vs, i);
    }
  }

  /** One step of the sweep, in place. */
  method CollapseAt(vs: array<Vertex>, i: nat)
    requires i < vs.Length && TargetsValid(vs[..])
    modifies vs
    ensures vs[..] == Collapse(old(vs[..]), i)
  {
    ghost var s0 := vs[..];
    if |vs[i].neighbors| == 2 {
      var ea := vs[i].neighbors[0];
      var eb := vs[i].neighbors[1];
      RedirectAt(vs, ea.target, i, Edge(eb.target, ea.weight + eb.weight));
      ghost var s1 := vs[..];
      assert s1 == Redirected(s0, ea.target, i, Edge(eb.target, ea.weight + eb.weight));
      RedirectAt(vs, eb.target, i, Edge(ea.target, eb.weight + eb.weight));
      ghost var s2 := vs[..];
      assert s2 == Redirected(s1, eb.target, i, Edge(ea.target, eb.weight + eb.weight));
      vs[i] := vs[i].(neighbors := []);
      assert vs[..] == s2[i := s2[i].(neighbors := [])];
      CollapseTwo(s0, i, s1, s2);
    }
  }

  /** The step at a vertex with two edges, through the two intermediate states the sweep passes. */
  lemma CollapseTwo(vs: seq<Vertex>, i: nat, s1: seq<Vertex>, s2: seq<Vertex>)
    requires i < |vs| && TargetsValid(vs) && |vs[i].neighbors| == 2
    requires var ea, eb := vs[i].neighbors[0], vs[i].neighbors[1];
      && s1 == Redirected(vs, ea.target, i, Edge(eb.target, ea.weight + eb.weight))
      && s2 == Redirected(s1, eb.target, i, Edge(ea.target, eb.weight + eb.weight))
    ensures i < |s2| && Collapse(vs, i) == s2[i := s2[i].(neighbors := [])]
  {
  }

  /** Overwrites, in place, the first edge of vertex `v` that targets `from` with `e`, if there is one. */
  method RedirectAt(vs: array<Vertex>, v: nat, from: nat, e: Edge)
    requires v < vs.Length
    modifies vs
    ensures vs[..] == Redirected(old(vs[..]), v, from, e)
  {
    var found := FirstEdgeTo(vs[v].neighbors, from);
    if found.Some? {
      vs[v] := vs[v].(neighbors := vs[v].neighbors[found.value := e]);
    }
  }

  /**
   * Once the sweep has passed index `i` (no earlier vertex has two edges),
   * the rest of it keeps the length, the positions and valid targets, and
   * leaves every edge count as it was except that a vertex at `i` or later
   * with two edges ends with none.
   */
  lemma {:induction false} ReduceFromShape(vs: seq<Vertex>, i: nat)
    requires i <= |vs| && TargetsValid(vs)
    ensures var r := ReduceFrom(vs, i);
      && |r| == |vs|
      && TargetsValid(r)
      && (forall j :: 0 <= j < |vs| ==> r[j].pos == vs[j].pos)
      && (forall j :: 0 <= j < |vs| ==>
            |r[j].neighbors| == if i <= j && |vs[j].neighbors| == 2 then 0 else |vs[j].neighbors|)
    decreases |vs| - i
  {
    if i < |vs| {
      ReduceFromShape(Collapse(vs, i), i + 1);
    }
  }

  /**
   * The reducer keeps the vertex count, every position and valid targets;
   * it never adds an edge: a vertex with two edges ends with none, and
   * every other vertex keeps its edge count.
   */
  lemma ReducedShape(vs: seq<Vertex>)
    requires TargetsValid(vs)
    ensures var r := Reduced(vs);
      && |r| == |vs|
      && TargetsValid(r)
      && (forall j :: 0 <= j < |vs| ==> r[j].pos == vs[j].pos)
      && (forall j :: 0 <= j < |vs| ==>
            |r[j].neighbors| == if |vs[j].neighbors| == 2 then 0 else |vs[j].neighbors|)
  {
    ReduceFromShape(vs, 0);
  }

  /** After the reducer no vertex has exactly two edges. */
  lemma NoCorridorVertexLeft(vs: seq<Vertex>)
    requires TargetsValid(vs)
    ensures forall j :: 0 <= j < |Reduced(vs)| ==> |Reduced(vs)[j].neighbors| != 2
  {
    ReducedShape(vs);
  }

  /** Without a two-edge vertex the sweep changes nothing. */
  lemma {:induction false} ReduceFromNoCorridor(vs: seq<Vertex>, i: nat)
    requires i <= |vs| && TargetsValid(vs)
    requires forall j :: 0 <= j < |vs| ==> |vs[j].neighbors| != 2
    ensures ReduceFrom(vs, i) == vs
    decreases |vs| - i
  {
    if i < |vs| {
      ReduceFromNoCorridor(vs, i + 1);
    }
  }

  /** Running the reducer a second time changes nothing. */
  lemma ReduceIdempotent(vs: seq<Vertex>)
    requires TargetsValid(vs)
    ensures TargetsValid(Reduced(vs)) && Reduced(Reduced(vs)) == Reduced(vs)
  {
    ReducedShape(vs);
    NoCorridorVertexLeft(vs);
    ReduceFromNoCorridor(Reduced(vs), 0);
  }

  /**
   * Collapsing vertex `i` between two other, distinct vertices `a` and `b`:
   * the slot of `a`'s first edge to `i` now holds an edge to `b` weighing
   * wa + wb, the slot of `b`'s first edge to `i` an edge to `a` weighing
   * wb + wb, and every other slot of theirs is kept; a neighbour without an
   * edge back to `i` keeps its list; `i` ends with no edge and every other
   * vertex is untouched.
   */
  lemma CollapseBypasses(vs: seq<Vertex>, i: nat)
    requires i < |vs| && TargetsValid(vs)
    requires |vs[i].neighbors| == 2
    requires var a, b := vs[i].neighbors[0].target, vs[i].neighbors[1].target;
      a != b && a != i && b != i
    ensures var r := Collapse(vs, i);
      var ea, eb := vs[i].neighbors[0], vs[i].neighbors[1];
      var a, b := ea.target, eb.target;
      && r[i].neighbors == []
      && |r[a].neighbors| == |vs[a].neighbors| && |r[b].neighbors| == |vs[b].neighbors|
      && (forall k :: 0 <= k < |vs[a].neighbors| ==>
            r[a].neighbors[k] == if FirstEdgeTo(vs[a].neighbors, i) == Some(k) then Edge(b, ea.weight + eb.weight)
                                 else vs[a].neighbors[k])
      && (forall k :: 0 <= k < |vs[b].neighbors| ==>
            r[b].neighbors[k] == if FirstEdgeTo(vs[b].neighbors, i) == Some(k) then Edge(a, eb.weight + eb.weight)
                                 else vs[b].neighbors[k])
      && (!HasEdge(vs[a].neighbors, i) ==> r[a] == vs[a])
      && (!HasEdge(vs[b].neighbors, i) ==> r[b] == vs[b])
      && (forall j :: 0 <= j < |vs| && j != a && j != b && j != i ==> r[j] == vs[j])
  {
  }

  /**
   * Collapsing vertex `i` whose two edges both lead to the same other
   * vertex `a`: the source's two first-edge searches run on `a`'s list one
   * after the other. The first edge to `i` becomes a loop (a, wa + wb); the
   * second search then finds the next edge to `i`, if any, and makes it
   * (a, wb + wb). Every other slot of `a`, every other vertex, is kept.
   */
  lemma CollapseDoubleEdge(vs: seq<Vertex>, i: nat)
    requires i < |vs| && TargetsValid(vs)
    requires |vs[i].neighbors| == 2
    requires vs[i].neighbors[0].target == vs[i].neighbors[1].target != i
    ensures var r := Collapse(vs, i);
      var wa, wb := vs[i].neighbors[0].weight, vs[i].neighbors[1].weight;
      var a, es := vs[i].neighbors[0].target, vs[vs[i].neighbors[0].target].neighbors;
      && r[i].neighbors == []
      && (forall j :: 0 <= j < |vs| && j != a && j != i ==> r[j] == vs[j])
      && |r[a].neighbors| == |es|
      && (!HasEdge(es, i) ==> r[a] == vs[a])
      && (HasEdge(es, i) ==>
            var f := FirstEdgeTo(es, i).value;
            forall k :: 0 <= k < |es| ==>
              r[a].neighbors[k] ==
                if k == f then Edge(a, wa + wb)
                else if f < k && es[k].target == i && (forall j :: f < j < k ==> es[j].target != i) then Edge(a, wb + wb)
                else es[k])
  {
    var wa, wb := vs[i].neighbors[0].weight, vs[i].neighbors[1].weight;
    var a := vs[i].neighbors[0].target;
    var es := vs[a].neighbors;
    var s1 := Redirected(vs, a, i, Edge(a, wa + wb));
    if HasEdge(es, i) {
      var f := FirstEdgeTo(es, i).value;
      var es1 := s1[a].neighbors;
      assert forall k :: 0 <= k < |es| ==> es1[k] == if k == f then Edge(a, wa + wb) else es[k];
      match FirstEdgeTo(es1, i)
      case None =>
        assert forall k :: 0 <= k < |es| && f < k ==> es[k].target != i by {
          forall k | 0 <= k < |es| && f < k ensures es[k].target != i { assert es1[k] == es[k]; }
        }
      case Some(g) =>
        assert f < g && es[g].target == i && forall j :: f < j < g ==> es[j].target != i by {
          assert es1[f].target == a;
          forall j | f < j < g ensures es[j].target != i { assert es1[j] == es[j]; }
        }
        forall k | 0 <= k < |es| && f < k && k != g && es[k].target == i
          ensures exists j :: f < j < k && es[j].target == i
        {
          if g < k {
            assert es[g].target == i;
          }
        }
    }
  }

  /** Collapsing vertex `i` whose two edges both loop back to `i` only clears `i`'s list. */
  lemma CollapseSelfLoops(vs: seq<Vertex>, i: nat)
    requires i < |vs| && TargetsValid(vs)
    requires |vs[i].neighbors| == 2
    requires vs[i].neighbors[0].target == vs[i].neighbors[1].target == i
    ensures Collapse(vs, i) == vs[i := vs[i].(neighbors := [])]
  {
  }

  /**
   * Collapsing vertex `i` whose first edge loops back to `i` and whose
   * second leads to another vertex `b`: the first search rewrites `i`'s own
   * list, which is then cleared, and the slot of `b`'s first edge to `i`
   * becomes (i, wb + wb). Every other slot and vertex is kept.
   */
  lemma CollapseFirstLoop(vs: seq<Vertex>, i: nat)
    requires i < |vs| && TargetsValid(vs)
    requires |vs[i].neighbors| == 2
    requires vs[i].neighbors[0].target == i != vs[i].neighbors[1].target
    ensures var r := Collapse(vs, i);
      var wb, b := vs[i].neighbors[1].weight, vs[i].neighbors[1].target;
      && r[i].neighbors == []
      && (forall j :: 0 <= j < |vs| && j != b && j != i ==> r[j] == vs[j])
      && |r[b].neighbors| == |vs[b].neighbors|
      && (forall k :: 0 <= k < |vs[b].neighbors| ==>
            r[b].neighbors[k] == if FirstEdgeTo(vs[b].neighbors, i) == Some(k) then Edge(i, wb + wb) else vs[b].neighbors[k])
  {
  }

  /**
   * Collapsing vertex `i` whose first edge leads to another vertex `a` and
   * whose second loops back to `i`: the slot of `a`'s first edge to `i`
   * becomes (i, wa + wb), and the second search rewrites `i`'s own list,
   * which is then cleared. Every other slot and vertex is kept.
   */
  lemma CollapseSecondLoop(vs: seq<Vertex>, i: nat)
    requires i < |vs| && TargetsValid(vs)
    requires |vs[i].neighbors| == 2
    requires vs[i].neighbors[1].target == i != vs[i].neighbors[0].target
    ensures var r := Collapse(vs, i);
      var wa, wb, a := vs[i].neighbors[0].weight, vs[i].neighbors[1].weight, vs[i].neighbors[0].target;
      && r[i].neighbors == []
      && (forall j :: 0 <= j < |vs| && j != a && j != i ==> r[j] == vs[j])
      && |r[a].neighbors| == |vs[a].neighbors|
      && (forall k :: 0 <= k < |vs[a].neighbors| ==>
            r[a].neighbors[k] == if FirstEdgeTo(vs[a].neighbors, i) == Some(k) then Edge(i, wa + wb) else vs[a].neighbors[k])
  {
  }

  /**
   * The two rewritten edges need not agree: a corridor vertex with a heavy
   * edge to one side and a light edge to the other yields weight 4 on one
   * side of the new edge and 2 on the other.
   */
  lemma AsymmetricBypass()
    ensures var p := Coord(0, 0);
      var vs := [Vertex(p, [Edge(1, 1)]), Vertex(p, [Edge(0, 3), Edge(2, 1)]), Vertex(p, [Edge(1, 1)])];
      TargetsValid(vs) &&
      Collapse(vs, 1) == [Vertex(p, [Edge(2, 4)]), Vertex(p, []), Vertex(p, [Edge(0, 2)])]
  {
    var p := Coord(0, 0);
    var vs := [Vertex(p, [Edge(1, 1)]), Vertex(p, [Edge(0, 3), Edge(2, 1)]), Vertex(p, [Edge(1, 1)])];
    assert FirstEdgeTo(vs[0].neighbors, 1) == Some(0);
    var s1 := vs[0 := Vertex(p, [Edge(2, 4)])];
    assert RedirectFirst(vs[0].neighbors, 1, Edge(2, 4)) == [Edge(2, 4)];
    assert FirstEdgeTo(s1[2].neighbors, 1) == Some(0);
    assert RedirectFirst(s1[2].neighbors, 1, Edge(0, 2)) == [Edge(0, 2)];
  }
}
