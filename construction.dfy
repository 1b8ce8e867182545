/**
 * Graph construction from a decoded maze image (`Graph::from_png` in
 * src/graph.rs): sample the open pixels, link orthogonal neighbours,
 * collapse corridor vertices, and take the first two border vertices the
 * boundary scan reports as start and end.
 */
module Construction {
  import opened Geometry
  import opened Graphs
  import opened Sampler
  import opened Adjacency
  import opened Reducer
  import opened Boundary

  /**
   * The vertex list the constructor ends with: one vertex per open pixel,
   * edges only to vertices of the list, and after the reduction no vertex
   * with exactly two edges and none with more than four.
   */
  function MazeVertices(img: Raster): (vs: seq<Vertex>)
    requires WellShaped(img)
    ensures TargetsValid(vs)
    ensures forall c :: c in Positions(vs) <==> IsOpen(img, c)
    ensures Distinct(Positions(vs))
    ensures forall j :: 0 <= j < |vs| ==> |vs[j].neighbors| <= 4 && |vs[j].neighbors| != 2
  {
    var created := CreateVertices(img);
    SortedDistinct(created);
    PopulatedTargetsValid(created);
    PopulatedDegree(created);
    ReducedShape(Populated(created));
    assert Positions(Reduced(Populated(created))) == Positions(created);
    Reduced(Populated(created))
  }

  /** The boundary scan's result on the constructed vertex list. */
  function MazeBoundary(img: Raster): seq<nat>
    requires WellShaped(img) && ScanDefined(img.width, img.height)
  {
    Found(PerimeterProbes(img.width, img.height), PositionIndex(Positions(MazeVertices(img))))
  }

  /**
   * Builds the maze graph. Where the source indexes the scan result at 0
   * and 1 and so panics on fewer than two border vertices, the model
   * returns None; otherwise start and end are the first two reported
   * vertices, both on the image border. Every border vertex is reported.
   */
  method FromRaster(img: Raster) returns (g: Option<Graph>)
    requires WellShaped(img) && ScanDefined(img.width, img.height)
    ensures g.None? <==> |MazeBoundary(img)| < 2
    ensures g.Some? ==>
      && g.value == Graph(MazeBoundary(img)[0], MazeBoundary(img)[1], MazeVertices(img))
      && WellFormed(g.value)
      && OnBorder(g.value.vertices[g.value.start].pos, img.width, img.height)
      && OnBorder(g.value.vertices[g.value.end].pos, img.width, img.height)
    ensures forall t :: 0 <= t < |MazeVertices(img)| && OnBorder(MazeVertices(img)[t].pos, img.width, img.height) ==>
      t in MazeBoundary(img)
  {
    var created := CreateVertices(img);
    var vertices := new Vertex[|created|](i requires 0 <= i < |created| => created[i]);
    assert vertices[..] == created;
    PopulateVertexNeighbors(vertices);
    PopulatedTargetsValid(created);
    ReduceVertexCount(vertices);
    var vs := vertices[..];
    assert vs == MazeVertices(img);
    var boundary := FindBoundaryVertices(vs, img.width, img.height);
    BoundaryExact(vs, img.width, img.height);
    if |boundary| < 2 {
      return None;
    }
    assert boundary[0] in boundary && boundary[1] in boundary;
    g := Some(Graph(boundary[0], boundary[1], vs));
  }

  /** The 2x2 block of open pixels at the origin, in row-major order, with the given neighbour lists. */
  function Block(n0: seq<Edge>, n1: seq<Edge>, n2: seq<Edge>, n3: seq<Edge>): seq<Vertex> {
    [Vertex(Coord(0, 0), n0), Vertex(Coord(1, 0), n1), Vertex(Coord(0, 1), n2), Vertex(Coord(1, 1), n3)]
  }

  function BlockIndex(): map<Coord, nat> {
    map[Coord(0, 0) := 0, Coord(1, 0) := 1, Coord(0, 1) := 2, Coord(1, 1) := 3]
  }

  lemma BlockPositionIndex()
    ensures PositionIndex(Positions(Block([], [], [], []))) == BlockIndex()
  {
    var p1 := [Coord(0, 0)];
    var p2 := p1 + [Coord(1, 0)];
    var p3 := p2 + [Coord(0, 1)];
    var p4 := p3 + [Coord(1, 1)];
    assert Positions(Block([], [], [], [])) == p4;
    assert PositionIndex(p1) == map[Coord(0, 0) := 0] by { assert p1[..0] == []; }
    assert PositionIndex(p2) == map[Coord(0, 0) := 0, Coord(1, 0) := 1] by { assert p2[..1] == p1; }
    assert PositionIndex(p3) == map[Coord(0, 0) := 0, Coord(1, 0) := 1, Coord(0, 1) := 2] by { assert p3[..2] == p2; }
    assert p4[..3] == p3;
  }

  /** The candidates of the pixels used below, in the order up, down, left, right. */
  lemma Candidates00()
    ensures PotentialNeighbors(Coord(0, 0)) == [Coord(0, 1), Coord(1, 0)]
  {
    assert PotentialNeighbors(Coord(0, 0)) == [] + [Coord(0, 1)] + [] + [Coord(1, 0)];
  }

  lemma Candidates10()
    ensures PotentialNeighbors(Coord(1, 0)) == [Coord(1, 1), Coord(0, 0), Coord(2, 0)]
  {
    assert PotentialNeighbors(Coord(1, 0)) == [] + [Coord(1, 1)] + [Coord(0, 0)] + [Coord(2, 0)];
  }

  lemma Candidates20()
    ensures PotentialNeighbors(Coord(2, 0)) == [Coord(2, 1), Coord(1, 0), Coord(3, 0)]
  {
    assert PotentialNeighbors(Coord(2, 0)) == [] + [Coord(2, 1)] + [Coord(1, 0)] + [Coord(3, 0)];
  }

  lemma Candidates30()
    ensures PotentialNeighbors(Coord(3, 0)) == [Coord(3, 1), Coord(2, 0), Coord(4, 0)]
  {
    assert PotentialNeighbors(Coord(3, 0)) == [] + [Coord(3, 1)] + [Coord(2, 0)] + [Coord(4, 0)];
  }

  lemma Candidates01()
    ensures PotentialNeighbors(Coord(0, 1)) == [Coord(0, 0), Coord(0, 2), Coord(1, 1)]
  {
    assert PotentialNeighbors(Coord(0, 1)) == [Coord(0, 0)] + [Coord(0, 2)] + [] + [Coord(1, 1)];
  }

  lemma Candidates11()
    ensures PotentialNeighbors(Coord(1, 1)) == [Coord(1, 0), Coord(1, 2), Coord(0, 1), Coord(2, 1)]
  {
    assert PotentialNeighbors(Coord(1, 1)) == [Coord(1, 0)] + [Coord(1, 2)] + [Coord(0, 1)] + [Coord(2, 1)];
  }

  /** The edges found for each corner of the block, from its candidates in the order up, down, left, right. */
  lemma BlockLinks0()
    ensures LinkEdges([Coord(0, 1), Coord(1, 0)], BlockIndex()) == [Edge(2, 1), Edge(1, 1)]
  {
    var m := BlockIndex();
    assert LinkEdges([Coord(0, 1)], m) == [Edge(2, 1)] by {
      LinkEdgesTake([], Coord(0, 1), m, 2);
      assert [] + [Coord(0, 1)] == [Coord(0, 1)];
    }
    assert LinkEdges([Coord(0, 1), Coord(1, 0)], m) == [Edge(2, 1), Edge(1, 1)] by {
      LinkEdgesTake([Coord(0, 1)], Coord(1, 0), m, 1);
      assert [Coord(0, 1)] + [Coord(1, 0)] == [Coord(0, 1), Coord(1, 0)];
    }
  }

  lemma BlockLinks1()
    ensures LinkEdges([Coord(1, 1), Coord(0, 0), Coord(2, 0)], BlockIndex()) == [Edge(3, 1), Edge(0, 1)]
  {
    var m := BlockIndex();
    assert LinkEdges([Coord(1, 1)], m) == [Edge(3, 1)] by {
      LinkEdgesTake([], Coord(1, 1), m, 3);
      assert [] + [Coord(1, 1)] == [Coord(1, 1)];
    }
    assert LinkEdges([Coord(1, 1), Coord(0, 0)], m) == [Edge(3, 1), Edge(0, 1)] by {
      LinkEdgesTake([Coord(1, 1)], Coord(0, 0), m, 0);
      assert [Coord(1, 1)] + [Coord(0, 0)] == [Coord(1, 1), Coord(0, 0)];
    }
    assert LinkEdges([Coord(1, 1), Coord(0, 0), Coord(2, 0)], m) == [Edge(3, 1), Edge(0, 1)] by {
      LinkEdgesSkip([Coord(1, 1), Coord(0, 0)], Coord(2, 0), m);
      assert [Coord(1, 1), Coord(0, 0)] + [Coord(2, 0)] == [Coord(1, 1), Coord(0, 0), Coord(2, 0)];
    }
  }

  lemma BlockLinks2()
    ensures LinkEdges([Coord(0, 0), Coord(0, 2), Coord(1, 1)], BlockIndex()) == [Edge(0, 1), Edge(3, 1)]
  {
    var m := BlockIndex();
    assert LinkEdges([Coord(0, 0)], m) == [Edge(0, 1)] by {
      LinkEdgesTake([], Coord(0, 0), m, 0);
      assert [] + [Coord(0, 0)] == [Coord(0, 0)];
    }
    assert LinkEdges([Coord(0, 0), Coord(0, 2)], m) == [Edge(0, 1)] by {
      LinkEdgesSkip([Coord(0, 0)], Coord(0, 2), m);
      assert [Coord(0, 0)] + [Coord(0, 2)] == [Coord(0, 0), Coord(0, 2)];
    }
    assert LinkEdges([Coord(0, 0), Coord(0, 2), Coord(1, 1)], m) == [Edge(0, 1), Edge(3, 1)] by {
      LinkEdgesTake([Coord(0, 0), Coord(0, 2)], Coord(1, 1), m, 3);
      assert [Coord(0, 0), Coord(0, 2)] + [Coord(1, 1)] == [Coord(0, 0), Coord(0, 2), Coord(1, 1)];
    }
  }

  lemma BlockLinks3()
    ensures LinkEdges([Coord(1, 0), Coord(1, 2), Coord(0, 1), Coord(2, 1)], BlockIndex()) == [Edge(1, 1), Edge(2, 1)]
  {
    var m := BlockIndex();
    assert LinkEdges([Coord(1, 0)], m) == [Edge(1, 1)] by {
      LinkEdgesTake([], Coord(1, 0), m, 1);
      assert [] + [Coord(1, 0)] == [Coord(1, 0)];
    }
    assert LinkEdges([Coord(1, 0), Coord(1, 2)], m) == [Edge(1, 1)] by {
      LinkEdgesSkip([Coord(1, 0)], Coord(1, 2), m);
      assert [Coord(1, 0)] + [Coord(1, 2)] == [Coord(1, 0), Coord(1, 2)];
    }
    assert LinkEdges([Coord(1, 0), Coord(1, 2), Coord(0, 1)], m) == [Edge(1, 1), Edge(2, 1)] by {
      LinkEdgesTake([Coord(1, 0), Coord(1, 2)], Coord(0, 1), m, 2);
      assert [Coord(1, 0), Coord(1, 2)] + [Coord(0, 1)] == [Coord(1, 0), Coord(1, 2), Coord(0, 1)];
    }
    assert LinkEdges([Coord(1, 0), Coord(1, 2), Coord(0, 1), Coord(2, 1)], m) == [Edge(1, 1), Edge(2, 1)] by {
      LinkEdgesSkip([Coord(1, 0), Coord(1, 2), Coord(0, 1)], Coord(2, 1), m);
      assert [Coord(1, 0), Coord(1, 2), Coord(0, 1)] + [Coord(2, 1)] == [Coord(1, 0), Coord(1, 2), Coord(0, 1), Coord(2, 1)];
    }
  }

  /** The adjacency builder gives each corner of the block its two orthogonal neighbours, with unit weights. */
  lemma PopulatedBlock()
    ensures Populated(Block([], [], [], [])) == Block(
      [Edge(2, 1), Edge(1, 1)], [Edge(3, 1), Edge(0, 1)], [Edge(0, 1), Edge(3, 1)], [Edge(1, 1), Edge(2, 1)])
  {
    var b := Block([], [], [], []);
    var m := BlockIndex();
    BlockPositionIndex();
    Candidates00();
    Candidates10();
    Candidates01();
    Candidates11();
    BlockLinks0();
    BlockLinks1();
    BlockLinks2();
    BlockLinks3();
    var r := Populated(b);
    assert r[0] == WithLinks(b[0], m) == Vertex(Coord(0, 0), [Edge(2, 1), Edge(1, 1)]);
    assert r[1] == WithLinks(b[1], m) == Vertex(Coord(1, 0), [Edge(3, 1), Edge(0, 1)]);
    assert r[2] == WithLinks(b[2], m) == Vertex(Coord(0, 1), [Edge(0, 1), Edge(3, 1)]);
    assert r[3] == WithLinks(b[3], m) == Vertex(Coord(1, 1), [Edge(1, 1), Edge(2, 1)]);
  }

  lemma BlockSweep0()
    ensures TargetsValid(Block([Edge(2, 1), Edge(1, 1)], [Edge(3, 1), Edge(0, 1)], [Edge(0, 1), Edge(3, 1)], [Edge(1, 1), Edge(2, 1)]))
    ensures Collapse(Block([Edge(2, 1), Edge(1, 1)], [Edge(3, 1), Edge(0, 1)], [Edge(0, 1), Edge(3, 1)], [Edge(1, 1), Edge(2, 1)]), 0)
      == Block([], [Edge(3, 1), Edge(2, 2)], [Edge(1, 2), Edge(3, 1)], [Edge(1, 1), Edge(2, 1)])
  {
    var b := Block([Edge(2, 1), Edge(1, 1)], [Edge(3, 1), Edge(0, 1)], [Edge(0, 1), Edge(3, 1)], [Edge(1, 1), Edge(2, 1)]);
    forall i, k | 0 <= i < |b| && 0 <= k < |b[i].neighbors| ensures b[i].neighbors[k].target < |b| {
      assert |b[i].neighbors| == 2;
    }
    assert FirstEdgeTo([Edge(0, 1), Edge(3, 1)], 0) == Some(0);
    assert FirstEdgeTo([Edge(3, 1), Edge(0, 1)], 0) == Some(1) by {
      assert [Edge(3, 1), Edge(0, 1)][1..] == [Edge(0, 1)];
    }
    assert RedirectFirst([Edge(0, 1), Edge(3, 1)], 0, Edge(1, 2)) == [Edge(1, 2), Edge(3, 1)];
    assert RedirectFirst([Edge(3, 1), Edge(0, 1)], 0, Edge(2, 2)) == [Edge(3, 1), Edge(2, 2)];
  }

  lemma BlockSweep1()
    requires TargetsValid(Block([], [Edge(3, 1), Edge(2, 2)], [Edge(1, 2), Edge(3, 1)], [Edge(1, 1), Edge(2, 1)]))
    ensures Collapse(Block([], [Edge(3, 1), Edge(2, 2)], [Edge(1, 2), Edge(3, 1)], [Edge(1, 1), Edge(2, 1)]), 1)
      == Block([], [], [Edge(3, 4), Edge(3, 1)], [Edge(2, 3), Edge(2, 1)])
  {
    assert FirstEdgeTo([Edge(1, 1), Edge(2, 1)], 1) == Some(0);
    assert FirstEdgeTo([Edge(1, 2), Edge(3, 1)], 1) == Some(0);
    assert RedirectFirst([Edge(1, 1), Edge(2, 1)], 1, Edge(2, 3)) == [Edge(2, 3), Edge(2, 1)];
    assert RedirectFirst([Edge(1, 2), Edge(3, 1)], 1, Edge(3, 4)) == [Edge(3, 4), Edge(3, 1)];
  }

  lemma BlockSweep2()
    requires TargetsValid(Block([], [], [Edge(3, 4), Edge(3, 1)], [Edge(2, 3), Edge(2, 1)]))
    ensures Collapse(Block([], [], [Edge(3, 4), Edge(3, 1)], [Edge(2, 3), Edge(2, 1)]), 2)
      == Block([], [], [], [Edge(3, 5), Edge(3, 2)])
  {
    assert FirstEdgeTo([Edge(2, 3), Edge(2, 1)], 2) == Some(0);
    assert FirstEdgeTo([Edge(3, 5), Edge(2, 1)], 2) == Some(1) by {
      assert [Edge(3, 5), Edge(2, 1)][1..] == [Edge(2, 1)];
    }
    assert RedirectFirst([Edge(2, 3), Edge(2, 1)], 2, Edge(3, 5)) == [Edge(3, 5), Edge(2, 1)];
    assert RedirectFirst([Edge(3, 5), Edge(2, 1)], 2, Edge(3, 2)) == [Edge(3, 5), Edge(3, 2)];
  }

  lemma BlockSweep3()
    requires TargetsValid(Block([], [], [], [Edge(3, 5), Edge(3, 2)]))
    ensures Collapse(Block([], [], [], [Edge(3, 5), Edge(3, 2)]), 3) == Block([], [], [], [])
  {
    assert FirstEdgeTo([Edge(3, 5), Edge(3, 2)], 3) == Some(0);
    assert FirstEdgeTo([Edge(3, 7), Edge(3, 2)], 3) == Some(0);
    assert RedirectFirst([Edge(3, 5), Edge(3, 2)], 3, Edge(3, 7)) == [Edge(3, 7), Edge(3, 2)];
    assert RedirectFirst([Edge(3, 7), Edge(3, 2)], 3, Edge(3, 4)) == [Edge(3, 4), Edge(3, 2)];
  }

  /**
   * The reducer's caveat for a 2x2 block of open pixels: every corner has
   * two edges when the sweep reaches it, so the block ends with no edge at
   * all and its corners can no longer reach one another.
   */
  lemma TwoByTwoBlockLosesAllEdges()
    ensures TargetsValid(Populated(Block([], [], [], [])))
    ensures Reduced(Populated(Block([], [], [], []))) == Block([], [], [], [])
  {
    PopulatedBlock();
    BlockSweep0();
    BlockSweep1();
    BlockSweep2();
    BlockSweep3();
    var b0 := Block([Edge(2, 1), Edge(1, 1)], [Edge(3, 1), Edge(0, 1)], [Edge(0, 1), Edge(3, 1)], [Edge(1, 1), Edge(2, 1)]);
    var b1 := Block([], [Edge(3, 1), Edge(2, 2)], [Edge(1, 2), Edge(3, 1)], [Edge(1, 1), Edge(2, 1)]);
    var b2 := Block([], [], [Edge(3, 4), Edge(3, 1)], [Edge(2, 3), Edge(2, 1)]);
    var b3 := Block([], [], [], [Edge(3, 5), Edge(3, 2)]);
    var b4 := Block([], [], [], []);
    assert ReduceFrom(b3, 3) == ReduceFrom(b4, 4) == b4;
    assert ReduceFrom(b2, 2) == ReduceFrom(b3, 3);
    assert ReduceFrom(b1, 1) == ReduceFrom(b2, 2);
    assert ReduceFrom(b0, 0) == ReduceFrom(b1, 1);
  }

  /** A one-row corridor of four open pixels at the origin, with the given neighbour lists. */
  function Corridor(n0: seq<Edge>, n1: seq<Edge>, n2: seq<Edge>, n3: seq<Edge>): seq<Vertex> {
    [Vertex(Coord(0, 0), n0), Vertex(Coord(1, 0), n1), Vertex(Coord(2, 0), n2), Vertex(Coord(3, 0), n3)]
  }

  function CorridorIndex(): map<Coord, nat> {
    map[Coord(0, 0) := 0, Coord(1, 0) := 1, Coord(2, 0) := 2, Coord(3, 0) := 3]
  }

  lemma CorridorPositionIndex()
    ensures PositionIndex(Positions(Corridor([], [], [], []))) == CorridorIndex()
  {
    var p1 := [Coord(0, 0)];
    var p2 := p1 + [Coord(1, 0)];
    var p3 := p2 + [Coord(2, 0)];
    var p4 := p3 + [Coord(3, 0)];
    assert Positions(Corridor([], [], [], [])) == p4;
    assert PositionIndex(p1) == map[Coord(0, 0) := 0] by { assert p1[..0] == []; }
    assert PositionIndex(p2) == map[Coord(0, 0) := 0, Coord(1, 0) := 1] by { assert p2[..1] == p1; }
    assert PositionIndex(p3) == map[Coord(0, 0) := 0, Coord(1, 0) := 1, Coord(2, 0) := 2] by { assert p3[..2] == p2; }
    assert p4[..3] == p3;
  }

  lemma CorridorLinks1()
    ensures LinkEdges([Coord(1, 1), Coord(0, 0), Coord(2, 0)], CorridorIndex()) == [Edge(0, 1), Edge(2, 1)]
  {
    var m := CorridorIndex();
    assert LinkEdges([Coord(1, 1)], m) == [] by {
      LinkEdgesSkip([], Coord(1, 1), m);
      assert [] + [Coord(1, 1)] == [Coord(1, 1)];
    }
    assert LinkEdges([Coord(1, 1), Coord(0, 0)], m) == [Edge(0, 1)] by {
      LinkEdgesTake([Coord(1, 1)], Coord(0, 0), m, 0);
      assert [Coord(1, 1)] + [Coord(0, 0)] == [Coord(1, 1), Coord(0, 0)];
    }
    assert LinkEdges([Coord(1, 1), Coord(0, 0), Coord(2, 0)], m) == [Edge(0, 1), Edge(2, 1)] by {
      LinkEdgesTake([Coord(1, 1), Coord(0, 0)], Coord(2, 0), m, 2);
      assert [Coord(1, 1), Coord(0, 0)] + [Coord(2, 0)] == [Coord(1, 1), Coord(0, 0), Coord(2, 0)];
    }
  }

  lemma CorridorLinks2()
    ensures LinkEdges([Coord(2, 1), Coord(1, 0), Coord(3, 0)], CorridorIndex()) == [Edge(1, 1), Edge(3, 1)]
  {
    var m := CorridorIndex();
    assert LinkEdges([Coord(2, 1)], m) == [] by {
      LinkEdgesSkip([], Coord(2, 1), m);
      assert [] + [Coord(2, 1)] == [Coord(2, 1)];
    }
    assert LinkEdges([Coord(2, 1), Coord(1, 0)], m) == [Edge(1, 1)] by {
      LinkEdgesTake([Coord(2, 1)], Coord(1, 0), m, 1);
      assert [Coord(2, 1)] + [Coord(1, 0)] == [Coord(2, 1), Coord(1, 0)];
    }
    assert LinkEdges([Coord(2, 1), Coord(1, 0), Coord(3, 0)], m) == [Edge(1, 1), Edge(3, 1)] by {
      LinkEdgesTake([Coord(2, 1), Coord(1, 0)], Coord(3, 0), m, 3);
      assert [Coord(2, 1), Coord(1, 0)] + [Coord(3, 0)] == [Coord(2, 1), Coord(1, 0), Coord(3, 0)];
    }
  }

  lemma CorridorLinks0()
    ensures LinkEdges([Coord(0, 1), Coord(1, 0)], CorridorIndex()) == [Edge(1, 1)]
  {
    var m := CorridorIndex();
    assert LinkEdges([Coord(0, 1)], m) == [] by {
      LinkEdgesSkip([], Coord(0, 1), m);
      assert [] + [Coord(0, 1)] == [Coord(0, 1)];
    }
    assert LinkEdges([Coord(0, 1), Coord(1, 0)], m) == [Edge(1, 1)] by {
      LinkEdgesTake([Coord(0, 1)], Coord(1, 0), m, 1);
      assert [Coord(0, 1)] + [Coord(1, 0)] == [Coord(0, 1), Coord(1, 0)];
    }
  }

  lemma CorridorLinks3()
    ensures LinkEdges([Coord(3, 1), Coord(2, 0), Coord(4, 0)], CorridorIndex()) == [Edge(2, 1)]
  {
    var m := CorridorIndex();
    assert LinkEdges([Coord(3, 1)], m) == [] by {
      LinkEdgesSkip([], Coord(3, 1), m);
      assert [] + [Coord(3, 1)] == [Coord(3, 1)];
    }
    assert LinkEdges([Coord(3, 1), Coord(2, 0)], m) == [Edge(2, 1)] by {
      LinkEdgesTake([Coord(3, 1)], Coord(2, 0), m, 2);
      assert [Coord(3, 1)] + [Coord(2, 0)] == [Coord(3, 1), Coord(2, 0)];
    }
    assert LinkEdges([Coord(3, 1), Coord(2, 0), Coord(4, 0)], m) == [Edge(2, 1)] by {
      LinkEdgesSkip([Coord(3, 1), Coord(2, 0)], Coord(4, 0), m);
      assert [Coord(3, 1), Coord(2, 0)] + [Coord(4, 0)] == [Coord(3, 1), Coord(2, 0), Coord(4, 0)];
    }
  }

  /** The adjacency builder links each pixel of the corridor to its left and right neighbour, with unit weights. */
  lemma PopulatedCorridor()
    ensures Populated(Corridor([], [], [], [])) ==
      Corridor([Edge(1, 1)], [Edge(0, 1), Edge(2, 1)], [Edge(1, 1), Edge(3, 1)], [Edge(2, 1)])
  {
    var c := Corridor([], [], [], []);
    var m := CorridorIndex();
    CorridorPositionIndex();
    Candidates00();
    Candidates10();
    Candidates20();
    Candidates30();
    CorridorLinks0();
    CorridorLinks1();
    CorridorLinks2();
    CorridorLinks3();
    var r := Populated(c);
    assert r[0] == WithLinks(c[0], m) == Vertex(Coord(0, 0), [Edge(1, 1)]);
    assert r[1] == WithLinks(c[1], m) == Vertex(Coord(1, 0), [Edge(0, 1), Edge(2, 1)]);
    assert r[2] == WithLinks(c[2], m) == Vertex(Coord(2, 0), [Edge(1, 1), Edge(3, 1)]);
    assert r[3] == WithLinks(c[3], m) == Vertex(Coord(3, 0), [Edge(2, 1)]);
  }

  lemma CorridorSweep1()
    ensures TargetsValid(Corridor([Edge(1, 1)], [Edge(0, 1), Edge(2, 1)], [Edge(1, 1), Edge(3, 1)], [Edge(2, 1)]))
    ensures Collapse(Corridor([Edge(1, 1)], [Edge(0, 1), Edge(2, 1)], [Edge(1, 1), Edge(3, 1)], [Edge(2, 1)]), 1)
      == Corridor([Edge(2, 2)], [], [Edge(0, 2), Edge(3, 1)], [Edge(2, 1)])
  {
    var c := Corridor([Edge(1, 1)], [Edge(0, 1), Edge(2, 1)], [Edge(1, 1), Edge(3, 1)], [Edge(2, 1)]);
    forall i, k | 0 <= i < |c| && 0 <= k < |c[i].neighbors| ensures c[i].neighbors[k].target < |c| {
      assert |c[i].neighbors| <= 2;
    }
    assert FirstEdgeTo([Edge(1, 1)], 1) == Some(0);
    assert FirstEdgeTo([Edge(1, 1), Edge(3, 1)], 1) == Some(0);
    assert RedirectFirst([Edge(1, 1)], 1, Edge(2, 2)) == [Edge(2, 2)];
    assert RedirectFirst([Edge(1, 1), Edge(3, 1)], 1, Edge(0, 2)) == [Edge(0, 2), Edge(3, 1)];
  }

  lemma CorridorSweep2()
    requires TargetsValid(Corridor([Edge(2, 2)], [], [Edge(0, 2), Edge(3, 1)], [Edge(2, 1)]))
    ensures Collapse(Corridor([Edge(2, 2)], [], [Edge(0, 2), Edge(3, 1)], [Edge(2, 1)]), 2)
      == Corridor([Edge(3, 3)], [], [], [Edge(0, 2)])
  {
    assert FirstEdgeTo([Edge(2, 2)], 2) == Some(0);
    assert FirstEdgeTo([Edge(2, 1)], 2) == Some(0);
    assert RedirectFirst([Edge(2, 2)], 2, Edge(3, 3)) == [Edge(3, 3)];
    assert RedirectFirst([Edge(2, 1)], 2, Edge(0, 2)) == [Edge(0, 2)];
  }

  /**
   * The weights the reducer leaves on a straight corridor of four pixels:
   * its two ends are joined directly, but the end swept first gets weight
   * 3, the corridor's length in steps, while the other end gets 2, because
   * the second rewritten edge doubles the weight of the sweep's second edge.
   */
  lemma CorridorWeights()
    ensures TargetsValid(Populated(Corridor([], [], [], [])))
    ensures Reduced(Populated(Corridor([], [], [], []))) == Corridor([Edge(3, 3)], [], [], [Edge(0, 2)])
  {
    PopulatedCorridor();
    CorridorSweep1();
    CorridorSweep2();
    var c0 := Corridor([Edge(1, 1)], [Edge(0, 1), Edge(2, 1)], [Edge(1, 1), Edge(3, 1)], [Edge(2, 1)]);
    var c2 := Corridor([Edge(2, 2)], [], [Edge(0, 2), Edge(3, 1)], [Edge(2, 1)]);
    var c3 := Corridor([Edge(3, 3)], [], [], [Edge(0, 2)]);
    assert Collapse(c0, 0) == c0;
    assert Collapse(c3, 3) == c3;
    assert ReduceFrom(c3, 3) == ReduceFrom(c3, 4) == c3;
    assert ReduceFrom(c2, 2) == ReduceFrom(c3, 3);
    assert ReduceFrom(c0, 1) == ReduceFrom(c2, 2);
    assert ReduceFrom(c0, 0) == ReduceFrom(c0, 1);
  }
}
