/**
 * The grid sampler (`create_vertices` in src/graph.rs): one vertex per open
 * pixel, in the row-major order in which the image's pixels are enumerated.
 */
module Sampler {
  import opened Geometry
  import opened Graphs

  /**
   * A decoded image reduced to the first colour channel of each pixel:
   * `red[y][x]` is the channel-0 value of the pixel at column x, row y.
   */
  datatype Raster = Raster(width: U32, height: U32, red: seq<seq<int>>)

  /** The rows and columns agree with the declared dimensions, as for any decoded image. */
  predicate WellShaped(img: Raster) {
    |img.red| == img.height && forall y :: 0 <= y < |img.red| ==> |img.red[y]| == img.width
  }

  /** The pixel at `c` lies in the image and its channel 0 is non-zero. */
  predicate IsOpen(img: Raster, c: Coord)
    requires WellShaped(img)
  {
    c.x < img.width && c.y < img.height && img.red[c.y][c.x] != 0
  }

  /** `a` is enumerated before `b`: rows top to bottom, columns left to right. */
  predicate RowMajorBefore(a: Coord, b: Coord) {
    a.y < b.y || (a.y == b.y && a.x < b.x)
  }

  predicate RowMajorSorted(vs: seq<Vertex>) {
    forall i, j :: 0 <= i < j < |vs| ==> RowMajorBefore(vs[i].pos, vs[j].pos)
  }

  predicate Unconnected(vs: seq<Vertex>) {
    forall k :: 0 <= k < |vs| ==> vs[k].neighbors == []
  }

  /** The vertices of row `y` among its first `x` columns. */
  function RowVertices(img: Raster, y: nat, x: nat): (vs: seq<Vertex>)
    requires WellShaped(img) && y < img.height && x <= img.width
    ensures Unconnected(vs) && RowMajorSorted(vs)
    ensures forall k :: 0 <= k < |vs| ==> vs[k].pos.y == y && vs[k].pos.x < x
    ensures forall c :: c in Positions(vs) <==> c.y == y && c.x < x && IsOpen(img, c)
    decreases x
  {
    if x == 0 then []
    else
      var prefix := RowVertices(img, y, x - 1);
      var here := Coord(x - 1, y);
      var last := if img.red[y][x - 1] != 0 then [Vertex(here, [])] else [];
      assert Positions(last) == if IsOpen(img, here) then [here] else [];
      assert Positions(prefix + last) == Positions(prefix) + Positions(last);
      prefix + last
  }

  /** The vertices of the first `y` rows. */
  function RowsVertices(img: Raster, y: nat): (vs: seq<Vertex>)
    requires WellShaped(img) && y <= img.height
    ensures Unconnected(vs) && RowMajorSorted(vs)
    ensures forall k :: 0 <= k < |vs| ==> vs[k].pos.y < y
    ensures forall c :: c in Positions(vs) <==> c.y < y && IsOpen(img, c)
    decreases y
  {
    if y == 0 then []
    else
      var prefix := RowsVertices(img, y - 1);
      var row := RowVertices(img, y - 1, img.width);
      assert Positions(prefix + row) == Positions(prefix) + Positions(row);
      prefix + row
  }

  /**
   * Exactly one vertex per open pixel, each with an empty neighbour list,
   * in strictly increasing row-major order (so positions are distinct).
   */
  function CreateVertices(img: Raster): (vs: seq<Vertex>)
    requires WellShaped(img)
    ensures Unconnected(vs) && RowMajorSorted(vs)
    ensures forall c :: c in Positions(vs) <==> IsOpen(img, c)
  {
    RowsVertices(img, img.height)
  }

  /** Row-major sortedness makes positions distinct, as the adjacency builder needs. */
  lemma SortedDistinct(vs: seq<Vertex>)
    requires RowMajorSorted(vs)
    ensures Distinct(Positions(vs))
  {
  }

  /** An image without an open pixel yields no vertex. */
  lemma AllWallsNoVertices(img: Raster)
    requires WellShaped(img)
    requires forall y, x :: 0 <= y < img.height && 0 <= x < img.width ==> img.red[y][x] == 0
    ensures CreateVertices(img) == []
  {
    var vs := CreateVertices(img);
    assert forall c :: !IsOpen(img, c);
    assert |vs| > 0 ==> vs[0].pos in Positions(vs);
  }
}
