/**
 * Pixel coordinates of the maze raster and their orthogonal neighbourhood
 * (the `Coord` type of src/graph.rs and its `Adjacent` implementation).
 */
module Geometry {

  /** Coordinates are unsigned 32-bit integers in the source. */
  const U32_LIMIT: nat := 0x1_0000_0000

  type U32 = n: nat | n < U32_LIMIT

  datatype Coord = Coord(x: U32, y: U32)

  /** `c` and `d` differ by exactly one on exactly one axis. */
  predicate Adjacent(c: Coord, d: Coord) {
    (c.x == d.x && (c.y + 1 == d.y || d.y + 1 == c.y)) ||
    (c.y == d.y && (c.x + 1 == d.x || d.x + 1 == c.x))
  }

  /**
   * The rank of the direction from `c` to `d` in the order in which the
   * source lists candidates: up (y - 1), down (y + 1), left (x - 1),
   * right (x + 1); 4 when `d` is not adjacent to `c`.
   */
  function Direction(c: Coord, d: Coord): nat {
    if c.x == d.x && d.y + 1 == c.y then 0
    else if c.x == d.x && c.y + 1 == d.y then 1
    else if c.y == d.y && d.x + 1 == c.x then 2
    else if c.y == d.y && c.x + 1 == d.x then 3
    else 4
  }

  /**
   * The up-to-four orthogonal neighbours of `c`, dropping those whose
   * coordinate would underflow below 0 or overflow the 32-bit range.
   */
  function PotentialNeighbors(c: Coord): (r: seq<Coord>)
    ensures |r| <= 4
    ensures forall d :: d in r <==> Adjacent(c, d)
    ensures forall i, j :: 0 <= i < j < |r| ==> Direction(c, r[i]) < Direction(c, r[j]) < 4
  {
    var up := if c.y > 0 then [Coord(c.x, c.y - 1)] else [];
    var down := if c.y + 1 < U32_LIMIT then [Coord(c.x, c.y + 1)] else [];
    var left := if c.x > 0 then [Coord(c.x - 1, c.y)] else [];
    var right := if c.x + 1 < U32_LIMIT then [Coord(c.x + 1, c.y)] else [];
    assert forall k :: 0 <= k < |up + down| ==> Direction(c, (up + down)[k]) == (if k < |up| then 0 else 1);
    assert forall k :: 0 <= k < |up + down + left| ==>
      Direction(c, (up + down + left)[k]) == (if k < |up| then 0 else if k < |up + down| then 1 else 2);
    assert forall k :: 0 <= k < |up + down + left + right| ==>
      Direction(c, (up + down + left + right)[k]) ==
        (if k < |up| then 0 else if k < |up + down| then 1 else if k < |up + down + left| then 2 else 3);
    up + down + left + right
  }
}
