/**
 * The entrance/exit finder (`find_boundary_vertices` in src/graph.rs): it
 * probes the border cells of the image in a fixed order and reports, for
 * each probed cell that holds a vertex, that vertex's index.
 */
module Boundary {
  import opened Geometry
  import opened Graphs

  /** The scan's guard: `height - 1` and `width - 1` must not underflow where they are evaluated. */
  predicate ScanDefined(width: U32, height: U32) {
    height >= 1 && (width >= 1 || height <= 2)
  }

  /** Columns 0 .. x-1 of the first loop: for each, the top cell and then the bottom cell. */
  function RowProbes(width: U32, height: U32, x: nat): (cs: seq<Coord>)
    requires height >= 1 && x <= width
    ensures |cs| == 2 * x
  {
    if x == 0 then []
    else RowProbes(width, height, x - 1) + [Coord(x - 1, 0), Coord(x - 1, height - 1)]
  }

  lemma {:induction false} RowProbesAt(width: U32, height: U32, x: nat)
    requires height >= 1 && x <= width
    ensures forall k :: 0 <= k < x ==>
      RowProbes(width, height, x)[2 * k] == Coord(k, 0) && RowProbes(width, height, x)[2 * k + 1] == Coord(k, height - 1)
  {
    if x > 0 {
      RowProbesAt(width, height, x - 1);
    }
  }

  /** Rows 1 .. n of the second loop: for each, the left cell and then the right cell. */
  function ColumnProbes(width: U32, height: U32, n: nat): (cs: seq<Coord>)
    requires n == 0 || (width >= 1 && n + 1 < height)
    ensures |cs| == 2 * n
  {
    if n == 0 then []
    else ColumnProbes(width, height, n - 1) + [Coord(0, n), Coord(width - 1, n)]
  }

  lemma {:induction false} ColumnProbesAt(width: U32, height: U32, n: nat)
    requires n == 0 || (width >= 1 && n + 1 < height)
    ensures forall m :: 0 <= m < n ==>
      ColumnProbes(width, height, n)[2 * m] == Coord(0, m + 1) &&
      ColumnProbes(width, height, n)[2 * m + 1] == Coord(width - 1, m + 1)
  {
    if n > 0 {
      ColumnProbesAt(width, height, n - 1);
    }
  }

  /** Every cell the scan probes, in probing order. */
  function PerimeterProbes(width: U32, height: U32): seq<Coord>
    requires ScanDefined(width, height)
  {
    RowProbes(width, height, width) + (if height <= 2 then [] else ColumnProbes(width, height, height - 2))
  }

  /** The indices found at the probed cells `cs`, in order; a cell without a vertex contributes nothing. */
  function Found(cs: seq<Coord>, index: map<Coord, nat>): seq<nat> {
    if |cs| == 0 then []
    else
      var c := cs[|cs| - 1];
      Found(cs[..|cs| - 1], index) + (if c in index then [index[c]] else [])
  }

  lemma {:induction false} FoundAppend(a: seq<Coord>, b: seq<Coord>, index: map<Coord, nat>)
    ensures Found(a + b, index) == Found(a, index) + Found(b, index)
    decreases |b|
  {
    if |b| == 0 {
      assert a + b == a;
    } else {
      var init := b[..|b| - 1];
      assert (a + b)[..|a + b| - 1] == a + init;
      assert (a + b)[|a + b| - 1] == b[|b| - 1];
      FoundAppend(a, init, index);
    }
  }

  lemma FoundPair(a: Coord, b: Coord, index: map<Coord, nat>)
    ensures Found([a, b], index) ==
      (if a in index then [index[a]] else []) + (if b in index then [index[b]] else [])
  {
    var ta := if a in index then [index[a]] else [];
    var tb := if b in index then [index[b]] else [];
    assert [a][..0] == [];
    assert Found([a], index) == Found([], index) + ta;
    assert [a, b][..1] == [a];
    assert Found([a, b], index) == Found([a], index) + tb;
  }

  /** A cell holds a vertex exactly when the scan reports an index for it, and then it reports that index. */
  lemma {:induction false} FoundMembers(cs: seq<Coord>, index: map<Coord, nat>)
    ensures forall t :: t in Found(cs, index) <==> exists c :: c in cs && c in index && index[c] == t
  {
    if |cs| > 0 {
      var init := cs[..|cs| - 1];
      FoundMembers(init, index);
      assert cs == init + [cs[|cs| - 1]];
    }
  }

  /** Scans the image border for vertices and returns their indices in probing order. */
  method FindBoundaryVertices(vs: seq<Vertex>, width: U32, height: U32) returns (r: seq<nat>)
    requires ScanDefined(width, height)
    ensures r == Found(PerimeterProbes(width, height), PositionIndex(Positions(vs)))
  {
    var index := PositionIndex(Positions(vs));
    r := ScanRows(index, width, height);
    if height > 2 {
      var sides := ScanColumns(index, width, height);
      FoundAppend(RowProbes(width, height, width), ColumnProbes(width, height, height - 2), index);
      r := r + sides;
    } else {
      assert RowProbes(width, height, width) + [] == RowProbes(width, height, width);
    }
  }

  /** The first loop: the top and bottom cell of every column. */
  method ScanRows(index: map<Coord, nat>, width: U32, height: U32) returns (r: seq<nat>)
    requires height >= 1
    ensures r == Found(RowProbes(width, height, width), index)
  {
    r := [];
    for x := 0 to width
      invariant r == Found(RowProbes(width, height, x), index)
    {
      var top := Coord(x, 0);
      var bottom := Coord(x, height - 1);
      FoundAppend(RowProbes(width, height, x), [top, bottom], index);
      FoundPair(top, bottom, index);
      if top in index {
        r := r + [index[top]];
      }
      if bottom in index {
        r := r + [index[bottom]];
      }
    }
  }

  /** The second loop: the left and right cell of every row strictly between the first and the last. */
  method ScanColumns(index: map<Coord, nat>, width: U32, height: U32) returns (r: seq<nat>)
    requires width >= 1 && height > 2
    ensures r == Found(ColumnProbes(width, height, height - 2), index)
  {
    r := [];
    var y := 1;
    while y < height - 1
      invariant 1 <= y <= height - 1
      invariant r == Found(ColumnProbes(width, height, y - 1), index)
    {
      var left := Coord(0, y);
      var right := Coord(width - 1, y);
      FoundAppend(ColumnProbes(width, height, y - 1), [left, right], index);
      FoundPair(left, right, index);
      if left in index {
        r := r + [index[left]];
      }
      if right in index {
        r := r + [index[right]];
      }
      y := y + 1;
    }
  }

  /** `c` lies on the border of a width x height image. */
  predicate OnBorder(c: Coord, width: U32, height: U32) {
    c.x < width && c.y < height && (c.x == 0 || c.y == 0 || c.x + 1 == width || c.y + 1 == height)
  }

  /** The first `x` columns' probes lie on the top or bottom row. */
  lemma {:induction false} RowProbesOnBorder(width: U32, height: U32, x: nat)
    requires height >= 1 && x <= width
    ensures forall c :: c in RowProbes(width, height, x) ==> OnBorder(c, width, height)
  {
    if x > 0 {
      RowProbesOnBorder(width, height, x - 1);
    }
  }

  /** The first `n` inner rows' probes lie on the left or right column. */
  lemma {:induction false} ColumnProbesOnBorder(width: U32, height: U32, n: nat)
    requires n == 0 || (width >= 1 && n + 1 < height)
    ensures forall c :: c in ColumnProbes(width, height, n) ==> OnBorder(c, width, height)
  {
    if n > 0 {
      ColumnProbesOnBorder(width, height, n - 1);
    }
  }

  /** Every probed cell lies on the border. */
  lemma ProbesOnBorder(width: U32, height: U32)
    requires ScanDefined(width, height)
    ensures forall c :: c in PerimeterProbes(width, height) ==> OnBorder(c, width, height)
  {
    RowProbesOnBorder(width, height, width);
    if height > 2 {
      ColumnProbesOnBorder(width, height, height - 2);
    }
  }

  /** Every border cell is probed. */
  lemma BorderProbed(width: U32, height: U32)
    requires ScanDefined(width, height)
    ensures forall c :: OnBorder(c, width, height) ==> c in PerimeterProbes(width, height)
  {
    var rows := RowProbes(width, height, width);
    var cols := if height <= 2 then [] else ColumnProbes(width, height, height - 2);
    assert PerimeterProbes(width, height) == rows + cols;
    RowProbesAt(width, height, width);
    if height > 2 {
      ColumnProbesAt(width, height, height - 2);
    }
    forall c | OnBorder(c, width, height)
      ensures c in rows + cols
    {
      if c.y == 0 {
        assert rows[2 * c.x] == c;
      } else if c.y + 1 == height {
        assert rows[2 * c.x + 1] == c;
      } else {
        var m := c.y - 1;
        if c.x == 0 {
          assert cols[2 * m] == c;
        } else {
          assert cols[2 * m + 1] == c;
        }
      }
    }
  }

  /**
   * The scan reports only indices of vertices that lie on the border and,
   * when positions are distinct, reports every such vertex.
   */
  lemma BoundaryExact(vs: seq<Vertex>, width: U32, height: U32)
    requires ScanDefined(width, height)
    ensures forall t :: t in Found(PerimeterProbes(width, height), PositionIndex(Positions(vs))) ==>
      t < |vs| && OnBorder(vs[t].pos, width, height)
    ensures Distinct(Positions(vs)) ==> forall t :: 0 <= t < |vs| && OnBorder(vs[t].pos, width, height) ==>
      t in Found(PerimeterProbes(width, height), PositionIndex(Positions(vs)))
  {
    var ps := Positions(vs);
    var index := PositionIndex(ps);
    var probes := PerimeterProbes(width, height);
    FoundMembers(probes, index);
    PositionIndexSound(ps);
    ProbesOnBorder(width, height);
    BorderProbed(width, height);
    if Distinct(ps) {
      PositionIndexInverse(ps);
      forall t | 0 <= t < |vs| && OnBorder(vs[t].pos, width, height)
        ensures t in Found(probes, index)
      {
        assert ps[t] in probes && ps[t] in index && index[ps[t]] == t;
      }
    }
  }

  /** In a one-row image the top and bottom probes coincide, so every index is reported twice in a row. */
  lemma {:induction false} SingleRowDuplicates(index: map<Coord, nat>, width: U32, x: nat)
    requires x <= width
    ensures var r := Found(RowProbes(width, 1, x), index);
      |r| % 2 == 0 && forall k :: 0 <= k < |r| / 2 ==> r[2 * k] == r[2 * k + 1]
  {
    if x > 0 {
      var c := Coord(x - 1, 0);
      SingleRowDuplicates(index, width, x - 1);
      FoundAppend(RowProbes(width, 1, x - 1), [c, c], index);
      FoundPair(c, c, index);
    }
  }

  /** In a one-column image the left and right probes coincide, so every index is reported twice in a row. */
  lemma {:induction false} SingleColumnDuplicates(index: map<Coord, nat>, height: U32, n: nat)
    requires n == 0 || n + 1 < height
    ensures var r := Found(ColumnProbes(1, height, n), index);
      |r| % 2 == 0 && forall k :: 0 <= k < |r| / 2 ==> r[2 * k] == r[2 * k + 1]
  {
    if n > 0 {
      var c := Coord(0, n);
      SingleColumnDuplicates(index, height, n - 1);
      FoundAppend(ColumnProbes(1, height, n - 1), [c, c], index);
      FoundPair(c, c, index);
    }
  }

  /** The one-pixel maze: its single vertex is reported as both entrance and exit. */
  lemma SinglePixelBoundary()
    ensures Found(PerimeterProbes(1, 1), PositionIndex([Coord(0, 0)])) == [0, 0]
  {
    var index := PositionIndex([Coord(0, 0)]);
    assert [Coord(0, 0)][..0] == [];
    assert PerimeterProbes(1, 1) == [Coord(0, 0), Coord(0, 0)];
    assert [Coord(0, 0), Coord(0, 0)][..1] == [Coord(0, 0)];
  }
}
