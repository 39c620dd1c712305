/** Scripts/Samples/CatmullRomMesh.cs: a ribbon mesh over sampled rail
    pairs. `GenerateMesh` lays out a vertex grid of `resolution + 1` columns
    per pair and `GenerateTriangles` writes the quads over it. The sampling
    of the spline itself is an input here. */
module CatmullRomMeshes {
  import opened Wrappers
  import opened Vectors
  import opened Blocks
  import opened Ribbon

  // ---------------------------------------------------------------------
  // The vertex grid

  /** Row y of the grid: column x lerps from the pair's first rail point to
      its second at `t = x / resolution`. */
  function RailRow(rail: (Vector3, Vector3), resolution: nat): (r: seq<Vector3>)
    requires resolution >= 1
    ensures |r| == resolution + 1
  {
    seq(resolution + 1, x requires 0 <= x <= resolution => Lerp(rail.0, rail.1, x as real / resolution as real))
  }

  /** The rows of the first m pairs. */
  function RailRows(rails: seq<(Vector3, Vector3)>, resolution: nat, m: nat): (r: seq<seq<Vector3>>)
    requires resolution >= 1 && m <= |rails|
    ensures |r| == m && Uniform(r, resolution + 1)
  {
    seq(m, y requires 0 <= y < m => RailRow(rails[y], resolution))
  }

  /** The whole grid, row-major. */
  function Grid(rails: seq<(Vector3, Vector3)>, resolution: nat): seq<Vector3>
    requires resolution >= 1
  {
    Flatten(RailRows(rails, resolution, |rails|))
  }

  /** One more row. */
  lemma RailRowsSnoc(rails: seq<(Vector3, Vector3)>, resolution: nat, m: nat)
    requires resolution >= 1 && m < |rails|
    ensures Flatten(RailRows(rails, resolution, m + 1))
            == Flatten(RailRows(rails, resolution, m)) + RailRow(rails[m], resolution)
  {
    var rows := RailRows(rails, resolution, m + 1);
    assert rows[..m] == RailRows(rails, resolution, m);
  }

  /** Cell (y, x) of the grid is stored at `GridIndex(resolution, y, x)`, the
      position the triangle indices use, and holds the lerp of pair y at
      `x / resolution`. */
  lemma GridAt(rails: seq<(Vector3, Vector3)>, resolution: nat, y: nat, x: nat)
    requires resolution >= 1 && y < |rails| && x <= resolution
    ensures |Grid(rails, resolution)| == |rails| * (resolution + 1)
    ensures GridIndex(resolution, y, x) < |Grid(rails, resolution)|
    ensures Grid(rails, resolution)[GridIndex(resolution, y, x)]
            == Lerp(rails[y].0, rails[y].1, x as real / resolution as real)
  {
    FlattenAt(RailRows(rails, resolution, |rails|), resolution + 1, y, x);
  }

  /** Column 0 of each row is the pair's first point and column
      `resolution` its second, since `t` runs from 0 to 1 exactly. */
  lemma RowEnds(rails: seq<(Vector3, Vector3)>, resolution: nat, y: nat)
    requires resolution >= 1 && y < |rails|
    ensures GridIndex(resolution, y, resolution) < |Grid(rails, resolution)|
    ensures Grid(rails, resolution)[GridIndex(resolution, y, 0)] == rails[y].0
    ensures Grid(rails, resolution)[GridIndex(resolution, y, resolution)] == rails[y].1
  {
    GridAt(rails, resolution, y, 0);
    GridAt(rails, resolution, y, resolution);
    ParameterEnds(resolution);
  }

  /** The inner loop of the grid fill: the `resolution + 1` columns of one
      row, written at the shared counter `i` (here `start`). */
  method FillRailRow(grid: array<Vector3>, rail: (Vector3, Vector3), resolution: nat, start: nat,
                     ghost writes: seq<nat>)
    returns (next: nat, ghost counted: seq<nat>)
    requires resolution >= 1 && start + resolution + 1 <= grid.Length
    requires writes == WrittenOnce(grid.Length, start)
    modifies grid
    ensures next == start + resolution + 1
    ensures grid[..next] == old(grid[..start]) + RailRow(rail, resolution)
    ensures grid[next..] == old(grid[next..])
    ensures counted == WrittenOnce(grid.Length, next)
  {
    next, counted := start, writes;
    var x := 0;
    while x <= resolution
      invariant x <= resolution + 1 && next == start + x
      invariant grid[..next] == old(grid[..start]) + RailRow(rail, resolution)[..x]
      invariant grid[start + resolution + 1..] == old(grid[start + resolution + 1..])
      invariant counted == WrittenOnce(grid.Length, next)
    {
      var t := x as real / resolution as real;
      grid[next] := Lerp(rail.0, rail.1, t);
      counted := counted[next := counted[next] + 1];
      assert RailRow(rail, resolution)[..x + 1] == RailRow(rail, resolution)[..x] + [grid[next]];
      next, x := next + 1, x + 1;
    }
  }

  /** The grid fill of `GenerateMesh`: `mVertices` has `size * (resolution+1)`
      entries, which throws when negative, and each is written once, row
      by row. A negative resolution leaves no columns, so the grid is
      empty. */
  method BuildVertexGrid(rails: seq<(Vector3, Vector3)>, resolution: int)
    returns (r: Result<array<Vector3>>, ghost writes: seq<nat>)
    requires resolution != 0
    ensures r.Failure? <==> |rails| * (resolution + 1) < 0
    ensures r.Failure? ==> r.error == Overflow
    ensures r.Success? ==> fresh(r.value) && r.value.Length == |rails| * (resolution + 1)
    ensures r.Success? && resolution < 0 ==> r.value.Length == 0
    ensures r.Success? && resolution > 0 ==> r.value[..] == Grid(rails, resolution)
    ensures r.Success? ==> writes == WrittenOnce(r.value.Length, r.value.Length)
  {
    var size := |rails|;
    if size * (resolution + 1) < 0 {
      return Failure(Overflow), [];
    }
    var grid := new Vector3[size * (resolution + 1)](_ => Zero);
    writes := WrittenOnce(grid.Length, 0);
    if resolution < 0 {
      ProductSign(size, resolution + 1);
      return Success(grid), writes;
    }
    var res: nat := resolution;
    var y, i := 0, 0;
    while y < size
      invariant y <= size && i == y * (res + 1) <= grid.Length
      invariant grid[..i] == Flatten(RailRows(rails, res, y))
      invariant writes == WrittenOnce(grid.Length, i)
    {
      MulSucc(y, res + 1);
      MulMonotone(y + 1, size, res + 1);
      i, writes := FillRailRow(grid, rails[y], res, i, writes);
      RailRowsSnoc(rails, res, y);
      y := y + 1;
    }
    assert grid[..] == grid[..i];
    return Success(grid), writes;
  }

  // ---------------------------------------------------------------------
  // The component

  class CatmullRomMesh {
    var resolution: int
    var segments: int
    /** `catmullRom.points.Length`. */
    var pointCount: nat
    /** The sampled rail pairs. */
    var vertices: seq<(Vector3, Vector3)>
    var triangles: array<int>

    constructor(resolution: int, segments: int, pointCount: nat)
      ensures this.resolution == resolution && this.segments == segments && this.pointCount == pointCount
      ensures vertices == [] && triangles.Length == 0
    {
      this.resolution := resolution;
      this.segments := segments;
      this.pointCount := pointCount;
      vertices := [];
      triangles := new int[0];
    }

    /** The rows the buffer is sized for: `(segments + 1) * points.Length`. */
    function RowCapacity(): int
      reads this
    {
      (segments + 1) * pointCount
    }

    /** `GenerateTriangles`: allocates `RowCapacity() * resolution * 6`
        zeroed entries (throwing when negative), then writes the quads of one
        row per rail pair. The writes stay in bounds exactly when there are
        no more pairs than `RowCapacity()`; otherwise every row the buffer was
        sized for is complete when the first write past the end throws.
        `index` is the number of quads written. */
    method GenerateTriangles() returns (outcome: Outcome, index: nat, ghost writes: seq<nat>)
      modifies this
      ensures vertices == old(vertices) && resolution == old(resolution)
      ensures segments == old(segments) && pointCount == old(pointCount)
      ensures outcome == Thrown(Overflow) <==> RowCapacity() * resolution * 6 < 0
      ensures outcome == Thrown(Overflow) ==> triangles == old(triangles)
      ensures outcome == Thrown(IndexOutOfRange) <==>
                RowCapacity() * resolution * 6 >= 0 && resolution > 0 && |vertices| > RowCapacity()
      ensures outcome == Done || outcome == Thrown(Overflow) || outcome == Thrown(IndexOutOfRange)
      ensures outcome != Thrown(Overflow) ==>
                fresh(triangles) && triangles.Length == RowCapacity() * resolution * 6
      ensures outcome == Done ==>
                |Triangles(Width(resolution), |vertices|)| <= triangles.Length &&
                triangles[..|Triangles(Width(resolution), |vertices|)|] == Triangles(Width(resolution), |vertices|) &&
                (forall s :: |Triangles(Width(resolution), |vertices|)| <= s < triangles.Length ==> triangles[s] == 0)
      ensures outcome == Done ==> index == |vertices| * Width(resolution)
      ensures outcome == Done ==>
                writes == WrittenOnce(triangles.Length, |Triangles(Width(resolution), |vertices|)|)
      ensures outcome == Thrown(IndexOutOfRange) ==>
                triangles[..] == Triangles(Width(resolution), RowCapacity()) &&
                index == RowCapacity() * Width(resolution) &&
                writes == WrittenOnce(triangles.Length, triangles.Length)
    {
      var ySize := (segments + 1) * pointCount;
      var length := ySize * resolution * 6;
      if length < 0 {
        return Thrown(Overflow), 0, [];
      }
      BufferLength(ySize, resolution);
      triangles := new int[length](_ => 0);
      var capacity: nat := if ySize >= 0 then ySize else 0;
      ghost var zeros := triangles[..];
      var ok;
      ok, index, writes := FillQuads(triangles, |vertices|, resolution, capacity);
      if !ok {
        return Thrown(IndexOutOfRange), index, writes;
      }
      assert forall s :: 0 <= s < triangles.Length ==> zeros[s] == 0;
      return Done, index, writes;
    }

    /** `GenerateMesh` up to the hand-over to the mesh builder: stores the
        sampled pairs, fills the vertex grid, then writes the index buffer.
        A throw while allocating the grid ends the call before the index
        buffer is touched. */
    method GenerateMesh(rails: seq<(Vector3, Vector3)>)
      returns (grid: Result<array<Vector3>>, outcome: Outcome, ghost gridWrites: seq<nat>, ghost triangleWrites: seq<nat>)
      requires resolution != 0
      modifies this
      ensures vertices == rails && resolution == old(resolution)
      ensures segments == old(segments) && pointCount == old(pointCount)
      ensures outcome == Done || outcome == Thrown(Overflow) || outcome == Thrown(IndexOutOfRange)
      ensures grid.Failure? <==> |rails| * (resolution + 1) < 0
      ensures grid.Failure? ==> grid.error == Overflow && outcome == Thrown(Overflow) && triangles == old(triangles)
      ensures grid.Success? ==> fresh(grid.value) && grid.value.Length == |rails| * (resolution + 1)
      ensures grid.Success? && resolution > 0 ==> grid.value[..] == Grid(rails, resolution)
      ensures grid.Success? ==> gridWrites == WrittenOnce(grid.value.Length, grid.value.Length)
      ensures grid.Success? ==> (outcome == Thrown(Overflow) <==> RowCapacity() * resolution * 6 < 0)
      ensures outcome == Thrown(Overflow) ==> triangles == old(triangles)
      ensures grid.Success? ==>
                (outcome == Thrown(IndexOutOfRange) <==>
                 RowCapacity() * resolution * 6 >= 0 && resolution > 0 && |rails| > RowCapacity())
      ensures outcome != Thrown(Overflow) ==>
                fresh(triangles) && triangles.Length == RowCapacity() * resolution * 6
      ensures outcome == Done ==>
                |Triangles(Width(resolution), |rails|)| <= triangles.Length &&
                triangles[..|Triangles(Width(resolution), |rails|)|] == Triangles(Width(resolution), |rails|) &&
                (forall s :: |Triangles(Width(resolution), |rails|)| <= s < triangles.Length ==> triangles[s] == 0)
      ensures outcome == Done ==>
                triangleWrites == WrittenOnce(triangles.Length, |Triangles(Width(resolution), |rails|)|)
      ensures outcome == Thrown(IndexOutOfRange) ==>
                triangles[..] == Triangles(Width(resolution), RowCapacity()) &&
                triangleWrites == WrittenOnce(triangles.Length, triangles.Length)
    {
      vertices := rails;
      grid, gridWrites := BuildVertexGrid(rails, resolution);
      if grid.Failure? {
        return grid, Thrown(Overflow), gridWrites, [];
      }
      var index;
      outcome, index, triangleWrites := GenerateTriangles();
    }
  }
}
