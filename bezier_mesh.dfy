/** Scripts/Samples/BezierMesh.cs: a ribbon mesh along a Bézier curve. The
    modelled parts are the triangle index buffer, the vertex count of
    `GenerateMesh` and the control-point reads of `GeneratePoints`. */
module BezierMeshes {
  import opened Wrappers
  import opened Vectors
  import opened Bezier
  import opened Ribbon

  /** With one or more rows and quads, the index buffer refers to vertex
      `rows * (resolution+1) + resolution`, while `GenerateMesh` builds only
      `rows * resolution` vertices: the last entries point past the vertex
      list. */
  lemma IndicesPastVertices(rows: nat, resolution: nat)
    requires rows >= 1 && resolution >= 1
    ensures |Triangles(resolution, rows)| == 6 * (rows * resolution)
    ensures Triangles(resolution, rows)[|Triangles(resolution, rows)| - 1] >= rows * resolution
  {
    TrianglesLargest(resolution, rows);
  }

  class BezierMesh {
    /** The rails: one (left, right) pair per sampled point. */
    var vertices: seq<(Vector3, Vector3)>
    var triangles: array<int>
    var resolution: int

    /** A component as Unity creates it: the serialized resolution, no
        sampled rails and an empty index buffer. */
    constructor(resolution: int)
      ensures this.resolution == resolution && vertices == [] && triangles.Length == 0
    {
      this.resolution := resolution;
      vertices := [];
      triangles := new int[0];
    }

    /** `GenerateTriangles`: allocates `vertices.Length * resolution * 6`
        entries, which throws when that is negative, and fills them with the
        quads of one row per rail pair. The buffer is exactly filled: every
        slot is written once and no write is out of bounds. */
    method GenerateTriangles() returns (outcome: Outcome, ghost writes: seq<nat>)
      modifies this
      ensures vertices == old(vertices) && resolution == old(resolution)
      ensures outcome.Thrown? <==> |vertices| * resolution * 6 < 0
      ensures outcome.Thrown? ==> outcome.error == Overflow && triangles == old(triangles)
      ensures outcome.Done? ==> fresh(triangles) && triangles.Length == |vertices| * resolution * 6
      ensures outcome.Done? ==> triangles[..] == Triangles(Width(resolution), |vertices|)
      ensures outcome.Done? ==> writes == WrittenOnce(triangles.Length, triangles.Length)
    {
      var length := |vertices| * resolution * 6;
      if length < 0 {
        return Thrown(Overflow), [];
      }
      BufferLength(|vertices|, resolution);
      triangles := new int[length];
      var ok, quads;
      ok, quads, writes := FillQuads(triangles, |vertices|, resolution, |vertices|);
      // The buffer is sized for exactly the rows that are written, so no
      // write goes past its end.
      assert ok;
      assert triangles[..] == Triangles(Width(resolution), |vertices|);
      return Done, writes;
    }

    /** The vertex loop of `GenerateMesh`: `resolution` points for each rail
        pair, one per inner step. */
    method GenerateMeshVertexCount() returns (count: nat)
      ensures count == |vertices| * Width(resolution)
    {
      var size := |vertices|;
      count := 0;
      var y := 0;
      while y < size
        invariant y <= size && count == y * Width(resolution)
      {
        var x := 0;
        while x < resolution
          invariant 0 <= x <= Width(resolution) && count == y * Width(resolution) + x
        {
          count := count + 1;
          x := x + 1;
        }
        y := y + 1;
      }
    }
  }

  /** The two controls segment i (anchors i-1 and i) reads. */
  function ControlPair(controls: seq<Vector3>, i: nat): (Vector3, Vector3)
    requires i >= 1 && 2 * i <= |controls|
  {
    ControlReadsInBounds(i, |controls|);
    (controls[ControlStartIndex(i)], controls[ControlEndIndex(i)])
  }

  /** The control-point reads of `GeneratePoints`: segment i (anchors i-1 and
      i) reads `controls[i == 1 ? 0 : i]` and `controls[i == 1 ? i : 2i-1]`,
      the rule of `Bezier.GetCubicBezierPoints`, so it throws for exactly the
      same arrays. */
  method GeneratePointsControls(anchors: seq<Vector3>, controls: seq<Vector3>)
    returns (r: Result<seq<(Vector3, Vector3)>>)
    ensures r.Success? <==> ControlsCover(|anchors|, |controls|)
    ensures r.Failure? ==> r.error == IndexOutOfRange
    ensures r.Success? ==> |r.value| == if |anchors| == 0 then 0 else |anchors| - 1
    ensures r.Success? ==>
              forall j :: 0 <= j < |r.value| ==> 2 * (j + 1) <= |controls| && r.value[j] == ControlPair(controls, j + 1)
  {
    var pairs: seq<(Vector3, Vector3)> := [];
    var i := 1;
    while i < |anchors|
      invariant 1 <= i <= if |anchors| == 0 then 1 else |anchors|
      invariant 2 * (i - 1) <= |controls|
      invariant |pairs| == i - 1
      invariant forall j :: 0 <= j < |pairs| ==> 2 * (j + 1) <= |controls| && pairs[j] == ControlPair(controls, j + 1)
    {
      ControlReadsInBounds(i, |controls|);
      if ControlStartIndex(i) >= |controls| || ControlEndIndex(i) >= |controls| {
        return Failure(IndexOutOfRange);
      }
      pairs := pairs + [(controls[ControlStartIndex(i)], controls[ControlEndIndex(i)])];
      i := i + 1;
    }
    r := Success(pairs);
  }
}
