# cubic-spline-tools: curve sampling, mesh buffers and point-list editing

This project models the computational core of a Unity toolkit for Bézier and
Catmull-Rom curves and the ribbon meshes that follow them:

- **Curve evaluation and sampling** (`Bezier`): cubic and quadratic Bézier
  points with the parameter clamped to [0, 1]; the velocity formula exactly
  as the code writes it; and the two samplers. Both samplers walk a list of
  anchors next to a separate control-point array. Segment i reads controls
  `i == 1 ? 0 : i` and `i == 1 ? i : 2i-1`.
- **Mesh buffer builder** (`Meshes`): the `MeshGenerator` class, with four
  append-only lists and `CreateMesh`. Normals and uvs go into the mesh only
  when there is one per vertex.
- **Ribbon triangulation** (`Ribbon`, `BezierMeshes`, `CatmullRomMeshes`):
  - The vertex grid is row-major, with `resolution + 1` columns per rail pair.
  - Nested counters `ti`/`vi` write six indices per quad into a
    preallocated array.
  - Proved: the closed form of each counter, that every slot is written
    exactly once, that each quad's indices are its four grid neighbours, and
    where the indices run past the vertex buffer.
- **Point-list editing** (`BezierEditing`):
  - Element i is an anchor iff `i % 3 == 0` (`IsAnchor`).
  - "Add" grows the list by three at the end, then overwrites the three
    elements right after the selected point with a new segment. Only at the
    last point does this append a segment; below it, the controls and anchor
    that followed the selection are overwritten and the grown tail keeps
    whatever Unity put there (`Extend`, `ExtendLayout`).
  - "Remove" deletes the selected anchor and its two controls. It is
    offered only while the list holds more than four points (`CanRemove`).
  - The two drawing routines walk the list three elements at a time.

Vectors are triples of reals and Unity's `Vector3.Lerp`/`Mathf.Clamp01` are
written out (`Vectors`). Exceptions are values: a `Result` for operations
that return something, an `Outcome` for `void` methods. Both carry the .NET
exception that the code would raise: `IndexOutOfRange` for
`IndexOutOfRangeException`, `Overflow` for the `OverflowException` that
`new T[n]` raises when n is negative, and `NullReference` for
`NullReferenceException`. A method that throws part-way also states the state it
leaves behind.

Where the code's documentation and its behaviour differ, the model follows
the code:

- `GetVelocity` is documented as the first derivative. The code computes
  `3(1-t)^2 p1 - p0 + 6(1-t)t(p2-p1) + 3t^20 (p3-p2)`.
  `Bezier.VelocityStartMissesDerivative` proves that at t = 0 this misses
  the derivative by `2 p0`.
- The code checks no inputs up front. It throws part-way and leaves partial
  state, for example a half-filled index buffer. The model describes that
  partial state.

## Model

| member | source | states |
|---|---|---|
| Vectors.Clamp01 | Scripts/Curves/Bezier.cs:53 | the clamped parameter lies in [0, 1], equals t inside it, is 0 below and 1 above |
| Vectors.Lerp | Scripts/Samples/CatmullRomMesh.cs:59 | a parameter that clamps to 0 gives the first point and one that clamps to 1 the second |
| Vectors.Pow | Scripts/Curves/Bezier.cs:56 | `Mathf.Pow` with a whole exponent as repeated multiplication; its properties are stated by `PowOfOne` and `PowBounds` |
| Vectors.PowBounds | Scripts/Curves/Bezier.cs:56 | a power of a number in [0, 1] stays in [0, 1] |
| Vectors.PowOfOne | Scripts/Curves/Bezier.cs:56 | `Mathf.Pow(1, n)` as repeated multiplication is 1 for every n |
| Bezier.CubicBezierCurve | Scripts/Curves/Bezier.cs:52-57 | the four Bernstein weights add up to one, so a segment whose four points coincide evaluates to that point for every t; the ends and the clamp are stated by `CubicEndpoints` and `CubicClampsParameter` |
| Bezier.CubicWeightsBounds | Scripts/Curves/Bezier.cs:53-56 | for a clamped t each of the four cubic weights `(1-t)^3`, `3(1-t)^2 t`, `3(1-t) t^2`, `t^3` lies in [0, 1] |
| Bezier.QuadraticBezierCurve | Scripts/Curves/Bezier.cs:66-71 | the three weights add up to one, so a segment whose three points coincide evaluates to that point for every t; the ends and the clamp are stated by `QuadraticEndpoints` and `QuadraticClampsParameter` |
| Bezier.Velocity | Scripts/Curves/Bezier.cs:105-110 | for a segment that stays at one point p, whose derivative is zero, the formula as written gives `3(1-t)^2 p - p`; the ends are stated by `VelocityAtEnds` |
| Bezier.CubicClampsParameter | Scripts/Curves/Bezier.cs:52-53 | every t < 0 evaluates like t = 0 and every t > 1 like t = 1 |
| Bezier.CubicEndpoints | Scripts/Curves/Bezier.cs:52-57 | the cubic curve is p0 at t = 0 and p3 at t = 1 |
| Bezier.QuadraticClampsParameter | Scripts/Curves/Bezier.cs:66-67 | every t < 0 evaluates like t = 0 and every t > 1 like t = 1 |
| Bezier.QuadraticEndpoints | Scripts/Curves/Bezier.cs:66-71 | the quadratic curve is p0 at t = 0 and p2 at t = 1 |
| Bezier.VelocityAtEnds | Scripts/Curves/Bezier.cs:105-110 | the formula as written gives `3 p1 - p0` at t = 0 and `3 (p3 - p2) - p0` at t = 1 |
| Bezier.VelocityStartMissesDerivative | Scripts/Curves/Bezier.cs:104-110 | at t = 0 the value is the derivative `3 (p1 - p0)` plus `2 p0`, so it equals the derivative iff p0 is the origin |
| Bezier.ControlReadsInBounds | Scripts/Curves/Bezier.cs:30-31 | segment 1 reads controls 0 and 1, segment i >= 2 reads i and 2i-1, and both reads are in bounds iff the array holds 2i controls |
| Bezier.GetCubicBezierPoints | Scripts/Curves/Bezier.cs:22-41 | throws IndexOutOfRange iff some segment's control read is out of bounds, i.e. iff there are 2 or more anchors and fewer than `2 (anchors - 1)` controls; otherwise returns the `segments + 1` samples at t = k / segments of each segment, segments in order |
| Bezier.SegmentBlockEnds | Scripts/Curves/Bezier.cs:26-37 | segment i's first sample is anchor i-1 and its last is anchor i |
| Bezier.SampledPointAt | Scripts/Curves/Bezier.cs:26-38 | the sampled list of m segments has `m (segments + 1)` points and sample k of segment i sits at `(i-1)(segments+1) + k` |
| Bezier.SampledSegmentEnds | Scripts/Curves/Bezier.cs:26-38 | in the sampled list, segment i's run starts at anchor i-1 and ends at anchor i |
| Bezier.VelocityIndexInBounds | Scripts/Curves/Bezier.cs:74-90 | with lineStep >= 1 the running index of segment i ends at `i lineStep`, which is within the `lineStep n - 1` entries for every segment |
| Bezier.WriteSegmentVelocities | Scripts/Curves/Bezier.cs:86-91 | writes exactly lineStep entries from the running index, each the velocity at j = k / lineStep minus the origin, and changes nothing else |
| Bezier.AppendSegmentVelocities | Scripts/Curves/Bezier.cs:79-91 | after segment i the array starts with the blocks of segments 1 .. i and the rest is still zero |
| Bezier.VelocitiesComplete | Scripts/Curves/Bezier.cs:74-93 | after the last segment the array is every segment's block followed by `lineStep - 1` zero vectors that are never written |
| Bezier.FillVelocities | Scripts/Curves/Bezier.cs:77-92 | completes iff every control read is in bounds, and then leaves the blocks of all segments followed by `lineStep - 1` zeros |
| Bezier.GetVelocities | Scripts/Curves/Bezier.cs:73-94 | throws only Overflow or IndexOutOfRange, and succeeds iff the size is non-negative and every control read is in bounds; throws Overflow iff `lineStep * points.Length - 1 < 0`, otherwise IndexOutOfRange iff a control read is out of bounds, otherwise returns `lineStep * points.Length - 1` entries: the per-segment blocks, then zeros |
| Bezier.VelocitiesAt | Scripts/Curves/Bezier.cs:87-89 | entry `(i-1) lineStep + k` is the velocity of segment i (its anchors and its two controls) at j = k / lineStep minus the origin |
| Meshes.MeshOf | Scripts/Utility/MeshGenerator.cs:91-103 | the mesh has the vertex and index lists, has normals iff their count equals the vertex count (and then exactly them), and the same for uvs |
| Meshes.NormalsFollowVertices | Scripts/Utility/MeshGenerator.cs:96-98 | adding one normal per added vertex keeps the normals in the mesh; adding vertices alone drops them |
| Meshes.MeshGenerator.Vertices | Scripts/Utility/MeshGenerator.cs:8-12 | a read-only live view of the vertex list; every `Add` method states its new contents through it |
| Meshes.MeshGenerator.Normals | Scripts/Utility/MeshGenerator.cs:14-18 | a read-only live view of the normal list; every `Add` method states its new contents through it |
| Meshes.MeshGenerator.UVs | Scripts/Utility/MeshGenerator.cs:20-23 | a read-only live view of the uv list; every `Add` method states its new contents through it |
| Meshes.MeshGenerator.constructor | Scripts/Utility/MeshGenerator.cs:29-34 | a new generator has four empty lists |
| Meshes.MeshGenerator.AddNormal | Scripts/Utility/MeshGenerator.cs:37-39 | appends one normal; the other lists are unchanged |
| Meshes.MeshGenerator.AddVertex | Scripts/Utility/MeshGenerator.cs:42-44 | appends one vertex; the other lists are unchanged |
| Meshes.MeshGenerator.AddVertices | Scripts/Utility/MeshGenerator.cs:50-52 | appends all given vertices in order; the other lists are unchanged |
| Meshes.MeshGenerator.AddNormals | Scripts/Utility/MeshGenerator.cs:58-60 | appends all given normals in order; the other lists are unchanged |
| Meshes.MeshGenerator.AddUVs | Scripts/Utility/MeshGenerator.cs:66-68 | appends all given uvs in order; the other lists are unchanged |
| Meshes.MeshGenerator.AddTriangleIndices | Scripts/Utility/MeshGenerator.cs:74-76 | the `params int[]` overload appends the whole array in order; the other lists are unchanged |
| Meshes.MeshGenerator.AddTriangle | Scripts/Utility/MeshGenerator.cs:81-85 | the index list grows by exactly 3, keeps its old entries and ends with p0, p1, p2 |
| Meshes.MeshGenerator.CreateMesh | Scripts/Utility/MeshGenerator.cs:91-107 | returns the mesh of the current lists and changes none of them |
| Ribbon.GridIndexInverse | Scripts/Samples/CatmullRomMesh.cs:55-60 | the row-major position `y (resolution+1) + x` of a cell determines the cell: dividing by the stride gives y back, the remainder gives x |
| Ribbon.QuadCorners | Scripts/Samples/CatmullRomMesh.cs:37-40 | the six indices of quad (y, x) are grid cells (y,x), (y+1,x), (y,x+1), (y,x+1), (y+1,x), (y+1,x+1) |
| Ribbon.QuadsAgainstGrid | Scripts/Samples/CatmullRomMesh.cs:35-40 | on a grid of `rows` rows, every index of a quad of rows 0 .. rows-2 is a vertex, while the last row's quads refer to index `rows (resolution+1)` or beyond |
| Ribbon.Triangles | Scripts/Samples/BezierMesh.cs:92 | the index buffer of m rows holds exactly `6 m resolution` entries |
| Ribbon.TrianglesAt | Scripts/Samples/BezierMesh.cs:93-98 | slot `6 (y resolution + x) + k` of the buffer holds entry k of quad (y, x) |
| Ribbon.SlotQuad | Scripts/Samples/BezierMesh.cs:92-94 | every slot of the buffer belongs to some quad (y, x) within the grid, at one of its six entries |
| Ribbon.QuadBounds | Scripts/Samples/BezierMesh.cs:95-98 | the indices of a quad on m rows lie in `[0, m (resolution+1) + resolution]` |
| Ribbon.TrianglesBounds | Scripts/Samples/BezierMesh.cs:93-98 | every written index is non-negative and at most `m (resolution+1) + resolution` |
| Ribbon.TrianglesLargest | Scripts/Samples/BezierMesh.cs:93-98 | the last entry of the buffer is exactly `m (resolution+1) + resolution`, the largest index |
| Ribbon.BufferLength | Scripts/Samples/BezierMesh.cs:92 | a buffer of `rows * resolution * 6` entries that could be allocated has a non-negative row count and 6 entries per quad when the resolution is positive |
| Ribbon.WriteQuad | Scripts/Samples/BezierMesh.cs:95-98 | the six writes in source order leave `[vi, vi+res+1, vi+1, vi+1, vi+res+1, vi+res+2]` at ti..ti+5, change nothing else, and count one write per slot |
| Ribbon.AppendQuad | Scripts/Samples/BezierMesh.cs:94-98 | after quad (y, x) the buffer holds the rows before y and quads 0 .. x of row y, and slots up to `ti + 6` are written exactly once |
| Ribbon.RowComplete | Scripts/Samples/BezierMesh.cs:93-94 | at the end of row y, `ti = 6 (y+1) resolution` and `vi + 1 = (y+1)(resolution+1)`, and the row fits an array sized for whole rows |
| Ribbon.OverrunStartsRow | Scripts/Samples/CatmullRomMesh.cs:33-40 | in an array of whole rows, the counter reaches the end only at the first quad of row `capacity` |
| Ribbon.OverrunBuffer | Scripts/Samples/CatmullRomMesh.cs:33-40 | when the counter of quad (y, x) reaches the end of an array of whole rows, the quads written so far are exactly the rows the array was made for |
| Ribbon.WriteRowQuads | Scripts/Samples/CatmullRomMesh.cs:36-41 | the inner loop either writes all quads of row y or throws at the row's first write, which happens only on row `capacity`, with the array then holding exactly those rows |
| Ribbon.FillRow | Scripts/Samples/CatmullRomMesh.cs:35-43 | one row completes iff the resolution is not positive or the row is within capacity, with the counters in closed form afterwards |
| Ribbon.FillQuads | Scripts/Samples/CatmullRomMesh.cs:34-43 | the nested loops complete iff there are no more rows than the array was sized for; they leave the quads of all rows (or of the first `capacity` rows when they throw) with every slot written once and `index` the number of quads |
| BezierMeshes.IndicesPastVertices | Scripts/Samples/BezierMesh.cs:93-98 | the buffer's last index is at least `vertices.Length * resolution`, the number of points `GenerateMesh` builds |
| BezierMeshes.BezierMesh.constructor | Scripts/Samples/BezierMesh.cs:21-25 | a component starts with its resolution, no rails and an empty buffer |
| BezierMeshes.BezierMesh.GenerateTriangles | Scripts/Samples/BezierMesh.cs:91-101 | throws Overflow iff `vertices.Length * resolution * 6 < 0`, otherwise allocates exactly that many entries and fills every slot once with the quads of one row per rail pair |
| BezierMeshes.BezierMesh.GenerateMeshVertexCount | Scripts/Samples/BezierMesh.cs:118-127 | the vertex loop of `GenerateMesh` adds exactly `vertices.Length * resolution` points (none for a resolution of 0 or less) |
| BezierMeshes.GeneratePointsControls | Scripts/Samples/BezierMesh.cs:56-67 | throws for exactly the arrays `GetCubicBezierPoints` throws for, and otherwise reads for segment j+1 the controls at the same two positions |
| CatmullRomMeshes.RailRow | Scripts/Samples/CatmullRomMesh.cs:57-60 | a grid row has `resolution + 1` points |
| CatmullRomMeshes.GridAt | Scripts/Samples/CatmullRomMesh.cs:55-60 | the grid has `size (resolution+1)` points and cell (y, x), at the index the triangles use, is the lerp of pair y at `x / resolution` |
| CatmullRomMeshes.RowEnds | Scripts/Samples/CatmullRomMesh.cs:57-60 | column 0 of row y is the pair's first point and column `resolution` its second |
| CatmullRomMeshes.FillRailRow | Scripts/Samples/CatmullRomMesh.cs:57-61 | writes exactly the `resolution + 1` points of one row at the shared counter, once each, and nothing else |
| CatmullRomMeshes.BuildVertexGrid | Scripts/Samples/CatmullRomMesh.cs:52-62 | throws Overflow iff `size (resolution+1) < 0`, otherwise allocates that many points, fills them with the grid row by row and writes every slot once |
| CatmullRomMeshes.CatmullRomMesh.constructor | Scripts/Samples/CatmullRomMesh.cs:8-13 | a component starts with its settings, no rails and an empty buffer |
| CatmullRomMeshes.CatmullRomMesh.GenerateTriangles | Scripts/Samples/CatmullRomMesh.cs:31-44 | throws Overflow iff `(segments+1) points.Length resolution 6 < 0`, throws IndexOutOfRange iff the resolution is positive and there are more rail pairs than `(segments+1) points.Length`, and leaves the quads of the rows written (the rest zero) with `index` the quad count |
| CatmullRomMeshes.CatmullRomMesh.GenerateMesh | Scripts/Samples/CatmullRomMesh.cs:46-64 | stores the rails and ends in exactly one of Done, Overflow or IndexOutOfRange: Overflow with the index buffer untouched iff the grid size or the buffer size is negative, IndexOutOfRange iff the resolution is positive and there are more pairs than `(segments+1) points.Length`; it leaves the grid filled once per slot, and the buffer holding the quads of every pair (the rest zero) or, after the overrun, of exactly the rows it was sized for |
| BezierEditing.Delete | Scripts/Editor/Curves/BezierEditor.cs:105 | deleting element i removes it and moves every later element down by one |
| BezierEditing.RemoveSegment | Scripts/Editor/Curves/BezierEditor.cs:104-107 | removing the segment ending at an anchor shortens the list by exactly 3 |
| BezierEditing.IsAnchor | Scripts/Editor/Curves/BezierEditor.cs:76 | an element that is not selected gets the anchor background (rather than the control one) iff the list cut just after it holds exactly `i / 3` whole segments |
| BezierEditing.CanRemove | Scripts/Editor/Curves/BezierEditor.cs:111-113 | on a list of whole segments, removal is offered iff there are at least two segments |
| BezierEditing.RemoveSegmentKeepsLayout | Scripts/Editor/Curves/BezierEditor.cs:103-113 | the elements before the two controls and after the anchor stay in order, anchors stay anchors, the size keeps its remainder modulo 3 so a list of whole segments stays one (the last anchor included), and a list that could be shortened keeps at least 4 points |
| BezierEditing.NewSegment | Scripts/Editor/Curves/BezierEditor.cs:92-95 | the new controls are p0 + (1,0,1) and p0 + (2,0,2) and the new anchor p0 + (2,0,12) |
| BezierEditing.Extend | Scripts/Editor/Curves/BezierEditor.cs:96-100 | growing by three and writing after the selection lengthens the list by exactly 3 |
| BezierEditing.ExtendLayout | Scripts/Editor/Curves/BezierEditor.cs:91-101 | everything up to the selection is kept, the new segment follows it, the rest of the grown list is untouched, and at the last point of a list of whole segments the list gains exactly one whole segment whatever the grown slots held |
| BezierEditing.SegmentCount | Scripts/Editor/Curves/BezierEditor.cs:185-189 | the number of segments drawn is the largest n with `3n <= size - 1` |
| BezierEditing.SegmentsJoinAnchors | Scripts/Editor/Curves/BezierEditor.cs:185-189 | each drawn segment runs from the anchor at 3k to the anchor at 3k+3, and consecutive segments share that anchor |
| BezierEditing.DrawSerializedSegments | Scripts/Editor/Curves/BezierEditor.cs:179-201 | draws segments at 0, 3, 6, ... and ends in a null dereference unless the list has at most one point or is made of whole segments |
| BezierEditing.DrawArraySegments | Scripts/Editor/Curves/BezierEditor.cs:209-229 | draws the same segments but always ends with an out-of-range read on a non-empty array |
| BezierEditing.BezierEditor.constructor | Scripts/Editor/Curves/BezierEditor.cs:14-18 | the inspector starts with the serialized list and selection 0 |
| BezierEditing.BezierEditor.OnSelectPointsList | Scripts/Editor/Curves/BezierEditor.cs:115-117 | selecting sets the current index to the list's index and nothing else |
| BezierEditing.BezierEditor.AddPointListCallback | Scripts/Editor/Curves/BezierEditor.cs:91-101 | throws a null dereference and changes nothing iff the selection is outside the list; otherwise the list becomes the extension described by `Extend` |
| BezierEditing.BezierEditor.RemovePointsListCallback | Scripts/Editor/Curves/BezierEditor.cs:103-109 | when the selection is an anchor other than the first, the list loses exactly that anchor and its two controls; otherwise nothing changes |

## Left out

- Floating point: every computation is over exact reals. Rounding, NaN and
  infinities are not modelled.
- Float-driven loops: `for (float j = 0; j < 1; j += 1/lineStep)` in
  `GetVelocities` is modelled as exactly `lineStep` steps at `j = k / lineStep`.
  The loop `for (float j = 0; j < t; j += 1/t)` in `BezierMesh.GeneratePoints`
  is not modelled. Float accumulation can change both iteration counts.
- 32-bit integers: sizes and indices are unbounded. The overflow of
  `lineStep * points.Length` or `rows * resolution * 6` is not modelled.
- Bezier.GetCubicBezierPoints: requires `segments >= 1`. With 0 the sample
  parameter is 0/0 (NaN in floats); with a negative count each segment
  contributes no points.
- CatmullRomMeshes.BuildVertexGrid: requires `resolution != 0`, because
  `x / resolution` is 0/0 (NaN) there. CatmullRomMeshes.CatmullRomMesh.GenerateMesh
  inherits the same requirement.
- BezierMeshes.GeneratePointsControls: models only the control reads of
  `GeneratePoints`. The rail points come from `MathUtility.GetCircleXZPoint`,
  which is not part of this model. The code's reassignment of `vertices`
  and its call to `GenerateTriangles` inside the segment loop are also left
  out.
- BezierMeshes.BezierMesh.GenerateMeshVertexCount: models only the number of
  points `GenerateMesh` builds, not their values. The values depend on
  `Vector3.Lerp` clamping a `tHorizontal` that is never reset and always use
  `vertices[0]`.
- BezierMesh starts with no rails (`vertices` is empty), not null, so the
  null dereference of `vertices.Length` before the first `GeneratePoints` is
  not modelled.
- `meshGenerator.Clear()` (Scripts/Samples/BezierMesh.cs:108) and
  `meshGenerator.AddTriangles` (Scripts/Samples/CatmullRomMesh.cs:66) do not
  exist in `MeshGenerator`. `GenerateMesh` is modelled only up to the hand-over
  to the builder.
- Unity `Mesh` objects, `RecalculateBounds/Normals/Tangents`, `MeshFilter` and
  mesh naming: `CreateMesh` yields a record of the four lists.
- `MathUtility`, `CatmullRom.SampleCatmullRomSpline`, `BaseMesh`, `Transform`
  and TRS matrices, gizmos, handles and every Editor GUI callback are not part
  of this model. Sampled rail pairs are an input. The draw routines return
  the segments they would draw and leave out the drawing itself.
- BezierEditing.BezierEditor.AddPointListCallback: the values Unity puts in
  the three slots it grows are a parameter (`grown`). Only the three written
  positions and the length are fixed by the code.
- BezierEditing.BezierEditor.RemovePointsListCallback: requires the selected
  anchor to be inside the list. What Unity does when deleting past the end
  is not modelled.
- BezierEditing.IsAnchor: models the background choice for rows that are
  not selected. The selected row's highlight, which overrides it, is GUI
  state and is not modelled.
- Caught exceptions: the `catch` blocks of the draw routines are not
  modelled. The walks report the exception that ends them, as an `Outcome`.
- `GetVelocity` is modelled as written, not as the curve's derivative.
