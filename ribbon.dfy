/** The ribbon layout shared by the `BezierMesh` and `CatmullRomMesh`
    samples: vertices in a row-major grid with `resolution + 1` columns, and
    an index buffer with two triangles (six indices) per grid quad, filled
    row by row through the counters `ti` and `vi`. */
module Ribbon {
  import opened Blocks

  // ---------------------------------------------------------------------
  // Grid and quads

  /** Cell (y, x) of a grid whose rows hold `resolution + 1` vertices. */
  function GridIndex(resolution: nat, y: nat, x: nat): nat {
    y * (resolution + 1) + x
  }

  /** The layout is one-to-one: row and column come back from the index by
      division and remainder by the row length. */
  lemma GridIndexInverse(resolution: nat, y: nat, x: nat)
    requires x <= resolution
    ensures GridIndex(resolution, y, x) / (resolution + 1) == y
    ensures GridIndex(resolution, y, x) % (resolution + 1) == x
  {
    DivModUnique(GridIndex(resolution, y, x), resolution + 1, y, x);
  }

  /** The six indices written for quad (y, x), in slot order: the triangles
      (vi, vi+res+1, vi+1) and (vi+1, vi+res+1, vi+res+2) with
      `vi = GridIndex(y, x)`. */
  function QuadIndices(resolution: nat, y: nat, x: nat): seq<int> {
    var vi := GridIndex(resolution, y, x);
    [vi, vi + resolution + 1, vi + 1, vi + 1, vi + resolution + 1, vi + resolution + 2]
  }

  /** The quad's indices are its four grid corners: cells (y, x), (y+1, x),
      (y, x+1), (y, x+1), (y+1, x), (y+1, x+1). */
  lemma QuadCorners(resolution: nat, y: nat, x: nat)
    requires x < resolution
    ensures QuadIndices(resolution, y, x)
            == [GridIndex(resolution, y, x), GridIndex(resolution, y + 1, x),
                GridIndex(resolution, y, x + 1), GridIndex(resolution, y, x + 1),
                GridIndex(resolution, y + 1, x), GridIndex(resolution, y + 1, x + 1)]
  {
    MulSucc(y, resolution + 1);
  }

  /** On a grid of `rows` rows, the quads of every row but the last use only
      vertices of the grid; each quad of the last row uses cell (rows, x),
      one row past the grid. */
  lemma QuadsAgainstGrid(resolution: nat, rows: nat, y: nat, x: nat)
    requires y < rows && x < resolution
    ensures y + 1 < rows ==>
              forall k :: 0 <= k < 6 ==> 0 <= QuadIndices(resolution, y, x)[k] < rows * (resolution + 1)
    ensures y + 1 == rows ==> QuadIndices(resolution, y, x)[1] >= rows * (resolution + 1)
  {
    MulSucc(y, resolution + 1);
    if y + 1 < rows {
      MulSucc(y + 1, resolution + 1);
      MulMonotone(y + 2, rows, resolution + 1);
    }
  }

  // ---------------------------------------------------------------------
  // The index buffer

  /** The quads 0 .. n-1 of row y. */
  function RowQuads(resolution: nat, y: nat, n: nat): (r: seq<seq<int>>)
    ensures |r| == n && Uniform(r, 6)
  {
    seq(n, x requires 0 <= x < n => QuadIndices(resolution, y, x))
  }

  /** The indices of the first n quads of row y. */
  function Row(resolution: nat, y: nat, n: nat): (r: seq<int>)
    ensures |r| == 6 * n
  {
    FlattenLength(RowQuads(resolution, y, n), 6);
    Flatten(RowQuads(resolution, y, n))
  }

  /** The rows 0 .. m-1, each complete. */
  function Rows(resolution: nat, m: nat): (r: seq<seq<int>>)
    ensures |r| == m && Uniform(r, 6 * resolution)
  {
    seq(m, y requires 0 <= y < m => Row(resolution, y, resolution))
  }

  /** The index buffer of m rows of `resolution` quads. */
  function Triangles(resolution: nat, m: nat): (r: seq<int>)
    ensures |r| == 6 * (m * resolution)
  {
    FlattenLength(Rows(resolution, m), 6 * resolution);
    MulAssociates(m, resolution, 6);
    Flatten(Rows(resolution, m))
  }

  /** One more quad on the current row. */
  lemma RowSnoc(resolution: nat, y: nat, n: nat)
    ensures Row(resolution, y, n + 1) == Row(resolution, y, n) + QuadIndices(resolution, y, n)
  {
    var quads := RowQuads(resolution, y, n + 1);
    assert quads[..n] == RowQuads(resolution, y, n);
  }

  /** One more complete row. */
  lemma TrianglesSnoc(resolution: nat, m: nat)
    ensures Triangles(resolution, m + 1) == Triangles(resolution, m) + Row(resolution, m, resolution)
  {
    var rows := Rows(resolution, m + 1);
    assert rows[..m] == Rows(resolution, m);
  }

  /** Slot `start + k` of the buffer, where `start = 6 * (y * resolution + x)`
      is the counter `ti` at quad (y, x), holds entry k of that quad.
      The position is passed in as `start` rather than written inline so
      that callers and the contract share one term for the product, which
      keeps the nonlinear index arithmetic out of the proof obligations. */
  lemma TrianglesAt(resolution: nat, m: nat, y: nat, x: nat, k: nat, start: nat)
    requires y < m && x < resolution && k < 6
    requires start == 6 * (y * resolution + x)
    ensures start + k < |Triangles(resolution, m)|
    ensures Triangles(resolution, m)[start + k] == QuadIndices(resolution, y, x)[k]
  {
    FlattenAt(Rows(resolution, m), 6 * resolution, y, 6 * x + k);
    FlattenAt(RowQuads(resolution, y, resolution), 6, x, k);
    MulAssociates(y, resolution, 6);
  }

  /** Every slot s of a buffer of m rows lies in some quad (y, x), at entry
      k of it. */
  lemma SlotQuad(resolution: nat, m: nat, s: nat) returns (y: nat, x: nat, k: nat)
    requires s < 6 * (m * resolution)
    ensures y < m && x < resolution && k < 6
    ensures s == 6 * (y * resolution + x) + k
  {
    if resolution == 0 {
      assert false;
    }
    var q;
    q, k := Divide(s, 6);
    y, x := Divide(q, resolution);
    if m <= y {
      MulMonotone(m, y, resolution);
      assert false;
    }
  }

  /** The indices of a quad on a buffer of m rows lie in
      [0, m * (resolution+1) + resolution]. */
  lemma QuadBounds(resolution: nat, m: nat, y: nat, x: nat)
    requires y < m && x < resolution
    ensures forall k :: 0 <= k < 6 ==> 0 <= QuadIndices(resolution, y, x)[k] <= m * (resolution + 1) + resolution
  {
    MulMonotone(y, m - 1, resolution + 1);
    MulSucc(m - 1, resolution + 1);
  }

  /** Every index in the buffer of m rows lies in [0, m * (resolution+1) +
      resolution]. */
  lemma TrianglesBounds(resolution: nat, m: nat, s: nat)
    requires s < |Triangles(resolution, m)|
    ensures 0 <= Triangles(resolution, m)[s] <= m * (resolution + 1) + resolution
  {
    var y, x, k := SlotQuad(resolution, m, s);
    TrianglesAt(resolution, m, y, x, k, s - k);
    QuadBounds(resolution, m, y, x);
  }

  /** ... and that bound is reached: the last slot holds
      `m * (resolution+1) + resolution`. */
  lemma TrianglesLargest(resolution: nat, m: nat)
    requires m >= 1 && resolution >= 1
    ensures |Triangles(resolution, m)| >= 1
    ensures Triangles(resolution, m)[|Triangles(resolution, m)| - 1] == m * (resolution + 1) + resolution
  {
    var start := 6 * ((m - 1) * resolution + (resolution - 1));
    MulSucc(m - 1, resolution);
    MulSucc(m - 1, resolution + 1);
    TrianglesAt(resolution, m, m - 1, resolution - 1, 5, start);
  }

  // ---------------------------------------------------------------------
  // Filling the buffer

  /** Quads per row: the inner loop `for (x = 0; x < resolution; ...)` runs
      no times for a resolution of 0 or less. */
  function Width(resolution: int): nat {
    if resolution > 0 then resolution else 0
  }

  /** An index buffer of `rows * resolution * 6` entries that could be
      allocated (the size is not negative) holds exactly 6 entries per quad of
      `rows` rows when the resolution is positive. */
  lemma BufferLength(rows: int, resolution: int)
    requires rows * resolution * 6 >= 0
    ensures resolution > 0 ==> rows >= 0 && rows * resolution * 6 == 6 * (rows * resolution)
  {
    if resolution > 0 && rows < 0 {
      assert false;
    }
  }

  /** Write counts after slots 0 .. upto-1 of an n-slot array have each
      been written once. */
  function WrittenOnce(n: nat, upto: nat): (r: seq<nat>)
    ensures |r| == n
  {
    seq(n, s requires 0 <= s < n => if s < upto then 1 else 0)
  }

  /** The six writes of one quad at `ti`, in the source's order (a chained
      assignment `a[i] = a[j] = v` stores a[j] first). `counted` is `writes`
      with one more write on each slot touched. */
  method WriteQuad(triangles: array<int>, ti: nat, vi: int, resolution: int, ghost writes: seq<nat>)
    returns (ghost counted: seq<nat>)
    requires ti + 6 <= triangles.Length && |writes| == triangles.Length
    modifies triangles
    ensures triangles[..ti] == old(triangles[..ti])
    ensures triangles[ti..ti + 6] == [vi, vi + resolution + 1, vi + 1, vi + 1, vi + resolution + 1, vi + resolution + 2]
    ensures triangles[ti + 6..] == old(triangles[ti + 6..])
    ensures |counted| == |writes|
    ensures forall s :: 0 <= s < |writes| ==> counted[s] == writes[s] + (if ti <= s < ti + 6 then 1 else 0)
  {
    counted := writes;
    triangles[ti] := vi;
    counted := counted[ti := counted[ti] + 1];
    triangles[ti + 2] := vi + 1;
    counted := counted[ti + 2 := counted[ti + 2] + 1];
    triangles[ti + 3] := vi + 1;
    counted := counted[ti + 3 := counted[ti + 3] + 1];
    triangles[ti + 1] := vi + resolution + 1;
    counted := counted[ti + 1 := counted[ti + 1] + 1];
    triangles[ti + 4] := vi + resolution + 1;
    counted := counted[ti + 4 := counted[ti + 4] + 1];
    triangles[ti + 5] := vi + resolution + 2;
    counted := counted[ti + 5 := counted[ti + 5] + 1];
  }

  /** Appending a quad's six entries to a prefix of the array. */
  lemma PrefixGrows(a: seq<int>, ti: nat, prefix: seq<int>, quad: seq<int>)
    requires ti + 6 <= |a| && a[..ti] == prefix && a[ti..ti + 6] == quad
    ensures a[..ti + 6] == prefix + quad
  {
    assert a[..ti + 6] == a[..ti] + a[ti..ti + 6];
  }

  /** One pass of the inner loop of `GenerateTriangles`: quad (y, x) is
      written at `ti` right after the quads before it, and each of its six
      slots is written for the first time. */
  method AppendQuad(triangles: array<int>, resolution: nat, y: nat, x: nat, ti: nat, vi: int, ghost writes: seq<nat>)
    returns (ghost counted: seq<nat>)
    requires x < resolution && ti == 6 * (y * resolution + x) && ti + 6 <= triangles.Length
    requires vi == GridIndex(resolution, y, x)
    requires triangles[..ti] == Triangles(resolution, y) + Row(resolution, y, x)
    requires writes == WrittenOnce(triangles.Length, ti)
    modifies triangles
    ensures triangles[..ti + 6] == Triangles(resolution, y) + Row(resolution, y, x + 1)
    ensures triangles[ti + 6..] == old(triangles[ti + 6..])
    ensures counted == WrittenOnce(triangles.Length, ti + 6)
  {
    counted := WriteQuad(triangles, ti, vi, resolution, writes);
    assert counted == WrittenOnce(triangles.Length, ti + 6);
    PrefixGrows(triangles[..], ti, Triangles(resolution, y) + Row(resolution, y, x), QuadIndices(resolution, y, x));
    RowSnoc(resolution, y, x);
  }

  /** The counters after a complete row, and the row fits when the array
      holds whole rows. */
  lemma RowComplete(resolution: nat, y: nat, capacity: nat, ti: nat, length: nat)
    requires ti == 6 * (y * resolution + resolution) <= length
    requires resolution > 0 ==> length == 6 * (capacity * resolution)
    ensures ti == 6 * ((y + 1) * resolution) && y * resolution + resolution == (y + 1) * resolution
    ensures y * (resolution + 1) + resolution + 1 == (y + 1) * (resolution + 1)
    ensures resolution > 0 ==> y + 1 <= capacity
  {
    MulSucc(y, resolution);
    MulSucc(y, resolution + 1);
    if resolution > 0 {
      MulCancel(y + 1, capacity, resolution);
    }
  }

  /** When the counter `ti` of quad (y, x) reaches the end of an array of
      `capacity` rows, the quad is the first of row `capacity`. */
  lemma OverrunStartsRow(resolution: nat, capacity: nat, y: nat, x: nat)
    requires x < resolution && y * resolution + x == capacity * resolution
    ensures y == capacity && x == 0
  {
    DivModUnique(capacity * resolution, resolution, y, x);
    DivModUnique(capacity * resolution, resolution, capacity, 0);
  }

  /** When the counter `ti` of quad (y, x) reaches the end of an array of
      `capacity` rows, what has been written is exactly those rows. */
  lemma OverrunBuffer(resolution: nat, capacity: nat, y: nat, x: nat)
    requires x < resolution && y * resolution + x == capacity * resolution
    ensures y == capacity && x == 0
    ensures Triangles(resolution, y) + Row(resolution, y, x) == Triangles(resolution, capacity)
  {
    OverrunStartsRow(resolution, capacity, y, x);
    assert Row(resolution, y, 0) == [];
  }

  /** The inner loop of `GenerateTriangles` for row y: quads (y, 0) ..
      (y, resolution-1) at `ti` and `vi` counting on from the rows before. A
      write past the end throws; as the array holds whole quads, that
      happens at the first write of the row's first quad, and only on the
      row `capacity` the array was not made for. */
  method WriteRowQuads(triangles: array<int>, res: nat, capacity: nat, y: nat, start: nat, first: int, counted: nat,
                       ghost original: seq<int>, ghost before: seq<nat>)
    returns (ok: bool, ti: nat, vi: int, index: nat, ghost writes: seq<nat>)
    requires res > 0 ==> triangles.Length == 6 * (capacity * res)
    requires |original| == triangles.Length
    requires start == 6 * (y * res) <= triangles.Length && first == y * (res + 1) && counted == y * res
    requires triangles[..start] == Triangles(res, y) && triangles[start..] == original[start..]
    requires before == WrittenOnce(triangles.Length, start)
    modifies triangles
    ensures ok ==> ti == 6 * (y * res + res) <= triangles.Length
    ensures ok ==> vi == y * (res + 1) + res && index == y * res + res
    ensures ok ==> triangles[..ti] == Triangles(res, y) + Row(res, y, res) && triangles[ti..] == original[ti..]
    ensures ok ==> writes == WrittenOnce(triangles.Length, ti)
    ensures !ok ==> res > 0 && y == capacity && index == capacity * res
    ensures !ok ==> triangles[..] == Triangles(res, capacity)
    ensures !ok ==> writes == WrittenOnce(triangles.Length, triangles.Length)
  {
    ti, vi, index, writes := start, first, counted, before;
    var x := 0;
    while x < res
      invariant 0 <= x <= res
      invariant ti == 6 * (y * res + x) <= triangles.Length
      invariant vi == y * (res + 1) + x
      invariant index == y * res + x
      invariant triangles[..ti] == Triangles(res, y) + Row(res, y, x)
      invariant triangles[ti..] == original[ti..]
      invariant writes == WrittenOnce(triangles.Length, ti)
    {
      if ti >= triangles.Length {
        OverrunBuffer(res, capacity, y, x);
        assert triangles[..] == triangles[..ti];
        return false, ti, vi, index, writes;
      }
      writes := AppendQuad(triangles, res, y, x, ti, vi, writes);
      index := index + 1;
      x, ti, vi := x + 1, ti + 6, vi + 1;
    }
    ok := true;
  }

  /** One row of `GenerateTriangles`, with the counters in closed form
      after it. */
  method FillRow(triangles: array<int>, resolution: int, capacity: nat, y: nat, start: nat, first: int, counted: nat,
                 ghost original: seq<int>, ghost before: seq<nat>)
    returns (ok: bool, ti: nat, vi: int, index: nat, ghost writes: seq<nat>)
    requires resolution > 0 ==> triangles.Length == 6 * (capacity * resolution)
    requires |original| == triangles.Length
    requires start == 6 * (y * Width(resolution)) <= triangles.Length && first == y * (Width(resolution) + 1)
    requires counted == y * Width(resolution)
    requires triangles[..start] == Triangles(Width(resolution), y) && triangles[start..] == original[start..]
    requires before == WrittenOnce(triangles.Length, start)
    modifies triangles
    ensures ok <==> resolution <= 0 || y < capacity
    ensures ok ==> ti == 6 * ((y + 1) * Width(resolution)) <= triangles.Length
    ensures ok ==> vi + 1 == (y + 1) * (Width(resolution) + 1)
    ensures ok ==> index == (y + 1) * Width(resolution)
    ensures !ok ==> index == capacity * Width(resolution)
    ensures ok ==> triangles[..ti] == Triangles(Width(resolution), y + 1) && triangles[ti..] == original[ti..]
    ensures ok ==> writes == WrittenOnce(triangles.Length, ti)
    ensures !ok ==> triangles[..] == Triangles(Width(resolution), capacity)
    ensures !ok ==> writes == WrittenOnce(triangles.Length, triangles.Length)
  {
    var res := Width(resolution);
    ok, ti, vi, index, writes := WriteRowQuads(triangles, res, capacity, y, start, first, counted, original, before);
    if ok {
      TrianglesSnoc(res, y);
      RowComplete(res, y, capacity, ti, triangles.Length);
    }
  }

  /** The nested loops of `GenerateTriangles`, over an array allocated for
      `capacity` rows: rows 0 .. rows-1 of `resolution` quads each, with
      `ti = 6 * (y * resolution + x)` and `vi = y * (resolution + 1) + x`. A
      write past the end throws, which happens exactly when there are more
      rows than the array was made for; every row before that is complete.
      `index` counts the quads written and `writes[s]` the writes to slot s. */
  method FillQuads(triangles: array<int>, rows: nat, resolution: int, capacity: nat)
    returns (ok: bool, index: nat, ghost writes: seq<nat>)
    requires resolution > 0 ==> triangles.Length == 6 * (capacity * resolution)
    modifies triangles
    ensures ok <==> resolution <= 0 || rows <= capacity
    ensures index == (if ok then rows else capacity) * Width(resolution)
    ensures ok ==> 6 * (rows * Width(resolution)) <= triangles.Length
    ensures ok ==> triangles[..] == Triangles(Width(resolution), rows) + old(triangles[6 * (rows * Width(resolution))..])
    ensures !ok ==> triangles[..] == Triangles(Width(resolution), capacity)
    ensures writes == WrittenOnce(triangles.Length, |Triangles(Width(resolution), if ok then rows else capacity)|)
  {
    var res := Width(resolution);
    writes := WrittenOnce(triangles.Length, 0);
    ghost var original := triangles[..];
    var ti, vi, y := 0, 0, 0;
    index := 0;
    while y < rows
      invariant y <= rows && (res > 0 ==> y <= capacity)
      invariant ti == 6 * (y * res) <= triangles.Length
      invariant vi == y * (res + 1)
      invariant index == y * res
      invariant triangles[..ti] == Triangles(res, y)
      invariant triangles[ti..] == original[ti..]
      invariant writes == WrittenOnce(triangles.Length, ti)
    {
      var rowDone;
      rowDone, ti, vi, index, writes := FillRow(triangles, resolution, capacity, y, ti, vi, index, original, writes);
      if !rowDone {
        return false, index, writes;
      }
      y, vi := y + 1, vi + 1;
    }
    assert triangles[..] == triangles[..ti] + triangles[ti..];
    return true, index, writes;
  }
}
