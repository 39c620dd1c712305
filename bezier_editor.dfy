/** Scripts/Editor/Curves/BezierEditor.cs: the index rules of the Bézier
    inspector. The point list interleaves anchors and controls as
    `p0 c0 c1 p1 c0 c1 p2 ...`, so element i is an anchor exactly when
    `i % 3 == 0`. The list callbacks grow, shrink and select in that list,
    and the two drawing routines walk it three elements at a time. */
module BezierEditing {
  import opened Wrappers
  import opened Vectors

  /** The background choice of `DrawPointElementBackground` for a row that
      is not selected (the selected row always gets the selection colour,
      whatever its index). The anchors are the elements that end a run of
      whole segments, so a list cut just after an anchor holds `i / 3` whole
      segments and nothing more. */
  predicate IsAnchor(i: nat): (b: bool)
    ensures b <==> 3 * SegmentCount(i + 1) == i
  {
    i % 3 == 0
  }

  /** A list of whole segments: one anchor, then three more elements per
      segment. */
  predicate WholeSegments(points: seq<Vector3>) {
    |points| >= 1 && (|points| - 1) % 3 == 0
  }

  /** `CanRemovePointElement`: on a list of whole segments, removal is
      offered exactly while there are at least two segments, so one always
      remains. */
  predicate CanRemove(points: seq<Vector3>): (b: bool)
    ensures WholeSegments(points) ==> (b <==> SegmentCount(|points|) >= 2)
  {
    |points| > 4
  }

  /** `DeleteArrayElementAtIndex` on an array of vectors: the element goes
      and the later ones move down by one. */
  function Delete(points: seq<Vector3>, i: nat): (r: seq<Vector3>)
    requires i < |points|
    ensures |r| == |points| - 1
    ensures forall j :: 0 <= j < i ==> r[j] == points[j]
    ensures forall j :: i <= j < |r| ==> r[j] == points[j + 1]
  {
    points[..i] + points[i + 1..]
  }

  /** The effect of removing the segment that ends at anchor `anchor`: its
      two controls and the anchor itself are gone, everything else keeps
      its order. */
  function RemoveSegment(points: seq<Vector3>, anchor: nat): (r: seq<Vector3>)
    requires 2 <= anchor < |points|
    ensures |r| == |points| - 3
  {
    points[..anchor - 2] + points[anchor + 1..]
  }

  /** Removing a segment keeps every other element, in order, and keeps
      anchors anchors and controls controls; the size keeps its remainder
      modulo three, so a list of whole segments stays one, and one that
      could be shortened keeps at least a full segment. */
  lemma RemoveSegmentKeepsLayout(points: seq<Vector3>, anchor: nat)
    requires 2 <= anchor < |points| && IsAnchor(anchor)
    ensures forall j :: 0 <= j < anchor - 2 ==> RemoveSegment(points, anchor)[j] == points[j]
    ensures forall j :: anchor - 2 <= j < |points| - 3 ==> RemoveSegment(points, anchor)[j] == points[j + 3]
    ensures forall j :: anchor - 2 <= j < |points| - 3 ==> (IsAnchor(j) <==> IsAnchor(j + 3))
    ensures (|RemoveSegment(points, anchor)| - 1) % 3 == (|points| - 1) % 3
    ensures WholeSegments(points) ==> WholeSegments(RemoveSegment(points, anchor))
    ensures WholeSegments(points) && CanRemove(points) ==> |RemoveSegment(points, anchor)| >= 4
  {
  }

  /** The three points appended after `p0`: two controls one step of
      (1, 0, 1) apart, then an anchor 10 further along z. */
  function NewSegment(p0: Vector3): (r: seq<Vector3>)
    ensures |r| == 3
    ensures r[0] == Vector3(p0.x + 1.0, p0.y, p0.z + 1.0)
    ensures r[1] == Vector3(p0.x + 2.0, p0.y, p0.z + 2.0)
    ensures r[2] == Vector3(p0.x + 2.0, p0.y, p0.z + 12.0)
  {
    var c0 := Add(p0, Vector3(1.0, 0.0, 1.0));
    var c1 := Add(c0, Vector3(1.0, 0.0, 1.0));
    var p1 := Add(c1, Vector3(0.0, 0.0, 10.0));
    [c0, c1, p1]
  }

  /** `arraySize += 3` followed by the three writes after `current`. The
      three new slots first hold whatever the editor put there (`grown`). */
  function Extend(points: seq<Vector3>, current: nat, grown: seq<Vector3>): (r: seq<Vector3>)
    requires current < |points| && |grown| == 3
    ensures |r| == |points| + 3
  {
    var segment := NewSegment(points[current]);
    (points + grown)[current + 1 := segment[0]][current + 2 := segment[1]][current + 3 := segment[2]]
  }

  /** Adding keeps everything up to the selected point, puts the new
      segment right after it, and leaves the rest of the grown list as it
      was. Added at the last point of a list of whole segments, it appends
      one whole segment, whatever the grown slots held. */
  lemma ExtendLayout(points: seq<Vector3>, current: nat, grown: seq<Vector3>)
    requires current < |points| && |grown| == 3
    ensures Extend(points, current, grown)[..current + 1] == points[..current + 1]
    ensures Extend(points, current, grown)[current + 1..current + 4] == NewSegment(points[current])
    ensures Extend(points, current, grown)[current + 4..] == (points + grown)[current + 4..]
    ensures current == |points| - 1 ==> Extend(points, current, grown) == points + NewSegment(points[current])
    ensures current == |points| - 1 && WholeSegments(points) ==> WholeSegments(Extend(points, current, grown))
  {
    var r := Extend(points, current, grown);
    if current == |points| - 1 {
      assert r == points + NewSegment(points[current]);
    }
  }

  /** The four points one drawn curve segment uses. */
  datatype CurveSegment = CurveSegment(p0: Vector3, c0: Vector3, c1: Vector3, p1: Vector3)

  /** The segment whose first anchor is element i. */
  function SegmentFrom(points: seq<Vector3>, i: nat): CurveSegment
    requires i + 3 < |points|
  {
    CurveSegment(points[i], points[i + 1], points[i + 2], points[i + 3])
  }

  /** The first n segments, at elements 0, 3, 6, ... */
  function Segments(points: seq<Vector3>, n: nat): (r: seq<CurveSegment>)
    requires n == 0 || 3 * n < |points|
    ensures |r| == n
  {
    seq(n, k requires 0 <= k < n => SegmentFrom(points, 3 * k))
  }

  /** The number of whole segments in a list: (size - 1) / 3. */
  function SegmentCount(size: nat): (n: nat)
    ensures n == 0 || 3 * n < size
    ensures size >= 1 ==> 3 * n <= size - 1 < 3 * n + 3
  {
    if size == 0 then 0 else (size - 1) / 3
  }

  /** Every drawn segment runs from one anchor to the next. */
  lemma SegmentsJoinAnchors(points: seq<Vector3>, n: nat, k: nat)
    requires (n == 0 || 3 * n < |points|) && k < n
    ensures IsAnchor(3 * k) && IsAnchor(3 * k + 3)
    ensures Segments(points, n)[k].p0 == points[3 * k] && Segments(points, n)[k].p1 == points[3 * k + 3]
    ensures k + 1 < n ==> Segments(points, n)[k].p1 == Segments(points, n)[k + 1].p0
  {
  }

  /** `DrawCubicBezierCurve(SerializedProperty ...)`: from i = 0 in steps
      of 3 while `i < size - 1`, reading elements i .. i+3. A read past the
      end yields null, so the walk ends by a null dereference unless the
      list is made of whole segments. */
  method DrawSerializedSegments(points: seq<Vector3>) returns (drawn: seq<CurveSegment>, outcome: Outcome)
    ensures outcome == Done || outcome == Thrown(NullReference)
    ensures outcome == Done <==> |points| <= 1 || WholeSegments(points)
    ensures drawn == Segments(points, SegmentCount(|points|))
  {
    var size := |points|;
    drawn := [];
    var i := 0;
    while i < size - 1
      invariant i == 3 * |drawn| && (i == 0 || i < size)
      invariant size >= 1 ==> 3 * |drawn| <= size - 1
      invariant drawn == Segments(points, |drawn|)
    {
      if i + 3 >= size {
        return drawn, Thrown(NullReference);
      }
      drawn := drawn + [SegmentFrom(points, i)];
      i := i + 3;
    }
    return drawn, Done;
  }

  /** `DrawCubicBezierCurve(Vector3[] ...)`: the same walk, but while
      `i < size`, so the last step always reads `points[i + 3]` past the
      end of a non-empty array. */
  method DrawArraySegments(points: seq<Vector3>) returns (drawn: seq<CurveSegment>, outcome: Outcome)
    ensures outcome == Done || outcome == Thrown(IndexOutOfRange)
    ensures outcome == Thrown(IndexOutOfRange) <==> |points| >= 1
    ensures drawn == Segments(points, SegmentCount(|points|))
  {
    var size := |points|;
    drawn := [];
    var i := 0;
    while i < size
      invariant i == 3 * |drawn| && (i == 0 || i < size)
      invariant size >= 1 ==> 3 * |drawn| <= size - 1
      invariant drawn == Segments(points, |drawn|)
    {
      if i + 3 >= size {
        return drawn, Thrown(IndexOutOfRange);
      }
      drawn := drawn + [SegmentFrom(points, i)];
      i := i + 3;
    }
    return drawn, Done;
  }

  /** The inspector's state: the serialized point list and the selected
      row. */
  class BezierEditor {
    var points: seq<Vector3>
    var currentIndex: int

    constructor(points: seq<Vector3>)
      ensures this.points == points && currentIndex == 0
    {
      this.points := points;
      currentIndex := 0;
    }

    /** `OnSelectPointsList`: remembers the selected row. */
    method OnSelectPointsList(index: int)
      modifies this
      ensures currentIndex == index && points == old(points)
    {
      currentIndex := index;
    }

    /** `AddPointListCallback`: reads the selected point (a null reference
        when the selection is outside the list), grows the list by three and
        writes a new segment right after the selection. */
    method AddPointListCallback(grown: seq<Vector3>) returns (outcome: Outcome)
      requires |grown| == 3
      modifies this
      ensures currentIndex == old(currentIndex)
      ensures outcome == Done || outcome == Thrown(NullReference)
      ensures outcome == Thrown(NullReference) <==> !(0 <= currentIndex < |old(points)|)
      ensures outcome.Thrown? ==> points == old(points)
      ensures outcome == Done ==> points == Extend(old(points), currentIndex, grown)
    {
      if !(0 <= currentIndex < |points|) {
        return Thrown(NullReference);
      }
      var p0 := points[currentIndex];
      var c0 := Add(p0, Vector3(1.0, 0.0, 1.0));
      var c1 := Add(c0, Vector3(1.0, 0.0, 1.0));
      var p1 := Add(c1, Vector3(0.0, 0.0, 10.0));
      points := points + grown;
      points := points[currentIndex + 1 := c0];
      points := points[currentIndex + 2 := c1];
      points := points[currentIndex + 3 := p1];
      return Done;
    }

    /** `RemovePointsListCallback`: when the selection is an anchor other
        than the first, deletes it and then the two controls before it. */
    method RemovePointsListCallback()
      requires currentIndex > 0 && currentIndex % 3 == 0 ==> currentIndex < |points|
      modifies this
      ensures currentIndex == old(currentIndex)
      ensures currentIndex > 0 && currentIndex % 3 == 0 ==> points == RemoveSegment(old(points), currentIndex)
      ensures !(currentIndex > 0 && currentIndex % 3 == 0) ==> points == old(points)
    {
      if currentIndex > 0 && currentIndex % 3 == 0 {
        points := Delete(points, currentIndex);
        points := Delete(points, currentIndex - 1);
        points := Delete(points, currentIndex - 2);
      }
    }
  }
}
