/** Scripts/Curves/Bezier.cs: closed-form Bézier evaluation, the velocity
    formula as the source writes it, and the two samplers that walk a list of
    anchors beside a separate control-point array. */
module Bezier {
  import opened Wrappers
  import opened Vectors
  import opened Blocks

  // ---------------------------------------------------------------------
  // Evaluation

  /** `GetCubicBezierCurve`: clamp t, then the Bernstein form of degree 3.
      The four weights add up to one, so a segment whose points all
      coincide stays at that point. */
  function CubicBezierCurve(p0: Vector3, p1: Vector3, p2: Vector3, p3: Vector3, t: real): (r: Vector3)
    ensures p0 == p1 == p2 == p3 ==> r == p0
  {
    var t := Clamp01(t);
    var inverseT := 1.0 - t;
    CubicAtOnePoint(p0, p1, p2, p3, inverseT, t);
    CubicTerms(p0, p1, p2, p3, inverseT, t)
  }

  /** The Bernstein sum of degree 3 at `t`, with `u = 1 - t`. */
  function CubicTerms(p0: Vector3, p1: Vector3, p2: Vector3, p3: Vector3, u: real, t: real): Vector3 {
    Add(Add(Add(Scale(Pow(u, 3), p0),
                Scale(3.0 * Pow(u, 2) * t, p1)),
            Scale(3.0 * u * Pow(t, 2), p2)),
        Scale(Pow(t, 3), p3))
  }

  /** `GetQuadraticBezierCurve`: clamp t, then the Bernstein form of degree 2,
      whose three weights add up to one. */
  function QuadraticBezierCurve(p0: Vector3, p1: Vector3, p2: Vector3, t: real): (r: Vector3)
    ensures p0 == p1 == p2 ==> r == p0
  {
    var t := Clamp01(t);
    var inverseT := 1.0 - t;
    QuadraticWeightsSum(inverseT, t);
    WeightsOfOnePoint3(inverseT * inverseT, 2.0 * inverseT * t, t * t, p0);
    Add(Add(Scale(inverseT * inverseT, p0), Scale(2.0 * inverseT * t, p1)), Scale(t * t, p2))
  }

  /** `GetVelocity` exactly as written: the first term is `3(1-t)^2 * p1 - p0`
      (the subtraction is outside the product) and the last term raises t to
      the 20th power. A segment that stays at one point p has derivative
      zero, but this formula gives `(3(1-t)^2 - 1) p` for it. */
  function Velocity(p0: Vector3, p1: Vector3, p2: Vector3, p3: Vector3, t: real): (r: Vector3)
    ensures p0 == p1 == p2 == p3 ==> r == Sub(Scale(3.0 * Pow(1.0 - Clamp01(t), 2), p0), p0)
  {
    var t := Clamp01(t);
    var inverseT := 1.0 - t;
    Add(Add(Sub(Scale(3.0 * Pow(inverseT, 2), p1), p0),
            Scale(6.0 * inverseT * t, Sub(p2, p1))),
        Scale(3.0 * Pow(t, VelocityExponent()), Sub(p3, p2)))
  }

  /** The cubic Bernstein weights add up to `(u + t)^3`, which is one. */
  lemma CubicWeightsSum(u: real, t: real)
    requires u + t == 1.0
    ensures Pow(u, 3) + 3.0 * Pow(u, 2) * t + 3.0 * u * Pow(t, 2) + Pow(t, 3) == 1.0
  {
    assert Pow(u, 1) == u && Pow(t, 1) == t;
    assert Pow(u, 2) == u * u && Pow(t, 2) == t * t;
    assert Pow(u, 3) == u * (u * u) && Pow(t, 3) == t * (t * t);
    calc {
      u * (u * u) + 3.0 * (u * u) * t + 3.0 * u * (t * t) + t * (t * t);
      (u + t) * (u + t) * (u + t);
      1.0;
    }
  }

  /** For a clamped parameter each cubic Bernstein weight is a fraction:
      none is negative, and since they add up to one none exceeds it. */
  lemma CubicWeightsBounds(u: real, t: real)
    requires 0.0 <= t <= 1.0 && u == 1.0 - t
    ensures 0.0 <= Pow(u, 3) <= 1.0 && 0.0 <= 3.0 * Pow(u, 2) * t <= 1.0
    ensures 0.0 <= 3.0 * u * Pow(t, 2) <= 1.0 && 0.0 <= Pow(t, 3) <= 1.0
  {
    CubicPowersBounds(u, t);
    CubicWeightsSum(u, t);
    WeightsAreFractions(u, t, Pow(u, 2), Pow(u, 3), Pow(t, 2), Pow(t, 3));
  }

  /** The powers the cubic weights use lie in [0, 1]. */
  lemma CubicPowersBounds(u: real, t: real)
    requires 0.0 <= u <= 1.0 && 0.0 <= t <= 1.0
    ensures 0.0 <= Pow(u, 2) && 0.0 <= Pow(u, 3) && 0.0 <= Pow(t, 2) && 0.0 <= Pow(t, 3)
  {
    PowBounds(u, 2);
    PowBounds(u, 3);
    PowBounds(t, 2);
    PowBounds(t, 3);
  }

  /** The arithmetic of `CubicWeightsBounds`, with the powers as plain
      numbers in [0, 1]: non-negative parts of one are each at most one. */
  lemma WeightsAreFractions(u: real, t: real, u2: real, u3: real, t2: real, t3: real)
    requires 0.0 <= u && 0.0 <= t && 0.0 <= u2 && 0.0 <= u3 && 0.0 <= t2 && 0.0 <= t3
    requires u3 + 3.0 * u2 * t + 3.0 * u * t2 + t3 == 1.0
    ensures 0.0 <= u3 <= 1.0 && 0.0 <= 3.0 * u2 * t <= 1.0
    ensures 0.0 <= 3.0 * u * t2 <= 1.0 && 0.0 <= t3 <= 1.0
  {
    assert 0.0 <= u2 * t && 0.0 <= u * t2;
  }

  /** The quadratic Bernstein weights add up to `(u + t)^2`, which is one. */
  lemma QuadraticWeightsSum(u: real, t: real)
    requires u + t == 1.0
    ensures u * u + 2.0 * u * t + t * t == 1.0
  {
    calc {
      u * u + 2.0 * u * t + t * t;
      (u + t) * (u + t);
      1.0;
    }
  }

  /** A cubic whose four points coincide is that point. */
  lemma CubicAtOnePoint(p0: Vector3, p1: Vector3, p2: Vector3, p3: Vector3, u: real, t: real)
    requires u + t == 1.0
    ensures p0 == p1 == p2 == p3 ==> CubicTerms(p0, p1, p2, p3, u, t) == p0
  {
    CubicWeightsSum(u, t);
    WeightsOfOnePoint4(Pow(u, 3), 3.0 * Pow(u, 2) * t, 3.0 * u * Pow(t, 2), Pow(t, 3), p0);
  }

  /** Weights that add up to one, all applied to the same point, give that point. */
  lemma WeightsOfOnePoint3(a: real, b: real, c: real, p: Vector3)
    requires a + b + c == 1.0
    ensures Add(Add(Scale(a, p), Scale(b, p)), Scale(c, p)) == p
  {
    assert (a + b + c) * p.x == p.x && (a + b + c) * p.y == p.y && (a + b + c) * p.z == p.z;
  }

  lemma WeightsOfOnePoint4(a: real, b: real, c: real, d: real, p: Vector3)
    requires a + b + c + d == 1.0
    ensures Add(Add(Add(Scale(a, p), Scale(b, p)), Scale(c, p)), Scale(d, p)) == p
  {
    assert (a + b + c + d) * p.x == p.x && (a + b + c + d) * p.y == p.y && (a + b + c + d) * p.z == p.z;
  }

  /** The exponent the source applies to t in the last term of `GetVelocity`. */
  function VelocityExponent(): nat { 20 }

  /** Parameters outside [0, 1] evaluate as the nearest end. */
  lemma CubicClampsParameter(p0: Vector3, p1: Vector3, p2: Vector3, p3: Vector3, t: real)
    ensures t < 0.0 ==> CubicBezierCurve(p0, p1, p2, p3, t) == CubicBezierCurve(p0, p1, p2, p3, 0.0)
    ensures t > 1.0 ==> CubicBezierCurve(p0, p1, p2, p3, t) == CubicBezierCurve(p0, p1, p2, p3, 1.0)
  {
  }

  /** The cubic curve starts at its first anchor and ends at its last. */
  lemma CubicEndpoints(p0: Vector3, p1: Vector3, p2: Vector3, p3: Vector3)
    ensures CubicBezierCurve(p0, p1, p2, p3, 0.0) == p0
    ensures CubicBezierCurve(p0, p1, p2, p3, 1.0) == p3
  {
    PowOfOne(3);
    PowOfOne(2);
  }

  lemma QuadraticClampsParameter(p0: Vector3, p1: Vector3, p2: Vector3, t: real)
    ensures t < 0.0 ==> QuadraticBezierCurve(p0, p1, p2, t) == QuadraticBezierCurve(p0, p1, p2, 0.0)
    ensures t > 1.0 ==> QuadraticBezierCurve(p0, p1, p2, t) == QuadraticBezierCurve(p0, p1, p2, 1.0)
  {
  }

  lemma QuadraticEndpoints(p0: Vector3, p1: Vector3, p2: Vector3)
    ensures QuadraticBezierCurve(p0, p1, p2, 0.0) == p0
    ensures QuadraticBezierCurve(p0, p1, p2, 1.0) == p2
  {
  }

  /** What the velocity formula as written yields at the ends of a segment:
      `3*p1 - p0` at the start and `3*(p3 - p2) - p0` at the end, where the
      derivative of the curve would be `3*(p1 - p0)` and `3*(p3 - p2)`. */
  lemma VelocityAtEnds(p0: Vector3, p1: Vector3, p2: Vector3, p3: Vector3)
    ensures Velocity(p0, p1, p2, p3, 0.0) == Sub(Scale(3.0, p1), p0)
    ensures Velocity(p0, p1, p2, p3, 1.0) == Sub(Scale(3.0, Sub(p3, p2)), p0)
  {
    PowOfOne(VelocityExponent());
    PowOfOne(2);
  }

  /** Unless p0 is the origin, the value at t = 0 is not the derivative
      `3*(p1 - p0)`: the two differ by exactly `2*p0`. */
  lemma VelocityStartMissesDerivative(p0: Vector3, p1: Vector3, p2: Vector3, p3: Vector3)
    ensures Velocity(p0, p1, p2, p3, 0.0) == Add(Scale(3.0, Sub(p1, p0)), Scale(2.0, p0))
    ensures Velocity(p0, p1, p2, p3, 0.0) == Scale(3.0, Sub(p1, p0)) <==> p0 == Zero
  {
    VelocityAtEnds(p0, p1, p2, p3);
    DiffersByTwice(p0, p1);
  }

  lemma DiffersByTwice(p0: Vector3, p1: Vector3)
    ensures Sub(Scale(3.0, p1), p0) == Add(Scale(3.0, Sub(p1, p0)), Scale(2.0, p0))
    ensures Sub(Scale(3.0, p1), p0) == Scale(3.0, Sub(p1, p0)) <==> p0 == Zero
  {
  }

  // ---------------------------------------------------------------------
  // Control-point indexing shared by the samplers

  /** Segment i (from anchor i-1 to anchor i, i >= 1) reads its first control
      at `i == 1 ? 0 : i`. */
  function ControlStartIndex(i: nat): nat {
    if i == 1 then 0 else i
  }

  /** ... and its second control at `i == 1 ? i : i + (i - 1)`. */
  function ControlEndIndex(i: nat): nat
    requires i >= 1
  {
    if i == 1 then i else i + (i - 1)
  }

  /** Segment 1 reads controls 0 and 1; segment i >= 2 reads i and 2i-1. Both
      reads of segment i are in bounds exactly when the array holds 2i
      controls, so the reads of every segment are in bounds exactly when the
      last one's are. */
  lemma ControlReadsInBounds(i: nat, count: nat)
    requires i >= 1
    ensures i == 1 ==> ControlStartIndex(i) == 0 && ControlEndIndex(i) == 1
    ensures i >= 2 ==> ControlStartIndex(i) == i && ControlEndIndex(i) == 2 * i - 1
    ensures ControlStartIndex(i) < count && ControlEndIndex(i) < count <==> 2 * i <= count
  {
  }

  /** Every segment of a list of n anchors reads its controls in bounds. */
  predicate ControlsCover(anchors: nat, controls: nat) {
    anchors < 2 || 2 * (anchors - 1) <= controls
  }

  // ---------------------------------------------------------------------
  // GetCubicBezierPoints

  /** The point sampled at step k of segment i (anchors i-1 and i). */
  function SegmentSample(points: seq<Vector3>, controls: seq<Vector3>, segments: nat, i: nat, k: nat): Vector3
    requires 1 <= i < |points| && 2 * i <= |controls| && segments >= 1
  {
    ControlReadsInBounds(i, |controls|);
    CubicBezierCurve(points[i - 1], controls[ControlStartIndex(i)], controls[ControlEndIndex(i)], points[i],
                     k as real / segments as real)
  }

  /** The samples of segment i at t = k / segments, k = 0 .. segments. */
  function SegmentBlock(points: seq<Vector3>, controls: seq<Vector3>, segments: nat, i: nat): seq<Vector3>
    requires 1 <= i < |points| && 2 * i <= |controls| && segments >= 1
  {
    seq(segments + 1, k requires 0 <= k <= segments => SegmentSample(points, controls, segments, i, k))
  }

  /** The blocks of segments 1 .. m, in segment order. */
  function SegmentBlocks(points: seq<Vector3>, controls: seq<Vector3>, segments: nat, m: nat): (r: seq<seq<Vector3>>)
    requires (m == 0 || m < |points|) && 2 * m <= |controls| && segments >= 1
    ensures |r| == m && Uniform(r, segments + 1)
  {
    seq(m, j requires 0 <= j < m => SegmentBlock(points, controls, segments, j + 1))
  }

  /** `GetCubicBezierPoints`: for each segment in turn, the `segments + 1`
      samples at t = k / segments are appended to a list. A control read past
      the end of the array throws. */
  method GetCubicBezierPoints(points: seq<Vector3>, controls: seq<Vector3>, segments: nat)
    returns (r: Result<seq<Vector3>>)
    requires segments >= 1
    ensures r.Success? <==> ControlsCover(|points|, |controls|)
    ensures r.Failure? ==> r.error == IndexOutOfRange
    ensures r.Success? ==>
              r.value == Flatten(SegmentBlocks(points, controls, segments, if |points| == 0 then 0 else |points| - 1))
  {
    var sampled: seq<Vector3> := [];
    var size := |points|;
    var i := 1;
    while i < size
      invariant 1 <= i <= if size < 1 then 1 else size
      invariant 2 * (i - 1) <= |controls|
      invariant sampled == Flatten(SegmentBlocks(points, controls, segments, i - 1))
    {
      if ControlStartIndex(i) >= |controls| || ControlEndIndex(i) >= |controls| {
        ControlReadsInBounds(i, |controls|);
        return Failure(IndexOutOfRange);
      }
      ControlReadsInBounds(i, |controls|);
      var start := points[i - 1];
      var end := points[i];
      var controlStart := controls[ControlStartIndex(i)];
      var controlEnd := controls[ControlEndIndex(i)];
      var block: seq<Vector3> := [];
      var t := 0;
      while t <= segments
        invariant 0 <= t <= segments + 1
        invariant |block| == t
        invariant forall k :: 0 <= k < t ==> block[k] == SegmentSample(points, controls, segments, i, k)
      {
        var progress := t as real / segments as real;
        var point := CubicBezierCurve(start, controlStart, controlEnd, end, progress);
        block := block + [point];
        t := t + 1;
      }
      ghost var blocks := SegmentBlocks(points, controls, segments, i);
      assert blocks[..i - 1] == SegmentBlocks(points, controls, segments, i - 1);
      FlattenSnoc(blocks, i - 1);
      sampled := sampled + block;
      i := i + 1;
    }
    return Success(sampled);
  }

  /** Each segment's block starts at anchor i-1 and ends at anchor i, so the
      sampled curve passes through every anchor. */
  lemma SegmentBlockEnds(points: seq<Vector3>, controls: seq<Vector3>, segments: nat, i: nat)
    requires 1 <= i < |points| && 2 * i <= |controls| && segments >= 1
    ensures SegmentSample(points, controls, segments, i, 0) == points[i - 1]
    ensures SegmentSample(points, controls, segments, i, segments) == points[i]
  {
    ControlReadsInBounds(i, |controls|);
    var c0, c1 := controls[ControlStartIndex(i)], controls[ControlEndIndex(i)];
    CubicEndpoints(points[i - 1], c0, c1, points[i]);
    ParameterEnds(segments);
  }

  /** The sampled list of m segments holds `segments + 1` points per segment;
      segment i's run begins at `start = (i-1)*(segments+1)` and its sample k
      sits at `start + k`.
      The position is passed in as `start` rather than written inline so
      that callers and the contract share one term for the product, which
      keeps the nonlinear index arithmetic out of the proof obligations. */
  lemma SampledPointAt(points: seq<Vector3>, controls: seq<Vector3>, segments: nat, m: nat, i: nat, k: nat, start: nat)
    requires m < |points| && 2 * m <= |controls| && segments >= 1
    requires 1 <= i <= m && k <= segments
    requires start == (i - 1) * (segments + 1)
    ensures |Flatten(SegmentBlocks(points, controls, segments, m))| == m * (segments + 1)
    ensures start + segments < |Flatten(SegmentBlocks(points, controls, segments, m))|
    ensures Flatten(SegmentBlocks(points, controls, segments, m))[start + k]
            == SegmentSample(points, controls, segments, i, k)
  {
    var blocks := SegmentBlocks(points, controls, segments, m);
    FlattenAt(blocks, segments + 1, i - 1, segments);
    FlattenAt(blocks, segments + 1, i - 1, k);
    assert blocks[i - 1][k] == SegmentSample(points, controls, segments, i, k);
  }

  /** Segment i's run in the sampled list starts at anchor i-1 and ends at
      anchor i: the sampled curve passes through every anchor, in order.
      The position is passed in as `start` rather than written inline so
      that callers and the contract share one term for the product, which
      keeps the nonlinear index arithmetic out of the proof obligations. */
  lemma SampledSegmentEnds(points: seq<Vector3>, controls: seq<Vector3>, segments: nat, m: nat, i: nat, start: nat)
    requires m < |points| && 2 * m <= |controls| && segments >= 1
    requires 1 <= i <= m
    requires start == (i - 1) * (segments + 1)
    ensures start + segments < |Flatten(SegmentBlocks(points, controls, segments, m))|
    ensures Flatten(SegmentBlocks(points, controls, segments, m))[start] == points[i - 1]
    ensures Flatten(SegmentBlocks(points, controls, segments, m))[start + segments] == points[i]
  {
    SampledPointAt(points, controls, segments, m, i, 0, start);
    SampledPointAt(points, controls, segments, m, i, segments, start);
    SegmentBlockEnds(points, controls, segments, i);
  }

  // ---------------------------------------------------------------------
  // GetVelocities

  /** The velocities of one segment, relative to `origin`. The float loop
      `for (j = 0; j < 1; j += 1/lineStep)` is taken as its exact real
      counterpart: lineStep steps at j = k / lineStep. */
  function VelocityBlock(p0: Vector3, p1: Vector3, p2: Vector3, p3: Vector3, lineStep: nat, origin: Vector3): seq<Vector3>
    requires lineStep >= 1
  {
    seq(lineStep, k requires 0 <= k < lineStep => Sub(Velocity(p0, p1, p2, p3, k as real / lineStep as real), origin))
  }

  /** The velocity blocks of segments 1 .. m, in segment order. */
  function VelocityBlocks(points: seq<Vector3>, controls: seq<Vector3>, lineStep: nat, origin: Vector3, m: nat)
    : (r: seq<seq<Vector3>>)
    requires (m == 0 || m < |points|) && 2 * m <= |controls| && lineStep >= 1
    ensures |r| == m && Uniform(r, lineStep)
  {
    seq(m, j requires 0 <= j < m =>
      ControlReadsInBounds(j + 1, |controls|);
      VelocityBlock(points[j], controls[ControlStartIndex(j + 1)], controls[ControlEndIndex(j + 1)], points[j + 1],
                    lineStep, origin))
  }

  lemma PositiveProduct(a: int, b: nat)
    requires a * b - 1 >= 0
    ensures a >= 1 && b >= 1
  {
  }

  /** With lineStep steps per segment, the running index of segment i stays
      below `i * lineStep`, which is at most the array length
      `lineStep * n - 1` for every segment i < n once lineStep >= 1. */
  lemma VelocityIndexInBounds(lineStep: nat, n: nat, i: nat)
    requires lineStep >= 1 && 1 <= i < n
    ensures (i - 1) * lineStep + lineStep == i * lineStep
    ensures i * lineStep <= lineStep * n - 1
  {
    MulSucc(i - 1, lineStep);
    MulMonotone(i, n - 1, lineStep);
    MulSucc(n - 1, lineStep);
  }

  /** The inner loop of `GetVelocities`: writes one segment's velocities at
      the running index and leaves every other entry alone. */
  method WriteSegmentVelocities(velocities: array<Vector3>, index: nat,
                                p0: Vector3, p1: Vector3, p2: Vector3, p3: Vector3, lineStep: nat, origin: Vector3)
    returns (next: nat)
    requires lineStep >= 1 && index + lineStep <= velocities.Length
    modifies velocities
    ensures next == index + lineStep
    ensures velocities[..index] == old(velocities[..index])
    ensures velocities[index..next] == VelocityBlock(p0, p1, p2, p3, lineStep, origin)
    ensures velocities[next..] == old(velocities[next..])
  {
    next := index;
    var k := 0;
    while k < lineStep
      invariant 0 <= k <= lineStep && next == index + k
      invariant velocities[..index] == old(velocities[..index])
      invariant velocities[index..next] == VelocityBlock(p0, p1, p2, p3, lineStep, origin)[..k]
      invariant velocities[index + lineStep..] == old(velocities[index + lineStep..])
    {
      var velocity := Velocity(p0, p1, p2, p3, k as real / lineStep as real);
      velocities[next] := Sub(velocity, origin);
      next := next + 1;
      k := k + 1;
    }
  }

  /** Writing segment i's block right after the blocks of segments
      1 .. i-1 gives the blocks of segments 1 .. i, and keeps what follows. */
  lemma VelocityPrefixGrows(points: seq<Vector3>, controls: seq<Vector3>, lineStep: nat, origin: Vector3, i: nat,
                            before: seq<Vector3>, after: seq<Vector3>, index: nat)
    requires 1 <= i < |points| && 2 * i <= |controls| && lineStep >= 1
    requires index + lineStep <= |before| == |after|
    requires before[..index] == Flatten(VelocityBlocks(points, controls, lineStep, origin, i - 1))
    requires after[..index] == before[..index] && after[index + lineStep..] == before[index + lineStep..]
    requires after[index..index + lineStep]
             == VelocityBlocks(points, controls, lineStep, origin, i)[i - 1]
    requires forall j :: index <= j < |before| ==> before[j] == Zero
    ensures after[..index + lineStep] == Flatten(VelocityBlocks(points, controls, lineStep, origin, i))
    ensures forall j :: index + lineStep <= j < |after| ==> after[j] == Zero
  {
    forall j | index + lineStep <= j < |after|
      ensures after[j] == Zero
    {
      assert after[j] == after[index + lineStep..][j - index - lineStep];
    }
    var blocks := VelocityBlocks(points, controls, lineStep, origin, i);
    assert blocks[..i - 1] == VelocityBlocks(points, controls, lineStep, origin, i - 1);
    FlattenSnoc(blocks, i - 1);
    assert blocks[..i] == blocks;
    assert after[..index + lineStep] == after[..index] + after[index..index + lineStep];
  }

  /** One pass of the segment loop of `GetVelocities`: reads segment i's
      anchors and controls and writes its velocities at the running index. */
  method AppendSegmentVelocities(velocities: array<Vector3>, points: seq<Vector3>, controls: seq<Vector3>,
                                 lineStep: nat, origin: Vector3, i: nat, index: nat)
    returns (next: nat)
    requires 1 <= i < |points| && 2 * i <= |controls| && lineStep >= 1
    requires velocities.Length == lineStep * |points| - 1 && index == (i - 1) * lineStep
    requires velocities[..index] == Flatten(VelocityBlocks(points, controls, lineStep, origin, i - 1))
    requires forall j :: index <= j < velocities.Length ==> velocities[j] == Zero
    modifies velocities
    ensures next == i * lineStep <= velocities.Length
    ensures velocities[..next] == Flatten(VelocityBlocks(points, controls, lineStep, origin, i))
    ensures forall j :: next <= j < velocities.Length ==> velocities[j] == Zero
  {
    VelocityIndexInBounds(lineStep, |points|, i);
    ControlReadsInBounds(i, |controls|);
    var start := points[i - 1];
    var end := points[i];
    var cStart := controls[ControlStartIndex(i)];
    var cEnd := controls[ControlEndIndex(i)];
    ghost var before := velocities[..];
    next := WriteSegmentVelocities(velocities, index, start, cStart, cEnd, end, lineStep, origin);
    VelocityPrefixGrows(points, controls, lineStep, origin, i, before, velocities[..], index);
  }

  /** After the last segment, the written prefix is every segment's block
      and the `lineStep - 1` entries after it are still zero. */
  lemma VelocitiesComplete(velocities: seq<Vector3>, points: seq<Vector3>, controls: seq<Vector3>,
                           lineStep: nat, origin: Vector3, index: nat)
    requires lineStep >= 1 && |points| >= 1 && 2 * (|points| - 1) <= |controls|
    requires |velocities| == lineStep * |points| - 1 && index == (|points| - 1) * lineStep
    requires velocities[..index] == Flatten(VelocityBlocks(points, controls, lineStep, origin, |points| - 1))
    requires forall j :: index <= j < |velocities| ==> velocities[j] == Zero
    ensures velocities == Flatten(VelocityBlocks(points, controls, lineStep, origin, |points| - 1))
                          + seq(lineStep - 1, _ => Zero)
  {
    VelocityIndexInBounds(lineStep, |points| + 1, |points|);
    assert velocities == velocities[..index] + velocities[index..];
    assert velocities[index..] == seq(lineStep - 1, _ => Zero);
  }

  /** The segment loop of `GetVelocities` over the freshly allocated,
      all-zero array: lineStep entries per segment through a running index,
      stopping at the first control read past the end. */
  method FillVelocities(velocities: array<Vector3>, points: seq<Vector3>, controls: seq<Vector3>,
                        lineStep: nat, origin: Vector3)
    returns (ok: bool)
    requires lineStep >= 1 && |points| >= 1 && velocities.Length == lineStep * |points| - 1
    requires forall j :: 0 <= j < velocities.Length ==> velocities[j] == Zero
    modifies velocities
    ensures ok <==> ControlsCover(|points|, |controls|)
    ensures ok ==> velocities[..] == Flatten(VelocityBlocks(points, controls, lineStep, origin, |points| - 1))
                                     + seq(lineStep - 1, _ => Zero)
  {
    var length := velocities.Length;
    var index := 0;
    var i := 1;
    while i < |points|
      invariant 1 <= i <= |points|
      invariant 2 * (i - 1) <= |controls|
      invariant index == (i - 1) * lineStep <= length
      invariant velocities[..index] == Flatten(VelocityBlocks(points, controls, lineStep, origin, i - 1))
      invariant forall j :: index <= j < length ==> velocities[j] == Zero
    {
      if ControlStartIndex(i) >= |controls| || ControlEndIndex(i) >= |controls| {
        ControlReadsInBounds(i, |controls|);
        return false;
      }
      ControlReadsInBounds(i, |controls|);
      index := AppendSegmentVelocities(velocities, points, controls, lineStep, origin, i, index);
      i := i + 1;
    }
    VelocitiesComplete(velocities[..], points, controls, lineStep, origin, index);
    return true;
  }

  /** `GetVelocities`: allocates `lineStep * points.Length - 1` entries (all
      zero vectors), then writes lineStep entries per segment through a
      running index. There is one segment fewer than anchors, so the last
      `lineStep - 1` entries are never written and stay zero. */
  method GetVelocities(lineStep: int, points: seq<Vector3>, controls: seq<Vector3>, origin: Vector3)
    returns (r: Result<seq<Vector3>>)
    ensures r.Failure? ==> r.error == Overflow || r.error == IndexOutOfRange
    ensures r == Failure(Overflow) <==> lineStep * |points| - 1 < 0
    ensures r == Failure(IndexOutOfRange) <==>
              lineStep * |points| - 1 >= 0 && !ControlsCover(|points|, |controls|)
    ensures r.Success? <==> lineStep * |points| - 1 >= 0 && ControlsCover(|points|, |controls|)
    ensures r.Success? ==>
              lineStep >= 1 && |points| >= 1 && |r.value| == lineStep * |points| - 1 &&
              r.value == Flatten(VelocityBlocks(points, controls, lineStep, origin, |points| - 1))
                         + seq(lineStep - 1, _ => Zero)
  {
    var length := lineStep * |points| - 1;
    if length < 0 {
      return Failure(Overflow);
    }
    PositiveProduct(lineStep, |points|);
    var velocities := new Vector3[length](_ => Zero);
    var ok := FillVelocities(velocities, points, controls, lineStep, origin);
    if !ok {
      return Failure(IndexOutOfRange);
    }
    return Success(velocities[..]);
  }

  /** Segment i's velocities begin at `start = (i-1)*lineStep`; entry k of
      them, at `start + k`, is the formula's value at j = k / lineStep minus
      the origin.
      The position is passed in as `start` rather than written inline so
      that callers and the contract share one term for the product, which
      keeps the nonlinear index arithmetic out of the proof obligations. */
  lemma VelocitiesAt(points: seq<Vector3>, controls: seq<Vector3>, lineStep: nat, origin: Vector3, m: nat, i: nat, k: nat,
                     start: nat)
    requires m < |points| && 2 * m <= |controls| && lineStep >= 1
    requires 1 <= i <= m && k < lineStep
    requires start == (i - 1) * lineStep
    ensures |Flatten(VelocityBlocks(points, controls, lineStep, origin, m))| == m * lineStep
    ensures start + k < |Flatten(VelocityBlocks(points, controls, lineStep, origin, m))|
    ensures ControlStartIndex(i) < |controls| && ControlEndIndex(i) < |controls|
    ensures Flatten(VelocityBlocks(points, controls, lineStep, origin, m))[start + k]
            == Sub(Velocity(points[i - 1], controls[ControlStartIndex(i)], controls[ControlEndIndex(i)], points[i],
                            k as real / lineStep as real),
                   origin)
  {
    ControlReadsInBounds(i, |controls|);
    FlattenAt(VelocityBlocks(points, controls, lineStep, origin, m), lineStep, i - 1, k);
  }
}
