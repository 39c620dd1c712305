/** The parts of Unity's `Vector3`, `Vector2` and `Mathf` that the curve and
    mesh code relies on, over exact reals. */
module Vectors {

  datatype Vector3 = Vector3(x: real, y: real, z: real)

  datatype Vector2 = Vector2(x: real, y: real)

  const Zero := Vector3(0.0, 0.0, 0.0)

  function Add(a: Vector3, b: Vector3): Vector3 {
    Vector3(a.x + b.x, a.y + b.y, a.z + b.z)
  }

  function Sub(a: Vector3, b: Vector3): Vector3 {
    Vector3(a.x - b.x, a.y - b.y, a.z - b.z)
  }

  /** `s * v` */
  function Scale(s: real, v: Vector3): Vector3 {
    Vector3(s * v.x, s * v.y, s * v.z)
  }

  /** `Mathf.Clamp01`: below 0 gives 0, above 1 gives 1, otherwise the value. */
  function Clamp01(t: real): (r: real)
    ensures 0.0 <= r <= 1.0
    ensures 0.0 <= t <= 1.0 ==> r == t
    ensures t < 0.0 ==> r == 0.0
    ensures t > 1.0 ==> r == 1.0
  {
    if t < 0.0 then 0.0 else if t > 1.0 then 1.0 else t
  }

  /** `Mathf.Pow(x, n)` for a whole exponent: x multiplied by itself n times. */
  function Pow(x: real, n: nat): real {
    if n == 0 then 1.0 else x * Pow(x, n - 1)
  }

  /** A power of a number in [0, 1] stays in [0, 1]. */
  lemma {:induction false} PowBounds(x: real, n: nat)
    requires 0.0 <= x <= 1.0
    ensures 0.0 <= Pow(x, n) <= 1.0
  {
    if n > 0 {
      PowBounds(x, n - 1);
      var rest := Pow(x, n - 1);
      assert Pow(x, n) == x * rest;
      assert 0.0 <= x * rest by {
        assert 0.0 <= x && 0.0 <= rest;
      }
      assert x * rest <= rest by {
        assert (1.0 - x) * rest >= 0.0;
      }
    }
  }

  lemma {:induction false} PowOfOne(n: nat)
    ensures Pow(1.0, n) == 1.0
  {
    if n > 0 {
      PowOfOne(n - 1);
    }
  }

  /** Step 0 of n is the parameter 0 and step n of n is the parameter 1. */
  lemma ParameterEnds(n: nat)
    requires n >= 1
    ensures 0 as real / n as real == 0.0
    ensures n as real / n as real == 1.0
  {
  }

  /** `Vector3.Lerp(a, b, t)`: Unity clamps t into [0, 1], then moves from a
      towards b by that fraction. */
  function Lerp(a: Vector3, b: Vector3, t: real): (r: Vector3)
    ensures Clamp01(t) == 0.0 ==> r == a
    ensures Clamp01(t) == 1.0 ==> r == b
  {
    var u := Clamp01(t);
    Vector3(a.x + (b.x - a.x) * u, a.y + (b.y - a.y) * u, a.z + (b.z - a.z) * u)
  }
}
