/** Unity's Vector3, over exact reals: the component-wise operators and the
    dot and cross products that the game's geometry code is written with. */
module Vectors {

  datatype Vec3 = Vec3(x: real, y: real, z: real)

  const Zero: Vec3 := Vec3(0.0, 0.0, 0.0)

  function Add(a: Vec3, b: Vec3): Vec3 { Vec3(a.x + b.x, a.y + b.y, a.z + b.z) }

  function Sub(a: Vec3, b: Vec3): Vec3 { Vec3(a.x - b.x, a.y - b.y, a.z - b.z) }

  function Scale(k: real, a: Vec3): Vec3 { Vec3(k * a.x, k * a.y, k * a.z) }

  function Dot(a: Vec3, b: Vec3): real { a.x * b.x + a.y * b.y + a.z * b.z }

  function Cross(a: Vec3, b: Vec3): Vec3 {
    Vec3(a.y * b.z - a.z * b.y, a.z * b.x - a.x * b.z, a.x * b.y - a.y * b.x)
  }

  /** Vector3.sqrMagnitude */
  function SqrMagnitude(a: Vec3): real { Dot(a, a) }

  /** Vector3.magnitude, given the engine's square root. */
  function Magnitude(a: Vec3, sqrt: real -> real): real { sqrt(SqrMagnitude(a)) }

  lemma SqrMagnitudeNonNegative(a: Vec3)
    ensures 0.0 <= SqrMagnitude(a)
  {
    assert 0.0 <= a.x * a.x && 0.0 <= a.y * a.y && 0.0 <= a.z * a.z;
  }
}
