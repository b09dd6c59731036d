/** Exact-real stand-ins for Unity's Vector2 and Vector3 value types.
    Components are `real`, so every operation below is exact: float rounding is not modelled. */
module Geometry {

  datatype Vec2 = Vec2(x: real, y: real) {
    function Plus(o: Vec2): Vec2 { Vec2(x + o.x, y + o.y) }
    function Minus(o: Vec2): Vec2 { Vec2(x - o.x, y - o.y) }
    function Times(k: real): Vec2 { Vec2(x * k, y * k) }
    /** Vector2.sqrMagnitude */
    function SqrMagnitude(): real { x * x + y * y }
  }

  datatype Vec3 = Vec3(x: real, y: real, z: real) {
    function Plus(o: Vec3): Vec3 { Vec3(x + o.x, y + o.y, z + o.z) }
    function Minus(o: Vec3): Vec3 { Vec3(x - o.x, y - o.y, z - o.z) }
    /** `v * k` (and `k * v`) */
    function Times(k: real): Vec3 { Vec3(x * k, y * k, z * k) }
  }

  const Zero2: Vec2 := Vec2(0.0, 0.0)
  const Zero3: Vec3 := Vec3(0.0, 0.0, 0.0)

  /** (a - b).sqrMagnitude */
  function SqrDistance(a: Vec2, b: Vec2): real {
    a.Minus(b).SqrMagnitude()
  }

  /** Vector3.Cross */
  function Cross(a: Vec3, b: Vec3): Vec3 {
    Vec3(a.y * b.z - a.z * b.y, a.z * b.x - a.x * b.z, a.x * b.y - a.y * b.x)
  }

  /** Translating both points by the same vector keeps their distance. */
  lemma SqrDistanceShift(a: Vec2, b: Vec2, d: Vec2)
    ensures SqrDistance(a.Minus(d), b.Minus(d)) == SqrDistance(a, b)
  {
  }

  /** Scaling distributes over a difference of factors: `v*a - v*b == v*(a - b)`. */
  lemma TimesMinus(v: Vec3, a: real, b: real)
    ensures v.Times(a).Minus(v.Times(b)) == v.Times(a - b)
  {
    assert v.x * a - v.x * b == v.x * (a - b);
    assert v.y * a - v.y * b == v.y * (a - b);
    assert v.z * a - v.z * b == v.z * (a - b);
  }

  /** Scaling twice is scaling by the product: `(v*a)*b == v*(a*b)`. */
  lemma TimesTimes(v: Vec3, a: real, b: real)
    ensures v.Times(a).Times(b) == v.Times(a * b)
  {
    assert v.x * a * b == v.x * (a * b);
    assert v.y * a * b == v.y * (a * b);
    assert v.z * a * b == v.z * (a * b);
  }
}
