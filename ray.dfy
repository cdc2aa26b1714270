/**
 * A ray `a + t b`: origin `a`, direction `b`, and the affine map from the
 * parameter `t` to the point reached.
 */
module Rays {
  import opened Vector

  datatype Ray = Ray(a: Vec3, b: Vec3)

  /** `Ray::new(a, b)`: what goes in comes back out of the accessors. */
  function NewRay(a: Vec3, b: Vec3): (r: Ray)
    ensures Origin(r) == a && Direction(r) == b
  {
    Ray(a, b)
  }

  function Origin(r: Ray): Vec3 {
    r.a
  }

  function Direction(r: Ray): Vec3 {
    r.b
  }

  /** `point_at_parameter(t)`: the point reached after travelling `t` directions from the origin. */
  function PointAtParameter(r: Ray, t: real): (p: Vec3)
    ensures Sub(p, Origin(r)) == Scale(Direction(r), t)
  {
    Add(r.a, Scale(r.b, t))
  }

  /** Parameter 0 is the origin. */
  lemma PointAtZero(r: Ray)
    ensures PointAtParameter(r, 0.0) == Origin(r)
  {
    assert Scale(Direction(r), 0.0) == Zero();
  }

  /** The map is affine: moving `t` further along adds `t` directions. */
  lemma PointAtAffine(r: Ray, s: real, t: real)
    ensures PointAtParameter(r, s + t) == Add(PointAtParameter(r, s), Scale(Direction(r), t))
  {
  }
}
