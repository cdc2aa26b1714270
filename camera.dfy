/**
 * The pinhole camera: an orthonormal basis built from where it stands, where
 * it looks and which way is up, and the image rectangle one unit in front
 * of it through which `get_ray` shoots.
 *
 * The source derives `half_height` from the vertical field of view as
 * `tan(vfov.to_radians() / 2)`; the model takes `halfHeight` itself.
 */
module Cameras {
  import opened Vector
  import opened Rays

  datatype Camera = Camera(origin: Vec3, lowerLeftCorner: Vec3, horizontal: Vec3, vertical: Vec3)

  /** The camera's basis: `u` to the right, `v` up, `w` backwards. */
  datatype Basis = Basis(u: Vec3, v: Vec3, w: Vec3)

  /**
   * The basis is defined when the up vector is not parallel to the viewing
   * direction (the source computes NaN otherwise); this also makes
   * `lookfrom` and `lookat` distinct.
   */
  predicate Aimable(lookfrom: Vec3, lookat: Vec3, vup: Vec3) {
    SquaredLength(Cross(vup, Sub(lookfrom, lookat))) > 0.0
  }

  /** `w = unit(lookfrom - lookat)`, `u = unit(vup x w)`, `v = w x u`: an orthonormal basis. */
  function CameraBasis(lookfrom: Vec3, lookat: Vec3, vup: Vec3, sqrt: real -> real): (b: Basis)
    requires IsSqrt(sqrt) && Aimable(lookfrom, lookat, vup)
    ensures SquaredLength(b.u) == 1.0 && SquaredLength(b.v) == 1.0 && SquaredLength(b.w) == 1.0
    ensures Dot(b.u, b.w) == 0.0 && Dot(b.v, b.w) == 0.0 && Dot(b.v, b.u) == 0.0
    ensures b.v == Cross(b.w, b.u)
    ensures Dot(b.w, Sub(lookfrom, lookat)) > 0.0
    ensures SquaredLength(Sub(lookfrom, lookat)) > 0.0 && b.w == UnitVector(Sub(lookfrom, lookat), sqrt)
    ensures SquaredLength(Cross(vup, b.w)) > 0.0 && b.u == UnitVector(Cross(vup, b.w), sqrt)
    ensures Dot(b.u, vup) == 0.0
  {
    var d := Sub(lookfrom, lookat);
    CrossNonzeroOperand(vup, d);
    var w := UnitVector(d, sqrt);
    var len := Length(d, sqrt);
    CrossScaleRight(vup, d, 1.0 / len);
    SquaredLengthScale(Cross(vup, d), 1.0 / len);
    SqPositive(1.0 / len);
    var n := Cross(vup, w);
    var u := UnitVector(n, sqrt);
    CrossOrthogonal(vup, w);
    DotScale(n, w, 1.0 / Length(n, sqrt));
    DotSymmetric(vup, n);
    DotScale(n, vup, 1.0 / Length(n, sqrt));
    var v := Cross(w, u);
    CrossOrthogonal(w, u);
    Lagrange(w, u);
    DotSymmetric(u, w);
    DotSymmetric(w, d);
    Basis(u, v, w)
  }

  lemma CrossNonzeroOperand(a: Vec3, d: Vec3)
    requires SquaredLength(Cross(a, d)) > 0.0
    ensures SquaredLength(d) > 0.0
  {
    assert d == Zero() ==> Cross(a, d) == Zero();
    SquaredLengthNonnegative(d);
  }

  lemma CrossScaleRight(a: Vec3, d: Vec3, k: real)
    ensures Cross(a, Scale(d, k)) == Scale(Cross(a, d), k)
  {
    var lhs := Cross(a, Scale(d, k));
    var rhs := Scale(Cross(a, d), k);
    assert lhs.x == rhs.x by { ScaleDifference(a.y, d.z, a.z, d.y, k); }
    assert lhs.y == rhs.y by { ScaleDifference(a.z, d.x, a.x, d.z, k); }
    assert lhs.z == rhs.z by { ScaleDifference(a.x, d.y, a.y, d.x, k); }
  }

  lemma ScaleDifference(p: real, q: real, r: real, s: real, k: real)
    ensures p * (q * k) - r * (s * k) == (p * q - r * s) * k
  {
  }

  /**
   * `Camera::new` with `half_height` given. The horizontal and vertical edges
   * of the image are `2 half_width u` and `2 half_height v`, with
   * `half_width == aspect * half_height`.
   */
  function NewCamera(lookfrom: Vec3, lookat: Vec3, vup: Vec3, halfHeight: real, aspect: real, sqrt: real -> real): (c: Camera)
    requires IsSqrt(sqrt) && Aimable(lookfrom, lookat, vup)
    ensures var b := CameraBasis(lookfrom, lookat, vup, sqrt);
      && c.origin == lookfrom
      && c.horizontal == Scale(b.u, 2.0 * (aspect * halfHeight))
      && c.vertical == Scale(b.v, 2.0 * halfHeight)
      && Facing(c, b.w)
  {
    var b := CameraBasis(lookfrom, lookat, vup, sqrt);
    var halfWidth := aspect * halfHeight;
    var c := Camera(lookfrom,
                    Sub(Sub(Sub(lookfrom, Scale(b.u, halfWidth)), Scale(b.v, halfHeight)), b.w),
                    Scale(b.u, 2.0 * halfWidth),
                    Scale(b.v, 2.0 * halfHeight));
    FacingBasis(lookfrom, b, halfWidth, halfHeight);
    c
  }

  /**
   * The image plane is orthogonal to `w` and lies one unit in front of the
   * origin, against `w`.
   */
  predicate Facing(c: Camera, w: Vec3) {
    && Dot(c.horizontal, w) == 0.0
    && Dot(c.vertical, w) == 0.0
    && Dot(Sub(c.lowerLeftCorner, c.origin), w) == -1.0
  }

  lemma FacingBasis(lookfrom: Vec3, b: Basis, hw: real, hh: real)
    requires SquaredLength(b.w) == 1.0 && Dot(b.u, b.w) == 0.0 && Dot(b.v, b.w) == 0.0
    ensures Facing(Camera(lookfrom,
                          Sub(Sub(Sub(lookfrom, Scale(b.u, hw)), Scale(b.v, hh)), b.w),
                          Scale(b.u, 2.0 * hw),
                          Scale(b.v, 2.0 * hh)), b.w)
  {
    DotScale(b.u, b.w, 2.0 * hw);
    DotScale(b.v, b.w, 2.0 * hh);
    var a := Sub(lookfrom, Scale(b.u, hw));
    var a' := Sub(a, Scale(b.v, hh));
    var corner := Sub(a', b.w);
    DotSub(corner, lookfrom, b.w);
    DotSub(a', b.w, b.w);
    DotSub(a, Scale(b.v, hh), b.w);
    DotSub(lookfrom, Scale(b.u, hw), b.w);
    DotScale(b.u, b.w, hw);
    DotScale(b.v, b.w, hh);
  }

  /** `get_ray(s, t)`: from the origin through the image point at `(s, t)`. */
  function GetRay(c: Camera, s: real, t: real): (r: Ray)
    ensures Origin(r) == c.origin
    ensures Direction(r) == Add(Add(Sub(c.lowerLeftCorner, c.origin), Scale(c.horizontal, s)), Scale(c.vertical, t))
  {
    NewRay(c.origin, Sub(Add(Add(c.lowerLeftCorner, Scale(c.horizontal, s)), Scale(c.vertical, t)), c.origin))
  }

  /**
   * The direction is affine in the image coordinates: the direction at the
   * lower-left corner plus a linear map of `(s, t)`, whose columns are the
   * horizontal and vertical edges.
   */
  lemma GetRayAffine(c: Camera, s: real, t: real, s': real, t': real)
    ensures Direction(GetRay(c, s, t)) == Add(Direction(GetRay(c, 0.0, 0.0)), Add(Scale(c.horizontal, s), Scale(c.vertical, t)))
    ensures Sub(Direction(GetRay(c, s + s', t + t')), Direction(GetRay(c, s, t)))
         == Add(Scale(c.horizontal, s'), Scale(c.vertical, t'))
  {
  }

  /** Every ray of a facing camera goes one unit against `w`, so none has the zero direction. */
  lemma RaysPointForward(c: Camera, w: Vec3, s: real, t: real)
    requires Facing(c, w)
    ensures Dot(Direction(GetRay(c, s, t)), w) == -1.0
    ensures SquaredLength(Direction(GetRay(c, s, t))) > 0.0
  {
    var d := Direction(GetRay(c, s, t));
    DotAdd(Add(Sub(c.lowerLeftCorner, c.origin), Scale(c.horizontal, s)), Scale(c.vertical, t), w);
    DotAdd(Sub(c.lowerLeftCorner, c.origin), Scale(c.horizontal, s), w);
    DotScale(c.horizontal, w, s);
    DotScale(c.vertical, w, t);
    assert d != Zero() by {
      DotZero(w);
    }
    SquaredLengthNonnegative(d);
  }

  /** The ray through the middle of the image travels straight along `-w`, towards `lookat`. */
  lemma CentreRayLooksAtTarget(lookfrom: Vec3, lookat: Vec3, vup: Vec3, halfHeight: real, aspect: real, sqrt: real -> real)
    requires IsSqrt(sqrt) && Aimable(lookfrom, lookat, vup)
    ensures Direction(GetRay(NewCamera(lookfrom, lookat, vup, halfHeight, aspect, sqrt), 0.5, 0.5))
         == Neg(CameraBasis(lookfrom, lookat, vup, sqrt).w)
    ensures SquaredLength(Sub(lookfrom, lookat)) > 0.0
    ensures Direction(GetRay(NewCamera(lookfrom, lookat, vup, halfHeight, aspect, sqrt), 0.5, 0.5))
         == Neg(UnitVector(Sub(lookfrom, lookat), sqrt))
  {
  }
}
