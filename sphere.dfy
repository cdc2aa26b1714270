/**
 * Ray-sphere intersection: the ray meets the sphere where
 * `a t^2 + 2 half_b t + c == 0`; the nearer root is reported when it lies
 * strictly inside `(t_min, t_max)`, the farther one otherwise.
 */
module Spheres {
  import opened Vector
  import opened Rays
  import opened Materials
  import opened Hittable

  /** `Sphere::new(center, radius, material)` is this constructor. */
  datatype Sphere = Sphere(center: Vec3, radius: real, material: Material)

  predicate OnSphere(s: Sphere, p: Vec3) {
    SquaredLength(Sub(p, s.center)) == Sq(s.radius)
  }

  // The coefficients of the quadratic in t, as the source computes them.

  function A(r: Ray): real {
    SquaredLength(Direction(r))
  }

  function HalfB(s: Sphere, r: Ray): real {
    Dot(Sub(Origin(r), s.center), Direction(r))
  }

  function C(s: Sphere, r: Ray): real {
    SquaredLength(Sub(Origin(r), s.center)) - s.radius * s.radius
  }

  function HitDiscriminant(s: Sphere, r: Ray): real {
    HalfB(s, r) * HalfB(s, r) - A(r) * C(s, r)
  }

  function Quadratic(s: Sphere, r: Ray, t: real): real {
    A(r) * Sq(t) + 2.0 * HalfB(s, r) * t + C(s, r)
  }

  function NearRoot(s: Sphere, r: Ray, sqrt: real -> real): real
    requires A(r) != 0.0
  {
    (-HalfB(s, r) - Root(sqrt, HitDiscriminant(s, r))) / A(r)
  }

  function FarRoot(s: Sphere, r: Ray, sqrt: real -> real): real
    requires A(r) != 0.0
  {
    (-HalfB(s, r) + Root(sqrt, HitDiscriminant(s, r))) / A(r)
  }

  /** The source's interval test `t < t_max && t > t_min`. */
  predicate InInterval(t: real, tMin: real, tMax: real) {
    t < tMax && t > tMin
  }

  /** The fields a hit at parameter t writes into the record. */
  function Record(s: Sphere, r: Ray, t: real): HitRecord
    requires s.radius != 0.0
  {
    var p := PointAtParameter(r, t);
    HitRecord(p, DivScalar(Sub(p, s.center), s.radius), t, s.material)
  }

  /**
   * `Sphere::hit` as a value: whether it reports a hit, and the record after
   * the call. With `a == 0` (a zero direction) both roots are NaN or
   * infinite in the source and both interval tests fail, so it is a miss.
   */
  function SphereHit(s: Sphere, r: Ray, tMin: real, tMax: real, rec: HitRecord, sqrt: real -> real): (res: (bool, HitRecord))
    requires IsSqrt(sqrt) && s.radius != 0.0
    ensures res.0 ==> tMin < res.1.t < tMax && res.1 == Record(s, r, res.1.t)
    ensures !res.0 ==> res.1 == rec
  {
    if HitDiscriminant(s, r) < 0.0 || A(r) == 0.0 then (false, rec)
    else
      var near := NearRoot(s, r, sqrt);
      var t := if InInterval(near, tMin, tMax) then near else FarRoot(s, r, sqrt);
      if InInterval(t, tMin, tMax) then (true, Record(s, r, t)) else (false, rec)
  }

  /** The imperative `hit`: reassigns `temp` and writes the record's fields only on a hit. */
  method Hit(s: Sphere, r: Ray, tMin: real, tMax: real, rec: HitRecord, sqrt: real -> real)
    returns (hit: bool, rec': HitRecord)
    requires IsSqrt(sqrt) && s.radius != 0.0
    ensures (hit, rec') == SphereHit(s, r, tMin, tMax, rec, sqrt)
  {
    rec' := rec;
    var oc := Sub(Origin(r), s.center);
    var a := SquaredLength(Direction(r));
    var halfB := Dot(oc, Direction(r));
    var c := SquaredLength(oc) - s.radius * s.radius;
    var discriminant := halfB * halfB - a * c;
    assert a == A(r);
    assert halfB == HalfB(s, r);
    assert c == C(s, r);
    assert discriminant == HitDiscriminant(s, r);
    if discriminant < 0.0 {
      return false, rec';
    }
    if a == 0.0 {
      return false, rec';
    }
    var temp := (-halfB - Root(sqrt, discriminant)) / a;
    assert temp == NearRoot(s, r, sqrt);
    if !(temp < tMax && temp > tMin) {
      temp := (-halfB + Root(sqrt, discriminant)) / a;
      assert temp == FarRoot(s, r, sqrt);
    }
    if temp < tMax && temp > tMin {
      rec' := rec'.(t := temp);
      rec' := rec'.(p := PointAtParameter(r, rec'.t));
      rec' := rec'.(normal := DivScalar(Sub(rec'.p, s.center), s.radius));
      rec' := rec'.(material := s.material);
      assert rec' == Record(s, r, temp);
      return true, rec';
    }
    return false, rec';
  }

  /** The point at parameter t lies on the sphere exactly when t is a root of the quadratic. */
  lemma QuadraticMeasuresSphere(s: Sphere, r: Ray, t: real)
    ensures SquaredLength(Sub(PointAtParameter(r, t), s.center)) - Sq(s.radius) == Quadratic(s, r, t)
    ensures OnSphere(s, PointAtParameter(r, t)) <==> Quadratic(s, r, t) == 0.0
  {
    var oc := Sub(Origin(r), s.center);
    assert Sub(PointAtParameter(r, t), s.center) == Add(oc, Scale(Direction(r), t));
    ExpandAlongRay(oc, Direction(r), t);
  }

  lemma ExpandAlongRay(o: Vec3, d: Vec3, t: real)
    ensures SquaredLength(Add(o, Scale(d, t))) == SquaredLength(o) + 2.0 * Dot(o, d) * t + SquaredLength(d) * Sq(t)
  {
  }

  lemma ZeroProduct(a: real, x: real)
    requires a != 0.0 && a * x == 0.0
    ensures x == 0.0
  {
    assert x == (a * x) / a;
  }

  lemma SquaresEqual(x: real, y: real)
    requires Sq(x) == Sq(y)
    ensures x == y || x == -y
  {
    assert (x - y) * (x + y) == Sq(x) - Sq(y);
    if x - y != 0.0 {
      ZeroProduct(x - y, x + y);
    }
  }

  lemma DivMonotone(x: real, y: real, a: real)
    requires a > 0.0 && x <= y
    ensures x / a <= y / a
  {
    assert y / a - x / a == (y - x) / a;
  }

  /** Both candidate roots solve the quadratic. */
  lemma CandidatesAreRoots(a: real, hb: real, c: real, q: real, t: real)
    requires a != 0.0 && Sq(q) == Sq(hb) - a * c
    requires t == (-hb - q) / a || t == (-hb + q) / a
    ensures a * Sq(t) + 2.0 * hb * t + c == 0.0
  {
    var m := a * t;
    assert m == -hb - q || m == -hb + q;
    assert a * (a * Sq(t) + 2.0 * hb * t + c) == Sq(m) + 2.0 * hb * m + a * c;
    ZeroProduct(a, a * Sq(t) + 2.0 * hb * t + c);
  }

  /** At a root, `(a t + half_b)^2` is the discriminant; so a root exists only if the discriminant is not negative. */
  lemma RootCompletesSquare(a: real, hb: real, c: real, t: real)
    requires a * Sq(t) + 2.0 * hb * t + c == 0.0
    ensures Sq(a * t + hb) == Sq(hb) - a * c
  {
    assert Sq(a * t + hb) == a * (a * Sq(t) + 2.0 * hb * t + c) + Sq(hb) - a * c;
  }

  /** The quadratic has no roots besides the two candidates. */
  lemma OnlyCandidatesAreRoots(a: real, hb: real, c: real, q: real, t: real)
    requires a != 0.0 && Sq(q) == Sq(hb) - a * c
    requires a * Sq(t) + 2.0 * hb * t + c == 0.0
    ensures t == (-hb - q) / a || t == (-hb + q) / a
  {
    var m := a * t + hb;
    assert Sq(m) == a * (a * Sq(t) + 2.0 * hb * t + c) + Sq(hb) - a * c;
    SquaresEqual(m, q);
  }

  /** Under a discriminant that is not negative, the root of the discriminant squares back to it. */
  lemma RootOfDiscriminant(s: Sphere, r: Ray, sqrt: real -> real)
    requires IsSqrt(sqrt) && HitDiscriminant(s, r) >= 0.0
    ensures Sq(Root(sqrt, HitDiscriminant(s, r))) == Sq(HalfB(s, r)) - A(r) * C(s, r)
    ensures Root(sqrt, HitDiscriminant(s, r)) >= 0.0
  {
    var d := HitDiscriminant(s, r);
    assert Root(sqrt, d) * Root(sqrt, d) == d;
  }

  /** A reported hit lies on the sphere, and its parameter is a root of the quadratic. */
  lemma HitIsOnSphere(s: Sphere, r: Ray, tMin: real, tMax: real, rec: HitRecord, sqrt: real -> real)
    requires IsSqrt(sqrt) && s.radius != 0.0
    requires SphereHit(s, r, tMin, tMax, rec, sqrt).0
    ensures var res := SphereHit(s, r, tMin, tMax, rec, sqrt);
      Quadratic(s, r, res.1.t) == 0.0 && OnSphere(s, res.1.p)
  {
    var t := SphereHit(s, r, tMin, tMax, rec, sqrt).1.t;
    RootOfDiscriminant(s, r, sqrt);
    CandidatesAreRoots(A(r), HalfB(s, r), C(s, r), Root(sqrt, HitDiscriminant(s, r)), t);
    QuadraticMeasuresSphere(s, r, t);
  }

  /** At a root, the record's point lies on the sphere and its normal has unit length. */
  lemma RecordAtRoot(s: Sphere, r: Ray, t: real)
    requires s.radius != 0.0 && Quadratic(s, r, t) == 0.0
    ensures OnSphere(s, Record(s, r, t).p)
    ensures SquaredLength(Record(s, r, t).normal) == 1.0
  {
    QuadraticMeasuresSphere(s, r, t);
    var v := Sub(Record(s, r, t).p, s.center);
    DivScalarIsScale(v, s.radius);
    SquaredLengthScale(v, 1.0 / s.radius);
    InverseSquare(s.radius);
  }

  /** The normal written on a hit has unit length. */
  lemma HitNormalIsUnit(s: Sphere, r: Ray, tMin: real, tMax: real, rec: HitRecord, sqrt: real -> real)
    requires IsSqrt(sqrt) && s.radius != 0.0
    requires SphereHit(s, r, tMin, tMax, rec, sqrt).0
    ensures SquaredLength(SphereHit(s, r, tMin, tMax, rec, sqrt).1.normal) == 1.0
  {
    HitIsOnSphere(s, r, tMin, tMax, rec, sqrt);
    RecordAtRoot(s, r, SphereHit(s, r, tMin, tMax, rec, sqrt).1.t);
  }

  /** The nearer root is reported whenever it lies inside the interval. */
  lemma NearRootPreferred(s: Sphere, r: Ray, tMin: real, tMax: real, rec: HitRecord, sqrt: real -> real)
    requires IsSqrt(sqrt) && s.radius != 0.0
    requires HitDiscriminant(s, r) >= 0.0 && A(r) != 0.0
    requires InInterval(NearRoot(s, r, sqrt), tMin, tMax)
    ensures SphereHit(s, r, tMin, tMax, rec, sqrt) == (true, Record(s, r, NearRoot(s, r, sqrt)))
  {
  }

  /** Any point of the sphere the ray reaches inside the interval is found, at that parameter or a nearer one. */
  lemma RootInIntervalIsFound(s: Sphere, r: Ray, tMin: real, tMax: real, rec: HitRecord, sqrt: real -> real, t: real)
    requires IsSqrt(sqrt) && s.radius != 0.0 && A(r) > 0.0
    requires InInterval(t, tMin, tMax) && OnSphere(s, PointAtParameter(r, t))
    ensures SphereHit(s, r, tMin, tMax, rec, sqrt).0
    ensures SphereHit(s, r, tMin, tMax, rec, sqrt).1.t <= t
  {
    QuadraticMeasuresSphere(s, r, t);
    var a, hb, c := A(r), HalfB(s, r), C(s, r);
    var m := a * t + hb;
    RootCompletesSquare(a, hb, c, t);
    assert HitDiscriminant(s, r) == Sq(m);
    assert Sq(m) >= 0.0;
    RootOfDiscriminant(s, r, sqrt);
    var q := Root(sqrt, HitDiscriminant(s, r));
    OnlyCandidatesAreRoots(a, hb, c, q, t);
    DivMonotone(-hb - q, -hb + q, a);
  }

  /**
   * `hit` reports a hit exactly when the ray meets the sphere strictly inside
   * `(t_min, t_max)`, and then at the nearest such parameter.
   */
  lemma SphereHitIsNearest(s: Sphere, r: Ray, tMin: real, tMax: real, rec: HitRecord, sqrt: real -> real)
    requires IsSqrt(sqrt) && s.radius != 0.0 && A(r) > 0.0
    ensures SphereHit(s, r, tMin, tMax, rec, sqrt).0
        <==> exists t :: InInterval(t, tMin, tMax) && OnSphere(s, PointAtParameter(r, t))
    ensures SphereHit(s, r, tMin, tMax, rec, sqrt).0 ==>
      forall t :: InInterval(t, tMin, tMax) && OnSphere(s, PointAtParameter(r, t))
        ==> SphereHit(s, r, tMin, tMax, rec, sqrt).1.t <= t
  {
    var res := SphereHit(s, r, tMin, tMax, rec, sqrt);
    if res.0 {
      HitIsOnSphere(s, r, tMin, tMax, rec, sqrt);
      assert InInterval(res.1.t, tMin, tMax) && OnSphere(s, PointAtParameter(r, res.1.t));
    }
    forall t | InInterval(t, tMin, tMax) && OnSphere(s, PointAtParameter(r, t))
      ensures res.0 && res.1.t <= t
    {
      RootInIntervalIsFound(s, r, tMin, tMax, rec, sqrt, t);
    }
  }

  /** Whether `hit` reports a hit, and the record it would write, do not depend on the incoming record. */
  lemma HitIgnoresRecord(s: Sphere, r: Ray, tMin: real, tMax: real, rec1: HitRecord, rec2: HitRecord, sqrt: real -> real)
    requires IsSqrt(sqrt) && s.radius != 0.0
    ensures SphereHit(s, r, tMin, tMax, rec1, sqrt).0 == SphereHit(s, r, tMin, tMax, rec2, sqrt).0
    ensures SphereHit(s, r, tMin, tMax, rec1, sqrt).0 ==>
      SphereHit(s, r, tMin, tMax, rec1, sqrt).1 == SphereHit(s, r, tMin, tMax, rec2, sqrt).1
  {
  }

  /** Lowering the upper bound below a reported parameter, but not to it, reports the same hit. */
  lemma HitSurvivesShrink(s: Sphere, r: Ray, tMin: real, tMax: real, tMax': real, rec: HitRecord, rec': HitRecord, sqrt: real -> real)
    requires IsSqrt(sqrt) && s.radius != 0.0
    requires SphereHit(s, r, tMin, tMax, rec, sqrt).0
    requires SphereHit(s, r, tMin, tMax, rec, sqrt).1.t < tMax' <= tMax
    ensures SphereHit(s, r, tMin, tMax', rec', sqrt).0
    ensures SphereHit(s, r, tMin, tMax', rec', sqrt).1 == SphereHit(s, r, tMin, tMax, rec, sqrt).1
  {
  }
}
