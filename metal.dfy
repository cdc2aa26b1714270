/**
 * The reflective material: the incoming direction is normalised, mirrored
 * about the normal and perturbed by `fuzz` times a unit-ball sample; the
 * ray is absorbed when the result points into the surface.
 */
module MetalMaterial {
  import opened Vector
  import opened Rays
  import opened Hittable
  import opened Materials

  /**
   * `Metal::new`: a fuzz of 1 or more is clamped to 1, anything smaller
   * (negative values included) is kept.
   */
  function NewMetal(albedo: Vec3, fuzz: real): (m: Material)
    ensures m.Metal? && m.albedo == albedo
    ensures m.fuzz <= 1.0
    ensures fuzz < 1.0 ==> m.fuzz == fuzz
    ensures fuzz >= 1.0 ==> m.fuzz == 1.0
  {
    if fuzz < 1.0 then Metal(albedo, fuzz) else Metal(albedo, 1.0)
  }

  /**
   * `Metal::scatter` for the unit-ball point `sample`. The source normalises
   * the incoming direction, which is undefined for the zero vector, so the
   * model requires a non-zero one.
   */
  function Scattering(albedo: Vec3, fuzz: real, rayIn: Ray, rec: HitRecord, sample: Vec3, sqrt: real -> real): (res: ScatterResult)
    requires IsSqrt(sqrt) && SquaredLength(Direction(rayIn)) > 0.0
    ensures res.ok <==> Dot(Direction(res.scattered), rec.normal) > 0.0
    ensures Origin(res.scattered) == rec.p
    ensures Direction(res.scattered) == Add(Reflect(UnitVector(Direction(rayIn), sqrt), rec.normal), Scale(sample, fuzz))
    ensures res.attenuation == albedo
  {
    var reflected := Reflect(UnitVector(Direction(rayIn), sqrt), rec.normal);
    var scattered := NewRay(rec.p, Add(reflected, Scale(sample, fuzz)));
    ScatterResult(Dot(Direction(scattered), rec.normal) > 0.0, albedo, scattered)
  }

  /**
   * The imperative `scatter`: writes both out-parameters whatever it
   * returns, drawing its sample from the stream `draws`.
   */
  method Scatter(albedo: Vec3, fuzz: real, rayIn: Ray, rec: HitRecord, attenuation: Vec3, scattered: Ray,
                 draws: seq<Vec3>, sqrt: real -> real)
    returns (ok: bool, attenuation': Vec3, scattered': Ray)
    requires IsSqrt(sqrt) && SquaredLength(Direction(rayIn)) > 0.0
    requires HasAccepted(draws)
    ensures ScatterResult(ok, attenuation', scattered') == Scattering(albedo, fuzz, rayIn, rec, SampleOf(draws), sqrt)
  {
    var reflected := Reflect(UnitVector(Direction(rayIn), sqrt), rec.normal);
    var sample, _ := RandomInUnitSphere(draws);
    scattered' := NewRay(rec.p, Add(reflected, Scale(sample, fuzz)));
    attenuation' := albedo;
    ok := Dot(Direction(scattered'), rec.normal) > 0.0;
  }

  /**
   * A perfect mirror (fuzz 0) with a unit normal keeps exactly the rays that
   * arrive against the normal and absorbs the rest.
   */
  lemma MirrorKeepsFrontHits(albedo: Vec3, rayIn: Ray, rec: HitRecord, sample: Vec3, sqrt: real -> real)
    requires IsSqrt(sqrt) && SquaredLength(Direction(rayIn)) > 0.0
    requires SquaredLength(rec.normal) == 1.0
    ensures Scattering(albedo, 0.0, rayIn, rec, sample, sqrt).ok <==> Dot(Direction(rayIn), rec.normal) < 0.0
  {
    var v := Direction(rayIn);
    var u := UnitVector(v, sqrt);
    var len := Length(v, sqrt);
    LengthPositive(v, sqrt);
    DotScale(v, rec.normal, 1.0 / len);
    assert Dot(u, rec.normal) == (1.0 / len) * Dot(v, rec.normal);
    ReflectAlongNormal(u, rec.normal);
    assert Add(Reflect(u, rec.normal), Scale(sample, 0.0)) == Reflect(u, rec.normal);
  }

  /** A scattered ray that is kept never has the zero direction. */
  lemma KeptDirectionIsNonzero(albedo: Vec3, fuzz: real, rayIn: Ray, rec: HitRecord, sample: Vec3, sqrt: real -> real)
    requires IsSqrt(sqrt) && SquaredLength(Direction(rayIn)) > 0.0
    requires Scattering(albedo, fuzz, rayIn, rec, sample, sqrt).ok
    ensures SquaredLength(Direction(Scattering(albedo, fuzz, rayIn, rec, sample, sqrt).scattered)) > 0.0
  {
    var d := Direction(Scattering(albedo, fuzz, rayIn, rec, sample, sqrt).scattered);
    assert d != Zero() by {
      DotZero(rec.normal);
    }
    SquaredLengthNonnegative(d);
  }
}
