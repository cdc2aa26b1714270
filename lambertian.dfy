/**
 * The diffuse material: a hit scatters towards `rec.p + rec.normal + s` for
 * a point `s` drawn from the unit ball, and attenuates by the albedo.
 */
module LambertianMaterial {
  import opened Vector
  import opened Rays
  import opened Hittable
  import opened Materials

  /**
   * `Lambertian::scatter` for the unit-ball point `sample`. The incoming ray
   * is not a parameter: the source ignores it.
   */
  function Scattering(albedo: Vec3, rec: HitRecord, sample: Vec3): (res: ScatterResult)
    ensures res.ok
    ensures Origin(res.scattered) == rec.p
    ensures Direction(res.scattered) == Add(rec.normal, sample)
    ensures res.attenuation == albedo
  {
    var target := Add(Add(rec.p, rec.normal), sample);
    ScatterResult(true, albedo, NewRay(rec.p, Sub(target, rec.p)))
  }

  /**
   * The imperative `scatter`: draws its sample from the stream `draws` and
   * writes both out-parameters. `rayIn` is accepted and ignored.
   */
  method Scatter(albedo: Vec3, rayIn: Ray, rec: HitRecord, attenuation: Vec3, scattered: Ray, draws: seq<Vec3>)
    returns (ok: bool, attenuation': Vec3, scattered': Ray)
    requires HasAccepted(draws)
    ensures ScatterResult(ok, attenuation', scattered') == Scattering(albedo, rec, SampleOf(draws))
  {
    var sample, _ := RandomInUnitSphere(draws);
    var target := AddAssign(Add(rec.p, rec.normal), sample);
    scattered' := NewRay(rec.p, Sub(target, rec.p));
    attenuation' := albedo;
    ok := true;
  }

  /**
   * With a unit normal and a sample strictly inside the unit ball, the
   * scattered direction leaves the surface on the normal's side; in
   * particular it is never the zero vector.
   */
  lemma ScatterLeavesSurface(albedo: Vec3, rec: HitRecord, sample: Vec3)
    requires SquaredLength(rec.normal) == 1.0 && InUnitBall(sample)
    ensures Dot(Direction(Scattering(albedo, rec, sample).scattered), rec.normal) > 0.0
    ensures SquaredLength(Direction(Scattering(albedo, rec, sample).scattered)) > 0.0
  {
    var d := Dot(sample, rec.normal);
    CauchySchwarz(sample, rec.normal);
    assert SquaredLength(sample) * SquaredLength(rec.normal) == SquaredLength(sample);
    AboveMinusOne(d);
    var dir := Add(rec.normal, sample);
    DotAdd(rec.normal, sample, rec.normal);
    DotSymmetric(sample, rec.normal);
    assert Dot(dir, rec.normal) > 0.0;
    assert dir != Zero() by {
      DotZero(rec.normal);
    }
    SquaredLengthNonnegative(dir);
  }

  /** A scalar whose square is below 1 is above -1. */
  lemma AboveMinusOne(d: real)
    requires Sq(d) < 1.0
    ensures d > -1.0
  {
  }
}
