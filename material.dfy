/**
 * The three materials of the renderer as one sum type, in place of the
 * source's `Box<dyn Material>` trait objects. Their scatter rules live in
 * `LambertianMaterial`, `MetalMaterial` and `DielectricMaterial`, and the
 * dynamic dispatch over them in `Estimator.Scatter`.
 */
module Materials {
  import opened Vector
  import opened Rays

  datatype Material =
    | Lambertian(albedo: Vec3)
    | Metal(albedo: Vec3, fuzz: real)
    | Dielectric(refIdx: real)

  /**
   * What `scatter` delivers: its Boolean result and the values it leaves in
   * the `attenuation` and `scattered` out-parameters.
   */
  datatype ScatterResult = ScatterResult(ok: bool, attenuation: Vec3, scattered: Ray)

  /**
   * The divisions a material's rule performs are defined: a dielectric
   * divides by `ref_idx` and by `1 + ref_idx`.
   */
  predicate WellFormed(m: Material) {
    m.Dielectric? ==> m.refIdx != 0.0 && 1.0 + m.refIdx != 0.0
  }

  predicate InUnitCube(v: Vec3) {
    0.0 <= v.x <= 1.0 && 0.0 <= v.y <= 1.0 && 0.0 <= v.z <= 1.0
  }

  /** Every attenuation the material can report lies in `[0, 1]^3`. */
  predicate Attenuating(m: Material) {
    match m
    case Lambertian(albedo) => InUnitCube(albedo)
    case Metal(albedo, _) => InUnitCube(albedo)
    case Dielectric(_) => true
  }
}
