/** The record a successful intersection fills in. */
module Hittable {
  import opened Vector
  import opened Materials

  datatype HitRecord = HitRecord(p: Vec3, normal: Vec3, t: real, material: Material)

  /** The placeholder record callers create before asking for a hit. */
  function BlankRecord(): HitRecord {
    HitRecord(Zero(), Zero(), 0.0, Lambertian(Zero()))
  }
}
