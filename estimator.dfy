/**
 * The radiance estimator: a ray that hits the world scatters off the
 * material it hits and its colour is the attenuation times the colour of
 * the scattered ray, down to a fixed depth; a ray that escapes sees a
 * white-to-blue sky.
 */
module Estimator {
  import opened Vector
  import opened Rays
  import opened Materials
  import opened Hittable
  import opened Spheres
  import opened HittableLists
  import LambertianMaterial
  import MetalMaterial
  import DielectricMaterial

  /** The recursion depth at which a path is cut off. */
  const MaxDepth: nat := 50

  /** The lower end of the query interval; it keeps a scattered ray from hitting its own origin. */
  const TMin: real := 0.001

  /** `f32::MAX`, the upper end of the query interval. */
  const F32Max: real := 340282346638528859811704183484516925440.0

  /**
   * The random draws one bounce consumes: the stream the unit-ball sampler
   * reads, and the uniform draw that picks reflection or refraction.
   */
  datatype PathDraw = PathDraw(ball: seq<Vec3>, u: real)

  /** Enough draws for every bounce up to the depth cap, each of them usable. */
  predicate Drawable(draws: seq<PathDraw>) {
    && |draws| >= MaxDepth
    && forall i :: 0 <= i < |draws| ==> HasAccepted(draws[i].ball) && 0.0 <= draws[i].u < 1.0
  }

  predicate WellFormedWorld(world: HittableList) {
    forall i :: 0 <= i < |world.list| ==> WellFormed(world.list[i].material)
  }

  predicate AttenuatingWorld(world: HittableList) {
    forall i :: 0 <= i < |world.list| ==> Attenuating(world.list[i].material)
  }

  /**
   * `rec.material.scatter(ray, &rec, &mut attenuation, &mut scattered)`:
   * the dynamic dispatch over the three materials.
   */
  function Scatter(m: Material, rayIn: Ray, rec: HitRecord, draw: PathDraw, sqrt: real -> real): (res: ScatterResult)
    requires IsSqrt(sqrt) && WellFormed(m) && HasAccepted(draw.ball)
    requires SquaredLength(Direction(rayIn)) > 0.0
    ensures Origin(res.scattered) == rec.p
    ensures Attenuating(m) ==> InUnitCube(res.attenuation)
  {
    match m
    case Lambertian(albedo) => LambertianMaterial.Scattering(albedo, rec, SampleOf(draw.ball))
    case Metal(albedo, fuzz) => MetalMaterial.Scattering(albedo, fuzz, rayIn, rec, SampleOf(draw.ball), sqrt)
    case Dielectric(refIdx) => DielectricMaterial.Scattering(refIdx, rayIn, rec, draw.u, sqrt)
  }

  /**
   * Off a unit normal, with a uniform draw in `[0, 1)`, a material that
   * scatters sends the ray in a non-zero direction.
   */
  lemma ScatterKeepsDirectionNonzero(m: Material, rayIn: Ray, rec: HitRecord, draw: PathDraw, sqrt: real -> real)
    requires IsSqrt(sqrt) && WellFormed(m) && HasAccepted(draw.ball)
    requires SquaredLength(Direction(rayIn)) > 0.0
    requires SquaredLength(rec.normal) == 1.0 && 0.0 <= draw.u < 1.0
    requires Scatter(m, rayIn, rec, draw, sqrt).ok
    ensures SquaredLength(Direction(Scatter(m, rayIn, rec, draw, sqrt).scattered)) > 0.0
  {
    match m
    case Lambertian(albedo) =>
      LambertianMaterial.ScatterLeavesSurface(albedo, rec, SampleOf(draw.ball));
    case Metal(albedo, fuzz) =>
      MetalMaterial.KeptDirectionIsNonzero(albedo, fuzz, rayIn, rec, SampleOf(draw.ball), sqrt);
    case Dielectric(refIdx) =>
      DielectricMaterial.ScatteredDirectionIsNonzero(refIdx, rayIn, rec, draw.u, sqrt);
  }

  /**
   * The background: `t = (unit_y + 1) / 2` blends white into `(0.5, 0.7, 1)`.
   * The result lies in `[0, 1]^3` and its blue channel is always 1.
   */
  function Sky(r: Ray, sqrt: real -> real): (c: Vec3)
    requires IsSqrt(sqrt) && SquaredLength(Direction(r)) > 0.0
    ensures InUnitCube(c) && c.z == 1.0
  {
    var unitDirection := UnitVector(Direction(r), sqrt);
    UnitComponentBound(unitDirection);
    var t := 0.5 * (unitDirection.y + 1.0);
    Add(Scale(Vec3(1.0, 1.0, 1.0), 1.0 - t), Scale(Vec3(0.5, 0.7, 1.0), t))
  }

  /** Each component of a unit vector lies in `[-1, 1]`. */
  lemma UnitComponentBound(u: Vec3)
    requires SquaredLength(u) == 1.0
    ensures -1.0 <= u.y <= 1.0
  {
    assert Sq(u.y) <= 1.0 by {
      assert SquaredLength(u) == Sq(u.x) + Sq(u.y) + Sq(u.z);
      SquareNonnegative(u.x);
      SquareNonnegative(u.z);
    }
    SquareAtMostOne(u.y);
  }

  lemma SquareNonnegative(r: real)
    ensures Sq(r) >= 0.0
  {
    if r != 0.0 {
      SqPositive(r);
    }
  }

  lemma SquareAtMostOne(y: real)
    requires Sq(y) <= 1.0
    ensures -1.0 <= y <= 1.0
  {
  }

  /**
   * What a world query returns about the record it fills: a unit normal and
   * the material of one of the world's spheres.
   */
  lemma HitRecordFromWorld(world: HittableList, r: Ray, sqrt: real -> real)
    requires IsSqrt(sqrt) && ValidWorld(world) && SquaredLength(Direction(r)) > 0.0
    requires ListHit(world, r, TMin, F32Max, BlankRecord(), sqrt).0
    ensures var rec := ListHit(world, r, TMin, F32Max, BlankRecord(), sqrt).1;
      && SquaredLength(rec.normal) == 1.0
      && (WellFormedWorld(world) ==> WellFormed(rec.material))
      && (AttenuatingWorld(world) ==> Attenuating(rec.material))
      && exists i :: 0 <= i < |world.list| && rec.material == world.list[i].material
  {
    ListHitIsNearest(world, r, TMin, F32Max, BlankRecord(), sqrt);
    var rec := ListHit(world, r, TMin, F32Max, BlankRecord(), sqrt).1;
    var i :| 0 <= i < |world.list| && OnSphere(world.list[i], rec.p) && rec.material == world.list[i].material;
  }

  /** The component-wise product of two vectors in `[0, 1]^3` stays there. */
  lemma MulInUnitCube(a: Vec3, b: Vec3)
    ensures InUnitCube(a) && InUnitCube(b) ==> InUnitCube(Mul(a, b))
  {
    if InUnitCube(a) && InUnitCube(b) {
      DielectricMaterial.ProductInUnitInterval(a.x, b.x);
      DielectricMaterial.ProductInUnitInterval(a.y, b.y);
      DielectricMaterial.ProductInUnitInterval(a.z, b.z);
    }
  }

  /**
   * `color(ray, world, depth)`: the world is queried on `(0.001, f32::MAX)`;
   * a hit returns zero at the depth cap or when the material absorbs, and
   * otherwise the attenuation times the colour of the scattered ray one
   * level deeper; a miss returns the sky. The bounce at depth `d` uses
   * `draws[d]`. If every material attenuates, the colour lies in `[0, 1]^3`.
   */
  function Color(r: Ray, world: HittableList, depth: nat, draws: seq<PathDraw>, sqrt: real -> real): (c: Vec3)
    requires IsSqrt(sqrt) && ValidWorld(world) && WellFormedWorld(world) && Drawable(draws)
    requires SquaredLength(Direction(r)) > 0.0
    ensures AttenuatingWorld(world) ==> InUnitCube(c)
    decreases MaxDepth - depth
  {
    var hit := ListHit(world, r, TMin, F32Max, BlankRecord(), sqrt);
    if hit.0 then
      var rec := hit.1;
      HitRecordFromWorld(world, r, sqrt);
      if depth < MaxDepth then
        var s := Scatter(rec.material, r, rec, draws[depth], sqrt);
        if s.ok then
          ScatterKeepsDirectionNonzero(rec.material, r, rec, draws[depth], sqrt);
          var rest := Color(s.scattered, world, depth + 1, draws, sqrt);
          MulInUnitCube(s.attenuation, rest);
          Mul(s.attenuation, rest)
        else
          Zero()
      else
        Zero()
    else
      Sky(r, sqrt)
  }

  /** A ray that escapes the world shows the sky, whose blue channel is 1. */
  lemma MissShowsSky(r: Ray, world: HittableList, depth: nat, draws: seq<PathDraw>, sqrt: real -> real)
    requires IsSqrt(sqrt) && ValidWorld(world) && WellFormedWorld(world) && Drawable(draws)
    requires SquaredLength(Direction(r)) > 0.0
    requires !ListHit(world, r, TMin, F32Max, BlankRecord(), sqrt).0
    ensures Color(r, world, depth, draws, sqrt) == Sky(r, sqrt)
    ensures Color(r, world, depth, draws, sqrt).z == 1.0
  {
  }

  /** At the depth cap a hit is black, whatever the material. */
  lemma DepthCapIsBlack(r: Ray, world: HittableList, depth: nat, draws: seq<PathDraw>, sqrt: real -> real)
    requires IsSqrt(sqrt) && ValidWorld(world) && WellFormedWorld(world) && Drawable(draws)
    requires SquaredLength(Direction(r)) > 0.0
    requires ListHit(world, r, TMin, F32Max, BlankRecord(), sqrt).0 && depth >= MaxDepth
    ensures Color(r, world, depth, draws, sqrt) == Zero()
  {
  }
}
