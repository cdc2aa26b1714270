/**
 * The demonstration scene: a huge ground sphere, a 22 by 22 grid of small
 * randomly jittered spheres with randomly chosen materials, and three
 * large spheres. Only the shape of the list is specified here; the random
 * draws are parameters.
 */
module Scenes {
  import opened Vector
  import opened Materials
  import opened Spheres
  import opened HittableLists
  import opened Estimator
  import MetalMaterial

  /** The draws one grid cell consumes, in place of the source's `rand::random` calls. */
  datatype SceneDraw = SceneDraw(
    chooseMat: real,
    jitterX: real,
    jitterZ: real,
    albedoA: Vec3,   // a diffuse albedo is the product of two draws per channel
    albedoB: Vec3,
    metalAlbedo: Vec3,
    metalFuzz: real)

  predicate UnitDraw(d: SceneDraw) {
    && 0.0 <= d.chooseMat < 1.0 && 0.0 <= d.jitterX < 1.0 && 0.0 <= d.jitterZ < 1.0
    && InUnitCube(d.albedoA) && InUnitCube(d.albedoB) && InUnitCube(d.metalAlbedo)
    && 0.0 <= d.metalFuzz < 1.0
  }

  /** One draw per cell of the grid `-11 .. 11` by `-11 .. 11`, indexed from 0. */
  predicate GridDraws(draws: seq<seq<SceneDraw>>) {
    |draws| == 22 && forall p :: 0 <= p < 22 ==> |draws[p]| == 22
  }

  predicate UnitDraws(draws: seq<seq<SceneDraw>>) {
    forall p, q :: 0 <= p < |draws| && 0 <= q < |draws[p]| ==> UnitDraw(draws[p][q])
  }

  function Ground(): Sphere {
    Sphere(Vec3(0.0, -1000.0, 0.0), 1000.0, Lambertian(Vec3(0.5, 0.5, 0.5)))
  }

  /** The glass, diffuse and metal spheres pushed last, in that order. */
  function FeatureSpheres(): seq<Sphere> {
    [Sphere(Vec3(0.0, 1.0, 0.0), 1.0, Dielectric(1.5)),
     Sphere(Vec3(-4.0, 1.0, 0.0), 1.0, Lambertian(Vec3(0.4, 0.2, 0.1))),
     Sphere(Vec3(4.0, 1.0, 0.0), 1.0, MetalMaterial.NewMetal(Vec3(0.7, 0.6, 0.5), 0.0))]
  }

  /** A small sphere of the grid: radius 0.2, resting at height 0.2. */
  predicate SmallSphere(s: Sphere) {
    s.radius == 0.2 && s.center.y == 0.2
  }

  /** The material a cell's sphere gets: diffuse below 0.8, metal below 0.95, glass otherwise. */
  function CellMaterial(d: SceneDraw): (m: Material)
    ensures WellFormed(m)
    ensures UnitDraw(d) ==> Attenuating(m)
  {
    if d.chooseMat < 0.8 then
      Estimator.MulInUnitCube(d.albedoA, d.albedoB);
      Lambertian(Mul(d.albedoA, d.albedoB))
    else if d.chooseMat < 0.95 then
      MetalMaterial.NewMetal(Scale(Add(Vec3(1.0, 1.0, 1.0), d.metalAlbedo), 0.5), 0.5 * d.metalFuzz)
    else
      Dielectric(1.5)
  }

  /** What the list holds after the grid, before the feature spheres. */
  predicate GridPart(list: seq<Sphere>, unitDraws: bool) {
    && |list| >= 1 && list[0] == Ground()
    && forall k :: 1 <= k < |list| ==>
         SmallSphere(list[k]) && WellFormed(list[k].material) && (unitDraws ==> Attenuating(list[k].material))
  }

  /**
   * `random_scene`: the ground first, then one sphere per grid cell whose
   * centre keeps a distance above 0.9 from `(4, 0.2, 0)`, then the three
   * feature spheres. The list holds between 4 and 488 spheres; every
   * radius is non-zero and every material well formed, and with draws in
   * `[0, 1)` every material attenuates.
   */
  method RandomScene(draws: seq<seq<SceneDraw>>, sqrt: real -> real) returns (world: HittableList)
    requires IsSqrt(sqrt) && GridDraws(draws)
    ensures 4 <= |world.list| <= 488
    ensures world.list[0] == Ground()
    ensures world.list[|world.list| - 3..] == FeatureSpheres()
    ensures forall k :: 1 <= k < |world.list| - 3 ==> SmallSphere(world.list[k])
    ensures ValidWorld(world) && WellFormedWorld(world)
    ensures UnitDraws(draws) ==> AttenuatingWorld(world)
  {
    var unitDraws := UnitDraws(draws);
    var list := [Ground()];
    for a := -11 to 11
      invariant |list| <= 1 + (a + 11) * 22
      invariant GridPart(list, unitDraws)
    {
      for b := -11 to 11
        invariant |list| <= 1 + (a + 11) * 22 + (b + 11)
        invariant GridPart(list, unitDraws)
      {
        var d := draws[a + 11][b + 11];
        var center := Vec3(a as real + 0.9 * d.jitterX, 0.2, b as real + 0.9 * d.jitterZ);
        if Length(Sub(center, Vec3(4.0, 0.2, 0.0)), sqrt) > 0.9 {
          list := list + [Sphere(center, 0.2, CellMaterial(d))];
        }
      }
    }
    ghost var grid := list;
    list := list + [FeatureSpheres()[0]];
    list := list + [FeatureSpheres()[1]];
    list := list + [FeatureSpheres()[2]];
    assert list == grid + FeatureSpheres();
    world := NewList(list);
  }
}
