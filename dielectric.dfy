/**
 * The transparent material: a hit refracts by Snell's law or reflects, the
 * choice made by comparing a uniform draw with Schlick's approximation of
 * the reflectance; total internal reflection always reflects.
 */
module DielectricMaterial {
  import opened Vector
  import opened Rays
  import opened Hittable
  import opened Materials

  /** `x.powi(n)`. */
  function Pow(x: real, n: nat): real {
    if n == 0 then 1.0 else x * Pow(x, n - 1)
  }

  /** Reflectance at normal incidence: `((1 - n) / (1 + n))^2`. */
  function R0(refIdx: real): real
    requires 1.0 + refIdx != 0.0
  {
    Sq((1.0 - refIdx) / (1.0 + refIdx))
  }

  /** `Dielectric::schlick(cosine, ref_idx)`. */
  function Schlick(cosine: real, refIdx: real): real
    requires 1.0 + refIdx != 0.0
  {
    R0(refIdx) + (1.0 - R0(refIdx)) * Pow(1.0 - cosine, 5)
  }

  lemma {:induction false} PowOfZero(n: nat)
    requires n > 0
    ensures Pow(0.0, n) == 0.0
  {
    if n > 1 {
      PowOfZero(n - 1);
    }
  }

  lemma {:induction false} PowOfOne(n: nat)
    ensures Pow(1.0, n) == 1.0
  {
    if n > 0 {
      PowOfOne(n - 1);
    }
  }

  /** Powers of a number in `[0, 1]` stay in `[0, 1]`. */
  lemma {:induction false} PowInUnitInterval(x: real, n: nat)
    requires 0.0 <= x <= 1.0
    ensures 0.0 <= Pow(x, n) <= 1.0
  {
    if n > 0 {
      PowInUnitInterval(x, n - 1);
      ProductInUnitInterval(x, Pow(x, n - 1));
    }
  }

  lemma ProductInUnitInterval(a: real, b: real)
    requires 0.0 <= a <= 1.0 && 0.0 <= b <= 1.0
    ensures 0.0 <= a * b <= b
  {
  }

  /** At normal incidence (cosine 1) the approximation is the reflectance `r0`. */
  lemma SchlickAtNormalIncidence(refIdx: real)
    requires 1.0 + refIdx != 0.0
    ensures Schlick(1.0, refIdx) == R0(refIdx)
  {
    PowOfZero(5);
  }

  /** At grazing incidence (cosine 0) everything is reflected. */
  lemma SchlickAtGrazingIncidence(refIdx: real)
    requires 1.0 + refIdx != 0.0
    ensures Schlick(0.0, refIdx) == 1.0
  {
    PowOfOne(5);
  }

  /** For a positive index, `0 <= r0 < 1`. */
  lemma R0Bounds(refIdx: real)
    requires refIdx > 0.0
    ensures 0.0 <= R0(refIdx) < 1.0
  {
    var q := (1.0 - refIdx) / (1.0 + refIdx);
    assert q * (1.0 + refIdx) == 1.0 - refIdx;
    assert -1.0 < q < 1.0;
    SquareBelowOne(q);
  }

  lemma SquareBelowOne(q: real)
    requires -1.0 < q < 1.0
    ensures 0.0 <= Sq(q) < 1.0
  {
    if q >= 0.0 {
      assert q * Id(q) <= Id(q);
    } else {
      var e := -q;
      assert e * Id(e) <= Id(e);
      assert Sq(q) == e * Id(e);
    }
  }

  /** For a positive index and a cosine in `[0, 1]`, `r0 <= schlick <= 1`. */
  lemma SchlickBounds(cosine: real, refIdx: real)
    requires refIdx > 0.0 && 0.0 <= cosine <= 1.0
    ensures R0(refIdx) <= Schlick(cosine, refIdx) <= 1.0
  {
    R0Bounds(refIdx);
    PowInUnitInterval(1.0 - cosine, 5);
    ProductInUnitInterval(Pow(1.0 - cosine, 5), 1.0 - R0(refIdx));
  }

  // The quantities the scatter rule derives from the side the ray arrives on.

  /** Whether the ray leaves the object: it travels along the normal. */
  predicate Exiting(dir: Vec3, normal: Vec3) {
    Dot(dir, normal) > 0.0
  }

  function OutwardNormal(dir: Vec3, normal: Vec3): Vec3 {
    if Exiting(dir, normal) then Neg(normal) else normal
  }

  function NiOverNt(refIdx: real, dir: Vec3, normal: Vec3): real
    requires refIdx != 0.0
  {
    if Exiting(dir, normal) then refIdx else 1.0 / refIdx
  }

  /**
   * The cosine fed to Schlick's approximation. A zero direction has no
   * length; the source then computes NaN, which it never uses because the
   * refraction of a zero vector fails. The model puts 0 there.
   */
  function Cosine(refIdx: real, dir: Vec3, normal: Vec3, sqrt: real -> real): real
    requires IsSqrt(sqrt)
  {
    if SquaredLength(dir) > 0.0 then
      if Exiting(dir, normal) then refIdx * Dot(dir, normal) / Length(dir, sqrt)
      else -Dot(dir, normal) / Length(dir, sqrt)
    else 0.0
  }

  /** The refraction attempted, into an out-parameter that starts at zero. */
  function Refracted(refIdx: real, dir: Vec3, normal: Vec3, sqrt: real -> real): (bool, Vec3)
    requires IsSqrt(sqrt) && refIdx != 0.0
  {
    Refraction(dir, OutwardNormal(dir, normal), NiOverNt(refIdx, dir, normal), Zero(), sqrt)
  }

  /** Schlick's reflectance when the refraction succeeds, 1 when it fails. */
  function ReflectProb(refIdx: real, dir: Vec3, normal: Vec3, sqrt: real -> real): real
    requires IsSqrt(sqrt) && refIdx != 0.0 && 1.0 + refIdx != 0.0
  {
    if Refracted(refIdx, dir, normal, sqrt).0 then Schlick(Cosine(refIdx, dir, normal, sqrt), refIdx) else 1.0
  }

  /** `Dielectric::scatter` for the uniform draw `u`. */
  function Scattering(refIdx: real, rayIn: Ray, rec: HitRecord, u: real, sqrt: real -> real): (res: ScatterResult)
    requires IsSqrt(sqrt) && refIdx != 0.0 && 1.0 + refIdx != 0.0
    ensures res.ok && res.attenuation == Vec3(1.0, 1.0, 0.0)
    ensures Origin(res.scattered) == rec.p
    ensures u < ReflectProb(refIdx, Direction(rayIn), rec.normal, sqrt)
        ==> Direction(res.scattered) == Reflect(Direction(rayIn), rec.normal)
    ensures !(u < ReflectProb(refIdx, Direction(rayIn), rec.normal, sqrt))
        ==> Direction(res.scattered) == Refracted(refIdx, Direction(rayIn), rec.normal, sqrt).1
  {
    var dir := Direction(rayIn);
    var direction :=
      if u < ReflectProb(refIdx, dir, rec.normal, sqrt) then Reflect(dir, rec.normal)
      else Refracted(refIdx, dir, rec.normal, sqrt).1;
    ScatterResult(true, Vec3(1.0, 1.0, 0.0), NewRay(rec.p, direction))
  }

  /**
   * The imperative `scatter`: it sets the attenuation, picks the side,
   * attempts the refraction into a local that starts at zero, and writes
   * `scattered` once on failure and again after the draw.
   */
  method Scatter(refIdx: real, rayIn: Ray, rec: HitRecord, attenuation: Vec3, scattered: Ray, u: real, sqrt: real -> real)
    returns (ok: bool, attenuation': Vec3, scattered': Ray)
    requires IsSqrt(sqrt) && refIdx != 0.0 && 1.0 + refIdx != 0.0
    ensures ScatterResult(ok, attenuation', scattered') == Scattering(refIdx, rayIn, rec, u, sqrt)
  {
    var dir := Direction(rayIn);
    var outwardNormal: Vec3;
    var reflected := Reflect(dir, rec.normal);
    var niOverNt: real;
    attenuation' := Vec3(1.0, 1.0, 0.0);
    var refracted := Vec3(0.0, 0.0, 0.0);
    var reflectProb: real;
    var cosine: real;
    if Dot(dir, rec.normal) > 0.0 {
      outwardNormal := Neg(rec.normal);
      niOverNt := refIdx;
      cosine := if SquaredLength(dir) > 0.0 then refIdx * Dot(dir, rec.normal) / Length(dir, sqrt) else 0.0;
    } else {
      outwardNormal := rec.normal;
      niOverNt := 1.0 / refIdx;
      cosine := if SquaredLength(dir) > 0.0 then -Dot(dir, rec.normal) / Length(dir, sqrt) else 0.0;
    }
    assert cosine == Cosine(refIdx, dir, rec.normal, sqrt);
    scattered' := scattered;
    var refractOk;
    refractOk, refracted := Refract(dir, outwardNormal, niOverNt, refracted, sqrt);
    if refractOk {
      reflectProb := Schlick(cosine, refIdx);
    } else {
      scattered' := NewRay(rec.p, reflected);
      reflectProb := 1.0;
    }
    if u < reflectProb {
      scattered' := NewRay(rec.p, reflected);
    } else {
      scattered' := NewRay(rec.p, refracted);
    }
    ok := true;
  }

  /** Side selection: a ray along the normal exits with ratio `ref_idx`, any other enters with `1 / ref_idx`. */
  lemma SideSelection(refIdx: real, dir: Vec3, normal: Vec3, sqrt: real -> real)
    requires IsSqrt(sqrt) && refIdx != 0.0 && SquaredLength(dir) > 0.0
    ensures Dot(dir, normal) > 0.0 ==>
      && OutwardNormal(dir, normal) == Neg(normal)
      && NiOverNt(refIdx, dir, normal) == refIdx
      && Cosine(refIdx, dir, normal, sqrt) == refIdx * Dot(dir, normal) / Length(dir, sqrt)
    ensures Dot(dir, normal) <= 0.0 ==>
      && OutwardNormal(dir, normal) == normal
      && NiOverNt(refIdx, dir, normal) == 1.0 / refIdx
      && Cosine(refIdx, dir, normal, sqrt) == -Dot(dir, normal) / Length(dir, sqrt)
  {
  }

  /** Under total internal reflection every draw in `[0, 1)` reflects. */
  lemma TotalInternalReflection(refIdx: real, rayIn: Ray, rec: HitRecord, u: real, sqrt: real -> real)
    requires IsSqrt(sqrt) && refIdx != 0.0 && 1.0 + refIdx != 0.0
    requires !Refracted(refIdx, Direction(rayIn), rec.normal, sqrt).0 && u < 1.0
    ensures Direction(Scattering(refIdx, rayIn, rec, u, sqrt).scattered) == Reflect(Direction(rayIn), rec.normal)
  {
  }

  /**
   * With a unit normal, a non-zero incoming direction and a draw in
   * `[0, 1)`, the scattered direction is non-zero: a reflection keeps the
   * incoming length and a refraction has unit length.
   */
  lemma ScatteredDirectionIsNonzero(refIdx: real, rayIn: Ray, rec: HitRecord, u: real, sqrt: real -> real)
    requires IsSqrt(sqrt) && refIdx != 0.0 && 1.0 + refIdx != 0.0
    requires SquaredLength(rec.normal) == 1.0 && SquaredLength(Direction(rayIn)) > 0.0 && u < 1.0
    ensures SquaredLength(Direction(Scattering(refIdx, rayIn, rec, u, sqrt).scattered)) > 0.0
  {
    var dir := Direction(rayIn);
    var on := OutwardNormal(dir, rec.normal);
    var ratio := NiOverNt(refIdx, dir, rec.normal);
    if u < ReflectProb(refIdx, dir, rec.normal, sqrt) {
      ReflectPreservesLength(dir, rec.normal);
    } else {
      assert SquaredLength(Neg(rec.normal)) == SquaredLength(rec.normal);
      assert SquaredLength(on) == 1.0;
      RefractUnitLength(dir, on, ratio, Zero(), sqrt);
    }
  }

  /**
   * A ray arriving against a unit normal gets a cosine in `[0, 1]`, so with
   * a positive index its reflection probability lies in `[r0, 1]`.
   */
  lemma EnteringReflectProbBounds(refIdx: real, dir: Vec3, normal: Vec3, sqrt: real -> real)
    requires IsSqrt(sqrt) && refIdx > 0.0
    requires SquaredLength(normal) == 1.0 && SquaredLength(dir) > 0.0 && Dot(dir, normal) <= 0.0
    ensures R0(refIdx) <= ReflectProb(refIdx, dir, normal, sqrt) <= 1.0
  {
    R0Bounds(refIdx);
    var len := Length(dir, sqrt);
    LengthPositive(dir, sqrt);
    CauchySchwarz(dir, normal);
    assert Sq(Dot(dir, normal)) <= Sq(len);
    var d := -Dot(dir, normal);
    assert Sq(d) == Sq(Dot(dir, normal));
    SquareBounded(d, len);
    var cosine := d / len;
    assert Cosine(refIdx, dir, normal, sqrt) == cosine;
    assert 0.0 <= cosine <= 1.0 by {
      assert cosine * len == d;
    }
    SchlickBounds(cosine, refIdx);
  }

  /** For non-negative `a` and positive `b`, `a^2 <= b^2` gives `a <= b`. */
  lemma SquareBounded(a: real, b: real)
    requires 0.0 <= a && 0.0 < b && Sq(a) <= Sq(b)
    ensures a <= b
  {
  }
}
