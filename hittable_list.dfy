/**
 * The world: a list of spheres scanned for the nearest hit. The scan keeps
 * the best parameter found so far as the upper bound for the next member,
 * so each accepted hit is nearer than every earlier one.
 */
module HittableLists {
  import opened Vector
  import opened Rays
  import opened Hittable
  import opened Spheres

  datatype HittableList = HittableList(list: seq<Sphere>, listSize: nat)

  /** `HittableList::new`: the size is fixed to the list's length at construction. */
  function NewList(list: seq<Sphere>): (h: HittableList)
    ensures h.list == list && h.listSize == |list|
  {
    HittableList(list, |list|)
  }

  /** The size matches the list, and every sphere's normal is defined (non-zero radius). */
  predicate ValidWorld(h: HittableList) {
    h.listSize == |h.list| && forall i :: 0 <= i < |h.list| ==> h.list[i].radius != 0.0
  }

  /** The loop's variables: `hit_anything`, `closest_so_far`, `*rec` and `temp_rec`. */
  datatype ScanState = ScanState(hitAnything: bool, closest: real, rec: HitRecord, temp: HitRecord)

  /** The loop's variables after the members `0..k` have been asked. */
  function ScanUpTo(h: HittableList, r: Ray, tMin: real, tMax: real, rec: HitRecord, k: nat, sqrt: real -> real): ScanState
    requires IsSqrt(sqrt) && ValidWorld(h) && k <= h.listSize
    decreases k
  {
    if k == 0 then ScanState(false, tMax, rec, BlankRecord())
    else
      var st := ScanUpTo(h, r, tMin, tMax, rec, k - 1, sqrt);
      var (hit, temp) := SphereHit(h.list[k - 1], r, tMin, st.closest, st.temp, sqrt);
      if hit then ScanState(true, temp.t, temp, temp) else st.(temp := temp)
  }

  /** `HittableList::hit` as a value: whether anything was hit, and the record after the call. */
  function ListHit(h: HittableList, r: Ray, tMin: real, tMax: real, rec: HitRecord, sqrt: real -> real): (res: (bool, HitRecord))
    requires IsSqrt(sqrt) && ValidWorld(h)
    ensures !res.0 ==> res.1 == rec
    ensures res.0 ==> tMin < res.1.t < tMax
    ensures res.0 ==>
      exists i :: 0 <= i < |h.list| && res.1 == Record(h.list[i], r, res.1.t) && Quadratic(h.list[i], r, res.1.t) == 0.0
  {
    ScanInvariant(h, r, tMin, tMax, rec, h.listSize, sqrt);
    var st := ScanUpTo(h, r, tMin, tMax, rec, h.listSize, sqrt);
    (st.hitAnything, st.rec)
  }

  /** The imperative scan, asking the members in index order. */
  method Hit(h: HittableList, r: Ray, tMin: real, tMax: real, rec: HitRecord, sqrt: real -> real)
    returns (hitAnything: bool, rec': HitRecord)
    requires IsSqrt(sqrt) && ValidWorld(h)
    ensures (hitAnything, rec') == ListHit(h, r, tMin, tMax, rec, sqrt)
  {
    rec' := rec;
    var tempRec := BlankRecord();
    hitAnything := false;
    var closestSoFar := tMax;
    for i := 0 to h.listSize
      invariant ScanUpTo(h, r, tMin, tMax, rec, i, sqrt) == ScanState(hitAnything, closestSoFar, rec', tempRec)
    {
      var hit;
      hit, tempRec := Spheres.Hit(h.list[i], r, tMin, closestSoFar, tempRec, sqrt);
      if hit {
        hitAnything := true;
        closestSoFar := tempRec.t;
        rec' := tempRec;
      }
    }
  }

  /**
   * What holds after every prefix of the scan: the bound starts at `t_max`
   * and is the accepted parameter once something was hit; until then `rec`
   * is untouched; afterwards it is a member's record inside the interval.
   */
  lemma {:induction false} ScanInvariant(h: HittableList, r: Ray, tMin: real, tMax: real, rec: HitRecord, k: nat, sqrt: real -> real)
    requires IsSqrt(sqrt) && ValidWorld(h) && k <= h.listSize
    ensures var st := ScanUpTo(h, r, tMin, tMax, rec, k, sqrt);
      st.closest <= tMax
      && (!st.hitAnything ==> st.closest == tMax && st.rec == rec)
      && (st.hitAnything ==>
            tMin < st.closest < tMax && st.rec.t == st.closest
            && exists i :: 0 <= i < k
                 && st.rec == Record(h.list[i], r, st.rec.t) && Quadratic(h.list[i], r, st.rec.t) == 0.0)
    decreases k
  {
    if k > 0 {
      ScanInvariant(h, r, tMin, tMax, rec, k - 1, sqrt);
      var st := ScanUpTo(h, r, tMin, tMax, rec, k - 1, sqrt);
      var res := SphereHit(h.list[k - 1], r, tMin, st.closest, st.temp, sqrt);
      if res.0 {
        HitIsOnSphere(h.list[k - 1], r, tMin, st.closest, st.temp, sqrt);
        assert res.1 == Record(h.list[k - 1], r, res.1.t);
      } else {
        var st' := ScanUpTo(h, r, tMin, tMax, rec, k, sqrt);
        if st'.hitAnything {
          var i :| 0 <= i < k - 1
            && st.rec == Record(h.list[i], r, st.rec.t) && Quadratic(h.list[i], r, st.rec.t) == 0.0;
          assert st'.rec == Record(h.list[i], r, st'.rec.t);
        }
      }
    }
  }

  /** Whether member `k` of the scan reported a hit on the bound it was given. */
  predicate Accepted(h: HittableList, r: Ray, tMin: real, tMax: real, rec: HitRecord, k: nat, sqrt: real -> real)
    requires IsSqrt(sqrt) && ValidWorld(h) && k < h.listSize
  {
    var st := ScanUpTo(h, r, tMin, tMax, rec, k, sqrt);
    SphereHit(h.list[k], r, tMin, st.closest, st.temp, sqrt).0
  }

  /** `closest_so_far` starts at `t_max` and never increases. */
  lemma {:induction false} ClosestNeverIncreases(h: HittableList, r: Ray, tMin: real, tMax: real, rec: HitRecord, j: nat, k: nat, sqrt: real -> real)
    requires IsSqrt(sqrt) && ValidWorld(h) && j <= k <= h.listSize
    ensures ScanUpTo(h, r, tMin, tMax, rec, 0, sqrt).closest == tMax
    ensures ScanUpTo(h, r, tMin, tMax, rec, k, sqrt).closest <= ScanUpTo(h, r, tMin, tMax, rec, j, sqrt).closest
    decreases k
  {
    if j < k {
      ClosestNeverIncreases(h, r, tMin, tMax, rec, j, k - 1, sqrt);
    }
  }

  /** Some member hits on the original interval whenever the scan of a prefix has hit anything. */
  lemma {:induction false} ScanHitHasWitness(h: HittableList, r: Ray, tMin: real, tMax: real, rec: HitRecord, k: nat, sqrt: real -> real)
    requires IsSqrt(sqrt) && ValidWorld(h) && k <= h.listSize
    requires ScanUpTo(h, r, tMin, tMax, rec, k, sqrt).hitAnything
    ensures exists i :: 0 <= i < k && SphereHit(h.list[i], r, tMin, tMax, rec, sqrt).0
    decreases k
  {
    var st := ScanUpTo(h, r, tMin, tMax, rec, k - 1, sqrt);
    if st.hitAnything {
      ScanHitHasWitness(h, r, tMin, tMax, rec, k - 1, sqrt);
    } else {
      ScanInvariant(h, r, tMin, tMax, rec, k - 1, sqrt);
      HitIgnoresRecord(h.list[k - 1], r, tMin, tMax, st.temp, rec, sqrt);
    }
  }

  /** A member that hits on the original interval makes the scan hit, at its parameter or a nearer one. */
  lemma {:induction false} ScanReachesMember(h: HittableList, r: Ray, tMin: real, tMax: real, rec: HitRecord, k: nat, i: nat, sqrt: real -> real)
    requires IsSqrt(sqrt) && ValidWorld(h) && i < k <= h.listSize
    requires SphereHit(h.list[i], r, tMin, tMax, rec, sqrt).0
    ensures ScanUpTo(h, r, tMin, tMax, rec, k, sqrt).hitAnything
    ensures ScanUpTo(h, r, tMin, tMax, rec, k, sqrt).closest <= SphereHit(h.list[i], r, tMin, tMax, rec, sqrt).1.t
    decreases k
  {
    ClosestNeverIncreases(h, r, tMin, tMax, rec, k - 1, k, sqrt);
    var st := ScanUpTo(h, r, tMin, tMax, rec, k - 1, sqrt);
    if i < k - 1 {
      ScanReachesMember(h, r, tMin, tMax, rec, k - 1, i, sqrt);
    } else {
      ScanInvariant(h, r, tMin, tMax, rec, k - 1, sqrt);
      var ti := SphereHit(h.list[i], r, tMin, tMax, rec, sqrt).1.t;
      if ti < st.closest {
        HitSurvivesShrink(h.list[i], r, tMin, tMax, st.closest, rec, st.temp, sqrt);
      }
    }
  }

  /** `hit` returns true exactly when some member hits on the original interval `(t_min, t_max)`. */
  lemma ListHitIffSomeMemberHits(h: HittableList, r: Ray, tMin: real, tMax: real, rec: HitRecord, sqrt: real -> real)
    requires IsSqrt(sqrt) && ValidWorld(h)
    ensures ListHit(h, r, tMin, tMax, rec, sqrt).0
        <==> exists i :: 0 <= i < |h.list| && SphereHit(h.list[i], r, tMin, tMax, rec, sqrt).0
  {
    if ListHit(h, r, tMin, tMax, rec, sqrt).0 {
      ScanHitHasWitness(h, r, tMin, tMax, rec, h.listSize, sqrt);
    }
    forall i | 0 <= i < |h.list| && SphereHit(h.list[i], r, tMin, tMax, rec, sqrt).0
      ensures ListHit(h, r, tMin, tMax, rec, sqrt).0
    {
      ScanReachesMember(h, r, tMin, tMax, rec, h.listSize, i, sqrt);
    }
  }

  /** The reported parameter is at most the parameter any member reports on the original interval. */
  lemma ListHitIsNearestMember(h: HittableList, r: Ray, tMin: real, tMax: real, rec: HitRecord, sqrt: real -> real, i: nat)
    requires IsSqrt(sqrt) && ValidWorld(h) && i < |h.list|
    requires SphereHit(h.list[i], r, tMin, tMax, rec, sqrt).0
    ensures ListHit(h, r, tMin, tMax, rec, sqrt).0
    ensures ListHit(h, r, tMin, tMax, rec, sqrt).1.t <= SphereHit(h.list[i], r, tMin, tMax, rec, sqrt).1.t
  {
    ScanReachesMember(h, r, tMin, tMax, rec, h.listSize, i, sqrt);
    ScanInvariant(h, r, tMin, tMax, rec, h.listSize, sqrt);
  }

  /**
   * Member `j` is the last of `0..k` whose hit was accepted, and the record
   * after `k` members is the one it wrote.
   */
  predicate LastAccepted(h: HittableList, r: Ray, tMin: real, tMax: real, rec: HitRecord, k: nat, j: nat, sqrt: real -> real)
    requires IsSqrt(sqrt) && ValidWorld(h) && k <= h.listSize
  {
    && j < k && Accepted(h, r, tMin, tMax, rec, j, sqrt)
    && (forall m :: j < m < k ==> !Accepted(h, r, tMin, tMax, rec, m, sqrt))
    && ScanUpTo(h, r, tMin, tMax, rec, k, sqrt).rec
       == SphereHit(h.list[j], r, tMin, ScanUpTo(h, r, tMin, tMax, rec, j, sqrt).closest,
                    ScanUpTo(h, r, tMin, tMax, rec, j, sqrt).temp, sqrt).1
  }

  /** The final record is the one written by the last member accepted in index order. */
  lemma {:induction false} FinalRecordIsLastAccepted(h: HittableList, r: Ray, tMin: real, tMax: real, rec: HitRecord, k: nat, sqrt: real -> real)
    requires IsSqrt(sqrt) && ValidWorld(h) && k <= h.listSize
    requires ScanUpTo(h, r, tMin, tMax, rec, k, sqrt).hitAnything
    ensures exists j: nat :: LastAccepted(h, r, tMin, tMax, rec, k, j, sqrt)
    decreases k
  {
    if Accepted(h, r, tMin, tMax, rec, k - 1, sqrt) {
      assert LastAccepted(h, r, tMin, tMax, rec, k, k - 1, sqrt);
    } else {
      FinalRecordIsLastAccepted(h, r, tMin, tMax, rec, k - 1, sqrt);
      var j: nat :| LastAccepted(h, r, tMin, tMax, rec, k - 1, j, sqrt);
      assert LastAccepted(h, r, tMin, tMax, rec, k, j, sqrt);
    }
  }

  /**
   * The world's `hit` finds the nearest intersection: it reports a hit exactly
   * when the ray meets some sphere strictly inside `(t_min, t_max)`, and then
   * at a parameter no larger than any such meeting point, on a sphere of the
   * world, with that sphere's unit normal and material.
   */
  lemma ListHitIsNearest(h: HittableList, r: Ray, tMin: real, tMax: real, rec: HitRecord, sqrt: real -> real)
    requires IsSqrt(sqrt) && ValidWorld(h) && A(r) > 0.0
    ensures ListHit(h, r, tMin, tMax, rec, sqrt).0
        <==> exists i, t :: 0 <= i < |h.list| && InInterval(t, tMin, tMax) && OnSphere(h.list[i], PointAtParameter(r, t))
    ensures ListHit(h, r, tMin, tMax, rec, sqrt).0 ==>
      forall i, t :: 0 <= i < |h.list| && InInterval(t, tMin, tMax) && OnSphere(h.list[i], PointAtParameter(r, t))
        ==> ListHit(h, r, tMin, tMax, rec, sqrt).1.t <= t
    ensures var res := ListHit(h, r, tMin, tMax, rec, sqrt);
      res.0 ==>
        && SquaredLength(res.1.normal) == 1.0
        && exists i :: 0 <= i < |h.list| && OnSphere(h.list[i], res.1.p) && res.1.material == h.list[i].material
  {
    var res := ListHit(h, r, tMin, tMax, rec, sqrt);
    ListHitIffSomeMemberHits(h, r, tMin, tMax, rec, sqrt);
    forall i | 0 <= i < |h.list|
      ensures SphereHit(h.list[i], r, tMin, tMax, rec, sqrt).0
        <==> exists t :: InInterval(t, tMin, tMax) && OnSphere(h.list[i], PointAtParameter(r, t))
    {
      SphereHitIsNearest(h.list[i], r, tMin, tMax, rec, sqrt);
    }
    forall i, t | 0 <= i < |h.list| && InInterval(t, tMin, tMax) && OnSphere(h.list[i], PointAtParameter(r, t))
      ensures res.0 && res.1.t <= t
    {
      SphereHitIsNearest(h.list[i], r, tMin, tMax, rec, sqrt);
      ListHitIsNearestMember(h, r, tMin, tMax, rec, sqrt, i);
    }
    if res.0 {
      var i :| 0 <= i < |h.list|
        && res.1 == Record(h.list[i], r, res.1.t) && Quadratic(h.list[i], r, res.1.t) == 0.0;
      RecordAtRoot(h.list[i], r, res.1.t);
    }
  }
}
