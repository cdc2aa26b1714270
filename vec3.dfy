/**
 * The vector kernel of the renderer: a three-component vector over the
 * reals with its operators, dot and cross products, reflection, Snell
 * refraction and the unit-ball rejection sampler.
 *
 * The source computes in single-precision floating point; this model uses
 * exact reals. The square root is not definable here, so every member that
 * needs it receives it as a parameter `sqrt` constrained by `IsSqrt`.
 */
module Vector {

  datatype Vec3 = Vec3(x: real, y: real, z: real)

  /** What the model knows about the square root it is handed. */
  ghost predicate IsSqrt(sqrt: real -> real) {
    forall r :: 0.0 <= r ==> 0.0 <= Root(sqrt, r) && Root(sqrt, r) * Root(sqrt, r) == r
  }

  /** `r.sqrt()`, through the oracle. */
  function Root(sqrt: real -> real, r: real): real {
    sqrt(r)
  }

  /** The square of a scalar, named so that facts about its sign can be stated and reused. */
  function Sq(r: real): real {
    r * r
  }

  /** The identity; `r * Id(r)` is a product the solver keeps apart from the square `r * r`. */
  function Id(r: real): real {
    r
  }

  lemma SqPositive(r: real)
    requires r != 0.0
    ensures 0.0 < Sq(r)
  {
    var p := r * Id(r);
    assert p > 0.0;
    assert p == r * r;
  }

  /** The root of a positive number is positive and squares back to it. */
  lemma RootPositive(r: real, sqrt: real -> real)
    requires IsSqrt(sqrt) && r > 0.0
    ensures Root(sqrt, r) > 0.0 && Sq(Root(sqrt, r)) == r
  {
    assert Root(sqrt, r) * Root(sqrt, r) == r;
  }

  function Zero(): Vec3 {
    Vec3(0.0, 0.0, 0.0)
  }

  /** `v[i]`: indices 0, 1, 2 select x, y, z; any other index panics. */
  function Index(v: Vec3, i: nat): real
    requires i < 3
  {
    if i == 0 then v.x else if i == 1 then v.y else v.z
  }

  /** The three indices determine a vector completely. */
  lemma IndexDeterminesVector(a: Vec3, b: Vec3)
    requires forall i :: 0 <= i < 3 ==> Index(a, i) == Index(b, i)
    ensures a == b
  {
    assert Index(a, 0) == Index(b, 0);
    assert Index(a, 1) == Index(b, 1);
    assert Index(a, 2) == Index(b, 2);
  }

  /** `v[i] = value` through `IndexMut`: writes one component, keeps the others. */
  method SetIndex(v: Vec3, i: nat, value: real) returns (v': Vec3)
    requires i < 3
    ensures Index(v', i) == value
    ensures forall k :: 0 <= k < 3 && k != i ==> Index(v', k) == Index(v, k)
  {
    match i
    case 0 => v' := v.(x := value);
    case 1 => v' := v.(y := value);
    case 2 => v' := v.(z := value);
  }

  function Add(a: Vec3, b: Vec3): Vec3 {
    Vec3(a.x + b.x, a.y + b.y, a.z + b.z)
  }

  function Sub(a: Vec3, b: Vec3): Vec3 {
    Vec3(a.x - b.x, a.y - b.y, a.z - b.z)
  }

  /** Component-wise product (`Vec3 * Vec3`), used to apply an attenuation. */
  function Mul(a: Vec3, b: Vec3): Vec3 {
    Vec3(a.x * b.x, a.y * b.y, a.z * b.z)
  }

  predicate NoZeroComponent(v: Vec3) {
    v.x != 0.0 && v.y != 0.0 && v.z != 0.0
  }

  /** Component-wise quotient (`Vec3 / Vec3`). */
  function Div(a: Vec3, b: Vec3): Vec3
    requires NoZeroComponent(b)
  {
    Vec3(a.x / b.x, a.y / b.y, a.z / b.z)
  }

  /** `v * s` and `s * v`: both operand orders compute the same vector. */
  function Scale(v: Vec3, s: real): Vec3 {
    Vec3(v.x * s, v.y * s, v.z * s)
  }

  /** `v / s`. */
  function DivScalar(v: Vec3, s: real): Vec3
    requires s != 0.0
  {
    Vec3(v.x / s, v.y / s, v.z / s)
  }

  function Neg(v: Vec3): Vec3 {
    Vec3(-v.x, -v.y, -v.z)
  }

  function Dot(a: Vec3, b: Vec3): real {
    a.x * b.x + a.y * b.y + a.z * b.z
  }

  function Cross(a: Vec3, b: Vec3): Vec3 {
    Vec3(a.y * b.z - a.z * b.y,
         a.z * b.x - a.x * b.z,
         a.x * b.y - a.y * b.x)
  }

  function SquaredLength(v: Vec3): real {
    Dot(v, v)
  }

  function Length(v: Vec3, sqrt: real -> real): real {
    Root(sqrt, SquaredLength(v))
  }

  /** The length of a non-zero vector is positive and squares to the squared length. */
  lemma LengthPositive(v: Vec3, sqrt: real -> real)
    requires IsSqrt(sqrt) && SquaredLength(v) > 0.0
    ensures Length(v, sqrt) > 0.0
    ensures Sq(Length(v, sqrt)) == SquaredLength(v)
  {
    RootPositive(SquaredLength(v), sqrt);
  }

  /**
   * `v / |v|`. The source leaves the zero vector undefined (it yields NaN),
   * so the model requires a non-zero vector.
   */
  function UnitVector(v: Vec3, sqrt: real -> real): (u: Vec3)
    requires IsSqrt(sqrt) && SquaredLength(v) > 0.0
    ensures SquaredLength(u) == 1.0
    ensures Dot(u, v) == Length(v, sqrt) > 0.0
    ensures u == Scale(v, 1.0 / Length(v, sqrt))
  {
    var len := Length(v, sqrt);
    LengthPositive(v, sqrt);
    DivScalarIsScale(v, len);
    SquaredLengthScale(v, 1.0 / len);
    InverseSquare(len);
    DotScale(v, v, 1.0 / len);
    assert (1.0 / len) * Sq(len) == len;
    DivScalar(v, len)
  }

  lemma DivScalarIsScale(v: Vec3, s: real)
    requires s != 0.0
    ensures DivScalar(v, s) == Scale(v, 1.0 / s)
  {
  }

  lemma SquaredLengthScale(v: Vec3, k: real)
    ensures SquaredLength(Scale(v, k)) == Sq(k) * SquaredLength(v)
  {
  }

  lemma DotScale(u: Vec3, v: Vec3, k: real)
    ensures Dot(Scale(u, k), v) == k * Dot(u, v)
  {
  }

  lemma InverseSquare(s: real)
    requires s != 0.0
    ensures Sq(1.0 / s) * Sq(s) == 1.0
  {
    var k := 1.0 / s;
    assert k * s == 1.0;
    assert Sq(k) * Sq(s) == (k * s) * (k * s);
  }

  /** `v - 2 (v.n) n`: mirror image of v about the plane normal to n. */
  function Reflect(v: Vec3, n: Vec3): Vec3 {
    Sub(v, Scale(Scale(n, 2.0), Dot(v, n)))
  }

  /**
   * `refract(v, n, ni_over_nt, &mut refracted)`, as a value: the Boolean
   * result and the new value of the out-parameter. A zero `v` makes the
   * source's unit vector NaN, the discriminant NaN and the test false, so it
   * reports failure without writing.
   */
  function Refraction(v: Vec3, n: Vec3, niOverNt: real, refracted: Vec3, sqrt: real -> real): (res: (bool, Vec3))
    requires IsSqrt(sqrt)
    ensures res.0 <==> SquaredLength(v) > 0.0 && Discriminant(niOverNt, Dot(UnitVector(v, sqrt), n)) > 0.0
    ensures !res.0 ==> res.1 == refracted
  {
    if SquaredLength(v) > 0.0 then
      var uv := UnitVector(v, sqrt);
      var dt := Dot(uv, n);
      var discriminant := Discriminant(niOverNt, dt);
      if discriminant > 0.0 then
        (true, Sub(Scale(Sub(uv, Scale(n, dt)), niOverNt), Scale(n, Root(sqrt, discriminant))))
      else
        (false, refracted)
    else
      (false, refracted)
  }

  /** `1 - ni_over_nt^2 (1 - dt^2)`: the squared cosine of the refraction angle. */
  function Discriminant(niOverNt: real, dt: real): real {
    1.0 - niOverNt * niOverNt * (1.0 - dt * dt)
  }

  /** The imperative `refract`: writes `refracted` only when it succeeds. */
  method Refract(v: Vec3, n: Vec3, niOverNt: real, refracted: Vec3, sqrt: real -> real)
    returns (ok: bool, refracted': Vec3)
    requires IsSqrt(sqrt)
    ensures (ok, refracted') == Refraction(v, n, niOverNt, refracted, sqrt)
    ensures !ok ==> refracted' == refracted
  {
    refracted' := refracted;
    if SquaredLength(v) <= 0.0 {
      return false, refracted';
    }
    var uv := UnitVector(v, sqrt);
    var dt := Dot(uv, n);
    var discriminant := Discriminant(niOverNt, dt);
    if discriminant > 0.0 {
      refracted' := Sub(Scale(Sub(uv, Scale(n, dt)), niOverNt), Scale(n, Root(sqrt, discriminant)));
      return true, refracted';
    }
    return false, refracted';
  }

  /** The candidate drawn by one pass of the sampler: `(r1, r2, r3) * 2 - (1, 1, 1)`. */
  function Candidate(draw: Vec3): Vec3 {
    Sub(Scale(draw, 2.0), Vec3(1.0, 1.0, 1.0))
  }

  predicate InUnitBall(p: Vec3) {
    SquaredLength(p) < 1.0
  }

  /** Some draw in the stream yields a candidate inside the unit ball. */
  predicate HasAccepted(draws: seq<Vec3>) {
    exists k :: 0 <= k < |draws| && InUnitBall(Candidate(draws[k]))
  }

  /** The position of the first accepted draw: every earlier one was rejected. */
  function FirstAccepted(draws: seq<Vec3>): (k: nat)
    requires HasAccepted(draws)
    ensures k < |draws| && InUnitBall(Candidate(draws[k]))
    ensures forall i :: 0 <= i < k ==> !InUnitBall(Candidate(draws[i]))
  {
    if InUnitBall(Candidate(draws[0])) then 0
    else
      var k :| 0 <= k < |draws| && InUnitBall(Candidate(draws[k]));
      assert InUnitBall(Candidate(draws[1..][k - 1]));
      1 + FirstAccepted(draws[1..])
  }

  /** The point the sampler returns for a stream of draws. */
  function SampleOf(draws: seq<Vec3>): Vec3
    requires HasAccepted(draws)
  {
    Candidate(draws[FirstAccepted(draws)])
  }

  /**
   * `random_in_unit_sphere`: rejection sampling over a stream of uniform
   * draws. The source retries forever; here the stream is finite and is
   * required to hold an accepted candidate somewhere.
   */
  method RandomInUnitSphere(draws: seq<Vec3>) returns (p: Vec3, tries: nat)
    requires HasAccepted(draws)
    ensures tries == FirstAccepted(draws) && p == SampleOf(draws)
    ensures InUnitBall(p)
  {
    tries := 0;
    while true
      invariant tries <= FirstAccepted(draws)
      decreases |draws| - tries
    {
      p := Candidate(draws[tries]);
      if SquaredLength(p) < 1.0 {
        return;
      }
      tries := tries + 1;
    }
  }

  /** A draw from `[0, 1)^3` yields a candidate in the cube `[-1, 1)^3`. */
  lemma CandidateInCube(draw: Vec3)
    requires 0.0 <= draw.x < 1.0 && 0.0 <= draw.y < 1.0 && 0.0 <= draw.z < 1.0
    ensures var c := Candidate(draw);
      -1.0 <= c.x < 1.0 && -1.0 <= c.y < 1.0 && -1.0 <= c.z < 1.0
  {
  }

  // The compound assignment operators, each on the value it replaces.

  method AddAssign(self: Vec3, other: Vec3) returns (self': Vec3)
    ensures self' == Add(self, other)
  {
    self' := Vec3(Index(self, 0) + Index(other, 0), Index(self, 1) + Index(other, 1), Index(self, 2) + Index(other, 2));
  }

  method SubAssign(self: Vec3, other: Vec3) returns (self': Vec3)
    ensures self' == Sub(self, other)
  {
    self' := Vec3(Index(self, 0) - Index(other, 0), Index(self, 1) - Index(other, 1), Index(self, 2) - Index(other, 2));
  }

  method DivAssign(self: Vec3, other: Vec3) returns (self': Vec3)
    requires NoZeroComponent(other)
    ensures self' == Div(self, other)
  {
    self' := Vec3(Index(self, 0) / Index(other, 0), Index(self, 1) / Index(other, 1), Index(self, 2) / Index(other, 2));
  }

  method MulAssign(self: Vec3, other: Vec3) returns (self': Vec3)
    ensures self' == Mul(self, other)
  {
    self' := Vec3(Index(self, 0) * Index(other, 0), Index(self, 1) * Index(other, 1), Index(self, 2) * Index(other, 2));
  }

  method ScaleAssign(self: Vec3, other: real) returns (self': Vec3)
    ensures self' == Scale(self, other)
  {
    self' := Vec3(Index(self, 0) * other, Index(self, 1) * other, Index(self, 2) * other);
  }

  method DivScalarAssign(self: Vec3, other: real) returns (self': Vec3)
    requires other != 0.0
    ensures self' == DivScalar(self, other)
  {
    self' := Vec3(Index(self, 0) / other, Index(self, 1) / other, Index(self, 2) / other);
  }

  // Algebraic laws.

  lemma SubThenAdd(a: Vec3, b: Vec3)
    ensures Add(Sub(a, b), b) == a
  {
  }

  lemma DotAdd(a: Vec3, b: Vec3, c: Vec3)
    ensures Dot(Add(a, b), c) == Dot(a, c) + Dot(b, c)
  {
  }

  lemma DotSub(a: Vec3, b: Vec3, c: Vec3)
    ensures Dot(Sub(a, b), c) == Dot(a, c) - Dot(b, c)
  {
  }

  lemma DotZero(n: Vec3)
    ensures Dot(Zero(), n) == 0.0
  {
  }

  lemma DotSymmetric(a: Vec3, b: Vec3)
    ensures Dot(a, b) == Dot(b, a)
  {
  }

  lemma SquaredLengthNonnegative(v: Vec3)
    ensures SquaredLength(v) >= 0.0
    ensures SquaredLength(v) > 0.0 <==> v != Zero()
  {
    assert SquaredLength(v) == Sq(v.x) + Sq(v.y) + Sq(v.z);
    if v.x != 0.0 { SqPositive(v.x); }
    if v.y != 0.0 { SqPositive(v.y); }
    if v.z != 0.0 { SqPositive(v.z); }
  }

  lemma CrossOrthogonal(a: Vec3, b: Vec3)
    ensures Dot(a, Cross(a, b)) == 0.0
    ensures Dot(b, Cross(a, b)) == 0.0
  {
  }

  /** Lagrange's identity: `|a|^2 |b|^2 - (a.b)^2 == |a x b|^2`. */
  lemma Lagrange(a: Vec3, b: Vec3)
    ensures SquaredLength(a) * SquaredLength(b) - Sq(Dot(a, b)) == SquaredLength(Cross(a, b))
  {
  }

  /** Cauchy-Schwarz, from Lagrange's identity. */
  lemma CauchySchwarz(a: Vec3, b: Vec3)
    ensures Sq(Dot(a, b)) <= SquaredLength(a) * SquaredLength(b)
  {
    Lagrange(a, b);
    SquaredLengthNonnegative(Cross(a, b));
  }

  /** Reflection negates the component along a unit normal. */
  lemma ReflectAlongNormal(v: Vec3, n: Vec3)
    requires SquaredLength(n) == 1.0
    ensures Dot(Reflect(v, n), n) == -Dot(v, n)
  {
    var k := Dot(v, n);
    assert Dot(Reflect(v, n), n) == k - 2.0 * k * SquaredLength(n);
  }

  /** Reflection about a unit normal preserves length. */
  lemma ReflectPreservesLength(v: Vec3, n: Vec3)
    requires SquaredLength(n) == 1.0
    ensures SquaredLength(Reflect(v, n)) == SquaredLength(v)
  {
    var k := Dot(v, n);
    CombinationSquaredLength(v, n, 2.0 * k);
  }

  /** Reflecting twice about a unit normal gives the vector back. */
  lemma ReflectInvolution(v: Vec3, n: Vec3)
    requires SquaredLength(n) == 1.0
    ensures Reflect(Reflect(v, n), n) == v
  {
    ReflectAlongNormal(v, n);
  }

  /** `|a - beta b|^2` expanded. */
  lemma CombinationSquaredLength(a: Vec3, b: Vec3, beta: real)
    ensures SquaredLength(Sub(a, Scale(b, beta)))
         == SquaredLength(a) - 2.0 * beta * Dot(a, b) + Sq(beta) * SquaredLength(b)
  {
  }

  /** Through a unit normal, a successful refraction yields a unit direction. */
  lemma RefractUnitLength(v: Vec3, n: Vec3, niOverNt: real, refracted: Vec3, sqrt: real -> real)
    requires IsSqrt(sqrt) && SquaredLength(n) == 1.0
    requires Refraction(v, n, niOverNt, refracted, sqrt).0
    ensures SquaredLength(Refraction(v, n, niOverNt, refracted, sqrt).1) == 1.0
  {
    var uv := UnitVector(v, sqrt);
    var dt := Dot(uv, n);
    var disc := Discriminant(niOverNt, dt);
    var q := Root(sqrt, disc);
    var w := Sub(uv, Scale(n, dt));
    DotRemoveNormal(uv, n, dt);
    CombinationSquaredLength(uv, n, dt);
    assert SquaredLength(w) == 1.0 - Sq(dt);
    RefractedSquaredLength(w, n, niOverNt, q);
    assert Sq(q) == disc;
    assert Sq(niOverNt) * (1.0 - Sq(dt)) + disc == 1.0;
  }

  lemma DotRemoveNormal(u: Vec3, n: Vec3, k: real)
    ensures Dot(Sub(u, Scale(n, k)), n) == Dot(u, n) - k * SquaredLength(n)
  {
  }

  lemma RefractedSquaredLength(w: Vec3, n: Vec3, k: real, q: real)
    requires Dot(w, n) == 0.0 && SquaredLength(n) == 1.0
    ensures SquaredLength(Sub(Scale(w, k), Scale(n, q))) == Sq(k) * SquaredLength(w) + Sq(q)
  {
  }

  /**
   * Snell's law in vector form: the refracted direction's tangential part
   * (its cross product with the normal) is the incoming unit direction's,
   * scaled by `ni_over_nt`.
   */
  lemma RefractSnell(v: Vec3, n: Vec3, niOverNt: real, refracted: Vec3, sqrt: real -> real)
    requires IsSqrt(sqrt)
    requires Refraction(v, n, niOverNt, refracted, sqrt).0
    ensures SquaredLength(v) > 0.0
    ensures Cross(Refraction(v, n, niOverNt, refracted, sqrt).1, n) == Scale(Cross(UnitVector(v, sqrt), n), niOverNt)
  {
    var uv := UnitVector(v, sqrt);
    var dt := Dot(uv, n);
    CrossDropsNormal(uv, n, niOverNt, dt, Root(sqrt, Discriminant(niOverNt, dt)));
  }

  /** Components along `n` vanish from a cross product with `n`. */
  lemma CrossDropsNormal(u: Vec3, n: Vec3, k: real, a: real, b: real)
    ensures Cross(Sub(Scale(Sub(u, Scale(n, a)), k), Scale(n, b)), n) == Scale(Cross(u, n), k)
  {
    var w := Sub(u, Scale(n, a));
    CrossSub(Scale(w, k), Scale(n, b), n);
    CrossScale(w, n, k);
    CrossSub(u, Scale(n, a), n);
    CrossParallel(n, a);
    CrossParallel(n, b);
  }

  lemma CrossSub(a: Vec3, b: Vec3, n: Vec3)
    ensures Cross(Sub(a, b), n) == Sub(Cross(a, n), Cross(b, n))
  {
  }

  lemma CrossScale(a: Vec3, n: Vec3, k: real)
    ensures Cross(Scale(a, k), n) == Scale(Cross(a, n), k)
  {
    var lhs := Cross(Scale(a, k), n);
    var rhs := Scale(Cross(a, n), k);
    assert lhs.x == rhs.x by { ScaledFactorsDifference(a.y, n.z, a.z, n.y, k); }
    assert lhs.y == rhs.y by { ScaledFactorsDifference(a.z, n.x, a.x, n.z, k); }
    assert lhs.z == rhs.z by { ScaledFactorsDifference(a.x, n.y, a.y, n.x, k); }
  }

  lemma ScaledFactorsDifference(p: real, q: real, r: real, s: real, k: real)
    ensures (p * k) * q - (r * k) * s == (p * q - r * s) * k
  {
  }

  lemma CrossParallel(n: Vec3, t: real)
    ensures Cross(Scale(n, t), n) == Zero()
  {
  }

  /**
   * At exactly the critical angle the discriminant is 0, and the strict test
   * reports failure and leaves the out-parameter unchanged.
   */
  lemma RefractFailsAtCriticalAngle(v: Vec3, n: Vec3, niOverNt: real, refracted: Vec3, sqrt: real -> real)
    requires IsSqrt(sqrt) && SquaredLength(v) > 0.0
    requires Discriminant(niOverNt, Dot(UnitVector(v, sqrt), n)) == 0.0
    ensures !Refraction(v, n, niOverNt, refracted, sqrt).0
    ensures Refraction(v, n, niOverNt, refracted, sqrt).1 == refracted
  {
  }

  /** Such inputs exist: a ray grazing the surface with ratio 1 meets the critical angle. */
  lemma CriticalAngleExample(refracted: Vec3, sqrt: real -> real)
    requires IsSqrt(sqrt)
    ensures Discriminant(1.0, Dot(UnitVector(Vec3(1.0, 0.0, 0.0), sqrt), Vec3(0.0, 1.0, 0.0))) == 0.0
    ensures !Refraction(Vec3(1.0, 0.0, 0.0), Vec3(0.0, 1.0, 0.0), 1.0, refracted, sqrt).0
  {
    var v := Vec3(1.0, 0.0, 0.0);
    var uv := UnitVector(v, sqrt);
    assert uv.y == 0.0;
    assert Dot(uv, Vec3(0.0, 1.0, 0.0)) == 0.0;
    RefractFailsAtCriticalAngle(v, Vec3(0.0, 1.0, 0.0), 1.0, refracted, sqrt);
  }
}
