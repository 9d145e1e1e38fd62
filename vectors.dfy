/** Three-component real vectors and the six-component spacecraft state
    ([x, y, z, vx, vy, vz]) that the numpy code keeps in plain arrays. */
module Vectors {

  datatype Option<T> = None | Some(value: T)

  datatype Vec3 = Vec3(x: real, y: real, z: real)

  /** A spacecraft state: position (m) and velocity (m/s), u[:3] and u[3:] in the source. */
  datatype State = State(r: Vec3, v: Vec3)

  const Zero: Vec3 := Vec3(0.0, 0.0, 0.0)

  function Add(a: Vec3, b: Vec3): Vec3 {
    Vec3(a.x + b.x, a.y + b.y, a.z + b.z)
  }

  function Sub(a: Vec3, b: Vec3): Vec3 {
    Vec3(a.x - b.x, a.y - b.y, a.z - b.z)
  }

  function Scale(k: real, a: Vec3): Vec3 {
    Vec3(k * a.x, k * a.y, k * a.z)
  }

  /** Component-wise division by a scalar, numpy's `a / k`. */
  function Div(a: Vec3, k: real): Vec3
    requires k != 0.0
  {
    Vec3(a.x / k, a.y / k, a.z / k)
  }

  function Dot(a: Vec3, b: Vec3): real {
    a.x * b.x + a.y * b.y + a.z * b.z
  }

  function Cross(a: Vec3, b: Vec3): Vec3 {
    Vec3(a.y * b.z - a.z * b.y, a.z * b.x - a.x * b.z, a.x * b.y - a.y * b.x)
  }

  /** `norm` is a Euclidean norm: never negative and its square is the dot product.
      It stands for np.linalg.norm without modelling a square root. */
  ghost predicate EuclideanNorm(norm: Vec3 -> real) {
    forall v :: NormLaw(norm, v)
  }

  /** The two facts EuclideanNorm states about one vector. */
  ghost predicate NormLaw(norm: Vec3 -> real, v: Vec3) {
    0.0 <= norm(v) && norm(v) * norm(v) == Dot(v, v)
  }

  /** Component `a` lies between the components `lo` and `hi`, in either order. */
  predicate BetweenReal(lo: real, a: real, hi: real) {
    (lo <= a <= hi) || (hi <= a <= lo)
  }

  /** Every component of `a` lies between the matching components of `lo` and `hi`. */
  predicate Between(lo: Vec3, a: Vec3, hi: Vec3) {
    BetweenReal(lo.x, a.x, hi.x) && BetweenReal(lo.y, a.y, hi.y) && BetweenReal(lo.z, a.z, hi.z)
  }

  // Vector algebra used by the interpolation and gravity proofs. Each
  // identity is proved one component at a time from a scalar identity.

  lemma AddAssoc(a: Vec3, b: Vec3, c: Vec3)
    ensures Add(Add(a, b), c) == Add(a, Add(b, c))
  {
  }

  /** m a + m b == m (a + b) */
  lemma ScaleAdd(m: real, a: Vec3, b: Vec3)
    ensures Add(Scale(m, a), Scale(m, b)) == Scale(m, Add(a, b))
  {
    MulAddDistrib(m, a.x, b.x);
    MulAddDistrib(m, a.y, b.y);
    MulAddDistrib(m, a.z, b.z);
  }

  /** (c q) v == c (q v) */
  lemma ScaleScale(c: real, q: real, v: Vec3)
    ensures Scale(c * q, v) == Scale(c, Scale(q, v))
  {
    MulAssoc(c, q, v.x);
    MulAssoc(c, q, v.y);
    MulAssoc(c, q, v.z);
  }

  /** k v + m v == (k + m) v */
  lemma AddScales(k: real, m: real, v: Vec3)
    ensures Add(Scale(k, v), Scale(m, v)) == Scale(k + m, v)
  {
    AddMulDistrib(k, m, v.x);
    AddMulDistrib(k, m, v.y);
    AddMulDistrib(k, m, v.z);
  }

  /** k v - m v == (k - m) v */
  lemma SubScales(k: real, m: real, v: Vec3)
    ensures Sub(Scale(k, v), Scale(m, v)) == Scale(k - m, v)
  {
    SubMulDistrib(k, m, v.x);
    SubMulDistrib(k, m, v.y);
    SubMulDistrib(k, m, v.z);
  }

  /** m (a - b) == m a - m b */
  lemma ScaleSub(m: real, a: Vec3, b: Vec3)
    ensures Scale(m, Sub(a, b)) == Sub(Scale(m, a), Scale(m, b))
  {
    MulSubDistrib(m, a.x, b.x);
    MulSubDistrib(m, a.y, b.y);
    MulSubDistrib(m, a.z, b.z);
  }

  lemma ScaleOne(a: Vec3)
    ensures Scale(1.0, a) == a
  {
  }

  /** (a + k v) - (a + m v) == (k - m) v */
  lemma SubAffine(a: Vec3, k: real, m: real, v: Vec3)
    ensures Sub(Add(a, Scale(k, v)), Add(a, Scale(m, v))) == Scale(k - m, v)
  {
    assert Sub(Add(a, Scale(k, v)), Add(a, Scale(m, v))) == Sub(Scale(k, v), Scale(m, v));
    SubScales(k, m, v);
  }

  lemma MulAddDistrib(m: real, a: real, b: real)
    ensures m * a + m * b == m * (a + b)
  {
  }

  lemma MulSubDistrib(m: real, a: real, b: real)
    ensures m * (a - b) == m * a - m * b
  {
  }

  lemma MulAssoc(c: real, q: real, x: real)
    ensures (c * q) * x == c * (q * x)
  {
  }

  lemma AddMulDistrib(k: real, m: real, x: real)
    ensures k * x + m * x == (k + m) * x
  {
  }

  lemma SubMulDistrib(k: real, m: real, x: real)
    ensures k * x - m * x == (k - m) * x
  {
  }

  lemma MulPositive(a: real, b: real)
    requires 0.0 < a && 0.0 < b
    ensures 0.0 < a * b
  {
  }

  /** (n / d) * d == n for a non-zero divisor. */
  lemma QuotientTimesDivisor(n: real, d: real)
    requires d != 0.0
    ensures (n / d) * d == n
  {
  }
}
