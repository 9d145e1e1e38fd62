/** Point-mass gravity: the acceleration one body imparts on the spacecraft,
    -mu * r_rel / |r_rel|^3 with r_rel the spacecraft's position relative to
    the body's centre. */
module GravityModel {
  import opened Vectors
  import opened CelestialBodies

  /** The body's barycentric position (m) at a Julian date; it stands for
      the `get_position` call that `gravity` makes on the body. */
  type Ephemeris = (CelestialBody, real) -> Vec3

  /** r_rel = icrs_state[:3] - r_body. */
  function RelativePosition(state: State, tJd: real, body: CelestialBody, ephemeris: Ephemeris): Vec3 {
    Sub(state.r, ephemeris(body, tJd))
  }

  /** The factor -mu / n^3 that scales r_rel when |r_rel| = n. */
  function InverseCube(mu: real, n: real): real
    requires n != 0.0
  {
    -mu / (n * n * n)
  }

  /** gravity(icrs_state, t_jd, body). `norm` stands for np.linalg.norm; the
      spacecraft must not sit at the body's centre (the norm is divided by). */
  function Gravity(state: State, tJd: real, body: CelestialBody, ephemeris: Ephemeris,
                   norm: Vec3 -> real): (a: Vec3)
    requires norm(RelativePosition(state, tJd, body, ephemeris)) != 0.0
    ensures var rRel := RelativePosition(state, tJd, body, ephemeris);
      Scale(norm(rRel) * norm(rRel) * norm(rRel), a) == Scale(-Mu(body), rRel)
    ensures body.mass == 0.0 ==> a == Zero
  {
    var rRel := RelativePosition(state, tJd, body, ephemeris);
    InverseCubeInverse(Mu(body), norm(rRel), rRel);
    Scale(InverseCube(Mu(body), norm(rRel)), rRel)
  }

  /** Multiplying InverseCube(mu, n) v by n^3 gives -mu v; for mu == 0 it is zero. */
  lemma InverseCubeInverse(mu: real, n: real, v: Vec3)
    requires n != 0.0
    ensures Scale(n * n * n, Scale(InverseCube(mu, n), v)) == Scale(-mu, v)
    ensures mu == 0.0 ==> Scale(InverseCube(mu, n), v) == Zero
  {
    CubeNonzero(n);
    ScaleScale(n * n * n, InverseCube(mu, n), v);
    assert (n * n * n) * InverseCube(mu, n) == -mu by {
      QuotientTimesDivisor(-mu, n * n * n);
    }
  }

  /** The acceleration is a non-positive multiple of r_rel, a negative one
      when the body has positive mass: it points from the spacecraft towards
      the body, exactly opposite r_rel, and a . r_rel is -mu / |r_rel|. */
  lemma GravityDirection(state: State, tJd: real, body: CelestialBody, ephemeris: Ephemeris,
                         norm: Vec3 -> real) returns (k: real)
    requires EuclideanNorm(norm)
    requires norm(RelativePosition(state, tJd, body, ephemeris)) != 0.0
    ensures Gravity(state, tJd, body, ephemeris, norm) == Scale(k, RelativePosition(state, tJd, body, ephemeris))
    ensures body.mass >= 0.0 ==> k <= 0.0
    ensures body.mass > 0.0 ==> k < 0.0
    ensures Dot(Gravity(state, tJd, body, ephemeris, norm), RelativePosition(state, tJd, body, ephemeris))
         == -Mu(body) / norm(RelativePosition(state, tJd, body, ephemeris))
  {
    var rRel := RelativePosition(state, tJd, body, ephemeris);
    assert NormLaw(norm, rRel);
    k := InverseCube(Mu(body), norm(rRel));
    InverseCubeSign(Mu(body), norm(rRel));
    RadialComponent(Mu(body), norm, rRel);
  }

  /** For n > 0 the factor has the opposite sign of mu. */
  lemma InverseCubeSign(mu: real, n: real)
    requires 0.0 < n
    ensures mu >= 0.0 ==> InverseCube(mu, n) <= 0.0
    ensures mu > 0.0 ==> InverseCube(mu, n) < 0.0
  {
    CubePositive(n);
    SignOfQuotient(-mu, n * n * n);
  }

  /** (InverseCube(mu, |r|) r) . r == -mu / |r|. */
  lemma RadialComponent(mu: real, norm: Vec3 -> real, r: Vec3)
    requires NormLaw(norm, r) && norm(r) != 0.0
    ensures Dot(Scale(InverseCube(mu, norm(r)), r), r) == -mu / norm(r)
  {
    var n := norm(r);
    var k := InverseCube(mu, n);
    assert Dot(Scale(k, r), r) == k * (n * n) by { DotScale(k, r, r); }
    CubeQuotient(-mu, n);
  }

  lemma CubePositive(n: real)
    requires 0.0 < n
    ensures 0.0 < n * n * n
  {
  }

  lemma CubeNonzero(n: real)
    requires n != 0.0
    ensures n * n * n != 0.0
  {
    if n > 0.0 { CubePositive(n); } else { CubePositive(-n); assert (-n) * (-n) * (-n) == -(n * n * n); }
  }

  /** (m / n^3) * n^2 == m / n. */
  lemma CubeQuotient(m: real, n: real)
    requires n != 0.0
    ensures (m / (n * n * n)) * (n * n) == m / n
  {
  }

  lemma DotScale(k: real, a: Vec3, b: Vec3)
    ensures Dot(Scale(k, a), b) == k * Dot(a, b)
    ensures Dot(b, Scale(k, a)) == k * Dot(b, a)
  {
  }

  lemma SignOfQuotient(a: real, d: real)
    requires 0.0 < d
    ensures a <= 0.0 ==> a / d <= 0.0
    ensures a < 0.0 ==> a / d < 0.0
  {
    var q := a / d;
    assert q * d == a;
    assert q > 0.0 ==> q * d > 0.0 by {
      if q > 0.0 { MulPositive(q, d); }
    }
  }

  /** Inverse-square law: |a|^2 * |r_rel|^4 == mu^2, so |a| = mu / |r_rel|^2. */
  lemma InverseSquare(state: State, tJd: real, body: CelestialBody, ephemeris: Ephemeris,
                      norm: Vec3 -> real)
    requires EuclideanNorm(norm)
    requires norm(RelativePosition(state, tJd, body, ephemeris)) != 0.0
    ensures Dot(Gravity(state, tJd, body, ephemeris, norm), Gravity(state, tJd, body, ephemeris, norm))
            * Fourth(norm(RelativePosition(state, tJd, body, ephemeris)))
         == Mu(body) * Mu(body)
  {
    var rRel := RelativePosition(state, tJd, body, ephemeris);
    assert NormLaw(norm, rRel);
    MagnitudeLaw(Mu(body), norm, rRel);
  }

  function Fourth(n: real): real {
    n * n * n * n
  }

  /** For a = InverseCube(mu, |r|) r: |a|^2 |r|^4 == mu^2. */
  lemma MagnitudeLaw(mu: real, norm: Vec3 -> real, r: Vec3)
    requires NormLaw(norm, r) && norm(r) != 0.0
    ensures Dot(Scale(InverseCube(mu, norm(r)), r), Scale(InverseCube(mu, norm(r)), r)) * Fourth(norm(r))
         == mu * mu
  {
    var n := norm(r);
    var k := InverseCube(mu, n);
    var a := Scale(k, r);
    assert Dot(a, a) == k * (k * (n * n)) by {
      DotScale(k, r, a);
      DotScale(k, r, r);
    }
    assert k * (n * n * n) == -mu by {
      CubeNonzero(n);
      QuotientTimesDivisor(-mu, n * n * n);
    }
    SquareLaw(k, n, mu);
  }

  /** If k n^3 == -m then k^2 n^2 n^4 == m^2. */
  lemma SquareLaw(k: real, n: real, m: real)
    requires k * (n * n * n) == -m
    ensures k * (k * (n * n)) * Fourth(n) == m * m
  {
  }

  /** Only the position part of the state matters: the velocity is ignored. */
  lemma VelocityIgnored(r: Vec3, v1: Vec3, v2: Vec3, tJd: real, body: CelestialBody,
                        ephemeris: Ephemeris, norm: Vec3 -> real)
    requires norm(RelativePosition(State(r, v1), tJd, body, ephemeris)) != 0.0
    ensures Gravity(State(r, v1), tJd, body, ephemeris, norm) == Gravity(State(r, v2), tJd, body, ephemeris, norm)
  {
  }

  /** Time enters only through the body's position: two dates at which the
      body is at the same place give the same acceleration. */
  lemma TimeOnlyThroughPosition(state: State, t1: real, t2: real, body: CelestialBody,
                                ephemeris: Ephemeris, norm: Vec3 -> real)
    requires ephemeris(body, t1) == ephemeris(body, t2)
    requires norm(RelativePosition(state, t1, body, ephemeris)) != 0.0
    ensures Gravity(state, t1, body, ephemeris, norm) == Gravity(state, t2, body, ephemeris, norm)
  {
  }

  /** The acceleration is linear in the body's mass (hence in mu). */
  lemma LinearInMass(state: State, tJd: real, body: CelestialBody, c: real,
                     ephemeris: Ephemeris, norm: Vec3 -> real)
    requires ephemeris(body.(mass := c * body.mass), tJd) == ephemeris(body, tJd)
    requires norm(RelativePosition(state, tJd, body, ephemeris)) != 0.0
    ensures Gravity(state, tJd, body.(mass := c * body.mass), ephemeris, norm)
         == Scale(c, Gravity(state, tJd, body, ephemeris, norm))
  {
    var scaled := body.(mass := c * body.mass);
    var rRel := RelativePosition(state, tJd, body, ephemeris);
    assert RelativePosition(state, tJd, scaled, ephemeris) == rRel;
    MuLinear(body, c);
    InverseCubeLinear(c, Mu(body), Mu(scaled), norm(rRel));
    ScaleScale(c, InverseCube(Mu(body), norm(rRel)), rRel);
  }

  /** The factor is linear in mu: for m == c mu it is c times the factor of mu. */
  lemma InverseCubeLinear(c: real, mu: real, m: real, n: real)
    requires n != 0.0 && m == c * mu
    ensures InverseCube(m, n) == c * InverseCube(mu, n)
  {
    CubeNonzero(n);
    assert -m == c * -mu;
    ScaledQuotient(c, -mu, n * n * n);
  }

  lemma ScaledQuotient(c: real, m: real, d: real)
    requires d != 0.0
    ensures (c * m) / d == c * (m / d)
  {
  }
}
