/** The spacecraft: its initial barycentric state and epoch, its mass, the
    list of bodies whose gravity acts on it, and the right-hand side of its
    equations of motion. */
module SpacecraftModel {
  import opened Vectors
  import opened CelestialBodies
  import opened GravityModel

  /** The JPL ephemeris lookup `de440[0, id].compute_and_differentiate(jd)`:
      the position (km) and velocity (km/day) of a body about the barycentre. */
  type PlanetEphemeris = (int, real) -> (Vec3, Vec3)

  const MetresPerKm: real := 1000.0
  const SecondsPerDay: real := 86400.0

  /** The barycentric state of a spacecraft given `u` relative to a planet
      whose ephemeris position is `r` km and velocity `v` km/day: the planet's
      state is converted to m and m/s and added. Taking the converted planet
      state away again gives back the planet-relative state `u`. */
  function FromPlanetState(u: State, r: Vec3, v: Vec3): (s: State)
    ensures Sub(s.r, Scale(MetresPerKm, r)) == u.r
    ensures Sub(s.v, Scale(MetresPerKm / SecondsPerDay, v)) == u.v
  {
    State(Add(u.r, Scale(MetresPerKm, r)), Add(u.v, Scale(MetresPerKm / SecondsPerDay, v)))
  }

  /** A planet moving at 1 km/day along x gives a spacecraft at rest
      relative to it a velocity of 1000/86400 m/s along x. */
  lemma VelocityConversionExample(r: Vec3)
    ensures FromPlanetState(State(Zero, Zero), r, Vec3(1.0, 0.0, 0.0)).v == Vec3(1000.0 / 86400.0, 0.0, 0.0)
  {
  }

  /** A planet at r km gives a spacecraft at its centre the position 1000 r m. */
  lemma PositionConversionExample(r: Vec3)
    ensures FromPlanetState(State(Zero, Zero), r, Zero).r == Scale(1000.0, r)
  {
  }

  /** No body after index i has the name of body i: body i is the last of its name. */
  predicate LastOfItsName(bodies: seq<CelestialBody>, i: int)
    requires 0 <= i < |bodies|
  {
    forall j :: i < j < |bodies| ==> bodies[j].name != bodies[i].name
  }

  /** interacting_bodies_dict: {body.name: body for body in bodies}. Its keys
      are the names in the list, each name maps to a body of that name, and
      the body kept for a name is the last body in the list with that name. */
  function BodiesByName(bodies: seq<CelestialBody>): (m: map<string, CelestialBody>)
    ensures forall i :: 0 <= i < |bodies| ==> bodies[i].name in m
    ensures forall name :: name in m ==> m[name].name == name && m[name] in bodies
    ensures forall i :: 0 <= i < |bodies| && LastOfItsName(bodies, i) ==> m[bodies[i].name] == bodies[i]
  {
    if bodies == [] then map[]
    else
      var init, last := bodies[..|bodies| - 1], bodies[|bodies| - 1];
      assert bodies == init + [last];
      assert IndexesByName(init, BodiesByName(init));
      InsertLast(init, last, BodiesByName(init));
      BodiesByName(init)[last.name := last]
  }

  /** The three properties BodiesByName promises of map `m` built from `bodies`. */
  predicate IndexesByName(bodies: seq<CelestialBody>, m: map<string, CelestialBody>) {
    && (forall i :: 0 <= i < |bodies| ==> bodies[i].name in m)
    && (forall name :: name in m ==> m[name].name == name && m[name] in bodies)
    && (forall i :: 0 <= i < |bodies| && LastOfItsName(bodies, i) ==> m[bodies[i].name] == bodies[i])
  }

  /** One step of the dict comprehension: storing `last` under its name
      keeps the three properties of BodiesByName for the longer list. */
  lemma InsertLast(init: seq<CelestialBody>, last: CelestialBody, prev: map<string, CelestialBody>)
    requires IndexesByName(init, prev)
    ensures IndexesByName(init + [last], prev[last.name := last])
  {
    var bodies, m := init + [last], prev[last.name := last];
    assert forall i :: 0 <= i < |init| ==> bodies[i] == init[i];
    assert bodies[|init|] == last;
    forall i | 0 <= i < |bodies|
      ensures bodies[i].name in m
    {
      if i < |init| {
        assert init[i].name in prev;
      }
    }
    forall name | name in m
      ensures m[name].name == name && m[name] in bodies
    {
      if name != last.name {
        assert prev[name] in init;
      }
    }
    forall i | 0 <= i < |bodies| && LastOfItsName(bodies, i)
      ensures m[bodies[i].name] == bodies[i]
    {
      if i < |init| {
        assert LastOfItsName(init, i);
      }
    }
  }

  /** The accelerations of `bodies` summed in list order. Bodies without
      mass pull with zero force, so a list of them sums to zero. */
  function TotalGravity(u: State, tJd: real, bodies: seq<CelestialBody>, ephemeris: Ephemeris,
                        norm: Vec3 -> real): (a: Vec3)
    requires AwayFromAll(u, tJd, bodies, ephemeris, norm)
    ensures Massless(bodies) ==> a == Zero
  {
    if bodies == [] then Zero
    else
      var init := bodies[..|bodies| - 1];
      Add(TotalGravity(u, tJd, init, ephemeris, norm),
          Gravity(u, tJd, bodies[|bodies| - 1], ephemeris, norm))
  }

  /** Every body in the list has zero mass. */
  predicate Massless(bodies: seq<CelestialBody>) {
    forall i :: 0 <= i < |bodies| ==> bodies[i].mass == 0.0
  }

  /** The spacecraft is not at the centre of any of `bodies` at `tJd`. */
  predicate AwayFromAll(u: State, tJd: real, bodies: seq<CelestialBody>, ephemeris: Ephemeris,
                        norm: Vec3 -> real)
  {
    forall i :: 0 <= i < |bodies| ==> norm(RelativePosition(u, tJd, bodies[i], ephemeris)) != 0.0
  }

  /** Summing over two lists one after the other adds the two sums: adding
      interacting bodies adds their gravity to the existing total. */
  lemma {:induction false} TotalGravityAppend(u: State, tJd: real, a: seq<CelestialBody>,
                                              b: seq<CelestialBody>, ephemeris: Ephemeris,
                                              norm: Vec3 -> real)
    requires AwayFromAll(u, tJd, a + b, ephemeris, norm)
    ensures AwayFromAll(u, tJd, a, ephemeris, norm) && AwayFromAll(u, tJd, b, ephemeris, norm)
    ensures TotalGravity(u, tJd, a + b, ephemeris, norm)
         == Add(TotalGravity(u, tJd, a, ephemeris, norm), TotalGravity(u, tJd, b, ephemeris, norm))
    decreases |b|
  {
    assert forall i :: 0 <= i < |a| ==> (a + b)[i] == a[i];
    assert forall i :: 0 <= i < |b| ==> (a + b)[|a| + i] == b[i];
    if b == [] {
      assert a + b == a;
    } else {
      var init := b[..|b| - 1];
      assert (a + b)[..|a + b| - 1] == a + init;
      TotalGravityAppend(u, tJd, a, init, ephemeris, norm);
      var ta, ti := TotalGravity(u, tJd, a, ephemeris, norm), TotalGravity(u, tJd, init, ephemeris, norm);
      var g := Gravity(u, tJd, b[|b| - 1], ephemeris, norm);
      AddAssoc(ta, ti, g);
    }
  }

  /** The velocity part of the state never affects the total acceleration. */
  lemma {:induction false} TotalGravityIgnoresVelocity(r: Vec3, v1: Vec3, v2: Vec3, tJd: real,
                                                       bodies: seq<CelestialBody>, ephemeris: Ephemeris,
                                                       norm: Vec3 -> real)
    requires AwayFromAll(State(r, v1), tJd, bodies, ephemeris, norm)
    ensures AwayFromAll(State(r, v2), tJd, bodies, ephemeris, norm)
    ensures TotalGravity(State(r, v1), tJd, bodies, ephemeris, norm)
         == TotalGravity(State(r, v2), tJd, bodies, ephemeris, norm)
    decreases |bodies|
  {
    assert forall i :: 0 <= i < |bodies| ==>
      RelativePosition(State(r, v1), tJd, bodies[i], ephemeris) == RelativePosition(State(r, v2), tJd, bodies[i], ephemeris);
    if bodies != [] {
      var init, last := bodies[..|bodies| - 1], bodies[|bodies| - 1];
      assert forall i :: 0 <= i < |init| ==> init[i] == bodies[i];
      TotalGravityIgnoresVelocity(r, v1, v2, tJd, init, ephemeris, norm);
      VelocityIgnored(r, v1, v2, tJd, last, ephemeris, norm);
    }
  }

  /** Multiplying every term by m and dividing the sum by m gives back the sum. */
  lemma ScaleThenDivide(m: real, a: Vec3)
    requires m != 0.0
    ensures Div(Scale(m, a), m) == a
  {
  }


  class Spacecraft {
    var initialStateIcrs: State
    var jd0: real
    var mass: real
    var interactingBodies: seq<CelestialBody>

    /** Spacecraft(u, jd_0): the state `u` at Julian date `jd_0`, unit mass,
        and no interacting bodies yet. */
    constructor (u: State, jd0: real)
      ensures initialStateIcrs == u && this.jd0 == jd0
      ensures mass == 1.0 && interactingBodies == []
    {
      initialStateIcrs := u;
      this.jd0 := jd0;
      mass := 1.0;
      interactingBodies := [];
    }

    /** Spacecraft.from_planet(u, ephemeris_id, jd): a spacecraft whose
        state is `u` relative to the planet at `jd`, made barycentric with the
        planet's ephemeris state converted from km and km/day to m and m/s. */
    static method FromPlanet(u: State, ephemerisId: int, jd: real, ephemeris: PlanetEphemeris)
      returns (s: Spacecraft)
      ensures fresh(s)
      ensures s.initialStateIcrs == FromPlanetState(u, ephemeris(ephemerisId, jd).0, ephemeris(ephemerisId, jd).1)
      ensures s.jd0 == jd && s.mass == 1.0 && s.interactingBodies == []
    {
      var (r, v) := ephemeris(ephemerisId, jd);
      s := new Spacecraft(FromPlanetState(u, r, v), jd);
    }

    /** The interacting_bodies_dict property. */
    function InteractingBodiesDict(): (m: map<string, CelestialBody>)
      reads this
      ensures m == BodiesByName(interactingBodies)
    {
      BodiesByName(interactingBodies)
    }

    /** add_interacting_bodies(*bodies): the bodies are appended, in order,
        after those already there; nothing else changes. */
    method AddInteractingBodies(bodies: seq<CelestialBody>)
      modifies this
      ensures interactingBodies == old(interactingBodies) + bodies
      ensures initialStateIcrs == old(initialStateIcrs) && jd0 == old(jd0) && mass == old(mass)
    {
      interactingBodies := interactingBodies + bodies;
    }

    /** get_rates(t, u): `t` is seconds after the epoch jd_0. The derivative
        of the state is its velocity followed by the sum of the gravity of
        every interacting body at jd_0 + t / 86400. The per-body force is
        multiplied by the mass and the total divided by it again, so the mass
        cancels; with no bodies the acceleration is zero. */
    method GetRates(t: real, u: State, ephemeris: Ephemeris, norm: Vec3 -> real) returns (rates: State)
      requires mass != 0.0
      requires AwayFromAll(u, jd0 + t / SecondsPerDay, interactingBodies, ephemeris, norm)
      ensures rates.r == u.v
      ensures rates.v == TotalGravity(u, jd0 + t / SecondsPerDay, interactingBodies, ephemeris, norm)
      ensures interactingBodies == [] ==> rates.v == Zero
    {
      var force := Zero;
      var tJd := jd0 + t / SecondsPerDay;
      var i := 0;
      while i < |interactingBodies|
        invariant 0 <= i <= |interactingBodies|
        invariant AwayFromAll(u, tJd, interactingBodies[..i], ephemeris, norm)
        invariant force == Scale(mass, TotalGravity(u, tJd, interactingBodies[..i], ephemeris, norm))
      {
        var body := interactingBodies[i];
        var g := Gravity(u, tJd, body, ephemeris, norm);
        assert interactingBodies[..i + 1][..i] == interactingBodies[..i];
        ScaleAdd(mass, TotalGravity(u, tJd, interactingBodies[..i], ephemeris, norm), g);
        force := Add(force, Scale(mass, g));
        i := i + 1;
      }
      assert interactingBodies[..i] == interactingBodies;
      ScaleThenDivide(mass, force);
      ScaleThenDivide(mass, TotalGravity(u, tJd, interactingBodies, ephemeris, norm));
      rates := State(u.v, Div(force, mass));
    }
  }
}
