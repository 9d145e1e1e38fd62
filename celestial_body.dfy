/** Physical bodies: an immutable record of name, radius (m), mass (kg),
    display colour and an optional identifier in the JPL ephemeris, with the
    gravitational parameter derived from the mass, and the preset catalogue. */
module CelestialBodies {
  import opened Vectors

  /** scipy.constants.G, the Newtonian constant of gravitation (CODATA 2018), in m^3 kg^-1 s^-2. */
  const G: real := 6.67430e-11

  datatype CelestialBody = CelestialBody(
    name: string,
    radius: real,
    mass: real,
    color: int,
    ephemerisId: Option<int>)

  /** CelestialBody(name, radius, mass, color, ephemeris_id=None): every
      argument is stored unchanged, and a body built without an ephemeris
      identifier has none. */
  function NewCelestialBody(name: string, radius: real, mass: real, color: int,
                            ephemerisId: Option<int> := None): (b: CelestialBody)
    ensures b.name == name && b.radius == radius && b.mass == mass && b.color == color
    ensures b.ephemerisId == ephemerisId
  {
    CelestialBody(name, radius, mass, color, ephemerisId)
  }

  /** The `mu` property: the gravitational parameter mass * G. It has the
      sign of the mass, and dividing it by G gives the mass back. */
  function Mu(b: CelestialBody): (mu: real)
    ensures mu / G == b.mass
    ensures (mu > 0.0) == (b.mass > 0.0)
    ensures (mu == 0.0) == (b.mass == 0.0)
  {
    b.mass * G
  }

  /** `mu` is linear in the mass. */
  lemma MuLinear(b: CelestialBody, k: real)
    ensures Mu(b.(mass := k * b.mass)) == k * Mu(b)
  {
  }

  /** __str__: a body prints as its name. */
  function ToString(b: CelestialBody): (s: string)
    ensures s == b.name
  {
    b.name
  }

  // Real-world presets

  function Sun(): CelestialBody { NewCelestialBody("Sun", 695700000.0, 1.989e30, 0xffff66, Some(10)) }
  function Earth(): CelestialBody { NewCelestialBody("Earth", 6371000.0, 5.972e24, 0x0099ff, Some(3)) }
  function Moon(): CelestialBody { NewCelestialBody("Moon", 1737000.0, 7.34767309e22, 0xCCCCCC) }
  function Mercury(): CelestialBody { NewCelestialBody("Mercury", 2439700.0, 3.285e23, 0x999999, Some(1)) }
  function Venus(): CelestialBody { NewCelestialBody("Venus", 6051800.0, 4.867e24, 0xffe6b3, Some(2)) }
  function Mars(): CelestialBody { NewCelestialBody("Mars", 3389500.0, 6.39e23, 0xff6600, Some(4)) }
  function Jupiter(): CelestialBody { NewCelestialBody("Jupiter", 69911000.0, 1.898e27, 0xffcc66, Some(5)) }
  function Saturn(): CelestialBody { NewCelestialBody("Saturn", 58232000.0, 5.683e26, 0xfff7e6, Some(6)) }
  function Uranus(): CelestialBody { NewCelestialBody("Uranus", 25362000.0, 8.681e25, 0xcceeff, Some(7)) }
  function Neptune(): CelestialBody { NewCelestialBody("Neptune", 24622000.0, 1.024e26, 0x0066ff, Some(8)) }

  // Kerbal Space Program preset

  function Kerbin(): CelestialBody { NewCelestialBody("Kerbin", 600000.0, 5.2915793e22, 0xCCCCCC) }

  /** The preset catalogue in the order the presets are declared. */
  function Presets(): seq<CelestialBody> {
    [Sun(), Earth(), Moon(), Mercury(), Venus(), Mars(), Jupiter(), Saturn(), Uranus(), Neptune(), Kerbin()]
  }

  /** The Sun and the eight planets carry the JPL body numbering (Sun 10,
      Mercury 1 ... Neptune 8); the Moon and Kerbin carry no identifier. */
  lemma PresetEphemerisIds()
    ensures Sun().ephemerisId == Some(10)
    ensures Mercury().ephemerisId == Some(1) && Venus().ephemerisId == Some(2)
    ensures Earth().ephemerisId == Some(3) && Mars().ephemerisId == Some(4)
    ensures Jupiter().ephemerisId == Some(5) && Saturn().ephemerisId == Some(6)
    ensures Uranus().ephemerisId == Some(7) && Neptune().ephemerisId == Some(8)
    ensures Moon().ephemerisId == None && Kerbin().ephemerisId == None
  {
  }

  /** No two presets share a name or an ephemeris identifier, and every
      preset has a positive mass and radius, hence a positive `mu`. */
  lemma PresetsDistinct()
    ensures forall i, j :: 0 <= i < j < |Presets()| ==>
      Presets()[i].name != Presets()[j].name &&
      (Presets()[i].ephemerisId.Some? && Presets()[j].ephemerisId.Some? ==>
         Presets()[i].ephemerisId != Presets()[j].ephemerisId)
    ensures forall i :: 0 <= i < |Presets()| ==>
      Presets()[i].mass > 0.0 && Presets()[i].radius > 0.0 && Mu(Presets()[i]) > 0.0
  {
  }
}
