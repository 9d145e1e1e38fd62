/** The older body record of the `src/` tree, CelestialObject: the same
    physical constants without an ephemeris identifier, and two optional
    hooks giving position and velocity as functions of time. */
module CelestialObjects {
  import opened Vectors
  import CelestialBodies

  datatype CelestialObject = CelestialObject(
    name: string,
    radius: real,
    mass: real,
    color: int,
    positionFunction: Option<real -> Vec3>,
    velocityFunction: Option<real -> Vec3>)

  /** CelestialObject(name, radius, mass, color): the arguments are stored
      unchanged and both hooks start absent. */
  function NewCelestialObject(name: string, radius: real, mass: real, color: int): (o: CelestialObject)
    ensures o.name == name && o.radius == radius && o.mass == mass && o.color == color
    ensures o.positionFunction.None? && o.velocityFunction.None?
  {
    CelestialObject(name, radius, mass, color, None, None)
  }

  /** __str__: an object prints as its name. */
  function ToString(o: CelestialObject): (s: string)
    ensures s == o.name
  {
    o.name
  }

  function Sun(): CelestialObject { NewCelestialObject("Sun", 695700000.0, 1.989e30, 0xffff66) }
  function Earth(): CelestialObject { NewCelestialObject("Earth", 6371000.0, 5.972e24, 0x0099ff) }
  function Moon(): CelestialObject { NewCelestialObject("Moon", 1737000.0, 7.34767309e22, 0xCCCCCC) }
  function Mercury(): CelestialObject { NewCelestialObject("Mercury", 2439700.0, 3.285e23, 0x999999) }
  function Venus(): CelestialObject { NewCelestialObject("Venus", 6051800.0, 4.867e24, 0xffe6b3) }
  function Mars(): CelestialObject { NewCelestialObject("Mars", 3389500.0, 6.39e23, 0xff6600) }
  function Jupiter(): CelestialObject { NewCelestialObject("Jupiter", 69911000.0, 1.898e27, 0xffcc66) }
  function Saturn(): CelestialObject { NewCelestialObject("Saturn", 58232000.0, 5.683e26, 0xfff7e6) }
  function Uranus(): CelestialObject { NewCelestialObject("Uranus", 25362000.0, 8.681e25, 0xcceeff) }
  function Neptune(): CelestialObject { NewCelestialObject("Neptune", 24622000.0, 1.024e26, 0x0066ff) }
  function Kerbin(): CelestialObject { NewCelestialObject("Kerbin", 600000.0, 5.2915793e22, 0xCCCCCC) }

  /** The presets in declaration order (the same order as CelestialBodies.Presets). */
  function Presets(): seq<CelestialObject> {
    [Sun(), Earth(), Moon(), Mercury(), Venus(), Mars(), Jupiter(), Saturn(), Uranus(), Neptune(), Kerbin()]
  }

  /** An object describes the same body as a CelestialBody when name,
      radius, mass and colour coincide. */
  predicate SameConstants(o: CelestialObject, b: CelestialBodies.CelestialBody) {
    o.name == b.name && o.radius == b.radius && o.mass == b.mass && o.color == b.color
  }

  /** Every older preset carries the same constants as the newer preset of
      the same name, and neither hook is set on any of them. */
  lemma PresetsAgree()
    ensures |Presets()| == |CelestialBodies.Presets()|
    ensures forall i :: 0 <= i < |Presets()| ==>
      SameConstants(Presets()[i], CelestialBodies.Presets()[i]) &&
      Presets()[i].positionFunction.None? && Presets()[i].velocityFunction.None?
  {
  }
}
