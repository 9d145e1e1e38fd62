# Flyby core in Dafny

This project models the computational core of a spacecraft-trajectory program. The program propagates a spacecraft through the solar system under the gravity of the Sun and the planets, using ephemeris data for the bodies' positions. The model covers:

- **The clamped linear interpolator** (`lerp_numba`, `FastLerp`), which evaluates time-sampled 3-vectors. See `fast_linear_interpolator.dfy`.
  - A left-sided sorted search. It is given as a specification function and as a binary-search method proved against it.
  - Clamping outside the sampled range.
  - A linear blend of the two neighbouring samples inside the range.
  - The transposition that `FastLerp` applies when it is constructed.
- **The body records and their presets.**
  - `CelestialBody` carries a name, radius, mass, colour, an optional JPL ephemeris id and μ = mass·G. See `celestial_body.dfy`.
  - The older `CelestialObject` of the `src/` tree has no ephemeris id and two optional position/velocity hooks. See `legacy_celestial_body.dfy`.
- **The body tree** (`RelationalTreeNode`, `RelationalTree`). See `relational_tree.dfy`.
  - Nodes are heap objects with parent links and child lists that grow by appending.
  - `all_bodies` is a `while` loop over an explicit stack. It is proved to list every node exactly once, in the tree's depth-first order with siblings taken last-to-first.
  - The `solar_system` preset has a concrete shape.
- **Julian dates.**
  - The microsecond-resolution conversions, with Python's round-half-to-even. See `julian_day.dfy`.
  - The older conversions of the `src/` tree, which truncate to days. See `legacy_julian_day.dfy`.
  - numpy `datetime64` values are integer microsecond counts since the Unix epoch. See `datetime64.dfy`.
- **Point-mass gravity**: `gravity` gives −μ·r_rel/|r_rel|³. See `gravity.dfy`.
- **The spacecraft**: a class with the initial state, epoch, mass and the list of interacting bodies. See `spacecraft.dfy`.
  - `add_interacting_bodies` extends that list in place.
  - `interacting_bodies_dict` indexes the list by name.
  - `from_planet` applies the unit-converting planet offset.
  - `get_rates` sums the per-body accelerations in a loop.
- **Shared vector algebra** on `Vec3` and the six-component `State`. See `vectors.dfy`.

Modelling choices:

- All arithmetic is over Dafny's exact `real`.
- `np.linalg.norm` is a parameter `norm: Vec3 -> real`. Where a magnitude matters, the predicate `EuclideanNorm` requires `norm(v) >= 0` and `norm(v)² == v·v`. No square root is modelled.
- A body's position at a Julian date is a parameter `ephemeris: (CelestialBody, real) -> Vec3`. This stands for the `get_position` call that gravity.py makes on the body.
- The JPL lookup in `from_planet` is a parameter `(int, real) -> (Vec3, Vec3)` that gives km and km/day.
- `get_rates` multiplies each body's acceleration by the spacecraft's mass and divides the total by the mass again, and the model does the same.

## Model

| member | source | states |
|---|---|---|
| FastLinearInterpolator.SearchSorted | flyby/math_utilities/fast_linear_interpolator.py:25 | `np.searchsorted` (left side) returns the least index whose time is at least `t`: every earlier time is smaller than `t`, and the index is `|jd|` when all times are smaller |
| FastLinearInterpolator.BinarySearchLeft | flyby/math_utilities/fast_linear_interpolator.py:25 | the binary search on a sorted time array returns exactly the least index of `SearchSorted` |
| FastLinearInterpolator.Lerp | flyby/math_utilities/fast_linear_interpolator.py:6-36 | `lerp_numba` on a non-empty sorted time array: at or before the first time it gives exactly the first sample, after the last time exactly the last sample, and in between the search index brackets `t` (`jd[i-1] < t <= jd[i]`) and the result lies componentwise between `arr[i-1]` and `arr[i]` |
| FastLinearInterpolator.LerpBlend | flyby/math_utilities/fast_linear_interpolator.py:25-36 | inside the range the search index satisfies `jd[i-1] < t <= jd[i]`; the result is `(1-w)·arr[i-1] + w·arr[i]` with `w = (t-jd[i-1])/(jd[i]-jd[i-1])` in (0, 1]; each component lies between the two samples |
| FastLinearInterpolator.LerpAtSample | flyby/math_utilities/fast_linear_interpolator.py:25-36 | evaluating at a sample time `jd[k]` returns `arr[k]` exactly, through the blend with weight 1 for every sample but the first; for a repeated time it is the first of its samples |
| FastLinearInterpolator.RepeatedTime | flyby/math_utilities/fast_linear_interpolator.py:25-36 | with times 0, 1, 1, 2 and samples p, q, r, s: t = 1 gives q, and t = 1.5 gives the midpoint of r and s |
| FastLinearInterpolator.LerpAffine | flyby/math_utilities/fast_linear_interpolator.py:36 | samples that are affine in time (`arr[k] = a + jd[k]·b`) are reproduced exactly at every time in the sampled range |
| FastLinearInterpolator.TransposeRoundTrip | flyby/math_utilities/fast_linear_interpolator.py:45 | transposing a 3-by-n array into n samples and taking the components back gives the original array |
| FastLinearInterpolator.NewFastLerp | flyby/math_utilities/fast_linear_interpolator.py:44-46 | the constructor stores `jd` unchanged and the samples as the transpose of `arr`, whose components give `arr` back |
| FastLinearInterpolator.FastLerp.Call | flyby/math_utilities/fast_linear_interpolator.py:48-49 | `__call__` evaluates `lerp_numba` on the stored arrays: the first stored sample at or before the first time, the last after the last time; the value is immutable, so a call changes neither array |
| FastLinearInterpolator.FastLerpAtSample | flyby/math_utilities/fast_linear_interpolator.py:44-49 | a FastLerp built from `jd` and a 3-by-n array returns column `k` exactly at time `jd[k]` (the first column of a repeated time) |
| FastLinearInterpolator.FastLerpClamps | flyby/math_utilities/fast_linear_interpolator.py:44-49 | outside the sampled range a FastLerp returns the first or the last column of the array |
| CelestialBodies.NewCelestialBody | flyby/solar_system_model/celestial_body.py:5-19 | the constructor stores name, radius, mass, colour and ephemeris id unchanged; the id is absent when not given |
| CelestialBodies.Mu | flyby/solar_system_model/celestial_body.py:24-26 | μ divided by G gives the mass; μ is positive exactly when the mass is and zero exactly when the mass is |
| CelestialBodies.MuLinear | flyby/solar_system_model/celestial_body.py:24-26 | scaling the mass by `k` scales μ by `k` |
| CelestialBodies.ToString | flyby/solar_system_model/celestial_body.py:21-22 | a body prints as its name |
| CelestialBodies.PresetEphemerisIds | flyby/solar_system_model/celestial_body.py:30-72 | Sun 10, Mercury 1, Venus 2, Earth 3, Mars 4, Jupiter 5, Saturn 6, Uranus 7, Neptune 8; the Moon and Kerbin have none |
| CelestialBodies.PresetsDistinct | flyby/solar_system_model/celestial_body.py:30-72 | no two presets share a name or an ephemeris id; every preset has positive mass, radius and μ |
| CelestialObjects.NewCelestialObject | src/flyby/solar_system_model/celestial_body.py:4-17 | the constructor stores name, radius, mass and colour unchanged; the position and velocity hooks start absent |
| CelestialObjects.ToString | src/flyby/solar_system_model/celestial_body.py:19-20 | an object prints as its name |
| CelestialObjects.PresetsAgree | src/flyby/solar_system_model/celestial_body.py:22-66 | each older preset has the same name, radius, mass and colour as the newer preset in the same place, and no hook set |
| Datetime64.FloorToDays | src/flyby/time_model/julian_day.py:6 | casting to `datetime64[D]` gives the day `d` with `t` in `[d days, d+1 days)`, rounding instants before 1970 towards the past |
| JulianDay.Round | flyby/time_model/julian_day.py:13 | Python's `round` gives an integer within 1/2 of its argument, and the even one on a tie |
| JulianDay.DatetimeToJd | flyby/time_model/julian_day.py:4-7 | the Julian date minus 2440587.5, times the microseconds in a day, is the instant's microsecond count |
| JulianDay.JdToDatetime | flyby/time_model/julian_day.py:10-13 | the result is a whole microsecond count within 1/2 µs of `(jd - 2440587.5)·86400·10⁶` |
| JulianDay.RoundTrip | flyby/time_model/julian_day.py:7-13 | converting any microsecond instant to a Julian date and back gives the same instant |
| JulianDay.Epoch | flyby/time_model/julian_day.py:6-13 | the Unix epoch and JD 2440587.5 convert to each other |
| JulianDay.Monotone | flyby/time_model/julian_day.py:7 | later instants have strictly later Julian dates; one day of microseconds adds exactly 1 |
| JulianDay.ConversionExample | tests/test_time_model.py:4-14 | 2015-02-08T00:00:00 is JD 2457061.5, and JD 2457061.5 converts back to that instant |
| LegacyJulianDay.DatetimeToJd | src/flyby/time_model/julian_day.py:3-6 | the result is 2440587.5 plus a whole day count `d` such that the instant falls within day `d` |
| LegacyJulianDay.JdToDatetimeAsWritten | src/flyby/time_model/julian_day.py:8-11 | as written the call always fails: the day count `jd - 2440587.5` is a float, which `np.timedelta64(..., "D")` does not accept |
| LegacyJulianDay.EpochRejectedAsWritten | src/flyby/time_model/julian_day.py:8-11 | at JD 2440587.5 the function as written fails, while the intended conversion gives the epoch |
| LegacyJulianDay.JdToDatetime | src/flyby/time_model/julian_day.py:8-11 | the intended conversion (see Findings): defined exactly when `jd - 2440587.5` is a whole number of days, and then it is the epoch plus that many days |
| LegacyJulianDay.EndsInHalf | src/flyby/time_model/julian_day.py:6 | every Julian date produced ends in .5 |
| LegacyJulianDay.SameDay | src/flyby/time_model/julian_day.py:6 | two instants on the same calendar day get the same Julian date |
| LegacyJulianDay.NonDecreasing | src/flyby/time_model/julian_day.py:6 | the conversion never decreases |
| LegacyJulianDay.AgreesAtMidnight | src/flyby/time_model/julian_day.py:6 | at midnight it agrees with the microsecond-resolution conversion |
| LegacyJulianDay.ConversionExample | src/flyby/time_model/julian_day.py:6 | midnight of 2015-02-08 is JD 2457061.5 here too |
| LegacyJulianDay.WholeDays | src/flyby/time_model/julian_day.py:8-11 | for the intended conversion, JD 2440587.5 is the epoch, and 2440587.5 + k is the epoch plus k days |
| LegacyJulianDay.RoundTrip | src/flyby/time_model/julian_day.py:3-11 | with the intended inverse, an instant converted and back gives midnight of its day, which is the instant itself at day resolution |
| GravityModel.Gravity | flyby/spacecraft_model/gravity.py:7-25 | `gravity`: with `r_rel` the spacecraft's position minus the body's, the acceleration `a` satisfies `a·|r_rel|³ = -μ·r_rel`, and a body without mass gives zero; the spacecraft must not sit at the body's centre |
| GravityModel.GravityDirection | flyby/spacecraft_model/gravity.py:21-25 | the acceleration is `k·r_rel` with `k <= 0` for non-negative mass and `k < 0` for positive mass, and its component along `r_rel` is `-μ/|r_rel|` |
| GravityModel.InverseSquare | flyby/spacecraft_model/gravity.py:25 | `|a|²·|r_rel|⁴ = μ²`, the inverse-square law |
| GravityModel.VelocityIgnored | flyby/spacecraft_model/gravity.py:23 | the velocity part of the state never affects the acceleration |
| GravityModel.TimeOnlyThroughPosition | flyby/spacecraft_model/gravity.py:21 | two dates at which the body is at the same place give the same acceleration |
| GravityModel.LinearInMass | flyby/spacecraft_model/gravity.py:25 | scaling the body's mass by `c` scales the acceleration by `c` |
| SpacecraftModel.FromPlanetState | flyby/spacecraft_model/spacecraft.py:92-95 | the barycentric state minus the planet's state converted to m and m/s gives back the planet-relative state `u` |
| SpacecraftModel.VelocityConversionExample | flyby/spacecraft_model/spacecraft.py:94-95 | 1 km/day becomes 1000/86400 m/s |
| SpacecraftModel.PositionConversionExample | flyby/spacecraft_model/spacecraft.py:94-95 | a position of r km becomes 1000·r m |
| SpacecraftModel.BodiesByName | flyby/spacecraft_model/spacecraft.py:27-29 | every body's name is a key, each key maps to a listed body of that name, and a name maps to the last body in the list with that name |
| SpacecraftModel.TotalGravity | flyby/spacecraft_model/spacecraft.py:112-116 | the sum the `get_rates` loop accumulates, in list order; a list of massless bodies sums to zero |
| SpacecraftModel.TotalGravityAppend | flyby/spacecraft_model/spacecraft.py:41-46 | the total acceleration over two lists one after the other is the sum of the two totals, so adding bodies adds their gravity |
| SpacecraftModel.TotalGravityIgnoresVelocity | flyby/spacecraft_model/spacecraft.py:112-116 | the velocity part of the state never affects the total acceleration |
| SpacecraftModel.Spacecraft.constructor | flyby/spacecraft_model/spacecraft.py:10-25 | the new spacecraft stores `u` and `jd_0` and has mass 1 and no interacting bodies |
| SpacecraftModel.Spacecraft.FromPlanet | flyby/spacecraft_model/spacecraft.py:82-95 | the new spacecraft's state is `u` offset by the planet's converted ephemeris state at `jd`; its epoch is `jd`, its mass 1 and it has no bodies |
| SpacecraftModel.Spacecraft.InteractingBodiesDict | flyby/spacecraft_model/spacecraft.py:27-29 | the property is the name index of the current body list |
| SpacecraftModel.Spacecraft.AddInteractingBodies | flyby/spacecraft_model/spacecraft.py:41-46 | the bodies are appended in order after the existing ones; state, epoch and mass are unchanged |
| SpacecraftModel.Spacecraft.GetRates | flyby/spacecraft_model/spacecraft.py:98-118 | the rates are the velocity and the sum of every body's gravity at `jd_0 + t/86400`: the mass multiply and divide cancel, and with no bodies the acceleration is zero; nothing is modified |
| RelationalTrees.RelationalTreeNode.constructor | flyby/solar_system_model/relational_tree.py:5-8 | the node copies the body's name, radius, mass, colour and ephemeris id, and has no parent and no children |
| RelationalTrees.RelationalTreeNode.AddChildBody | flyby/solar_system_model/relational_tree.py:10-13 | exactly one fresh node for the body is appended after the existing children, with the receiver as its parent; the subtree order lists it right after the receiver |
| RelationalTrees.RelationalTree.constructor | flyby/solar_system_model/relational_tree.py:17-18 | the tree is a single fresh root node for the body |
| RelationalTrees.RelationalTree.AddChildBody | flyby/solar_system_model/relational_tree.py:20-21 | the root keeps its earlier child nodes and gains one fresh leaf node for the body at the end of its list, with the root as parent; the tree stays a tree |
| RelationalTrees.RelationalTree.AllBodies | flyby/solar_system_model/relational_tree.py:23-32 | the result is the tree's depth-first order with siblings last-to-first, the root first, with no node twice, only tree nodes, and every child of a listed node also listed |
| RelationalTrees.OrderClosed | flyby/solar_system_model/relational_tree.py:23-32 | a subtree's visiting order starts at its root, stays within the subtree and contains every child of each node it lists |
| RelationalTrees.RelationalTree.SolarSystem | flyby/solar_system_model/relational_tree.py:34-45 | the root is the Sun, and its children are the eight planets from Mercury to Neptune, each a leaf with the Sun as parent; the visiting order is the Sun and then the children reversed |
| RelationalTrees.SolarSystemNames | flyby/solar_system_model/relational_tree.py:34-45 | the Sun followed by the reversed planets reads Sun, Neptune, Uranus, Saturn, Jupiter, Mars, Earth, Venus, Mercury |
| RelationalTrees.SolarSystemAllBodies | flyby/solar_system_model/relational_tree.py:23-45 | `all_bodies` of the solar-system preset names Sun, Neptune, Uranus, …, Mercury, each node once |

## Left out

- `Spacecraft.orbital_frame_rel_planet` (flyby/spacecraft_model/spacecraft.py:48-80): vector normalisation by norms of cross products, which is floating-point numerics with no discrete property to state.
- `Spacecraft.state_planet` (flyby/spacecraft_model/spacecraft.py:31-39): it reads `self.state_icrs`, which is never assigned, so the operation cannot succeed as written.
- `get_position`: gravity.py:21 calls it on the body, but the `CelestialBody` class defines no `get_position` or `get_velocity` and nothing in the repository adds them, so as written the call raises `AttributeError` for every body. The model takes the body's position as a parameter instead and does not model that failure.
- The ephemeris itself is not modelled, and its missing-key error is not modelled either.
  - Body positions, the JPL lookup and their download and file I/O are parameters of the model. jplephem, the C `jpleph` bindings and the cppyy wrappers are not part of this model.
  - A body without an ephemeris id cannot be looked up, but that lookup failure is not modelled.
- The `solve_ivp` simulation wrapper is not part of this model, because it calls a foreign integrator. Keplerian orbits and the ecliptic frame are not part of it either, because they are trigonometry and square roots over floats. Plotting, animation and `setup.py` are left out too.
- The `src/` relational tree is a stub with no operations, so there is nothing in it to model.
- IEEE floating point: every equality is proved over exact reals. Float rounding in the blend, the unit conversion or the microsecond division is not captured.
- `np.linalg.norm` is an abstract function. Only the law |v|² = v·v, with |v| ≥ 0, is assumed where a magnitude is needed.
- datetime64 values in units finer than a microsecond are not modelled. Neither is the 64-bit range of the microsecond count.
- LegacyJulianDay.JdToDatetimeAsWritten: the numpy error is modelled as `None`. How numpy reports it is not modelled.
- FastLinearInterpolator.Lerp: it requires at least one sample, as many samples as times, and a sorted time array. `np.searchsorted` is specified only for sorted input, and an empty array would be indexed out of range. Repeated times are allowed.
- RelationalTrees.RelationalTreeNode.AddChildBody: it keeps the receiver's own subtree bookkeeping (`Repr`, `Order`) valid, but not that of the receiver's ancestors. After adding a child to a node below the root, the root's ghost `Repr`/`Order` are stale, so the model cannot prove `RelationalTree.Valid()` again and cannot walk such a tree with `AllBodies`. Trees deeper than one level are therefore not modelled; the code itself only builds them through `RelationalTree.add_child_body`, which adds to the root.
- JulianDay.RoundTrip: it holds over exact reals only. A 64-bit float near JD 2.46e6 has a spacing of 2⁻³¹ day, about 40 µs, so the program's microsecond round trip is not exact for most present-day instants.
- SpacecraftModel.Spacecraft.GetRates: it requires a non-zero mass and a spacecraft away from every body's centre. The code would divide by zero otherwise.

## Findings

| source | as written | input that shows it | evidently intended | confidence | as-written member | corrected member |
|---|---|---|---|---|---|---|
| src/flyby/time_model/julian_day.py:11 | the float day count `jd - 2440587.5` is passed to `np.timedelta64(..., "D")`, whose constructor accepts only an integer count, so every call fails | jd = 2440587.5, the epoch | the epoch plus `jd - 2440587.5` whole days, as the newer version does after rounding its count | medium, not executed | LegacyJulianDay.EpochRejectedAsWritten | LegacyJulianDay.JdToDatetime |
