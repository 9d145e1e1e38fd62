/** numpy datetime64 instants, represented by their count of microseconds
    since 1970-01-01T00:00:00 (the `datetime64[us]` value). Instants given in
    coarser units (days, seconds) convert to this count exactly. */
module Datetime64 {

  type Microseconds = int

  const UsPerSecond: int := 1000000
  const UsPerDay: int := 86400 * UsPerSecond

  /** A `datetime64[s]` value as microseconds. */
  function FromSeconds(s: int): Microseconds {
    s * UsPerSecond
  }

  /** A `datetime64[D]` value as microseconds: midnight of day `d`. */
  function FromDays(d: int): Microseconds {
    d * UsPerDay
  }

  /** astype("datetime64[D]"): the day holding the instant; numpy rounds
      towards the past, so instants before 1970 fall on the earlier day. */
  function FloorToDays(t: Microseconds): (d: int)
    ensures FromDays(d) <= t < FromDays(d + 1)
  {
    t / UsPerDay
  }

  /** The day of an instant is determined by the bounds in FloorToDays's contract. */
  lemma FloorToDaysUnique(t: Microseconds, d: int)
    requires FromDays(d) <= t < FromDays(d + 1)
    ensures FloorToDays(t) == d
  {
  }
}
