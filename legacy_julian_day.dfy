/** The older, day-resolution Julian-date conversions of the `src/` tree:
    an instant is first truncated to its calendar day, so every Julian date
    it produces ends in .5 (midnight), and the inverse adds whole days to the
    epoch. */
module LegacyJulianDay {
  import opened Vectors
  import opened Datetime64
  import JulianDay

  const UnixEpochJd: real := 2440587.5

  /** datetime64_to_jd: astype("datetime64[D]") + 2440587.5. The result is
      the midnight Julian date of the day holding `t`: a whole number of
      days d after the epoch such that `t` falls within day d. */
  function DatetimeToJd(t: Microseconds): (jd: real)
    ensures var d := (jd - UnixEpochJd).Floor;
      jd == d as real + UnixEpochJd && FromDays(d) <= t < FromDays(d + 1)
  {
    FloorToDays(t) as real + UnixEpochJd
  }

  /** jd_to_datetime64 as written: the day count jd - 2440587.5 is a float,
      and numpy's timedelta64 constructor accepts only an integer count, so
      every call fails (`None`), whole day counts included. */
  function JdToDatetimeAsWritten(jd: real): (r: Option<Microseconds>)
    ensures r.None?
  {
    None
  }

  /** jd_to_datetime64 as intended: the epoch plus jd - 2440587.5 days.
      Defined for a whole number of days; a fractional day count has no
      day-resolution instant and fails (`None`). */
  function JdToDatetime(jd: real): (r: Option<Microseconds>)
    ensures r.Some? <==> jd - UnixEpochJd == (jd - UnixEpochJd).Floor as real
    ensures r.Some? ==> r.value == FromDays((jd - UnixEpochJd).Floor)
  {
    var days := jd - UnixEpochJd;
    if days == days.Floor as real then Some(FromDays(days.Floor)) else None
  }

  /** The Julian date of an instant always ends in .5. */
  lemma EndsInHalf(t: Microseconds)
    ensures var jd := DatetimeToJd(t); jd - 0.5 == (jd - 0.5).Floor as real
  {
    var d := FloorToDays(t);
    assert DatetimeToJd(t) - 0.5 == (d + 2440587) as real;
  }

  /** Instants on the same calendar day get the same Julian date: the time
      of day is discarded. */
  lemma SameDay(a: Microseconds, b: Microseconds, d: int)
    requires FromDays(d) <= a < FromDays(d + 1)
    requires FromDays(d) <= b < FromDays(d + 1)
    ensures DatetimeToJd(a) == DatetimeToJd(b) == d as real + UnixEpochJd
  {
    FloorToDaysUnique(a, d);
    FloorToDaysUnique(b, d);
  }

  /** At the epoch itself the function as written fails, where the intended
      conversion gives the epoch. */
  lemma EpochRejectedAsWritten()
    ensures JdToDatetimeAsWritten(UnixEpochJd) == None
    ensures JdToDatetime(UnixEpochJd) == Some(0)
  {
  }

  /** The conversion never decreases. */
  lemma {:induction false} NonDecreasing(a: Microseconds, b: Microseconds)
    requires a <= b
    ensures DatetimeToJd(a) <= DatetimeToJd(b)
  {
    var da, db := FloorToDays(a), FloorToDays(b);
    assert FromDays(da) < FromDays(db + 1);
    assert da < db + 1;
  }

  /** At midnight the day-resolution conversion agrees with the microsecond one. */
  lemma AgreesAtMidnight(d: int)
    ensures DatetimeToJd(FromDays(d)) == JulianDay.DatetimeToJd(FromDays(d))
  {
    FloorToDaysUnique(FromDays(d), d);
  }

  /** Midnight of 2015-02-08 is JD 2457061.5 here too. */
  lemma ConversionExample()
    ensures DatetimeToJd(FromSeconds(1423353600)) == 2457061.5
  {
    FloorToDaysUnique(FromSeconds(1423353600), 16474);
  }

  /** JD 2440587.5 is the epoch, and a whole-day Julian date is that many
      days after it. */
  lemma WholeDays(k: int)
    ensures JdToDatetime(UnixEpochJd) == Some(0)
    ensures JdToDatetime(UnixEpochJd + k as real) == Some(FromDays(k))
  {
  }

  /** Converting an instant and back gives midnight of its day; for an
      instant at day resolution that is the instant itself. */
  lemma RoundTrip(t: Microseconds)
    ensures JdToDatetime(DatetimeToJd(t)) == Some(FromDays(FloorToDays(t)))
    ensures t == FromDays(FloorToDays(t)) ==> JdToDatetime(DatetimeToJd(t)) == Some(t)
  {
    WholeDays(FloorToDays(t));
  }
}
