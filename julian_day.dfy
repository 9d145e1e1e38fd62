/** Julian-date conversions at microsecond resolution: an instant becomes
    its microsecond count divided by the length of a day, shifted so that the
    Unix epoch is JD 2440587.5; the inverse rounds to the nearest microsecond. */
module JulianDay {
  import opened Datetime64

  /** 1970-01-01T00:00:00Z is Julian date 2440587.5. */
  const UnixEpochJd: real := 2440587.5

  /** Python's round() on a float: the nearest integer, ties to the even one. */
  function Round(x: real): (n: int)
    ensures n as real - 0.5 <= x <= n as real + 0.5
    ensures x == n as real - 0.5 || x == n as real + 0.5 ==> n % 2 == 0
  {
    var f := x.Floor;
    var frac := x - f as real;
    if frac < 0.5 then f
    else if frac > 0.5 then f + 1
    else if f % 2 == 0 then f
    else f + 1
  }

  /** Rounding a whole number gives it back. */
  lemma RoundWhole(n: int)
    ensures Round(n as real) == n
  {
  }

  /** datetime64_to_jd: microseconds / (1e6 * 86400) + 2440587.5. The day
      count since the epoch, scaled back to microseconds, is the instant. */
  function DatetimeToJd(t: Microseconds): (jd: real)
    ensures (jd - UnixEpochJd) * (UsPerDay as real) == t as real
  {
    t as real / (UsPerSecond as real * 86400.0) + UnixEpochJd
  }

  /** jd_to_datetime64: round((jd - 2440587.5) * 86400 * 1e6) microseconds
      after the epoch, the instant nearest to `jd`. */
  function JdToDatetime(jd: real): (t: Microseconds)
    ensures t as real - 0.5 <= (jd - UnixEpochJd) * (UsPerDay as real) <= t as real + 0.5
  {
    Round((jd - UnixEpochJd) * 86400.0 * UsPerSecond as real)
  }

  /** Converting an instant to a Julian date and back gives the same instant. */
  lemma RoundTrip(t: Microseconds)
    ensures JdToDatetime(DatetimeToJd(t)) == t
  {
    var jd := DatetimeToJd(t);
    assert (jd - UnixEpochJd) * 86400.0 * UsPerSecond as real == t as real;
    RoundWhole(t);
  }

  /** The Unix epoch is JD 2440587.5, in both directions. */
  lemma Epoch()
    ensures DatetimeToJd(0) == UnixEpochJd
    ensures JdToDatetime(UnixEpochJd) == 0
  {
    RoundWhole(0);
  }

  /** Later instants have later Julian dates, and a whole day of
      microseconds is exactly one unit of Julian date. */
  lemma Monotone(a: Microseconds, b: Microseconds)
    ensures a < b ==> DatetimeToJd(a) < DatetimeToJd(b)
    ensures DatetimeToJd(a + UsPerDay) == DatetimeToJd(a) + 1.0
  {
  }

  /** 2015-02-08T00:00:00 (1423353600 s after the epoch, that is 16474 days)
      is JD 2457061.5, and that Julian date converts back to the same instant. */
  lemma ConversionExample()
    ensures FromSeconds(1423353600) == FromDays(16474)
    ensures DatetimeToJd(FromSeconds(1423353600)) == 2457061.5
    ensures JdToDatetime(2457061.5) == FromSeconds(1423353600)
  {
    RoundTrip(FromSeconds(1423353600));
  }
}
