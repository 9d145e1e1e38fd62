/** The clamped linear interpolator lerp_numba and its FastLerp wrapper: a left-sided
    sorted search for the sample interval, clamping outside the sampled
    range and a linear blend of the two neighbouring samples inside it. */
module FastLinearInterpolator {
  import opened Vectors

  predicate Sorted(jd: seq<real>) {
    forall i, j :: 0 <= i < j < |jd| ==> jd[i] <= jd[j]
  }

  /** np.searchsorted(jd, t) (side "left"): the least index whose time is at
      least `t`, or |jd| when every time is smaller. */
  function SearchSorted(jd: seq<real>, t: real): (i: nat)
    ensures i <= |jd|
    ensures forall k :: 0 <= k < i ==> jd[k] < t
    ensures i < |jd| ==> t <= jd[i]
    decreases |jd|
  {
    if |jd| == 0 || t <= jd[0] then 0 else 1 + SearchSorted(jd[1..], t)
  }

  /** The two properties in SearchSorted's contract pin the index down. */
  lemma SearchSortedUnique(jd: seq<real>, t: real, i: nat)
    requires i <= |jd|
    requires forall k :: 0 <= k < i ==> jd[k] < t
    requires i < |jd| ==> t <= jd[i]
    ensures i == SearchSorted(jd, t)
  {
  }

  /** The binary search np.searchsorted performs on a sorted time array. */
  method BinarySearchLeft(jd: seq<real>, t: real) returns (i: nat)
    requires Sorted(jd)
    ensures i == SearchSorted(jd, t)
  {
    var lo, hi := 0, |jd|;
    while lo < hi
      invariant 0 <= lo <= hi <= |jd|
      invariant forall k :: 0 <= k < lo ==> jd[k] < t
      invariant forall k :: hi <= k < |jd| ==> t <= jd[k]
    {
      var mid := (lo + hi) / 2;
      if jd[mid] < t {
        lo := mid + 1;
      } else {
        hi := mid;
      }
    }
    i := lo;
    SearchSortedUnique(jd, t, i);
  }

  /** lerp_numba(arr, jd, t): `arr[k]` is the sample taken at time `jd[k]`.
      np.searchsorted is specified for a sorted time array only, which is
      what is required; repeated times are allowed, since the search always
      brackets `t` by two distinct times. At or before the first time the
      first sample is returned, after the last time the last sample, and in
      between the result lies, component by component, between the two
      samples whose times bracket `t`. */
  function Lerp(arr: seq<Vec3>, jd: seq<real>, t: real): (r: Vec3)
    requires 1 <= |jd| == |arr|
    requires Sorted(jd)
    ensures t <= jd[0] ==> r == arr[0]
    ensures jd[|jd| - 1] < t ==> r == arr[|arr| - 1]
    ensures var i := SearchSorted(jd, t);
      0 < i < |jd| ==> jd[i - 1] < t <= jd[i] && Between(arr[i - 1], r, arr[i])
  {
    var i := SearchSorted(jd, t);
    if i == 0 then arr[0]
    else if i == |jd| then arr[|arr| - 1]
    else
      var w := (t - jd[i - 1]) / (jd[i] - jd[i - 1]);
      QuotientInUnit(t - jd[i - 1], jd[i] - jd[i - 1]);
      BlendBetween(arr[i - 1], arr[i], w);
      Add(arr[i - 1], Scale(w, Sub(arr[i], arr[i - 1])))
  }

  /** Inside the sampled range the search lands on the interval holding `t`
      (jd[i-1] < t <= jd[i]) and the result is a convex blend of the two
      samples that bound it, so each component lies between them. */
  lemma LerpBlend(arr: seq<Vec3>, jd: seq<real>, t: real) returns (i: nat, w: real)
    requires 1 <= |jd| == |arr|
    requires Sorted(jd)
    requires jd[0] < t <= jd[|jd| - 1]
    ensures i == SearchSorted(jd, t) && 0 < i < |jd|
    ensures jd[i - 1] < t <= jd[i]
    ensures 0.0 < w <= 1.0 && w == (t - jd[i - 1]) / (jd[i] - jd[i - 1])
    ensures Lerp(arr, jd, t) == Add(Scale(1.0 - w, arr[i - 1]), Scale(w, arr[i]))
    ensures Between(arr[i - 1], Lerp(arr, jd, t), arr[i])
  {
    i := SearchSorted(jd, t);
    assert i != 0;
    var den := jd[i] - jd[i - 1];
    w := (t - jd[i - 1]) / den;
    QuotientInUnit(t - jd[i - 1], den);
    BlendForm(arr[i - 1], arr[i], w);
    BlendBetween(arr[i - 1], arr[i], w);
  }

  /** a + w (b - a) equals (1 - w) a + w b. */
  lemma BlendForm(a: Vec3, b: Vec3, w: real)
    ensures Add(a, Scale(w, Sub(b, a))) == Add(Scale(1.0 - w, a), Scale(w, b))
  {
    ScaleSub(w, b, a);
    SubScales(1.0, w, a);
    ScaleOne(a);
    var wa, wb := Scale(w, a), Scale(w, b);
    assert Add(a, Sub(wb, wa)) == Add(Sub(a, wa), wb);
  }

  /** For 0 <= w <= 1, a + w (b - a) lies between a and b. */
  lemma BlendBetween(a: Vec3, b: Vec3, w: real)
    requires 0.0 <= w <= 1.0
    ensures Between(a, Add(a, Scale(w, Sub(b, a))), b)
  {
    BlendBetweenReal(a.x, b.x, w);
    BlendBetweenReal(a.y, b.y, w);
    BlendBetweenReal(a.z, b.z, w);
  }

  lemma BlendBetweenReal(a: real, b: real, w: real)
    requires 0.0 <= w <= 1.0
    ensures BetweenReal(a, a + w * (b - a), b)
  {
    var d := b - a;
    if a <= b {
      MulNonneg(w, d);
      MulNonneg(1.0 - w, d);
      assert (1.0 - w) * d == d - w * d;
    } else {
      MulNonneg(w, -d);
      MulNonneg(1.0 - w, -d);
      assert (1.0 - w) * -d == -d + w * d;
      assert w * -d == -(w * d);
    }
  }

  lemma MulNonneg(a: real, b: real)
    requires 0.0 <= a && 0.0 <= b
    ensures 0.0 <= a * b
  {
  }

  /** For 0 < n <= d the quotient n / d lies in (0, 1]. */
  lemma QuotientInUnit(n: real, d: real)
    requires 0.0 < n <= d
    ensures 0.0 < n / d <= 1.0
  {
    var q := n / d;
    assert q * d == n;
    assert q <= 0.0 ==> -q * d >= 0.0 by {
      assert q <= 0.0 ==> -q * d == -(q * d);
      if -q >= 0.0 { MulNonneg(-q, d); }
    }
    assert q > 1.0 ==> q * d > d by {
      assert (q - 1.0) * d == q * d - d;
      if q - 1.0 > 0.0 { MulPositive(q - 1.0, d); }
    }
  }

  lemma DivSelf(d: real)
    requires d != 0.0
    ensures d / d == 1.0
  {
  }

  /** Evaluating at a sample time reproduces that sample exactly, through
      the blend with weight 1 for every sample but the first. When a time is
      repeated, its first sample is the one reproduced. */
  lemma LerpAtSample(arr: seq<Vec3>, jd: seq<real>, k: nat)
    requires 1 <= |jd| == |arr|
    requires Sorted(jd)
    requires k < |jd| && (k == 0 || jd[k - 1] < jd[k])
    ensures Lerp(arr, jd, jd[k]) == arr[k]
  {
    SearchSortedUnique(jd, jd[k], k);
    if k > 0 {
      var d := jd[k] - jd[k - 1];
      var w := d / d;
      DivSelf(d);
      var a, b := arr[k - 1], arr[k];
      assert Add(a, Scale(w, Sub(b, a))) == b;
    }
  }

  /** Times 0, 1, 1, 2 with samples p, q, r, s: at the repeated time the
      first of its samples is returned, and just after it the blend runs
      from the second one, so the result jumps from q to r at t = 1. */
  lemma RepeatedTime(p: Vec3, q: Vec3, r: Vec3, s: Vec3)
    ensures Lerp([p, q, r, s], [0.0, 1.0, 1.0, 2.0], 1.0) == q
    ensures Lerp([p, q, r, s], [0.0, 1.0, 1.0, 2.0], 1.5) == Add(r, Scale(0.5, Sub(s, r)))
  {
    var jd, arr := [0.0, 1.0, 1.0, 2.0], [p, q, r, s];
    LerpAtSample(arr, jd, 1);
    SearchSortedUnique(jd, 1.5, 3);
    assert (1.5 - jd[2]) / (jd[3] - jd[2]) == 0.5;
    assert Lerp(arr, jd, 1.5) == Add(arr[2], Scale(0.5, Sub(arr[3], arr[2])));
  }

  /** Samples that are affine in time (arr[k] = a + jd[k] b) are reproduced
      exactly everywhere in the sampled range. */
  lemma LerpAffine(arr: seq<Vec3>, jd: seq<real>, a: Vec3, b: Vec3, t: real)
    requires 1 <= |jd| == |arr|
    requires Sorted(jd)
    requires forall k :: 0 <= k < |arr| ==> arr[k] == Add(a, Scale(jd[k], b))
    requires jd[0] <= t <= jd[|jd| - 1]
    ensures Lerp(arr, jd, t) == Add(a, Scale(t, b))
  {
    if t != jd[0] {
      var i, w := LerpBlend(arr, jd, t);
      var t0, t1 := jd[i - 1], jd[i];
      assert arr[i - 1] == Add(a, Scale(t0, b)) && arr[i] == Add(a, Scale(t1, b));
      assert Lerp(arr, jd, t) == Add(arr[i - 1], Scale(w, Sub(arr[i], arr[i - 1])));
      AffineStep(a, b, t0, t1, t, w);
    }
  }

  /** One interpolation step between two samples of a + s b lands on a + t b. */
  lemma AffineStep(a: Vec3, b: Vec3, t0: real, t1: real, t: real, w: real)
    requires t0 != t1 && w == (t - t0) / (t1 - t0)
    ensures Add(Add(a, Scale(t0, b)), Scale(w, Sub(Add(a, Scale(t1, b)), Add(a, Scale(t0, b)))))
         == Add(a, Scale(t, b))
  {
    SubAffine(a, t1, t0, b);
    ScaleScale(w, t1 - t0, b);
    QuotientTimesDivisor(t - t0, t1 - t0);
    AddAssoc(a, Scale(t0, b), Scale(t - t0, b));
    AddScales(t0, t - t0, b);
  }

  /** FastLerp: the time array and the samples, transposed once at
      construction from the 3-by-n layout the ephemeris produces. The value
      is immutable, so evaluating it changes neither stored array. */
  datatype FastLerp = FastLerp(arr: seq<Vec3>, jd: seq<real>) {

    /** FastLerp.__call__: lerp_numba over the stored, transposed samples,
        clamped to the first and last stored sample outside the range. */
    function Call(t: real): (r: Vec3)
      requires 1 <= |jd| == |arr|
      requires Sorted(jd)
      ensures t <= jd[0] ==> r == arr[0]
      ensures jd[|jd| - 1] < t ==> r == arr[|arr| - 1]
    {
      Lerp(arr, jd, t)
    }
  }

  /** Three component rows of equal length, the (3, n) layout of `arr` before `.T`. */
  predicate IsThreeByN(rows: seq<seq<real>>) {
    |rows| == 3 && |rows[0]| == |rows[1]| == |rows[2]|
  }

  /** arr.T for a 3-by-n array: column k becomes sample k. */
  function Transpose(rows: seq<seq<real>>): (s: seq<Vec3>)
    requires IsThreeByN(rows)
    ensures |s| == |rows[0]|
    ensures forall k :: 0 <= k < |s| ==> s[k].x == rows[0][k] && s[k].y == rows[1][k] && s[k].z == rows[2][k]
  {
    seq(|rows[0]|, k requires 0 <= k < |rows[0]| => Vec3(rows[0][k], rows[1][k], rows[2][k]))
  }

  /** The 3-by-n layout of a sequence of samples: the inverse of Transpose. */
  function Components(s: seq<Vec3>): (rows: seq<seq<real>>)
    ensures IsThreeByN(rows) && |rows[0]| == |s|
  {
    [seq(|s|, k requires 0 <= k < |s| => s[k].x),
     seq(|s|, k requires 0 <= k < |s| => s[k].y),
     seq(|s|, k requires 0 <= k < |s| => s[k].z)]
  }

  lemma TransposeRoundTrip(rows: seq<seq<real>>)
    requires IsThreeByN(rows)
    ensures Components(Transpose(rows)) == rows
  {
    var c := Components(Transpose(rows));
    assert c[0] == rows[0] && c[1] == rows[1] && c[2] == rows[2];
  }

  /** FastLerp.__init__(jd, arr): stores arr.T and jd. */
  function NewFastLerp(jd: seq<real>, rows: seq<seq<real>>): (f: FastLerp)
    requires IsThreeByN(rows)
    ensures f.jd == jd && Components(f.arr) == rows
  {
    TransposeRoundTrip(rows);
    FastLerp(Transpose(rows), jd)
  }

  /** A FastLerp built from `jd` and a 3-by-n array evaluates, at the k-th
      sample time, to exactly column k of that array (the first column of a
      repeated time). */
  lemma FastLerpAtSample(jd: seq<real>, rows: seq<seq<real>>, k: nat)
    requires IsThreeByN(rows) && 1 <= |jd| == |rows[0]|
    requires Sorted(jd)
    requires k < |jd| && (k == 0 || jd[k - 1] < jd[k])
    ensures NewFastLerp(jd, rows).Call(jd[k]) == Vec3(rows[0][k], rows[1][k], rows[2][k])
  {
    var f := NewFastLerp(jd, rows);
    LerpAtSample(f.arr, jd, k);
  }

  /** Outside the sampled range a FastLerp clamps to the first or last column. */
  lemma FastLerpClamps(jd: seq<real>, rows: seq<seq<real>>, t: real)
    requires IsThreeByN(rows) && 1 <= |jd| == |rows[0]|
    requires Sorted(jd)
    ensures t <= jd[0] ==> NewFastLerp(jd, rows).Call(t) == Vec3(rows[0][0], rows[1][0], rows[2][0])
    ensures jd[|jd| - 1] < t ==>
      var n := |jd| - 1;
      NewFastLerp(jd, rows).Call(t) == Vec3(rows[0][n], rows[1][n], rows[2][n])
  {
    var f := NewFastLerp(jd, rows);
    assert f.arr[0] == Vec3(rows[0][0], rows[1][0], rows[2][0]);
  }
}
