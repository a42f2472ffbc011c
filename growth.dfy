/**
 * The growth model for children aged 0 to 5 years: age in months from a birthdate, a median
 * height curve interpolated between fixed checkpoints, the nearest clothing size on a fixed
 * ladder, and a 13-month forecast calibrated by a measured height.
 */
module Growth {
  import opened Wrappers
  import opened Calendar
  import opened Records

  // ---------------------------------------------------------------------------------------
  // Age in months
  // ---------------------------------------------------------------------------------------

  /** The average month, 1000 * 60 * 60 * 24 * 30.44 milliseconds. */
  const MS_PER_MONTH: real := 2630016000.0

  /**
   * Whole average months from `birthMs` to `nowMs`, floored and never negative:
   * a birthdate after the reference instant gives 0.
   */
  function MonthsSince(birthMs: int, nowMs: int): (months: nat)
    ensures birthMs > nowMs ==> months == 0
    ensures birthMs <= nowMs ==>
      months as real * MS_PER_MONTH <= (nowMs - birthMs) as real < (months + 1) as real * MS_PER_MONTH
  {
    var elapsed := ((nowMs - birthMs) as real / MS_PER_MONTH).Floor;
    if elapsed < 0 then 0 else elapsed
  }

  // ---------------------------------------------------------------------------------------
  // Median height curve
  // ---------------------------------------------------------------------------------------

  /** A point of the median growth curve: an age in months and a height in cm. */
  datatype Checkpoint = Checkpoint(months: real, cm: real)

  /** The median checkpoints, ascending in both age and height. */
  const PTS: seq<Checkpoint> := [
    Checkpoint(0.0, 50.0), Checkpoint(3.0, 61.0), Checkpoint(6.0, 67.0), Checkpoint(9.0, 72.0),
    Checkpoint(12.0, 76.0), Checkpoint(18.0, 82.0), Checkpoint(24.0, 88.0), Checkpoint(36.0, 96.0),
    Checkpoint(48.0, 103.0), Checkpoint(60.0, 110.0)
  ]

  const FIRST: Checkpoint := PTS[0]
  const LAST: Checkpoint := PTS[|PTS| - 1]

  /** Each checkpoint is strictly older and strictly taller than the one before it. */
  lemma CheckpointsIncrease(i: int, j: int)
    requires 0 <= i < j < |PTS|
    ensures PTS[i].months < PTS[j].months && PTS[i].cm < PTS[j].cm
  {
    var k := i;
    while k < j
      invariant i <= k <= j
      invariant PTS[i].months <= PTS[k].months && PTS[i].cm <= PTS[k].cm
      invariant k > i ==> PTS[i].months < PTS[k].months && PTS[i].cm < PTS[k].cm
    {
      assert PTS[k].months < PTS[k + 1].months && PTS[k].cm < PTS[k + 1].cm;
      k := k + 1;
    }
  }

  /** Segment `k` (between checkpoints k and k + 1) holds `m`, its left end excluded. */
  predicate Brackets(k: int, m: real) {
    0 <= k < |PTS| - 1 && PTS[k].months < m <= PTS[k + 1].months
  }

  /** Linear interpolation between two checkpoints. */
  function Lerp(a: Checkpoint, b: Checkpoint, m: real): real
    requires a.months < b.months
  {
    a.cm + (m - a.months) / (b.months - a.months) * (b.cm - a.cm)
  }

  /** Every age strictly between the first and last checkpoint lies in some segment. */
  lemma {:induction false} BracketExists(m: real)
    requires FIRST.months < m < LAST.months
    ensures exists k :: Brackets(k, m)
  {
    var k := 0;
    while PTS[k + 1].months < m
      invariant 0 <= k < |PTS| - 1
      invariant PTS[k].months < m
      decreases |PTS| - k
    {
      k := k + 1;
    }
    assert Brackets(k, m);
  }

  /** At most one segment holds a given age. */
  lemma BracketUnique(k: int, l: int, m: real)
    requires Brackets(k, m) && Brackets(l, m)
    ensures k == l
  {
    if k < l {
      CheckpointsIncrease(k + 1, l);
    } else if l < k {
      CheckpointsIncrease(l + 1, k);
    }
  }

  /**
   * `h` is the median height at age `m` months: the first checkpoint's height up to its age,
   * the last checkpoint's height from its age on, and in between the point on the straight line
   * through the two checkpoints whose segment holds `m`.
   */
  ghost predicate OnCurve(m: real, h: real) {
    && (m <= FIRST.months ==> h == FIRST.cm)
    && (m >= LAST.months ==> h == LAST.cm)
    && (forall k :: Brackets(k, m) ==> h == Lerp(PTS[k], PTS[k + 1], m))
  }

  /** Every age has a median height: the segments that could hold it all agree on it. */
  lemma CurveDefined(m: real)
    ensures exists h :: OnCurve(m, h)
  {
    forall k | Brackets(k, m)
      ensures FIRST.months < m < LAST.months || m == LAST.months
    {
      if 0 < k { CheckpointsIncrease(0, k); }
      if k + 1 < |PTS| - 1 { CheckpointsIncrease(k + 1, |PTS| - 1); }
    }
    if m <= FIRST.months {
      assert OnCurve(m, FIRST.cm);
    } else if m >= LAST.months {
      forall k | Brackets(k, m)
        ensures LAST.cm == Lerp(PTS[k], PTS[k + 1], m)
      {
        var d := PTS[k + 1].months - PTS[k].months;
        assert d / d == 1.0;
      }
      assert OnCurve(m, LAST.cm);
    } else {
      BracketExists(m);
      var k :| Brackets(k, m);
      forall l | Brackets(l, m)
        ensures l == k
      {
        BracketUnique(k, l, m);
      }
      assert OnCurve(m, Lerp(PTS[k], PTS[k + 1], m));
    }
  }

  /** The median height at age `m` months. */
  ghost function MedianHeight(m: real): (h: real)
    ensures OnCurve(m, h)
  {
    CurveDefined(m);
    var h :| OnCurve(m, h);
    h
  }

  /**
   * `heightAtMonths`: clamps below the first and above the last checkpoint, otherwise scans the
   * segments for the first one whose closed range holds `m` and interpolates on it. The
   * fallback height 104 after the scan is never reached.
   */
  method HeightAtMonths(m: real) returns (h: real)
    ensures h == MedianHeight(m)
  {
    if m <= FIRST.months {
      return FIRST.cm;
    }
    if m >= LAST.months {
      return LAST.cm;
    }
    for i := 0 to |PTS| - 1
      invariant PTS[i].months < m
    {
      var a, b := PTS[i], PTS[i + 1];
      if a.months <= m <= b.months {
        var t := (m - a.months) / (b.months - a.months);
        assert Brackets(i, m);
        return a.cm + t * (b.cm - a.cm);
      }
    }
    assert false;
    return 104.0;
  }

  /** A point of a segment's line lies between the heights of the segment's two ends. */
  lemma LerpBetween(a: Checkpoint, b: Checkpoint, m: real)
    requires a.months < b.months && a.cm <= b.cm
    requires a.months <= m <= b.months
    ensures a.cm <= Lerp(a, b, m) <= b.cm
  {
    var d := b.months - a.months;
    var t := (m - a.months) / d;
    QuotientMonotone(0.0, m - a.months, d);
    QuotientMonotone(m - a.months, d, d);
    assert d / d == 1.0;
    ProductMonotone(0.0, t, b.cm - a.cm);
    ProductMonotone(t, 1.0, b.cm - a.cm);
    assert Lerp(a, b, m) == a.cm + t * (b.cm - a.cm);
  }

  /** Dividing by a positive number keeps order. */
  lemma QuotientMonotone(x: real, y: real, d: real)
    requires x <= y && 0.0 < d
    ensures x / d <= y / d
  {
  }

  /** Multiplying by a non-negative number keeps order. */
  lemma ProductMonotone(t: real, u: real, len: real)
    requires t <= u && 0.0 <= len
    ensures t * len <= u * len
  {
  }

  /** A segment's line rises with the age. */
  lemma LerpMonotone(a: Checkpoint, b: Checkpoint, m1: real, m2: real)
    requires a.months < b.months && a.cm <= b.cm
    requires m1 <= m2
    ensures Lerp(a, b, m1) <= Lerp(a, b, m2)
  {
    var d := b.months - a.months;
    QuotientMonotone(m1 - a.months, m2 - a.months, d);
    ProductMonotone((m1 - a.months) / d, (m2 - a.months) / d, b.cm - a.cm);
  }

  /** Between two neighbouring checkpoints the height lies between theirs. */
  lemma MedianHeightBetweenCheckpoints(k: int, m: real)
    requires 0 <= k < |PTS| - 1
    requires PTS[k].months <= m <= PTS[k + 1].months
    ensures PTS[k].cm <= MedianHeight(m) <= PTS[k + 1].cm
  {
    CheckpointsIncrease(k, k + 1);
    if m == PTS[k].months {
      MedianHeightAtCheckpoint(k);
    } else {
      assert Brackets(k, m);
      LerpBetween(PTS[k], PTS[k + 1], m);
    }
  }

  /** At each checkpoint's age the median height is that checkpoint's height. */
  lemma MedianHeightAtCheckpoint(k: int)
    requires 0 <= k < |PTS|
    ensures MedianHeight(PTS[k].months) == PTS[k].cm
  {
    if 0 < k < |PTS| - 1 {
      CheckpointsIncrease(k - 1, k);
      assert Brackets(k - 1, PTS[k].months);
      var d := PTS[k].months - PTS[k - 1].months;
      assert d / d == 1.0;
    }
  }

  /** The median height never falls as the age grows. */
  lemma MedianHeightMonotone(m1: real, m2: real)
    requires m1 <= m2
    ensures MedianHeight(m1) <= MedianHeight(m2)
  {
    MedianHeightRange(m1);
    MedianHeightRange(m2);
    if FIRST.months < m1 < LAST.months && FIRST.months < m2 < LAST.months {
      BracketExists(m1);
      BracketExists(m2);
      var k1 :| Brackets(k1, m1);
      var k2 :| Brackets(k2, m2);
      if k1 == k2 {
        CheckpointsIncrease(k1, k1 + 1);
        LerpMonotone(PTS[k1], PTS[k1 + 1], m1, m2);
      } else {
        assert k1 < k2 by {
          if k2 < k1 { CheckpointsIncrease(k2 + 1, k1); }
        }
        MedianHeightBetweenCheckpoints(k1, m1);
        MedianHeightBetweenCheckpoints(k2, m2);
        if k1 + 1 < k2 { CheckpointsIncrease(k1 + 1, k2); }
      }
    }
  }

  /** The median height is 50 cm up to birth, 110 cm from 60 months on, and in [50, 110] always. */
  lemma MedianHeightRange(m: real)
    ensures FIRST.cm <= MedianHeight(m) <= LAST.cm
    ensures m <= 0.0 ==> MedianHeight(m) == 50.0
    ensures m >= 60.0 ==> MedianHeight(m) == 110.0
  {
    if FIRST.months < m < LAST.months {
      BracketExists(m);
      var k :| Brackets(k, m);
      MedianHeightBetweenCheckpoints(k, m);
      if 0 < k { CheckpointsIncrease(0, k); }
      if k + 1 < |PTS| - 1 { CheckpointsIncrease(k + 1, |PTS| - 1); }
    }
  }

  // ---------------------------------------------------------------------------------------
  // Size ladder
  // ---------------------------------------------------------------------------------------

  /** The clothing sizes, ascending in steps of 6 cm. */
  const STEPS: seq<int> := [50, 56, 62, 68, 74, 80, 86, 92, 98, 104, 110, 116, 122, 128, 134,
                            140, 146, 152, 158]

  /** The ladder starts at 50 and climbs in steps of 6. */
  lemma StepsEvenlySpaced()
    ensures |STEPS| == 19
    ensures forall k :: 0 <= k < |STEPS| ==> STEPS[k] == 50 + 6 * k
  {
  }

  /** `Math.abs(s - h)`. */
  function Dist(s: int, h: real): real {
    if s as real >= h then s as real - h else h - s as real
  }

  /**
   * `steps[k]` is a step closest to `h`, and every earlier step is strictly farther away: the
   * first of the nearest steps.
   */
  ghost predicate IsFirstNearest(steps: seq<int>, k: int, h: real) {
    && 0 <= k < |steps|
    && (forall j :: 0 <= j < |steps| ==> Dist(steps[k], h) <= Dist(steps[j], h))
    && (forall j :: 0 <= j < k ==> Dist(steps[k], h) < Dist(steps[j], h))
  }

  /** The first nearest step is unique. */
  lemma FirstNearestUnique(steps: seq<int>, k: int, l: int, h: real)
    requires IsFirstNearest(steps, k, h) && IsFirstNearest(steps, l, h)
    ensures k == l
  {
    assert Dist(steps[k], h) == Dist(steps[l], h);
  }

  /**
   * A reference definition of the nearest step: compare the first step with the nearest of
   * the rest, keeping the first step on a tie.
   */
  function Nearest(steps: seq<int>, h: real): int
    requires |steps| > 0
  {
    if |steps| == 1 then steps[0]
    else
      var rest := Nearest(steps[1..], h);
      if Dist(steps[0], h) <= Dist(rest, h) then steps[0] else rest
  }

  /** The reference definition picks the first nearest step. */
  lemma {:induction false} NearestIsFirstNearest(steps: seq<int>, h: real)
    requires |steps| > 0
    ensures exists k :: IsFirstNearest(steps, k, h) && steps[k] == Nearest(steps, h)
  {
    if |steps| == 1 {
      assert IsFirstNearest(steps, 0, h);
    } else {
      var tail := steps[1..];
      NearestIsFirstNearest(tail, h);
      var l :| IsFirstNearest(tail, l, h) && tail[l] == Nearest(tail, h);
      if Dist(steps[0], h) <= Dist(tail[l], h) {
        assert IsFirstNearest(steps, 0, h) by {
          forall j | 1 <= j < |steps|
            ensures Dist(steps[0], h) <= Dist(steps[j], h)
          {
            assert steps[j] == tail[j - 1];
          }
        }
        assert steps[0] == Nearest(steps, h);
      } else {
        assert IsFirstNearest(steps, l + 1, h) by {
          forall j | 1 <= j < |steps|
            ensures Dist(steps[l + 1], h) <= Dist(steps[j], h)
            ensures j < l + 1 ==> Dist(steps[l + 1], h) < Dist(steps[j], h)
          {
            assert steps[j] == tail[j - 1];
          }
        }
        assert steps[l + 1] == Nearest(steps, h);
      }
    }
  }

  /** The index of the first step nearest to `h`: the one `heightToSize` settles on. */
  ghost function FirstNearestIndex(h: real): (k: int)
    ensures IsFirstNearest(STEPS, k, h)
  {
    NearestIsFirstNearest(STEPS, h);
    var k :| IsFirstNearest(STEPS, k, h);
    k
  }

  /**
   * `heightToSize` as a value: no size for a zero (falsy) height, otherwise the step closest to
   * `h`, the smaller one on a tie.
   */
  ghost function NearestSize(h: real): Option<int> {
    if h == 0.0 then None else Some(STEPS[FirstNearestIndex(h)])
  }

  /** The size is the step picked by the reference definition, for every non-zero height. */
  lemma NearestSizeAgrees(h: real)
    ensures NearestSize(h).None? <==> h == 0.0
    ensures h != 0.0 ==> NearestSize(h) == Some(Nearest(STEPS, h))
  {
    if h != 0.0 {
      NearestIsFirstNearest(STEPS, h);
      var k :| IsFirstNearest(STEPS, k, h) && STEPS[k] == Nearest(STEPS, h);
      FirstNearestUnique(STEPS, k, FirstNearestIndex(h), h);
    }
  }

  /** A height of 88 cm lies 2 cm from size 86 and 4 cm from size 92: it maps to 86. */
  lemma NearestSizeOf88()
    ensures NearestSize(88.0) == Some(86)
  {
    var k := FirstNearestIndex(88.0);
    StepsEvenlySpaced();
    assert Dist(STEPS[k], 88.0) <= Dist(STEPS[6], 88.0) == 2.0;
  }

  /** A height halfway between two steps maps to the smaller one: 89 cm maps to 86, not 92. */
  lemma NearestSizeTieKeepsSmaller()
    ensures NearestSize(89.0) == Some(86)
  {
    var k := FirstNearestIndex(89.0);
    StepsEvenlySpaced();
    assert Dist(STEPS[k], 89.0) <= Dist(STEPS[6], 89.0) == 3.0;
    assert k <= 6 ==> Dist(STEPS[k], 89.0) <= Dist(STEPS[6], 89.0);
  }

  /**
   * `heightToSize`: starts from the smallest step and replaces the running best only by a
   * step strictly closer to `h`.
   */
  method HeightToSize(h: real) returns (size: Option<int>)
    ensures size == NearestSize(h)
  {
    if h == 0.0 {
      return None;
    }
    var best := STEPS[0];
    ghost var bestAt := 0;
    for i := 0 to |STEPS|
      invariant 0 <= bestAt < |STEPS| && best == STEPS[bestAt]
      invariant bestAt == 0 || bestAt < i
      invariant forall j :: 0 <= j < i ==> Dist(best, h) <= Dist(STEPS[j], h)
      invariant forall j :: 0 <= j < bestAt ==> Dist(best, h) < Dist(STEPS[j], h)
    {
      var s := STEPS[i];
      if Dist(s, h) < Dist(best, h) {
        best, bestAt := s, i;
      }
    }
    FirstNearestUnique(STEPS, FirstNearestIndex(h), bestAt, h);
    return Some(best);
  }

  // ---------------------------------------------------------------------------------------
  // Forecast
  // ---------------------------------------------------------------------------------------

  /** One month of the forecast: the month, the size for the unrounded height, the rounded height. */
  datatype ForecastPoint = ForecastPoint(date: MonthStart, size: Option<int>, height: int)

  /** The number of forecast points: offsets 0 through 12. */
  const HORIZON: nat := 13

  /** `Math.round`: the nearest integer, halves rounded up. */
  function Round(x: real): (n: int)
    ensures x - 0.5 < n as real <= x + 0.5
  {
    (x + 0.5).Floor
  }

  /**
   * The calibration offset: the measured height minus the median height `estNow` at the current
   * age when a positive number was measured, and 0 otherwise.
   */
  function Delta(currentHeight: Option<real>, estNow: real): (d: real)
    ensures currentHeight.Some? && currentHeight.value > 0.0 ==> estNow + d == currentHeight.value
    ensures currentHeight.None? || currentHeight.value <= 0.0 ==> d == 0.0
  {
    if currentHeight.Some? && currentHeight.value > 0.0 then currentHeight.value - estNow else 0.0
  }

  /** The forecast point `m` months on, for current age `nowM` and calibration offset `delta`. */
  ghost function PointAt(start: MonthStart, nowM: nat, delta: real, m: nat): ForecastPoint {
    var h := MedianHeight((nowM + m) as real) + delta;
    ForecastPoint(AddMonths(start, m), NearestSize(h), Round(h))
  }

  /** The unrounded, calibrated height forecast `m` months after the reference instant. */
  ghost function ForecastHeight(birthMs: int, currentHeight: Option<real>, now: Instant, m: nat): real {
    var nowM := MonthsSince(birthMs, now.ms);
    MedianHeight((nowM + m) as real) + Delta(currentHeight, MedianHeight(nowM as real))
  }

  /** The forecast: one point per offset 0 through 12. */
  ghost function Forecast(birthMs: int, currentHeight: Option<real>, now: Instant): seq<ForecastPoint> {
    var nowM := MonthsSince(birthMs, now.ms);
    var delta := Delta(currentHeight, MedianHeight(nowM as real));
    seq(HORIZON, m requires 0 <= m < HORIZON => PointAt(CurrentMonth(now), nowM, delta, m))
  }

  /** One turn of `predictionSeries`'s loop: the point `m` months after the month `start`. */
  method ForecastPointFor(start: MonthStart, nowM: nat, delta: real, m: nat) returns (point: ForecastPoint)
    ensures point == PointAt(start, nowM, delta, m)
  {
    var d := AddMonths(start, m);
    var median := HeightAtMonths((nowM + m) as real);
    var h := median + delta;
    var size := HeightToSize(h);
    point := ForecastPoint(d, size, Round(h));
  }

  /**
   * `predictionSeries`: computes the age and calibration offset once, then appends one point per
   * month offset 0 through 12.
   */
  method PredictionSeries(birthMs: int, currentHeight: Option<real>, now: Instant)
    returns (data: seq<ForecastPoint>)
    ensures data == Forecast(birthMs, currentHeight, now)
  {
    var nowM := MonthsSince(birthMs, now.ms);
    var estNow := HeightAtMonths(nowM as real);
    var delta := Delta(currentHeight, estNow);
    ghost var forecast := Forecast(birthMs, currentHeight, now);
    assert forall j :: 0 <= j < HORIZON ==> forecast[j] == PointAt(CurrentMonth(now), nowM, delta, j);
    data := [];
    for m := 0 to HORIZON
      invariant data == forecast[..m]
    {
      var point := ForecastPointFor(CurrentMonth(now), nowM, delta, m);
      data := data + [point];
    }
    assert data == forecast;
  }


  /**
   * The forecast has 13 points, dated the first days of consecutive calendar months starting
   * with the current month: point `m` falls in the month after point `m - 1`.
   */
  lemma ForecastMonths(birthMs: int, currentHeight: Option<real>, now: Instant, m: nat)
    requires 0 < m < HORIZON
    ensures |Forecast(birthMs, currentHeight, now)| == 13
    ensures Forecast(birthMs, currentHeight, now)[0].date == CurrentMonth(now)
    ensures Forecast(birthMs, currentHeight, now)[m].date == Next(Forecast(birthMs, currentHeight, now)[m - 1].date)
  {
    AddMonthsStep(CurrentMonth(now), m - 1);
  }

  /** Point `m` of the forecast carries the size of the unrounded height and the rounded height. */
  lemma ForecastPointHeight(birthMs: int, currentHeight: Option<real>, now: Instant, m: nat)
    requires m < HORIZON
    ensures Forecast(birthMs, currentHeight, now)[m].size == NearestSize(ForecastHeight(birthMs, currentHeight, now, m))
    ensures Forecast(birthMs, currentHeight, now)[m].height == Round(ForecastHeight(birthMs, currentHeight, now, m))
  {
  }

  /**
   * Without a positive measured height the forecast follows the median curve, so every
   * forecast height is at least 50 cm and every point has a size.
   */
  lemma ForecastUncalibrated(birthMs: int, currentHeight: Option<real>, now: Instant, m: nat)
    requires currentHeight.None? || currentHeight.value <= 0.0
    requires m < HORIZON
    ensures ForecastHeight(birthMs, currentHeight, now, m) == MedianHeight((MonthsSince(birthMs, now.ms) + m) as real)
    ensures ForecastHeight(birthMs, currentHeight, now, m) >= 50.0
    ensures Forecast(birthMs, currentHeight, now)[m].size.Some?
  {
    MedianHeightRange((MonthsSince(birthMs, now.ms) + m) as real);
    ForecastPointHeight(birthMs, currentHeight, now, m);
  }

  /**
   * With a positive measured height `c` the unrounded curve passes through `c` at offset 0,
   * and every point is the median curve shifted by the same offset.
   */
  lemma ForecastCalibratedStart(birthMs: int, c: real, now: Instant, m: nat)
    requires c > 0.0
    ensures ForecastHeight(birthMs, Some(c), now, 0) == c
    ensures Forecast(birthMs, Some(c), now)[0].height == Round(c)
    ensures ForecastHeight(birthMs, Some(c), now, m) - ForecastHeight(birthMs, Some(c), now, 0)
         == MedianHeight((MonthsSince(birthMs, now.ms) + m) as real) - MedianHeight(MonthsSince(birthMs, now.ms) as real)
  {
    ForecastPointHeight(birthMs, Some(c), now, 0);
  }

  /**
   * With a positive measured height `c` every forecast height stays between `c` and 60 cm above
   * it (so it is positive) and every point has a size.
   */
  lemma ForecastCalibratedBounds(birthMs: int, c: real, now: Instant, m: nat)
    requires c > 0.0
    requires m < HORIZON
    ensures c <= ForecastHeight(birthMs, Some(c), now, m) <= c + 60.0
    ensures Forecast(birthMs, Some(c), now)[m].size.Some?
  {
    var age := MonthsSince(birthMs, now.ms);
    MedianHeightMonotone(age as real, (age + m) as real);
    MedianHeightRange(age as real);
    MedianHeightRange((age + m) as real);
    ForecastPointHeight(birthMs, Some(c), now, m);
  }

  /** Forecast heights never fall from one point to a later one. */
  lemma ForecastHeightsRise(birthMs: int, currentHeight: Option<real>, now: Instant, m: nat, n: nat)
    requires m <= n
    ensures ForecastHeight(birthMs, currentHeight, now, m) <= ForecastHeight(birthMs, currentHeight, now, n)
  {
    var age := MonthsSince(birthMs, now.ms);
    MedianHeightMonotone((age + m) as real, (age + n) as real);
  }

  /** Displayed (rounded) heights never fall from one point of the forecast to a later one. */
  lemma ForecastDisplayedHeightsRise(birthMs: int, currentHeight: Option<real>, now: Instant, m: nat, n: nat)
    requires m <= n < HORIZON
    ensures Forecast(birthMs, currentHeight, now)[m].height <= Forecast(birthMs, currentHeight, now)[n].height
  {
    ForecastHeightsRise(birthMs, currentHeight, now, m, n);
    ForecastPointHeight(birthMs, currentHeight, now, m);
    ForecastPointHeight(birthMs, currentHeight, now, n);
    RoundMonotone(ForecastHeight(birthMs, currentHeight, now, m), ForecastHeight(birthMs, currentHeight, now, n));
  }

  /**
   * For a stored child (a measured height, if any, between 40 and 200 cm) every forecast
   * height is at least 40 cm and every point of the forecast has a size.
   */
  lemma StoredKidForecast(kid: Kid, now: Instant, m: nat)
    requires StoredKid(kid)
    requires m < HORIZON
    ensures ForecastHeight(kid.birthMs, kid.height, now, m) >= MIN_HEIGHT_CM
    ensures Forecast(kid.birthMs, kid.height, now)[m].size.Some?
  {
    if kid.height.Some? {
      ForecastCalibratedBounds(kid.birthMs, kid.height.value, now, m);
    } else {
      ForecastUncalibrated(kid.birthMs, kid.height, now, m);
    }
  }

  /** Rounding keeps order. */
  lemma RoundMonotone(x: real, y: real)
    requires x <= y
    ensures Round(x) <= Round(y)
  {
  }
}
