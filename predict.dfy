/**
 * The naive size predictor: starting from the current size, the size goes up by one every
 * 8 months while the child is under 3 years old and every 12 months afterwards, over the
 * 13 month starts from the current month on.
 */
module Predict {
  import opened Wrappers
  import opened Calendar

  /** The average year, 365.25 * 24 * 60 * 60 * 1000 milliseconds. */
  const MS_PER_YEAR: real := 31557600000.0

  /** The number of predicted points: offsets 0 through 12. */
  const HORIZON: nat := 13

  /** The size assumed when the current size does not parse or parses to 0. */
  const FALLBACK_SIZE: int := 100

  /**
   * `parseInt(String(currentSize), 10) || 100`, where `parsed` is what `parseInt` gives:
   * `None` for `NaN`. A parsed 0 is falsy too and falls back.
   */
  function StartSize(parsed: Option<int>): (size: int)
    ensures parsed.None? || parsed.value == 0 ==> size == FALLBACK_SIZE
    ensures parsed.Some? && parsed.value != 0 ==> size == parsed.value
    ensures size != 0
  {
    match parsed
    case Some(v) => if v != 0 then v else FALLBACK_SIZE
    case None => FALLBACK_SIZE
  }

  /** One predicted point: the month and the size. */
  datatype SizePoint = SizePoint(date: MonthStart, size: int)

  /**
   * The child's age in (average) years at the first of month `d`; `localMs` gives the epoch
   * milliseconds of a month's first midnight in the local time zone.
   */
  function AgeYears(birthMs: int, localMs: MonthStart -> int, d: MonthStart): real {
    (localMs(d) - birthMs) as real / MS_PER_YEAR
  }

  /** The child is under 3 years old at the point `m` months after the current month. */
  predicate Under3At(birthMs: int, now: Instant, localMs: MonthStart -> int, m: nat) {
    AgeYears(birthMs, localMs, AddMonths(CurrentMonth(now), m)) < 3.0
  }

  /** The bump period at point `m`: 8 months under 3 years, 12 months from then on. */
  function BumpEvery(birthMs: int, now: Instant, localMs: MonthStart -> int, m: nat): (period: nat)
    ensures period == 8 || period == 12
    ensures period == 8 <==> Under3At(birthMs, now, localMs, m)
  {
    if Under3At(birthMs, now, localMs, m) then 8 else 12
  }

  /** The size goes up at point `m`: never at offset 0, else when the period divides `m`. */
  predicate BumpAt(birthMs: int, now: Instant, localMs: MonthStart -> int, m: nat) {
    m != 0 && m % BumpEvery(birthMs, now, localMs, m) == 0
  }

  /** The number of bumps at offsets 1 through `m`. */
  function BumpsThrough(birthMs: int, now: Instant, localMs: MonthStart -> int, m: nat): nat {
    if m == 0 then 0
    else BumpsThrough(birthMs, now, localMs, m - 1) + (if BumpAt(birthMs, now, localMs, m) then 1 else 0)
  }

  /** The predicted point `m` months after the current month. */
  function SizePointAt(currentSize: Option<int>, birthMs: int, now: Instant, localMs: MonthStart -> int, m: nat): SizePoint {
    SizePoint(AddMonths(CurrentMonth(now), m), StartSize(currentSize) + BumpsThrough(birthMs, now, localMs, m))
  }

  /** The predicted sizes: one point per offset 0 through 12. */
  function SizeForecast(currentSize: Option<int>, birthMs: int, now: Instant, localMs: MonthStart -> int): seq<SizePoint> {
    seq(HORIZON, m requires 0 <= m < HORIZON => SizePointAt(currentSize, birthMs, now, localMs, m))
  }

  /**
   * `predictSizes`: one counter `size`, bumped before each point is appended when the offset
   * is non-zero and divisible by the period for that point's age.
   */
  method PredictSizes(currentSize: Option<int>, birthMs: int, now: Instant, localMs: MonthStart -> int)
    returns (points: seq<SizePoint>)
    ensures points == SizeForecast(currentSize, birthMs, now, localMs)
  {
    var start := CurrentMonth(now);
    var size := StartSize(currentSize);
    points := [];
    for m := 0 to HORIZON
      invariant |points| == m
      invariant size == StartSize(currentSize) + BumpsThrough(birthMs, now, localMs, if m == 0 then 0 else m - 1)
      invariant forall j :: 0 <= j < m ==> points[j] == SizePointAt(currentSize, birthMs, now, localMs, j)
    {
      var date := AddMonths(start, m);
      var ageYears := (localMs(date) - birthMs) as real / MS_PER_YEAR;
      var bumpEvery := if ageYears < 3.0 then 8 else 12;
      if m != 0 && m % bumpEvery == 0 {
        size := size + 1;
      }
      points := points + [SizePoint(date, size)];
    }
  }

  /**
   * The first point carries the starting size unchanged, and each later point's size is the
   * previous one's, plus one exactly when the period for its age divides its offset.
   */
  lemma SizeSteps(currentSize: Option<int>, birthMs: int, now: Instant, localMs: MonthStart -> int, m: nat)
    requires 0 < m < HORIZON
    ensures SizeForecast(currentSize, birthMs, now, localMs)[0].size == StartSize(currentSize)
    ensures SizeForecast(currentSize, birthMs, now, localMs)[m].size
         == SizeForecast(currentSize, birthMs, now, localMs)[m - 1].size
            + (if m % BumpEvery(birthMs, now, localMs, m) == 0 then 1 else 0)
  {
  }

  /** Within offsets 1 through 12 a bump can fall only at offset 8 or 12. */
  lemma BumpOnlyAt8Or12(birthMs: int, now: Instant, localMs: MonthStart -> int, m: nat)
    requires m < HORIZON
    requires BumpAt(birthMs, now, localMs, m)
    ensures m == 8 || m == 12
  {
  }

  /** Bumps up to offset `m` (at most 12): at most one by offset 8 and two by offset 12. */
  lemma {:induction false} BumpsThroughBound(birthMs: int, now: Instant, localMs: MonthStart -> int, m: nat)
    requires m < HORIZON
    ensures BumpsThrough(birthMs, now, localMs, m) <= (if m >= 8 then 1 else 0) + (if m >= 12 then 1 else 0)
  {
    if m > 0 {
      BumpsThroughBound(birthMs, now, localMs, m - 1);
      if BumpAt(birthMs, now, localMs, m) {
        BumpOnlyAt8Or12(birthMs, now, localMs, m);
      }
    }
  }

  /** Sizes never fall and grow by at most one per month. */
  lemma {:induction false} SizesRise(currentSize: Option<int>, birthMs: int, now: Instant, localMs: MonthStart -> int, i: nat, j: nat)
    requires i <= j < HORIZON
    ensures var f := SizeForecast(currentSize, birthMs, now, localMs);
      f[i].size <= f[j].size <= f[i].size + (j - i)
  {
    if i < j {
      SizesRise(currentSize, birthMs, now, localMs, i, j - 1);
    }
  }

  /** The last size is at least the starting size and at most two above it. */
  lemma LastSizeBound(currentSize: Option<int>, birthMs: int, now: Instant, localMs: MonthStart -> int)
    ensures var f := SizeForecast(currentSize, birthMs, now, localMs);
      StartSize(currentSize) <= f[HORIZON - 1].size <= StartSize(currentSize) + 2
  {
    BumpsThroughBound(birthMs, now, localMs, HORIZON - 1);
  }

  /** A child under 3 at every point gets exactly one bump, at offset 8. */
  lemma {:induction false} AlwaysUnder3BumpsAt8(currentSize: Option<int>, birthMs: int, now: Instant, localMs: MonthStart -> int, m: nat)
    requires forall k :: 0 <= k < HORIZON ==> Under3At(birthMs, now, localMs, k)
    requires m < HORIZON
    ensures SizeForecast(currentSize, birthMs, now, localMs)[m].size
         == StartSize(currentSize) + (if m >= 8 then 1 else 0)
  {
    if m > 0 {
      AlwaysUnder3BumpsAt8(currentSize, birthMs, now, localMs, m - 1);
    }
  }

  /** A child 3 or older at every point gets exactly one bump, at offset 12. */
  lemma {:induction false} AlwaysOver3BumpsAt12(currentSize: Option<int>, birthMs: int, now: Instant, localMs: MonthStart -> int, m: nat)
    requires forall k :: 0 <= k < HORIZON ==> !Under3At(birthMs, now, localMs, k)
    requires m < HORIZON
    ensures SizeForecast(currentSize, birthMs, now, localMs)[m].size
         == StartSize(currentSize) + (if m >= 12 then 1 else 0)
  {
    if m > 0 {
      AlwaysOver3BumpsAt12(currentSize, birthMs, now, localMs, m - 1);
    }
  }

  /** The predicted points fall on the first days of 13 consecutive months from the current one. */
  lemma SizeForecastMonths(currentSize: Option<int>, birthMs: int, now: Instant, localMs: MonthStart -> int, m: nat)
    requires 0 < m < HORIZON
    ensures |SizeForecast(currentSize, birthMs, now, localMs)| == 13
    ensures SizeForecast(currentSize, birthMs, now, localMs)[0].date == CurrentMonth(now)
    ensures SizeForecast(currentSize, birthMs, now, localMs)[m].date
         == Next(SizeForecast(currentSize, birthMs, now, localMs)[m - 1].date)
  {
    AddMonthsStep(CurrentMonth(now), m - 1);
  }
}
