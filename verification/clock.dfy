/** Calendar arithmetic and the rolling sync window.

    Dates are proleptic Gregorian ordinals as Python's `date.toordinal`
    numbers them (0001-01-01 is day 1, 9999-12-31 is the last day), and
    instants are whole microseconds since 0001-01-01T00:00:00 UTC, the
    resolution of Python's `datetime`. With both as integers the window
    computation of `CalendarSyncManager.__init__` is exact arithmetic. */
module Clock {
  import opened Wrappers

  /** Microseconds since 0001-01-01T00:00:00 UTC. */
  type Instant = int

  /** A date as its proleptic Gregorian ordinal. */
  type Day = int

  const MicrosPerSecond: int := 1_000_000
  const MicrosPerDay: int := 86_400_000_000

  /** Ordinal of `date.min` (0001-01-01) and `date.max` (9999-12-31). */
  const MinDay: Day := 1
  const MaxDay: Day := 3_652_059

  /** The dates Python's `date` type can represent. */
  predicate ValidDay(d: Day) {
    MinDay <= d <= MaxDay
  }

  // ---------------------------------------------------------------------
  // Civil dates, as Python's `date` computes ordinals from year/month/day
  // ---------------------------------------------------------------------

  predicate IsLeap(y: int) {
    y % 4 == 0 && (y % 100 != 0 || y % 400 == 0)
  }

  function DaysInMonth(y: int, m: int): int
    requires 1 <= m <= 12
  {
    if m == 2 then (if IsLeap(y) then 29 else 28)
    else if m == 4 || m == 6 || m == 9 || m == 11 then 30
    else 31
  }

  predicate ValidDate(y: int, m: int, d: int) {
    1 <= y <= 9999 && 1 <= m <= 12 && 1 <= d <= DaysInMonth(y, m)
  }

  /** Days in the years strictly before year `y`. */
  function DaysBeforeYear(y: int): int {
    var p := y - 1;
    p * 365 + p / 4 - p / 100 + p / 400
  }

  /** Days in the months of year `y` strictly before month `m`. */
  function DaysBeforeMonth(y: int, m: int): int
    requires 1 <= m <= 12
  {
    var table := [0, 31, 59, 90, 120, 151, 181, 212, 243, 273, 304, 334];
    table[m - 1] + (if m > 2 && IsLeap(y) then 1 else 0)
  }

  /** The ordinal of the date `y`-`m`-`d`. */
  function Ordinal(y: int, m: int, d: int): (r: Day)
    requires ValidDate(y, m, d)
    ensures r >= MinDay
  {
    DaysBeforeYear(y) + DaysBeforeMonth(y, m) + d
  }

  // ---------------------------------------------------------------------
  // Times of day and days as instant ranges
  // ---------------------------------------------------------------------

  /** Microseconds since midnight of the wall-clock time h:m:s.us. */
  function TimeOfDay(h: int, m: int, s: int, us: int): int {
    ((h * 60 + m) * 60 + s) * MicrosPerSecond + us
  }

  /** `time.min`, 00:00:00. */
  const TimeMin: int := TimeOfDay(0, 0, 0, 0)

  /** `time.max`, 23:59:59.999999. */
  const TimeMax: int := TimeOfDay(23, 59, 59, 999_999)

  /** `time.min` is midnight and `time.max` is the last microsecond of the
      day, one microsecond before the next midnight. */
  lemma TimeBounds()
    ensures TimeMin == 0
    ensures TimeMax == MicrosPerDay - 1
  {
  }

  /** Midnight UTC at the start of day `d`. */
  function StartOfDay(d: Day): Instant {
    (d - 1) * MicrosPerDay
  }

  /** `datetime.combine(d, t).replace(tzinfo=utc)` as an instant. */
  function Combine(d: Day, t: int): Instant {
    StartOfDay(d) + t
  }

  /** The UTC date on which instant `t` falls. */
  function DayOf(t: Instant): (d: Day)
    ensures StartOfDay(d) <= t < StartOfDay(d + 1)
  {
    t / MicrosPerDay + 1
  }

  // ---------------------------------------------------------------------
  // The sync window
  // ---------------------------------------------------------------------

  /** The inclusive instant range `[floor, ceiling]` the sync works in. */
  datatype Window = Window(floor: Instant, ceiling: Instant)

  /** Python raises `OverflowError` when a date leaves 0001..9999. */
  datatype WindowError = DateOutOfRange

  /** Whether `t` lies inside the window, both bounds included. */
  predicate InWindow(w: Window, t: Instant) {
    w.floor <= t <= w.ceiling
  }

  /** The window of `CalendarSyncManager.__init__`: midnight of
      `today - pastDays` up to `time.max` of `today + futureDays`. The offsets
      are plain integers there, so negative ones are accepted as well. */
  function ComputeWindow(today: Day, pastDays: int, futureDays: int): (r: Result<Window, WindowError>)
    requires ValidDay(today)
    ensures r.Success? <==> ValidDay(today - pastDays) && ValidDay(today + futureDays)
    ensures r.Success? ==> r.value.floor == StartOfDay(today - pastDays)
    ensures r.Success? ==> r.value.ceiling == StartOfDay(today + futureDays + 1) - 1
    ensures r.Success? ==> r.value.floor % MicrosPerDay == 0
  {
    var lo := today - pastDays;
    if !ValidDay(lo) then Failure(DateOutOfRange)
    else
      var hi := today + futureDays;
      if !ValidDay(hi) then Failure(DateOutOfRange)
      else Success(Window(Combine(lo, TimeMin), Combine(hi, TimeMax)))
  }

  /** With non-negative offsets the window is never empty; in general it is
      non-empty exactly when `pastDays + futureDays >= 0`. */
  lemma WindowNonEmpty(today: Day, pastDays: int, futureDays: int)
    requires ValidDay(today)
    requires ComputeWindow(today, pastDays, futureDays).Success?
    ensures var w := ComputeWindow(today, pastDays, futureDays).value;
      w.floor <= w.ceiling <==> pastDays + futureDays >= 0
  {
  }

  /** An instant is in the window exactly when its UTC date is one of the
      days `today - pastDays ..= today + futureDays`. */
  lemma WindowIsWholeDays(today: Day, pastDays: int, futureDays: int, t: Instant)
    requires ValidDay(today)
    requires ComputeWindow(today, pastDays, futureDays).Success?
    ensures InWindow(ComputeWindow(today, pastDays, futureDays).value, t)
        <==> today - pastDays <= DayOf(t) <= today + futureDays
  {
    var w := ComputeWindow(today, pastDays, futureDays).value;
    var lo, hi, d := today - pastDays, today + futureDays, DayOf(t);
    if lo <= d {
      assert StartOfDay(lo) <= StartOfDay(d);
    } else {
      assert StartOfDay(d + 1) <= StartOfDay(lo);
    }
    if d <= hi {
      assert StartOfDay(d + 1) <= StartOfDay(hi + 1);
    } else {
      assert StartOfDay(hi + 1) <= StartOfDay(d);
    }
  }

  /** With both offsets zero the window is today, exactly one day long. */
  lemma SingleDayWindow(today: Day)
    requires ValidDay(today)
    ensures ComputeWindow(today, 0, 0).Success?
    ensures var w := ComputeWindow(today, 0, 0).value;
      w.ceiling - w.floor + 1 == MicrosPerDay && w.floor == StartOfDay(today)
  {
  }

  /** The default configuration (7 days back, 30 ahead) on 2024-06-15 gives
      2024-06-08T00:00:00Z ..= 2024-07-15T23:59:59.999999Z. */
  lemma DefaultWindowExample()
    ensures ComputeWindow(Ordinal(2024, 6, 15), 7, 30)
         == Success(Window(Combine(Ordinal(2024, 6, 8), TimeMin),
                           Combine(Ordinal(2024, 7, 15), TimeMax)))
  {
  }

  /** `isoformat(timespec="seconds")`, used for the Google query bounds,
      drops the sub-second part of a (non-negative) instant. */
  function TruncateToSecond(t: Instant): (r: Instant)
    requires t >= 0
    ensures r % MicrosPerSecond == 0
    ensures r <= t < r + MicrosPerSecond
  {
    t - t % MicrosPerSecond
  }

  /** A whole number of seconds has no sub-second part. */
  lemma WholeSeconds(k: int)
    ensures (k * MicrosPerSecond) % MicrosPerSecond == 0
  {
  }

  /** The Google listing is asked for `[floor, ceiling]` at second
      resolution: the floor is unchanged, the ceiling becomes 23:59:59 of its
      day, so events starting in its last sub-second are not requested. */
  lemma GoogleQueryBounds(today: Day, pastDays: int, futureDays: int)
    requires ValidDay(today)
    requires ComputeWindow(today, pastDays, futureDays).Success?
    ensures var w := ComputeWindow(today, pastDays, futureDays).value;
      TruncateToSecond(w.floor) == w.floor
      && TruncateToSecond(w.ceiling) == Combine(today + futureDays, TimeOfDay(23, 59, 59, 0))
  {
    var w := ComputeWindow(today, pastDays, futureDays).value;
    var lo, hi := today - pastDays, today + futureDays;
    assert w.floor == ((lo - 1) * 86400) * MicrosPerSecond;
    WholeSeconds((lo - 1) * 86400);
    var last := Combine(hi, TimeOfDay(23, 59, 59, 0));
    assert last == ((hi - 1) * 86400 + 86399) * MicrosPerSecond;
    WholeSeconds((hi - 1) * 86400 + 86399);
    assert w.ceiling == last + 999_999;
  }
}
