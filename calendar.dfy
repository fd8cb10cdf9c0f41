/** Proleptic Gregorian day arithmetic in the terms ECMAScript defines it
    (DayFromYear, MakeDay, MakeTime, MakeDate, TimeClip), `Date.UTC`, and the
    fixed UTC+7 offset of Asia/Bangkok. Time values are integer milliseconds
    since 1970-01-01T00:00:00Z. */
module Calendar {
  import opened JsString
  import opened JsNumber

  const MsPerSecond: int := 1000
  const MsPerMinute: int := 60000
  const MsPerHour: int := 3600000
  const MsPerDay: int := 86400000

  /** Asia/Bangkok is seven hours ahead of UTC. */
  const BangkokOffsetMs: int := 7 * MsPerHour

  /** The largest magnitude a JavaScript time value may have. */
  const MaxTimeValue: int := 8640000000000000

  predicate IsLeapYear(y: int) {
    y % 4 == 0 && (y % 100 != 0 || y % 400 == 0)
  }

  function DaysInYear(y: int): (n: int)
    ensures n == 365 || n == 366
  {
    if IsLeapYear(y) then 366 else 365
  }

  /** Days in month `m` (1 to 12) of year `y`. */
  function DaysInMonth(y: int, m: int): (n: int)
    requires 1 <= m <= 12
    ensures 28 <= n <= 31
    ensures m == 2 ==> (n == 29 <==> IsLeapYear(y))
  {
    if m == 2 then (if IsLeapYear(y) then 29 else 28)
    else if m == 4 || m == 6 || m == 9 || m == 11 then 30
    else 31
  }

  /** The day number of the first day of year `y` (DayFromYear). */
  function DayFromYear(y: int): int {
    365 * (y - 1970) + (y - 1969) / 4 - (y - 1901) / 100 + (y - 1601) / 400
  }

  /** Days of year `y` before month `mn` (0 to 11) begins: the cumulative
      table of month lengths, plus the leap day from March on. */
  function DaysBeforeMonth(y: int, mn: int): (n: int)
    requires 0 <= mn <= 11
    ensures 0 <= n <= 31 * mn
  {
    [0, 31, 59, 90, 120, 151, 181, 212, 243, 273, 304, 334][mn]
    + (if mn >= 2 && IsLeapYear(y) then 1 else 0)
  }

  /** The day number of day `d` (1-based, may overflow the month) of month
      `mn` (0-based) of year `y`. */
  function DayNumber(y: int, mn: int, d: int): int
    requires 0 <= mn <= 11
  {
    DayFromYear(y) + DaysBeforeMonth(y, mn) + d - 1
  }

  /** A civil date and time of day, as a wall clock shows it. */
  datatype WallClock = WallClock(year: int, month: int, day: int, hour: int, minute: int, second: int)

  /** The calendar checks Luxon makes: month 1 to 12, day within the month,
      minute and second below 60, hour below 24 or exactly 24:00:00. */
  predicate ValidWallClock(w: WallClock) {
    && 1 <= w.month <= 12
    && 1 <= w.day <= DaysInMonth(w.year, w.month)
    && 0 <= w.minute < 60 && 0 <= w.second < 60
    && (0 <= w.hour < 24 || (w.hour == 24 && w.minute == 0 && w.second == 0))
  }

  function TimeOfDayMs(w: WallClock): int {
    w.hour * MsPerHour + w.minute * MsPerMinute + w.second * MsPerSecond
  }

  /** The time value the wall clock reads as when read in UTC. */
  function CivilMillis(w: WallClock): int
    requires 1 <= w.month <= 12
  {
    DayNumber(w.year, w.month - 1, w.day) * MsPerDay + TimeOfDayMs(w)
  }

  /** The instant at which a Bangkok wall clock shows `w`. */
  function BangkokInstant(w: WallClock): (t: int)
    requires ValidWallClock(w)
    ensures t + BangkokOffsetMs == CivilMillis(w)
  {
    CivilMillis(w) - BangkokOffsetMs
  }

  /** TimeClip: a time value out of range is NaN (None). */
  function TimeClip(t: int): (r: Option<int>)
    ensures r.Some? <==> -MaxTimeValue <= t <= MaxTimeValue
    ensures r.Some? ==> r.value == t
  {
    if t < -MaxTimeValue || t > MaxTimeValue then None else Some(t)
  }

  /** The finite value of a number, after truncation toward zero. */
  function TruncNum(x: Num): (r: Option<int>)
    ensures r.Some? <==> x.Finite?
  {
    if x.Finite? then Some(Trunc(x.value)) else None
  }

  /** MakeTime: NaN unless all parts are finite; parts are truncated. */
  function MakeTime(h: Num, m: Num, s: Num): (r: Option<int>)
    ensures r.Some? <==> h.Finite? && m.Finite? && s.Finite?
  {
    if h.Finite? && m.Finite? && s.Finite? then
      Some(Trunc(h.value) * MsPerHour + Trunc(m.value) * MsPerMinute + Trunc(s.value) * MsPerSecond)
    else None
  }

  /** MakeDay: a month outside 0 to 11 carries into the year. */
  function MakeDay(y: Num, m: Num, d: Num): (r: Option<int>)
    ensures r.Some? <==> y.Finite? && m.Finite? && d.Finite?
  {
    if y.Finite? && m.Finite? && d.Finite? then
      var mi := Trunc(m.value);
      Some(DayNumber(Trunc(y.value) + mi / 12, mi % 12, Trunc(d.value)))
    else None
  }

  /** `Date.UTC(year, month, day, hours, minutes, seconds)`: a year whose
      integer part is 0 to 99 means 1900 to 1999. */
  function DateUtc(year: Num, month: Num, day: Num, h: Num, min: Num, s: Num): (r: Option<int>)
    ensures r.Some? ==> year.Finite? && month.Finite? && day.Finite?
    ensures r.Some? ==> h.Finite? && min.Finite? && s.Finite?
  {
    var yr :=
      if year.Finite? && 0 <= Trunc(year.value) <= 99 then Finite(1900.0 + Trunc(year.value) as real)
      else year;
    match (MakeDay(yr, month, day), MakeTime(h, min, s))
    case (Some(dd), Some(tt)) => TimeClip(dd * MsPerDay + tt)
    case _ => None
  }

  // ---------------------------------------------------------------------------
  // properties

  // Integer division facts, for the leap-day counts of DayFromYear.

  lemma {:induction false} MulBounds(d: int, k: int)
    requires d > 0
    ensures k >= 1 ==> d * k >= d
    ensures k <= -1 ==> d * k <= -d
    decreases if k >= 0 then k else -k
  {
    if k > 1 {
      MulBounds(d, k - 1);
      assert d * k == d * (k - 1) + d;
    } else if k < -1 {
      MulBounds(d, k + 1);
      assert d * k == d * (k + 1) - d;
    }
  }

  /** Quotient and remainder are the only pair that rebuilds `x`. */
  lemma DivModUnique(x: int, d: int, q: int, r: int)
    requires d > 0 && 0 <= r < d && x == d * q + r
    ensures x / d == q && x % d == r
  {
    MulBounds(d, q - x / d);
    assert d * (q - x / d) == x % d - r;
  }

  lemma DivStep(x: int, d: int)
    requires d > 0
    ensures (x + 1) / d == x / d + (if (x + 1) % d == 0 then 1 else 0)
  {
    var q, r := x / d, x % d;
    if r < d - 1 {
      DivModUnique(x + 1, d, q, r + 1);
    } else {
      DivModUnique(x + 1, d, q + 1, 0);
    }
  }

  lemma ModShift(x: int, d: int, k: int)
    requires d > 0
    ensures (x + d * k) % d == x % d
  {
    DivModUnique(x + d * k, d, x / d + k, x % d);
  }

  /** Consecutive years start DaysInYear apart: DayFromYear counts leap days
      by the Gregorian rule. */
  lemma DayFromYearStep(y: int)
    ensures DayFromYear(y + 1) == DayFromYear(y) + DaysInYear(y)
  {
    DivStep(y - 1969, 4);
    DivStep(y - 1901, 100);
    DivStep(y - 1601, 400);
    ModShift(y, 4, -492);
    ModShift(y, 100, -19);
    ModShift(y, 400, -4);
  }

  /** The table of month starts agrees with the month lengths, and the
      months fill the year. */
  lemma MonthStarts(y: int, mn: int)
    requires 0 <= mn <= 11
    ensures mn < 11 ==> DaysBeforeMonth(y, mn + 1) == DaysBeforeMonth(y, mn) + DaysInMonth(y, mn + 1)
    ensures mn == 11 ==> DaysBeforeMonth(y, 11) + DaysInMonth(y, 12) == DaysInYear(y)
  {
  }

  /** The day after the last of a month is the first of the next month, and
      the day after 31 December is 1 January of the next year: DayNumber is
      the running count of days. */
  lemma DayNumberNextMonth(y: int, mn: int)
    requires 0 <= mn <= 11
    ensures mn < 11 ==> DayNumber(y, mn + 1, 1) == DayNumber(y, mn, DaysInMonth(y, mn + 1)) + 1
    ensures mn == 11 ==> DayNumber(y + 1, 0, 1) == DayNumber(y, 11, 31) + 1
  {
    MonthStarts(y, mn);
    if mn == 11 {
      DayFromYearStep(y);
    }
  }

  /** 1 January 1970 is day 0 of the epoch. */
  lemma EpochDay()
    ensures DayNumber(1970, 0, 1) == 0
  {
  }

  /** The time of day of a Bangkok wall clock is what is left of its instant,
      shifted by seven hours, within its day. */
  lemma BangkokTimeOfDay(w: WallClock)
    requires ValidWallClock(w) && w.hour < 24
    ensures (BangkokInstant(w) + BangkokOffsetMs) % MsPerDay == TimeOfDayMs(w)
  {
    var n := DayNumber(w.year, w.month - 1, w.day);
    assert 0 <= TimeOfDayMs(w) < MsPerDay;
    DivModUnique(n * MsPerDay + TimeOfDayMs(w), MsPerDay, n, TimeOfDayMs(w));
  }
}
