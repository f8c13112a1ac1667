/** Naive (time-zone free) Python `datetime` values on the proleptic Gregorian
    calendar, and the microsecond timeline on which `datetime` subtraction,
    comparison and `timedelta` addition are defined. */
module Calendar {
  import opened Wrappers

  datatype DateTimeFields = DateTimeFields(
    year: int, month: int, day: int,
    hour: int, minute: int, second: int, microsecond: int)

  predicate IsLeapYear(y: int) {
    y % 4 == 0 && (y % 100 != 0 || y % 400 == 0)
  }

  function DaysInMonth(y: int, m: int): (n: int)
    requires 1 <= m <= 12
    ensures 28 <= n <= 31
  {
    if m == 2 then (if IsLeapYear(y) then 29 else 28)
    else if m == 4 || m == 6 || m == 9 || m == 11 then 30
    else 31
  }

  /** The range checks `datetime(...)` and `datetime.replace(...)` perform. */
  predicate IsValid(f: DateTimeFields) {
    && 1 <= f.year <= 9999
    && 1 <= f.month <= 12
    && 1 <= f.day <= DaysInMonth(f.year, f.month)
    && 0 <= f.hour < 24
    && 0 <= f.minute < 60
    && 0 <= f.second < 60
    && 0 <= f.microsecond < 1000000
  }

  /** A `datetime.datetime` instance: its fields are always in range. */
  type DateTime = f: DateTimeFields | IsValid(f) witness DateTimeFields(1, 1, 1, 0, 0, 0, 0)

  const MicrosPerSecond: int := 1000000
  const MicrosPerMinute: int := 60 * MicrosPerSecond
  const MicrosPerDay: int := 86400 * MicrosPerSecond

  function DaysBeforeYear(y: int): int
    requires y >= 1
  {
    var p := y - 1;
    365 * p + p / 4 - p / 100 + p / 400
  }

  /** Days in the months of year `y` before month `m`. */
  function DaysBeforeMonth(y: int, m: int): int
    requires 1 <= m <= 12
  {
    [0, 31, 59, 90, 120, 151, 181, 212, 243, 273, 304, 334][m - 1]
      + if m > 2 && IsLeapYear(y) then 1 else 0
  }

  lemma MonthsAreConsecutive(y: int, m: int)
    requires 1 <= m < 12
    ensures DaysBeforeMonth(y, m + 1) == DaysBeforeMonth(y, m) + DaysInMonth(y, m)
  {
  }

  /** `datetime.toordinal()`: day 1 is 0001-01-01. */
  function Ordinal(t: DateTime): int {
    DaysBeforeYear(t.year) + DaysBeforeMonth(t.year, t.month) + t.day
  }

  /** The position of `t` on the microsecond timeline. `a - b` of two
      datetimes is the timedelta of `Micros(a) - Micros(b)` microseconds. */
  function Micros(t: DateTime): int {
    (((Ordinal(t) * 24 + t.hour) * 60 + t.minute) * 60 + t.second) * MicrosPerSecond
      + t.microsecond
  }

  /** `datetime.replace(day=d)`: `ValueError` when `d` is not a day of the month. */
  function ReplaceDay(t: DateTime, d: int): (r: Result<DateTime>)
    ensures r.Ok? <==> 1 <= d <= DaysInMonth(t.year, t.month)
    ensures r.Ok? ==> r.value == t.(day := d)
    ensures r.Err? ==> r.error == ValueError
  {
    var f := t.(day := d);
    if IsValid(f) then Ok(f) else Err(ValueError)
  }

  lemma ReplaceDayShiftsByWholeDays(t: DateTime, d: int)
    requires ReplaceDay(t, d).Ok?
    ensures Micros(ReplaceDay(t, d).value) == Micros(t) + (d - t.day) * MicrosPerDay
  {
    var u := ReplaceDay(t, d).value;
    assert Ordinal(u) == Ordinal(t) + (d - t.day);
    SameTimeDaysApart(t, u, d - t.day);
  }

  /** Two instants at the same time of day, `n` days apart. */
  lemma SameTimeDaysApart(t: DateTime, u: DateTime, n: int)
    requires Ordinal(u) == Ordinal(t) + n
    requires u.hour == t.hour && u.minute == t.minute && u.second == t.second
    requires u.microsecond == t.microsecond
    ensures Micros(u) == Micros(t) + n * MicrosPerDay
  {
    ShiftedTimeline(Ordinal(t), t.hour, t.minute, t.second, t.microsecond, n);
  }

  /** On the timeline, `n` days more on the ordinal are `n` days later. */
  lemma ShiftedTimeline(o: int, h: int, m: int, s: int, us: int, n: int)
    ensures ((((o + n) * 24 + h) * 60 + m) * 60 + s) * MicrosPerSecond + us
         == ((((o * 24 + h) * 60 + m) * 60 + s) * MicrosPerSecond + us) + n * MicrosPerDay
  {
    var x := ((o * 24 + h) * 60 + m) * 60 + s;
    assert (((o + n) * 24 + h) * 60 + m) * 60 + s == x + n * 86400;
  }

  /** `t + timedelta(days=1)`: the same time on the next calendar day;
      `OverflowError` past 9999-12-31. */
  function NextDay(t: DateTime): (r: Result<DateTime>)
    ensures r.Err? <==> t.year == 9999 && t.month == 12 && t.day == 31
    ensures r.Err? ==> r.error == OverflowError
    ensures r.Ok? ==>
      r.value.hour == t.hour && r.value.minute == t.minute &&
      r.value.second == t.second && r.value.microsecond == t.microsecond
  {
    if t.day < DaysInMonth(t.year, t.month) then Ok(t.(day := t.day + 1))
    else if t.month < 12 then Ok(t.(month := t.month + 1, day := 1))
    else if t.year < 9999 then Ok(t.(year := t.year + 1, month := 1, day := 1))
    else Err(OverflowError)
  }

  lemma MonthsFillYear(y: int)
    ensures DaysBeforeMonth(y, 12) + DaysInMonth(y, 12) == if IsLeapYear(y) then 366 else 365
  {
  }

  lemma YearLength(y: int)
    requires y >= 1
    ensures DaysBeforeYear(y + 1) == DaysBeforeYear(y) + if IsLeapYear(y) then 366 else 365
  {
    assert y / 4 - (y - 1) / 4 == if y % 4 == 0 then 1 else 0;
    assert y / 100 - (y - 1) / 100 == if y % 100 == 0 then 1 else 0;
    assert y / 400 - (y - 1) / 400 == if y % 400 == 0 then 1 else 0;
  }

  /** Adding a day moves exactly 86400 seconds along the timeline. */
  lemma NextDayIsOneDayLater(t: DateTime)
    requires NextDay(t).Ok?
    ensures Micros(NextDay(t).value) == Micros(t) + MicrosPerDay
  {
    if t.day == DaysInMonth(t.year, t.month) && t.month < 12 {
      MonthsAreConsecutive(t.year, t.month);
    } else if t.day == DaysInMonth(t.year, t.month) {
      MonthsFillYear(t.year);
      YearLength(t.year);
    }
  }
}
