/** `bvggrabber/api/__init__.py`: the `Departure` record with its
    time normalisation and the abstract `QueryApi`. The library calls it makes
    (`dateutil.parser.parse`, `datetime.fromtimestamp`, `datetime.now`) are
    parameters. */
module Api {
  import opened Wrappers
  import opened Text
  import opened Calendar
  import opened Format

  /** `fullformat` of this file: `dt.strftime('%Y-%m-%d %H:%M')`. */
  function MinuteFormat(dt: DateTime): string {
    IsoDate(dt) + " " + TimeFormat(dt)
  }

  /** Reads a 'YYYY-MM-DD HH:MM' string back. */
  function ParseMinuteFormat(s: string): Option<Shown> {
    var halves := Split(s, ' ');
    if |halves| != 2 then None
    else
      var date, time := ParseNumbers(halves[0], '-', 3), ParseTimeFormat(halves[1]);
      if date.None? || time.None? then None
      else Some(Shown(date.value[0], date.value[1], date.value[2], time.value.0, time.value.1, 0))
  }

  lemma MinuteFormatHalves(dt: DateTime)
    ensures Split(MinuteFormat(dt), ' ') == [IsoDate(dt), TimeFormat(dt)]
  {
    NoSpaceInIsoDate(dt);
    NoSpaceInTimeFormat(dt);
    SplitTwo(IsoDate(dt), TimeFormat(dt), ' ');
  }

  /** The minute format shows every field down to the minute. */
  lemma MinuteFormatRoundTrip(dt: DateTime)
    ensures ParseMinuteFormat(MinuteFormat(dt))
         == Some(Shown(dt.year, dt.month, dt.day, dt.hour, dt.minute, 0))
  {
    MinuteFormatHalves(dt);
    IsoDateRoundTrip(dt);
    TimeFormatRoundTrip(dt);
  }

  /** Two datetimes render the same exactly when they agree down to the minute. */
  lemma MinuteFormatIsMinutePrecise(a: DateTime, b: DateTime)
    ensures MinuteFormat(a) == MinuteFormat(b) <==>
      a.year == b.year && a.month == b.month && a.day == b.day &&
      a.hour == b.hour && a.minute == b.minute
  {
    MinuteFormatRoundTrip(a);
    MinuteFormatRoundTrip(b);
  }

  /** The abstract query interface. */
  class QueryApi {
    constructor () {
    }

    /** `call()` is left to the inheriting classes. */
    method Call() returns (r: Result<()>)
      ensures r == Err(NotImplementedError)
    {
      r := Err(NotImplementedError);
    }
  }

  /** The Python type of the `when` argument. */
  datatype WhenArg =
    | Timestamp(seconds: real)   // an int or a float: a POSIX timestamp
    | Text(s: string)            // a str, handed to dateutil's parse
    | Instant(dt: DateTime)      // a datetime
    | Other                      // anything else

  /** A departure; `when` is `None` when `__init__` never assigned it. */
  datatype Departure = Departure(start: string, end: string, when: Option<DateTime>, line: string)

  predicate Before(a: DateTime, b: DateTime) {
    Micros(a) - Micros(b) < 0
  }

  /** `Departure(start, end, when, line)`. `now` is what `datetime.now()`
      returns during the call, `parse` is `dateutil.parser.parse` and
      `fromTimestamp` is `datetime.fromtimestamp`, whose error (a timestamp
      out of the platform's range) propagates. For any other type of
      `when` the `ValueError` is built but not raised, so construction
      completes with `when` unset. */
  function NewDeparture(start: string, end: string, when: WhenArg, line: string,
                        now: DateTime, parse: string -> Result<DateTime>,
                        fromTimestamp: real -> Result<DateTime>): (r: Result<Departure>)
    ensures when.Instant? ==> r == Ok(Departure(start, end, Some(when.dt), line))
    ensures when.Timestamp? && fromTimestamp(when.seconds).Err? ==> r == Err(fromTimestamp(when.seconds).error)
    ensures when.Timestamp? && fromTimestamp(when.seconds).Ok? ==>
      r == Ok(Departure(start, end, Some(fromTimestamp(when.seconds).value), line))
    ensures when.Other? ==> r == Ok(Departure(start, end, None, line))
    ensures when.Text? && parse(when.s).Err? ==> r == Err(parse(when.s).error)
    ensures when.Text? && parse(when.s).Ok? && !Before(parse(when.s).value, now) ==>
      r == Ok(Departure(start, end, Some(parse(when.s).value), line))
    ensures when.Text? && parse(when.s).Ok? && Before(parse(when.s).value, now) ==>
      var p := parse(when.s).value;
      r == if p.day + 1 <= DaysInMonth(p.year, p.month)
           then Ok(Departure(start, end, Some(p.(day := p.day + 1)), line))
           else Err(ValueError)
  {
    match when
    case Timestamp(t) =>
      var w :- fromTimestamp(t);
      Ok(Departure(start, end, Some(w), line))
    case Text(s) =>
      var parsed :- parse(s);
      var w :- if Before(parsed, now) then ReplaceDay(parsed, parsed.day + 1) else Ok(parsed);
      Ok(Departure(start, end, Some(w), line))
    case Instant(dt) => Ok(Departure(start, end, Some(dt), line))
    case Other => Ok(Departure(start, end, None, line))
  }

  /** A parsed string that lies in the past is moved on by exactly one day;
      year, month and time of day are kept. */
  lemma RolledOverByOneDay(start: string, end: string, s: string, line: string,
                           now: DateTime, parse: string -> Result<DateTime>,
                           fromTimestamp: real -> Result<DateTime>)
    requires parse(s).Ok? && Before(parse(s).value, now)
    requires NewDeparture(start, end, Text(s), line, now, parse, fromTimestamp).Ok?
    ensures var w := NewDeparture(start, end, Text(s), line, now, parse, fromTimestamp).value.when.value;
      var p := parse(s).value;
      && Micros(w) == Micros(p) + MicrosPerDay
      && w.year == p.year && w.month == p.month
      && w.hour == p.hour && w.minute == p.minute && w.second == p.second
  {
    var p := parse(s).value;
    ReplaceDayShiftsByWholeDays(p, p.day + 1);
  }

  /** `remaining()`: `when - datetime.now()`, as a timedelta in whole
      microseconds; reading the unset `when` raises `AttributeError`. */
  function Remaining(d: Departure, now: DateTime): (r: Result<int>)
    ensures r.Err? <==> d.when.None?
    ensures r.Err? ==> r.error == AttributeError
    ensures r.Ok? ==> Micros(now) + r.value == Micros(d.when.value)
  {
    match d.when
    case None => Err(AttributeError)
    case Some(w) => Ok(Micros(w) - Micros(now))
  }

  /** `str(departure)`. */
  function Describe(d: Departure): (r: Result<string>)
    ensures r.Err? <==> d.when.None?
    ensures r.Err? ==> r.error == AttributeError
  {
    match d.when
    case None => Err(AttributeError)
    case Some(w) =>
      Ok(Described(d.start, d.end, MinuteFormat(w), d.line))
  }

  /** The text `__str__` builds from its four fields. */
  function Described(start: string, end: string, when: string, line: string): string {
    "Start: " + start + ", End: " + end + ", when: " + when + ", line: " + line
  }

  /** The rendering shows start, end, the formatted `when` and line, in
      that order, each after its label. */
  lemma DescribedLayout(start: string, end: string, when: string, line: string)
    ensures var r := Described(start, end, when, line);
      var i := 7 + |start|;
      var j := i + 7 + |end|;
      var k := j + 8 + |when|;
      && |r| == k + 8 + |line|
      && r[..7] == "Start: " && r[7..i] == start
      && r[i..i + 7] == ", End: " && r[i + 7..j] == end
      && r[j..j + 8] == ", when: " && r[j + 8..k] == when
      && r[k..k + 8] == ", line: " && r[k + 8..] == line
  {
    DescribedFront(start, end, when, line);
    DescribedBack(start, end, when, line);
  }

  lemma DescribedFront(start: string, end: string, when: string, line: string)
    ensures var r := Described(start, end, when, line);
      var i := 7 + |start|;
      var j := i + 7 + |end|;
      && j <= |r|
      && r[..7] == "Start: " && r[7..i] == start
      && r[i..i + 7] == ", End: " && r[i + 7..j] == end
  {
    var p1 := "Start: " + start;
    var p2 := p1 + ", End: ";
    var p3 := p2 + end;
    var rest := ", when: " + when + ", line: " + line;
    var r := Described(start, end, when, line);
    assert r == p3 + rest;
    var i, j := |p1|, |p3|;
    SliceOfConcat(p3, rest, 0, j);
    SliceOfConcat(p2, end, 0, |p2|);
    assert r[i + 7..j] == end by {
      assert r[i + 7..j] == p3[i + 7..j];
    }
    SliceOfConcat(p1, ", End: ", 0, i);
    assert r[i..i + 7] == ", End: " by {
      assert r[i..i + 7] == p3[i..i + 7] == p2[i..i + 7];
    }
    SliceOfConcat("Start: ", start, 0, 7);
    assert r[7..i] == start by {
      assert r[7..i] == p3[7..i] == p1[7..i];
    }
    assert r[..7] == "Start: " by {
      assert r[..7] == p3[..7] == p1[..7];
    }
  }

  lemma DescribedBack(start: string, end: string, when: string, line: string)
    ensures var r := Described(start, end, when, line);
      var j := 7 + |start| + 7 + |end|;
      var k := j + 8 + |when|;
      && |r| == k + 8 + |line|
      && r[j..j + 8] == ", when: " && r[j + 8..k] == when
      && r[k..k + 8] == ", line: " && r[k + 8..] == line
  {
    var p3 := "Start: " + start + ", End: " + end;
    var p4 := p3 + ", when: ";
    var p5 := p4 + when;
    var p6 := p5 + ", line: ";
    var r := Described(start, end, when, line);
    assert r == p6 + line;
    var j, k := |p3|, |p5|;
    SliceOfConcat(p6, line, 0, |p6|);
    SliceOfConcat(p5, ", line: ", 0, k);
    SliceOfConcat(p4, when, 0, |p4|);
    assert r[j + 8..k] == when by {
      assert r[j + 8..k] == p6[j + 8..k] == p5[j + 8..k];
    }
    SliceOfConcat(p3, ", when: ", 0, j);
    assert r[j..j + 8] == ", when: " by {
      assert r[j..j + 8] == p6[j..j + 8] == p5[j..j + 8] == p4[j..j + 8];
    }
  }

  /** Slicing a concatenation at the seam. */
  lemma SliceOfConcat(x: string, y: string, a: nat, b: nat)
    requires a <= b <= |x|
    ensures (x + y)[a..b] == x[a..b]
    ensures (x + y)[|x|..] == y
    ensures forall c, e :: a <= c <= e <= b ==> (x + y)[c..e] == x[c..e]
  {
  }
  // ---------------------------------------------------------------------
  // Two defects of the constructor, and the constructor as intended
  // ---------------------------------------------------------------------

  /** A `when` of an unsupported type yields a departure whose `remaining()`
      and `str()` both fail later, instead of failing at construction. */
  lemma UnsupportedWhenIsAcceptedSilently(start: string, end: string, line: string,
                                          now: DateTime, parse: string -> Result<DateTime>,
                                          fromTimestamp: real -> Result<DateTime>)
    ensures var r := NewDeparture(start, end, Other, line, now, parse, fromTimestamp);
      && r.Ok?
      && Remaining(r.value, now) == Err(AttributeError)
      && Describe(r.value) == Err(AttributeError)
  {
  }

  const LastOfJanuary: DateTime := DateTimeFields(2013, 1, 31, 10, 0, 0, 0)
  const LaterThatDay: DateTime := DateTimeFields(2013, 1, 31, 11, 0, 0, 0)

  /** '10:00' read at 11:00 on January 31: moving the day to 32 raises
      `ValueError`, so the departure cannot be built on the last day of a
      month. */
  lemma PastTimeFailsOnMonthEnd(fromTimestamp: real -> Result<DateTime>)
    ensures NewDeparture("A", "B", Text("10:00"), "M10", LaterThatDay,
                         (s: string) => Ok(LastOfJanuary), fromTimestamp) == Err(ValueError)
  {
    assert Before(LastOfJanuary, LaterThatDay);
    assert DaysInMonth(2013, 1) == 31;
  }

  /** The constructor as evidently intended: an unsupported `when` raises
      the `ValueError`, and a time already past moves on by one calendar day
      (`timedelta(days=1)`, as the later version of this class does). */
  function NewDepartureChecked(start: string, end: string, when: WhenArg, line: string,
                               now: DateTime, parse: string -> Result<DateTime>,
                               fromTimestamp: real -> Result<DateTime>): (r: Result<Departure>)
    ensures r.Ok? ==> r.value.when.Some? && r.value.start == start && r.value.end == end
                      && r.value.line == line
    ensures when.Other? ==> r == Err(ValueError)
    ensures when.Instant? ==> r == Ok(Departure(start, end, Some(when.dt), line))
    ensures when.Timestamp? && fromTimestamp(when.seconds).Err? ==> r == Err(fromTimestamp(when.seconds).error)
    ensures when.Timestamp? && fromTimestamp(when.seconds).Ok? ==>
      r == Ok(Departure(start, end, Some(fromTimestamp(when.seconds).value), line))
    ensures when.Text? && parse(when.s).Err? ==> r == Err(parse(when.s).error)
    ensures when.Text? && parse(when.s).Ok? && !Before(parse(when.s).value, now) ==>
      r == Ok(Departure(start, end, Some(parse(when.s).value), line))
    ensures when.Text? && parse(when.s).Ok? && Before(parse(when.s).value, now) ==>
      var p := parse(when.s).value;
      if p.year == 9999 && p.month == 12 && p.day == 31 then r == Err(OverflowError)
      else r.Ok? && Micros(r.value.when.value) == Micros(p) + MicrosPerDay
  {
    match when
    case Timestamp(t) =>
      var w :- fromTimestamp(t);
      Ok(Departure(start, end, Some(w), line))
    case Text(s) =>
      var parsed :- parse(s);
      if Before(parsed, now) then
        var w :- NextDay(parsed);
        NextDayIsOneDayLater(parsed);
        Ok(Departure(start, end, Some(w), line))
      else Ok(Departure(start, end, Some(parsed), line))
    case Instant(dt) => Ok(Departure(start, end, Some(dt), line))
    case Other => Err(ValueError)
  }

  /** Every departure the intended constructor builds can be asked for its
      remaining time and its rendering. */
  lemma CheckedDepartureIsUsable(start: string, end: string, when: WhenArg, line: string,
                                 now: DateTime, parse: string -> Result<DateTime>,
                                 fromTimestamp: real -> Result<DateTime>)
    requires NewDepartureChecked(start, end, when, line, now, parse, fromTimestamp).Ok?
    ensures var d := NewDepartureChecked(start, end, when, line, now, parse, fromTimestamp).value;
      Remaining(d, now).Ok? && Describe(d).Ok?
  {
  }

  /** At the end of January the intended constructor moves on to February 1. */
  lemma CheckedRolloverCrossesMonth(fromTimestamp: real -> Result<DateTime>)
    ensures NewDepartureChecked("A", "B", Text("10:00"), "M10", LaterThatDay,
                                (s: string) => Ok(LastOfJanuary), fromTimestamp)
         == Ok(Departure("A", "B", Some(DateTimeFields(2013, 2, 1, 10, 0, 0, 0)), "M10"))
  {
    assert Before(LastOfJanuary, LaterThatDay);
    assert DaysInMonth(2013, 1) == 31;
  }
}
