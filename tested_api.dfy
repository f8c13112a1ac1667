/** The later version of the API whose behaviour `tests/test_api.py` asserts:
    `compute_remaining`, a `Departure` measured from a reference instant
    (`since`) with a twelve-hour day rollover that `no_add_day` disables, and
    `Response` with its in-place `merge`. Only the assertions of the tests
    are available for this version; where they leave a detail open the
    choice is stated at the member. */
module TestedApi {
  import opened Wrappers
  import opened Text
  import opened Calendar

  // ---------------------------------------------------------------------
  // compute_remaining
  // ---------------------------------------------------------------------

  /** A gap of `g` microseconds in seconds, floored toward minus infinity to
      a whole minute: never more than the time actually left. */
  function FloorToMinute(g: int): (r: int)
    ensures r % 60 == 0
    ensures r * MicrosPerSecond <= g < (r + 60) * MicrosPerSecond
  {
    var q := g / MicrosPerMinute;
    assert q * MicrosPerMinute <= g < (q + 1) * MicrosPerMinute;
    q * 60
  }

  /** The floored value is the only whole minute whose span holds the gap. */
  lemma FloorToMinuteIsUnique(g: int, m: int)
    requires m % 60 == 0
    requires m * MicrosPerSecond <= g < (m + 60) * MicrosPerSecond
    ensures m == FloorToMinute(g)
  {
    var r := FloorToMinute(g);
    var q, p := r / 60, m / 60;
    assert r == q * 60 && m == p * 60;
    assert q * MicrosPerMinute <= g < (q + 1) * MicrosPerMinute;
    assert p * MicrosPerMinute <= g < (p + 1) * MicrosPerMinute;
  }

  /** A gap of `k` whole seconds is floored as Python's `k // 60 * 60`. */
  lemma FloorOfSeconds(k: int)
    ensures FloorToMinute(k * MicrosPerSecond) == k / 60 * 60
  {
    var m := k / 60 * 60;
    assert m <= k < m + 60;
    FloorToMinuteIsUnique(k * MicrosPerSecond, m);
  }

  /** Adding a whole day to the gap adds a day to the floored value. */
  lemma FloorShiftsByDay(g: int)
    ensures FloorToMinute(g + MicrosPerDay) == FloorToMinute(g) + 86400
  {
    var r := FloorToMinute(g);
    assert r == r / 60 * 60;
    var m := r + 86400;
    assert m == (r / 60 + 1440) * 60;
    FloorToMinuteIsUnique(g + MicrosPerDay, m);
  }

  /** The gap from `s` to `e`, floored to a whole minute. */
  function FlooredGap(s: DateTime, e: DateTime): int {
    FloorToMinute(Micros(e) - Micros(s))
  }

  /** An argument of `compute_remaining`: a `datetime` or a number. */
  datatype TimeArg = AtInstant(dt: DateTime) | Number(x: real)

  /** `compute_remaining(start, end)`. */
  function ComputeRemaining(start: TimeArg, end: TimeArg): (r: Result<int>)
    ensures r.Err? <==> start.Number? || end.Number?
    ensures r.Err? ==> r.error == ValueError
    ensures r.Ok? ==> r.value == FlooredGap(start.dt, end.dt)
  {
    if start.Number? || end.Number? then Err(ValueError)
    else Ok(FlooredGap(start.dt, end.dt))
  }

  /** The instants of the `compute_remaining` test table: 03:04:00, 03:04:01,
      03:04:59, 03:05:00, 03:05:01 and 03:05:59 on January 2, 2013. */
  const TableDates: seq<DateTime> := [
    DateTimeFields(2013, 1, 2, 3, 4, 0, 0), DateTimeFields(2013, 1, 2, 3, 4, 1, 0),
    DateTimeFields(2013, 1, 2, 3, 4, 59, 0), DateTimeFields(2013, 1, 2, 3, 5, 0, 0),
    DateTimeFields(2013, 1, 2, 3, 5, 1, 0), DateTimeFields(2013, 1, 2, 3, 5, 59, 0)]

  /** The expected values, row `start`, column `end`. */
  const TableTargets: seq<seq<int>> := [
    [0, 0, 0, 60, 60, 60],
    [-60, 0, 0, 0, 60, 60],
    [-60, -60, 0, 0, 0, 60],
    [-60, -60, -60, 0, 0, 0],
    [-120, -60, -60, -60, 0, 0],
    [-120, -120, -60, -60, -60, 0]]

  /** Seconds after 03:04:00 of each table instant. */
  const TableSeconds: seq<int> := [0, 1, 59, 60, 61, 119]

  lemma TableOffsets(i: int)
    requires 0 <= i < 6
    ensures Micros(TableDates[i]) == Micros(TableDates[0]) + TableSeconds[i] * MicrosPerSecond
  {
  }

  /** Every entry of the test table. */
  lemma ComputeRemainingTable(i: int, j: int)
    requires 0 <= i < 6 && 0 <= j < 6
    ensures ComputeRemaining(AtInstant(TableDates[i]), AtInstant(TableDates[j])) == Ok(TableTargets[i][j])
  {
    TableGap(i, j);
    TableArithmetic(i, j);
    GapOfSeconds(TableDates[i], TableDates[j], TableSeconds[j] - TableSeconds[i], TableTargets[i][j]);
  }

  lemma TableGap(i: int, j: int)
    requires 0 <= i < 6 && 0 <= j < 6
    ensures Micros(TableDates[j]) == Micros(TableDates[i]) + (TableSeconds[j] - TableSeconds[i]) * MicrosPerSecond
  {
    TableOffsets(i);
    TableOffsets(j);
    SecondsApart(TableSeconds[j], TableSeconds[i]);
  }

  lemma SecondsApart(a: int, b: int)
    ensures a * MicrosPerSecond - b * MicrosPerSecond == (a - b) * MicrosPerSecond
  {
  }

  /** Instants `k` whole seconds apart are `k // 60 * 60` apart for `compute_remaining`. */
  lemma GapOfSeconds(s: DateTime, e: DateTime, k: int, t: int)
    requires Micros(e) == Micros(s) + k * MicrosPerSecond && t == k / 60 * 60
    ensures ComputeRemaining(AtInstant(s), AtInstant(e)) == Ok(t)
  {
    FloorOfSeconds(k);
  }

  lemma TableArithmetic(i: int, j: int)
    requires 0 <= i < 6 && 0 <= j < 6
    ensures (TableSeconds[j] - TableSeconds[i]) / 60 * 60 == TableTargets[i][j]
  {
    var row := TableTargets[i];
    if i == 0 { assert row == [0, 0, 0, 60, 60, 60]; }
    else if i == 1 { assert row == [-60, 0, 0, 0, 60, 60]; }
    else if i == 2 { assert row == [-60, -60, 0, 0, 0, 60]; }
    else if i == 3 { assert row == [-60, -60, -60, 0, 0, 0]; }
    else if i == 4 { assert row == [-120, -60, -60, -60, 0, 0]; }
    else { assert row == [-120, -120, -60, -60, -60, 0]; }
  }

  /** Numbers are refused in either position. */
  lemma ComputeRemainingRefusesNumbers(dt: DateTime, x: real, y: real)
    ensures ComputeRemaining(Number(x), AtInstant(dt)) == Err(ValueError)
    ensures ComputeRemaining(AtInstant(dt), Number(y)) == Err(ValueError)
    ensures ComputeRemaining(Number(x), Number(y)) == Err(ValueError)
  {
  }

  // ---------------------------------------------------------------------
  // Departure
  // ---------------------------------------------------------------------

  /** The Python type of the `when` argument. */
  datatype WhenArg =
    | Timestamp(seconds: real)   // an int or a float: a POSIX timestamp
    | Text(s: string)            // a str, handed to dateutil's parse
    | Instant(dt: DateTime)      // a datetime
    | Other                      // anything else, such as a list

  /** A departure: `since` is the reference instant `remaining` is measured from. */
  datatype Departure = Departure(start: string, end: string, when: DateTime, line: string, since: DateTime)

  /** `dep.remaining`. */
  function Remaining(d: Departure): int {
    FlooredGap(d.since, d.when)
  }

  const HalfDayMicros: int := 43200 * MicrosPerSecond

  /** The characters stripped from the end of a textual time: white space
      and the `*` that marks an estimated time. */
  const MarkerChars: set<char> := Whitespace + {'*'}

  function StripMarker(s: string): string {
    RStrip(s, MarkerChars)
  }

  /** The instant `when` denotes before any rollover. `parse` is dateutil's
      parser (`None` where it raises `ValueError`) and `fromTimestamp` is
      `datetime.fromtimestamp`, with the error it raises for a timestamp out
      of range. */
  function RawInstant(when: WhenArg, parse: string -> Option<DateTime>,
                      fromTimestamp: real -> Result<DateTime>): (r: Result<DateTime>)
    ensures when.Other? ==> r == Err(TypeError)
    ensures when.Text? ==> r == if parse(StripMarker(when.s)).Some?
                                then Ok(parse(StripMarker(when.s)).value) else Err(ValueError)
    ensures when.Timestamp? ==> r == fromTimestamp(when.seconds)
    ensures when.Instant? ==> r == Ok(when.dt)
  {
    match when
    case Timestamp(t) => fromTimestamp(t)
    case Text(s) =>
      var p := parse(StripMarker(s));
      if p.Some? then Ok(p.value) else Err(ValueError)
    case Instant(dt) => Ok(dt)
    case Other => Err(TypeError)
  }

  /** The rollover condition: enabled, and more than twelve hours in the past. */
  predicate RollsOver(w: DateTime, since: DateTime, noAddDay: bool) {
    !noAddDay && Micros(w) - Micros(since) < -HalfDayMicros
  }

  /** `Departure(start, end, when, line, since=since, no_add_day=noAddDay)`;
      `now` is what `datetime.now()` returns when `since` is omitted. The
      rollover adds one calendar day, as `timedelta(days=1)` does, whatever
      the type of `when`: the regression test passes a `datetime`. */
  function NewDeparture(start: string, end: string, when: WhenArg, line: string,
                        since: Option<DateTime>, noAddDay: bool, now: DateTime,
                        parse: string -> Option<DateTime>,
                        fromTimestamp: real -> Result<DateTime>): (r: Result<Departure>)
    ensures var raw := RawInstant(when, parse, fromTimestamp);
      && (raw.Err? ==> r == Err(raw.error))
      && (raw.Ok? && RollsOver(raw.value, since.GetOr(now), noAddDay)
          && raw.value.year == 9999 && raw.value.month == 12 && raw.value.day == 31
          ==> r == Err(OverflowError))
    ensures r.Ok? ==>
      var raw := RawInstant(when, parse, fromTimestamp).value;
      && r.value.start == start && r.value.end == end && r.value.line == line
      && r.value.since == since.GetOr(now)
      && RawInstant(when, parse, fromTimestamp).Ok?
      && if RollsOver(raw, since.GetOr(now), noAddDay)
         then Micros(r.value.when) == Micros(raw) + MicrosPerDay
         else r.value.when == raw
  {
    var reference := since.GetOr(now);
    var raw :- RawInstant(when, parse, fromTimestamp);
    if RollsOver(raw, reference, noAddDay) then
      var w :- NextDay(raw);
      NextDayIsOneDayLater(raw);
      Ok(Departure(start, end, w, line, reference))
    else Ok(Departure(start, end, raw, line, reference))
  }

  /** Construction fails only where the input is refused or the rollover
      would pass the last representable day. */
  lemma NewDepartureSucceeds(start: string, end: string, when: WhenArg, line: string,
                             since: Option<DateTime>, noAddDay: bool, now: DateTime,
                             parse: string -> Option<DateTime>, fromTimestamp: real -> Result<DateTime>)
    requires RawInstant(when, parse, fromTimestamp).Ok?
    requires var raw := RawInstant(when, parse, fromTimestamp).value;
      !(raw.year == 9999 && raw.month == 12 && raw.day == 31)
    ensures NewDeparture(start, end, when, line, since, noAddDay, now, parse, fromTimestamp).Ok?
  {
  }

  /** `remaining` is the floored gap to the raw instant, plus a whole day
      exactly when it rolled over. */
  lemma RemainingAfterRollover(start: string, end: string, when: WhenArg, line: string,
                               since: Option<DateTime>, noAddDay: bool, now: DateTime,
                               parse: string -> Option<DateTime>, fromTimestamp: real -> Result<DateTime>)
    requires NewDeparture(start, end, when, line, since, noAddDay, now, parse, fromTimestamp).Ok?
    ensures var d := NewDeparture(start, end, when, line, since, noAddDay, now, parse, fromTimestamp).value;
      var raw := RawInstant(when, parse, fromTimestamp).value;
      var reference := since.GetOr(now);
      Remaining(d) == FlooredGap(reference, raw) + if RollsOver(raw, reference, noAddDay) then 86400 else 0
  {
    var d := NewDeparture(start, end, when, line, since, noAddDay, now, parse, fromTimestamp).value;
    var raw := RawInstant(when, parse, fromTimestamp).value;
    var reference := since.GetOr(now);
    RemainingOfRolled(d, Micros(raw), RollsOver(raw, reference, noAddDay));
  }

  lemma RemainingOfRolled(d: Departure, b: int, rolled: bool)
    requires Micros(d.when) == b + if rolled then MicrosPerDay else 0
    ensures Remaining(d) == FloorToMinute(b - Micros(d.since)) + if rolled then 86400 else 0
  {
    FloorOfShiftedGap(Micros(d.when), b, Micros(d.since), rolled);
  }

  /** A gap shifted by a whole day, or not, is floored likewise. */
  lemma FloorOfShiftedGap(a: int, b: int, c: int, rolled: bool)
    requires a == b + if rolled then MicrosPerDay else 0
    ensures FloorToMinute(a - c) == FloorToMinute(b - c) + if rolled then 86400 else 0
  {
    if rolled {
      FloorShiftsByDay(b - c);
    }
  }

  /** With rollover enabled, the stored `when` lies within twelve hours of
      `since` (from twelve hours before, inclusive, to twelve hours after)
      exactly when the raw instant lies from a day and a half before
      `since`, inclusive, to twelve hours after it. */
  lemma NormalisedWithinHalfDay(start: string, end: string, when: WhenArg, line: string,
                                since: Option<DateTime>, now: DateTime,
                                parse: string -> Option<DateTime>, fromTimestamp: real -> Result<DateTime>)
    requires NewDeparture(start, end, when, line, since, false, now, parse, fromTimestamp).Ok?
    ensures var raw := RawInstant(when, parse, fromTimestamp).value;
      var d := NewDeparture(start, end, when, line, since, false, now, parse, fromTimestamp).value;
      (-HalfDayMicros <= Micros(d.when) - Micros(d.since) < HalfDayMicros) <==>
      (-MicrosPerDay - HalfDayMicros <= Micros(raw) - Micros(since.GetOr(now)) < HalfDayMicros)
  {
  }

  /** The departures of the `since` tests: a raw instant `k` seconds from
      `since`, no more than two and a half minutes away, is never rolled
      over, whatever the type of `when`, and `remaining` is `k // 60 * 60`. */
  lemma RemainingOfNearbyDeparture(when: WhenArg, w: DateTime, s: DateTime, k: int, noAddDay: bool,
                                   now: DateTime, parse: string -> Option<DateTime>,
                                   fromTimestamp: real -> Result<DateTime>)
    requires RawInstant(when, parse, fromTimestamp) == Ok(w)
    requires -150 <= k <= 150 && Micros(w) == Micros(s) + k * MicrosPerSecond
    ensures var r := NewDeparture("from", "to", when, "line", Some(s), noAddDay, now, parse, fromTimestamp);
      r.Ok? && Remaining(r.value) == k / 60 * 60
  {
    BehindHalfDay(k);
    assert !RollsOver(w, s, noAddDay);
    FloorOfSeconds(k);
  }

  /** Outside that window the rollover does not normalise: a raw instant
      twelve hours or more after the reference is kept, and one more than a
      day and a half before it is moved by one day only, so it stays more
      than twelve hours before. */
  lemma FarInstantsStayFar(start: string, end: string, when: WhenArg, line: string,
                           since: Option<DateTime>, now: DateTime,
                           parse: string -> Option<DateTime>, fromTimestamp: real -> Result<DateTime>)
    requires NewDeparture(start, end, when, line, since, false, now, parse, fromTimestamp).Ok?
    ensures var d := NewDeparture(start, end, when, line, since, false, now, parse, fromTimestamp).value;
      var gap := Micros(RawInstant(when, parse, fromTimestamp).value) - Micros(since.GetOr(now));
      && (gap >= HalfDayMicros ==> Micros(d.when) - Micros(d.since) == gap)
      && (gap < -MicrosPerDay - HalfDayMicros ==> Micros(d.when) - Micros(d.since) < -HalfDayMicros)
  {
  }

  const LateEvening: DateTime := DateTimeFields(2013, 1, 2, 23, 59, 0, 0)

  /** A departure of the regression test whose raw instant `w` is `k` whole
      seconds from `since`: `remaining` is `k // 60 * 60`, or a day more
      when it rolls over. */
  lemma RemainingOfRegression(w: DateTime, s: DateTime, k: int, noAddDay: bool, t: int,
                              now: DateTime, parse: string -> Option<DateTime>,
                              fromTimestamp: real -> Result<DateTime>)
    requires w.year < 9999 && Micros(w) == Micros(s) + k * MicrosPerSecond
    requires t == if !noAddDay && k < -43200 then (k + 86400) / 60 * 60 else k / 60 * 60
    ensures var r := NewDeparture("From My Station", "To Your Station", Instant(w), "A Line",
                                  Some(s), noAddDay, now, parse, fromTimestamp);
      r.Ok? && Remaining(r.value) == t
  {
    NewDepartureSucceeds("From My Station", "To Your Station", Instant(w), "A Line",
                         Some(s), noAddDay, now, parse, fromTimestamp);
    RemainingAfterRollover("From My Station", "To Your Station", Instant(w), "A Line",
                           Some(s), noAddDay, now, parse, fromTimestamp);
    RolloverOfSeconds(w, s, k, noAddDay);
  }

  /** The rollover of an instant `k` whole seconds from `since`, in seconds. */
  lemma RolloverOfSeconds(w: DateTime, s: DateTime, k: int, noAddDay: bool)
    requires Micros(w) == Micros(s) + k * MicrosPerSecond
    ensures FlooredGap(s, w) + (if RollsOver(w, s, noAddDay) then 86400 else 0)
         == if !noAddDay && k < -43200 then (k + 86400) / 60 * 60 else k / 60 * 60
  {
    FloorOfSeconds(k);
    BehindHalfDay(k);
    assert (k + 86400) / 60 * 60 == k / 60 * 60 + 86400;
  }

  /** `k` whole seconds are more than twelve hours behind exactly below -43200. */
  lemma BehindHalfDay(k: int)
    ensures k * MicrosPerSecond < -HalfDayMicros <==> k < -43200
  {
  }

  /** The regression test, departure at 00:01:02 before 23:59:00 on the
      same day: it is taken as the next morning, two minutes ahead, unless
      `no_add_day` keeps it almost a day behind. */
  lemma RegressionAfterMidnight(now: DateTime, parse: string -> Option<DateTime>,
                                fromTimestamp: real -> Result<DateTime>)
    ensures var r := NewDeparture("From My Station", "To Your Station",
                                  Instant(DateTimeFields(2013, 1, 2, 0, 1, 2, 0)), "A Line",
                                  Some(LateEvening), false, now, parse, fromTimestamp);
      r.Ok? && Remaining(r.value) == 120
    ensures var r := NewDeparture("From My Station", "To Your Station",
                                  Instant(DateTimeFields(2013, 1, 2, 0, 1, 2, 0)), "A Line",
                                  Some(LateEvening), true, now, parse, fromTimestamp);
      r.Ok? && Remaining(r.value) == -86280
  {
    var a := DateTimeFields(2013, 1, 2, 0, 1, 2, 0);
    assert Micros(a) == Micros(LateEvening) + -86278 * MicrosPerSecond;
    RemainingOfRegression(a, LateEvening, -86278, false, 120, now, parse, fromTimestamp);
    RemainingOfRegression(a, LateEvening, -86278, true, -86280, now, parse, fromTimestamp);
  }

  /** The regression test, departure at 11:59:00: exactly twelve hours behind
      is not rolled over. */
  lemma RegressionExactlyHalfDay(noAddDay: bool, now: DateTime, parse: string -> Option<DateTime>,
                                 fromTimestamp: real -> Result<DateTime>)
    ensures var r := NewDeparture("From My Station", "To Your Station",
                                  Instant(DateTimeFields(2013, 1, 2, 11, 59, 0, 0)), "A Line",
                                  Some(LateEvening), noAddDay, now, parse, fromTimestamp);
      r.Ok? && Remaining(r.value) == -43200
  {
    var b := DateTimeFields(2013, 1, 2, 11, 59, 0, 0);
    assert Micros(b) == Micros(LateEvening) + -43200 * MicrosPerSecond;
    RemainingOfRegression(b, LateEvening, -43200, noAddDay, -43200, now, parse, fromTimestamp);
  }

  /** The regression test, departure at 11:58:59: one second more than twelve
      hours behind is rolled over to the next day. */
  lemma RegressionOverHalfDay(now: DateTime, parse: string -> Option<DateTime>,
                              fromTimestamp: real -> Result<DateTime>)
    ensures var r := NewDeparture("From My Station", "To Your Station",
                                  Instant(DateTimeFields(2013, 1, 2, 11, 58, 59, 0)), "A Line",
                                  Some(LateEvening), false, now, parse, fromTimestamp);
      r.Ok? && Remaining(r.value) == 43140
    ensures var r := NewDeparture("From My Station", "To Your Station",
                                  Instant(DateTimeFields(2013, 1, 2, 11, 58, 59, 0)), "A Line",
                                  Some(LateEvening), true, now, parse, fromTimestamp);
      r.Ok? && Remaining(r.value) == -43260
  {
    var c := DateTimeFields(2013, 1, 2, 11, 58, 59, 0);
    assert Micros(c) == Micros(LateEvening) + -43201 * MicrosPerSecond;
    RemainingOfRegression(c, LateEvening, -43201, false, 43140, now, parse, fromTimestamp);
    RemainingOfRegression(c, LateEvening, -43201, true, -43260, now, parse, fromTimestamp);
  }

  /** The error test: a list is a `TypeError` and an unparseable string is
      the parser's `ValueError`. */
  lemma ConstructionErrors(since: Option<DateTime>, noAddDay: bool, now: DateTime,
                           parse: string -> Option<DateTime>, fromTimestamp: real -> Result<DateTime>)
    ensures NewDeparture("from", "to", Other, "line", since, noAddDay, now, parse, fromTimestamp)
         == Err(TypeError)
    ensures parse("when").None? ==>
      NewDeparture("from", "to", Text("when"), "line", since, noAddDay, now, parse, fromTimestamp)
        == Err(ValueError)
  {
    assert "when"[3] !in MarkerChars;
  }

  /** The estimated-time marker and the white space before it are stripped
      before the text reaches the parser. */
  lemma MarkerIsStripped()
    ensures StripMarker("16:15\n \t*") == "16:15"
  {
    assert "16:15" + "\n \t*" == "16:15\n \t*";
    RStripTail("16:15", "\n \t*", MarkerChars);
  }

  /** So a time followed by the marker builds a departure whenever the
      parser accepts the bare time. */
  lemma MarkedTimeIsAccepted(since: Option<DateTime>, noAddDay: bool, now: DateTime,
                             parse: string -> Option<DateTime>, fromTimestamp: real -> Result<DateTime>)
    requires parse("16:15").Some?
    requires var p := parse("16:15").value; !(p.year == 9999 && p.month == 12 && p.day == 31)
    ensures NewDeparture("from", "to", Text("16:15\n \t*"), "line", since, noAddDay, now, parse,
                         fromTimestamp).Ok?
  {
    MarkerIsStripped();
  }

  // ---------------------------------------------------------------------
  // Response
  // ---------------------------------------------------------------------

  /** One station's departures. */
  datatype StationGroup = StationGroup(station: string, departures: seq<Departure>)

  /** The `station` argument: a name, a list of candidate names from an
      ambiguous query, or absent. */
  datatype StationArg = Name(name: string) | Candidates(names: seq<string>) | NoStation

  /** What a failed response reports. */
  datatype ErrorDetail = Ambiguous(candidates: seq<string>) | NotFound | Fault(message: string)

  /** What the `departures` accessor returns: the groups, or the error. */
  datatype DeparturesView = Groups(groups: seq<StationGroup>) | Failure(error: Option<ErrorDetail>)

  /** The argument of `merge`: a response, or a value of another type. */
  datatype MergeArg = AResponse(response: Response) | NotAResponse

  class Response {
    var state: bool
    var groups: seq<StationGroup>
    var error: Option<ErrorDetail>

    /** `Response(state, station, departures, error)`. A raw error message,
        a list of candidates or a missing station each force the failed
        state; a list of candidates is recognised before an empty one. */
    constructor (state: bool, station: StationArg, departures: seq<Departure>, message: Option<string>)
      ensures message.Some? ==> !this.state && error == Some(Fault(message.value)) && groups == []
      ensures message.None? && station.Candidates? ==>
        !this.state && error == Some(Ambiguous(station.names)) && groups == []
      ensures message.None? && (station.NoStation? || station == Name("")) ==>
        !this.state && error == Some(NotFound) && groups == []
      ensures message.None? && station.Name? && station.name != "" ==>
        this.state == state && error == None && groups == [StationGroup(station.name, departures)]
    {
      if message.Some? {
        this.state, error, groups := false, Some(Fault(message.value)), [];
      } else if station.Candidates? {
        this.state, error, groups := false, Some(Ambiguous(station.names)), [];
      } else if station.NoStation? || station.name == "" {
        this.state, error, groups := false, Some(NotFound), [];
      } else {
        this.state, error, groups := state, None, [StationGroup(station.name, departures)];
      }
    }

    /** The `departures` accessor: the groups of a successful response, the
        error of a failed one. */
    function Departures(): (v: DeparturesView)
      reads this
      ensures v.Groups? <==> state
      ensures v.Groups? ==> v.groups == groups
      ensures v.Failure? ==> v.error == error
    {
      if state then Groups(groups) else Failure(error)
    }

    /** `merge(other)`: refuses a non-response with `TypeError` and a failed
        receiver or argument with `ValueError`, changing nothing then;
        otherwise appends the argument's groups after the receiver's. The
        type is checked before the states. */
    method Merge(other: MergeArg) returns (raised: Option<Exception>)
      modifies this
      ensures other.NotAResponse? ==> raised == Some(TypeError)
      ensures other.AResponse? && !(old(state) && old(other.response.state)) ==> raised == Some(ValueError)
      ensures raised.None? <==> other.AResponse? && old(state) && old(other.response.state)
      ensures raised.None? ==> groups == old(groups) + old(other.response.groups)
      ensures raised.Some? ==> groups == old(groups)
      ensures state == old(state) && error == old(error)
    {
      if other.NotAResponse? {
        return Some(TypeError);
      }
      if !state || !other.response.state {
        return Some(ValueError);
      }
      groups := groups + other.response.groups;
      raised := None;
    }
  }

  /** The merge test: two successful responses and a failed one. */
  method MergeScenario(departures: seq<Departure>, departures2: seq<Departure>)
    returns (r1Groups: seq<StationGroup>, e1: Option<Exception>, e2: Option<Exception>,
             e3: Option<Exception>, e4: Option<Exception>)
    ensures e1 == Some(ValueError) && e2 == Some(ValueError) && e3 == Some(TypeError) && e4 == None
    ensures r1Groups == [StationGroup("Marchbrücke", departures), StationGroup("S Tiergarten", departures2)]
  {
    var r1 := new Response(true, Name("Marchbrücke"), departures, None);
    var r2 := new Response(true, Name("S Tiergarten"), departures2, None);
    var r3 := new Response(false, Candidates([]), [], None);
    e1 := r1.Merge(AResponse(r3));
    e2 := r3.Merge(AResponse(r2));
    e3 := r1.Merge(NotAResponse);
    e4 := r1.Merge(AResponse(r2));
    r1Groups := r1.groups;
  }
}
