/** `printOutput` of the stand-alone script `bvggrabber/bvg-grabber.py`: the
    minutes until each departure, the rollover past midnight, the "now" /
    "in N min" label and the fixed-width line it prints. The clock
    (`datetime.today()`) is a parameter; printing becomes the sequence of
    lines printed. */
module GrabberScript {
  import opened Wrappers
  import opened Text
  import opened Format

  // ---------------------------------------------------------------------
  // int(s)
  // ---------------------------------------------------------------------

  /** Python's `int(s)` on a string: surrounding white space, an optional
      sign, then one or more decimal digits; anything else is a ValueError. */
  function ParseInt(s: string): (r: Result<int>)
    ensures r.Err? ==> r.error == ValueError
  {
    var t := Strip(s, Whitespace);
    if |t| >= 2 && (t[0] == '-' || t[0] == '+') && AllDigitsBelow(t[1..], 10) then
      var v: int := NumeralValue(t[1..], 10);
      Ok(if t[0] == '-' then -v else v)
    else if |t| >= 1 && AllDigitsBelow(t, 10) then
      Ok(NumeralValue(t, 10))
    else
      Err(ValueError)
  }

  /** A string that neither starts nor ends with white space is left alone
      by both strips. */
  lemma NotStripped(s: string)
    requires |s| >= 1 && s[0] !in Whitespace && s[|s| - 1] !in Whitespace
    ensures Strip(s, Whitespace) == s
  {
  }

  /** No digit is white space. */
  lemma DigitIsNotWhitespace(c: char)
    requires IsDigitBelow(c, 10)
    ensures c !in Whitespace
  {
    assert c as int >= '0' as int;
  }

  /** A non-empty run of digits is left alone by both strips. */
  lemma DigitsAreNotStripped(s: string)
    requires |s| >= 1 && AllDigitsBelow(s, 10)
    ensures Strip(s, Whitespace) == s
  {
    assert IsDigitBelow(s[|s| - 1], 10);
    assert IsDigitBelow(s[0], 10);
    DigitIsNotWhitespace(s[0]);
    DigitIsNotWhitespace(s[|s| - 1]);
    NotStripped(s);
  }

  /** A string of white space only, the empty one included, is not a number. */
  lemma ParseIntRejectsBlank(s: string)
    requires forall i :: 0 <= i < |s| ==> s[i] in Whitespace
    ensures ParseInt(s) == Err(ValueError)
  {
    StripAll(s, Whitespace);
  }

  /** `int` reads a run of digits as the number they denote. */
  lemma ParseIntOfDigits(s: string)
    requires |s| >= 1 && AllDigitsBelow(s, 10)
    ensures ParseInt(s).Ok? && ParseInt(s).value == NumeralValue(s, 10)
  {
    DigitsAreNotStripped(s);
    assert IsDigitBelow(s[0], 10);
    assert s[0] != '-' && s[0] != '+';
  }

  /** `int` reads a numeral back as its value. */
  lemma ParseIntOfNumeral(n: nat)
    ensures ParseInt(Numeral(n, 10)) == Ok(n)
  {
    NumeralRoundTrip(n, 10);
    ParseIntOfDigits(Numeral(n, 10));
  }

  /** `int` reads a numeral after a '-' back as its negation. */
  lemma ParseIntOfNegative(n: nat)
    ensures ParseInt("-" + Numeral(n, 10)) == Ok(-(n as int))
  {
    var s := Numeral(n, 10);
    NumeralRoundTrip(n, 10);
    var t := "-" + s;
    assert t[|t| - 1] == s[|s| - 1];
    assert IsDigitBelow(s[|s| - 1], 10);
    DigitIsNotWhitespace(s[|s| - 1]);
    assert t[0] == '-';
    assert '-' !in Whitespace;
    NotStripped(t);
    assert t[1..] == s;
    assert t[0] == '-';
  }

  /** `int` reads a two-digit field back as its value. */
  lemma ParseIntOfTwoDigits(n: nat)
    requires n < 100
    ensures ParseInt(TwoDigits(n)) == Ok(n)
  {
    ParseIntOfDigits(TwoDigits(n));
  }

  // ---------------------------------------------------------------------
  // The departure time (bvg-grabber.py:21)
  // ---------------------------------------------------------------------

  /** Seconds since midnight of a "HH:MM" time, possibly marked with '*':
      every '*' is removed, the rest is split at ':', and the field before
      the first ':' counts hours, the one after it minutes. A field that is
      not an integer is a ValueError, a missing minute field an IndexError. */
  function DepartureSeconds(time: string): (r: Result<int>)
    ensures r.Err? ==> r.error == ValueError || r.error == IndexError
    ensures r.Err? && r.error == IndexError ==> ':' !in DeleteAll(time, "*")
  {
    var parts := Split(DeleteAll(time, "*"), ':');
    var h := ParseInt(parts[0]);
    if h.Err? then Err(h.error)
    else if |parts| < 2 then Err(IndexError)
    else
      var m := ParseInt(parts[1]);
      if m.Err? then Err(m.error) else Ok(h.value * 3600 + m.value * 60)
  }

  /** Removing every copy of a character distributes over concatenation. */
  lemma {:induction false} DeleteCharOfConcat(a: string, b: string, c: char)
    ensures DeleteAll(a + b, [c]) == DeleteAll(a, [c]) + DeleteAll(b, [c])
    decreases |a|
  {
    if |a| == 0 {
      assert a + b == b;
    } else {
      assert (a + b)[1..] == a[1..] + b;
      assert (a + b)[..1] == [a[0]];
      assert a[..1] == [a[0]];
      DeleteCharOfConcat(a[1..], b, c);
    }
  }

  /** Removing a character that does not occur changes nothing. */
  lemma {:induction false} DeleteAbsentChar(s: string, c: char)
    requires c !in s
    ensures DeleteAll(s, [c]) == s
    decreases |s|
  {
    if |s| >= 1 {
      assert s[..1] == [s[0]];
      assert c !in s[1..];
      DeleteAbsentChar(s[1..], c);
      assert s == [s[0]] + s[1..];
    }
  }

  /** The "HH:MM" shape the service sends, with an optional '*' marker. */
  function Clock(h: nat, m: nat, marked: bool): string
    requires h < 100 && m < 100
  {
    TwoDigits(h) + ":" + TwoDigits(m) + (if marked then "*" else "")
  }

  /** Two-digit fields hold neither ':' nor '*'. */
  lemma TwoDigitsHoldNoMarks(n: nat)
    requires n < 100
    ensures ':' !in TwoDigits(n) && '*' !in TwoDigits(n)
  {
    var a := TwoDigits(n);
    assert forall i :: 0 <= i < |a| ==> IsDigitBelow(a[i], 10);
  }

  /** Removing the '*' of a clock time leaves "HH:MM". */
  lemma StarsRemoved(h: nat, m: nat, marked: bool)
    requires h < 100 && m < 100
    ensures DeleteAll(Clock(h, m, marked), "*") == TwoDigits(h) + ":" + TwoDigits(m)
  {
    var a, b := TwoDigits(h), TwoDigits(m);
    TwoDigitsHoldNoMarks(h);
    TwoDigitsHoldNoMarks(m);
    NoMarkInClock(a, b);
    MarkRemoved(a + ":" + b, marked);
  }

  lemma NoMarkInClock(a: string, b: string)
    requires '*' !in a && '*' !in b
    ensures '*' !in a + ":" + b
  {
  }

  /** Removing '*' from a text free of it, with a '*' possibly appended,
      gives the text back. */
  lemma MarkRemoved(plain: string, marked: bool)
    requires '*' !in plain
    ensures DeleteAll(plain + (if marked then "*" else ""), "*") == plain
  {
    DeleteAbsentChar(plain, '*');
    if marked {
      DeleteCharOfConcat(plain, "*", '*');
      assert "*"[1..] == [];
      assert DeleteAll("*", "*") == [];
    } else {
      assert plain + "" == plain;
    }
  }

  /** "HH:MM" splits at ':' into its two fields. */
  lemma ClockSplits(h: nat, m: nat)
    requires h < 100 && m < 100
    ensures Split(TwoDigits(h) + ":" + TwoDigits(m), ':') == [TwoDigits(h), TwoDigits(m)]
  {
    TwoDigitsHoldNoMarks(h);
    TwoDigitsHoldNoMarks(m);
    SplitTwo(TwoDigits(h), TwoDigits(m), ':');
  }

  /** A clock time, marked or not, is read back as its hours and minutes. */
  lemma DepartureSecondsOfClock(h: nat, m: nat, marked: bool)
    requires h < 100 && m < 100
    ensures DepartureSeconds(Clock(h, m, marked)).Ok?
    ensures DepartureSeconds(Clock(h, m, marked)).value == h * 3600 + m * 60
  {
    StarsRemoved(h, m, marked);
    ClockSplits(h, m);
    ParseIntOfTwoDigits(h);
    ParseIntOfTwoDigits(m);
    FieldsRead(Clock(h, m, marked), TwoDigits(h), TwoDigits(m), h, m);
  }

  /** A time whose two fields read as `h` and `m` is `h` hours and `m` minutes. */
  lemma FieldsRead(time: string, a: string, b: string, h: int, m: int)
    requires Split(DeleteAll(time, "*"), ':') == [a, b]
    requires ParseInt(a) == Ok(h) && ParseInt(b) == Ok(m)
    ensures DepartureSeconds(time).Ok? && DepartureSeconds(time).value == h * 3600 + m * 60
  {
  }

  // ---------------------------------------------------------------------
  // Minutes until departure (bvg-grabber.py:18, 22-27)
  // ---------------------------------------------------------------------

  /** Seconds since midnight of the current hour and minute. */
  function CurrentSeconds(hour: int, minute: int): int {
    hour * 3600 + minute * 60
  }

  /** The departure time after the rollover: a departure more than one minute
      in the past is taken to be tomorrow's, 24 hours later. The script's
      test `(departure - current) / 60 < -1` is a true division, so it holds
      exactly when the difference is below -60 seconds. */
  function Rolled(departure: int, current: int): (r: int)
    ensures r == departure || r == departure + 86400
    ensures r == departure <==> departure - current >= -60
  {
    if departure - current < -60 then departure + 86400 else departure
  }

  /** The minutes until departure. Both times are whole minutes (see
      `DepartureSeconds` and `CurrentSeconds`), so the script's true division
      by 60, and the `%2d` conversion of it, give this integer. */
  function MinutesUntil(departure: int, current: int): (x: int)
    ensures x * 60 <= Rolled(departure, current) - current < x * 60 + 60
  {
    (Rolled(departure, current) - current) / 60
  }

  /** For clock times of one day the minutes until departure lie between -1
      and 1439, and they agree with the plain difference of minutes of the
      day modulo one day. */
  lemma MinutesUntilInRange(h: nat, m: nat, hour: nat, minute: nat)
    requires h < 24 && m < 60 && hour < 24 && minute < 60
    ensures var x := MinutesUntil(h * 3600 + m * 60, CurrentSeconds(hour, minute));
      -1 <= x <= 1439 && (x - ((h * 60 + m) - (hour * 60 + minute))) % 1440 == 0
  {
    var d := (h * 60 + m) - (hour * 60 + minute);
    var dep, cur := h * 3600 + m * 60, CurrentSeconds(hour, minute);
    assert dep - cur == 60 * d;
    var x := MinutesUntil(dep, cur);
    if d < -1 {
      assert Rolled(dep, cur) - cur == 60 * (d + 1440);
      assert x == d + 1440;
    } else {
      assert x == d;
    }
  }

  /** The label: "now" below two minutes, else "in %2d min". */
  function Label(x: int): (s: string)
    ensures x >= 2 ==> |s| >= 9
  {
    if x < 2 then "now" else "in " + PadLeft(Numeral(x, 10), 2, ' ') + " min"
  }

  /** Spaces put in front of a string that does not start with one are
      exactly what `lstrip(' ')` takes away. */
  lemma {:induction false} LStripPadding(k: nat, s: string)
    requires |s| >= 1 && s[0] != ' '
    ensures LStrip(Repeat(' ', k) + s, {' '}) == s
    decreases k
  {
    if k > 0 {
      RepeatCons(' ', k);
      assert Repeat(' ', k) + s == [' '] + (Repeat(' ', k - 1) + s);
      LStripCons(' ', Repeat(' ', k - 1) + s, {' '});
      LStripPadding(k - 1, s);
    } else {
      assert Repeat(' ', k) + s == s;
      LStripKeeps(s, {' '});
    }
  }

  /** The label is "now" exactly below two minutes; otherwise it reads
      "in ", the minutes right-aligned in two places, and " min". */
  lemma LabelShape(x: int)
    ensures Label(x) == "now" <==> x < 2
    ensures x >= 2 ==>
      |Label(x)| >= 9 && Label(x) == "in " + Label(x)[3..|Label(x)| - 4] + " min" &&
      Label(x)[3..|Label(x)| - 4] == PadLeft(Numeral(x, 10), 2, ' ')
  {
    if x >= 2 {
      var padded := PadLeft(Numeral(x, 10), 2, ' ');
      var s := Label(x);
      assert s == "in " + padded + " min";
      assert s[3..|s| - 4] == padded;
      assert s != "now" by { assert |s| != 3; }
    }
  }

  /** The minutes shown in a label other than "now" read back, once the
      padding is stripped, as the minutes themselves. */
  lemma LabelReadsBack(x: int)
    requires x >= 2
    ensures NumeralValue(LStrip(Label(x)[3..|Label(x)| - 4], {' '}), 10) == x
  {
    LabelShape(x);
    var digits := Numeral(x, 10);
    var padded := PadLeft(digits, 2, ' ');
    assert Label(x)[3..|Label(x)| - 4] == padded;
    assert padded == Repeat(' ', |padded| - |digits|) + digits;
    assert IsDigitBelow(digits[0], 10);
    LStripPadding(|padded| - |digits|, digits);
    NumeralRoundTrip(x, 10);
  }

  /** Just before midnight a departure at 00:01 is two minutes away, shown
      as "in  2 min"; one that left at 23:58 is shown as "now". */
  lemma MidnightExamples()
    ensures Label(MinutesUntil(0 * 3600 + 1 * 60, CurrentSeconds(23, 59))) == "in  2 min"
    ensures Label(MinutesUntil(23 * 3600 + 58 * 60, CurrentSeconds(23, 59))) == "now"
  {
    assert MinutesUntil(60, CurrentSeconds(23, 59)) == 2;
    assert Numeral(2, 10) == "2";
    assert PadLeft("2", 2, ' ') == " 2";
  }

  /** `'%-9s%-31s%12s' % (line, direction, shown)`. */
  function Row(line: string, direction: string, shown: string): string {
    PadRight(line, 9, ' ') + PadRight(direction, 31, ' ') + PadLeft(shown, 12, ' ')
  }

  /** Fields within their widths make a 52-character row with the line at
      the start, the direction from column 9 and the label flush right. */
  lemma RowLayout(line: string, direction: string, shown: string)
    requires |line| <= 9 && |direction| <= 31 && |shown| <= 12
    ensures var r := Row(line, direction, shown);
      |r| == 52 && r[..9] == PadRight(line, 9, ' ') && r[9..40] == PadRight(direction, 31, ' ') &&
      r[40..] == PadLeft(shown, 12, ' ')
    ensures var r := Row(line, direction, shown);
      r[..|line|] == line && r[9..9 + |direction|] == direction && r[52 - |shown|..] == shown
  {
    var a, b, c := PadRight(line, 9, ' '), PadRight(direction, 31, ' '), PadLeft(shown, 12, ' ');
    var r := Row(line, direction, shown);
    ThreeParts(a, b, c);
    PrefixOfSlice(r, 0, 9, |line|);
    PrefixOfSlice(r, 9, 31, |direction|);
    SuffixOfSuffix(r, 40, 12 - |shown|);
  }

  /** A concatenation of three strings is sliced back into them. */
  lemma ThreeParts(a: string, b: string, c: string)
    ensures var r := a + b + c;
      r[..|a|] == a && r[|a|..|a| + |b|] == b && r[|a| + |b|..] == c
  {
    var r := a + b + c;
    assert r[..|a|] == a;
    assert r[|a|..|a| + |b|] == b;
    assert r[|a| + |b|..] == c;
  }

  lemma PrefixOfSlice(r: string, i: nat, n: nat, k: nat)
    requires k <= n && i + n <= |r|
    ensures r[i..i + n][..k] == r[i..i + k]
  {
  }

  lemma SuffixOfSuffix(r: string, i: nat, j: nat)
    requires i + j <= |r|
    ensures r[i..][j..] == r[i + j..]
  {
  }

  // ---------------------------------------------------------------------
  // printOutput (bvg-grabber.py:13-29)
  // ---------------------------------------------------------------------

  /** A departure dictionary: the keys the script reads, each possibly absent. */
  datatype DepartureEntry = DepartureEntry(time: Option<string>, line: Option<string>, direction: Option<string>)

  /** A station dictionary, whose 'departures' may be absent. */
  datatype StationEntry = StationEntry(departures: Option<seq<DepartureEntry>>)

  /** The decoded reply: an 'error' entry, or a possibly absent 'stations' list. */
  datatype Reply = Reply(error: Option<string>, stations: Option<seq<StationEntry>>)

  /** What `printOutput` prints, and the exception that stopped it, if any. */
  datatype Printed = Printed(lines: seq<string>, raised: Option<Exception>)

  /** The line printed for one departure; a missing key is a KeyError,
      looked up in the order 'time', 'line', 'direction'. */
  function DepartureLine(d: DepartureEntry, current: int): (r: Result<string>)
    ensures d.time.None? || d.line.None? || d.direction.None? ==> r.Err?
    ensures r.Ok? <==>
      d.time.Some? && DepartureSeconds(d.time.value).Ok? && d.line.Some? && d.direction.Some?
  {
    if d.time.None? then Err(KeyError)
    else
      var departure :- DepartureSeconds(d.time.value);
      var x := MinutesUntil(departure, current);
      if d.line.None? || d.direction.None? then Err(KeyError)
      else Ok(Row(d.line.value, d.direction.value, Label(x)))
  }

  /** A departure whose time reads as `seconds` prints as its line, its
      direction and the label of the minutes until then. */
  lemma DepartureLineOfTime(d: DepartureEntry, current: int, seconds: int)
    requires d.time.Some? && d.line.Some? && d.direction.Some?
    requires DepartureSeconds(d.time.value).Ok? && DepartureSeconds(d.time.value).value == seconds
    ensures DepartureLine(d, current).Ok?
    ensures DepartureLine(d, current).value == Row(d.line.value, d.direction.value, Label(MinutesUntil(seconds, current)))
  {
  }

  /** The lines printed for a sequence of per-departure results, up to the
      first failure. */
  function Lines(results: seq<Result<string>>): (p: Printed)
    ensures |p.lines| <= |results|
    decreases |results|
  {
    if results == [] then Printed([], None)
    else
      var p := Lines(results[..|results| - 1]);
      if p.raised.Some? then p
      else match results[|results| - 1]
        case Ok(l) => Printed(p.lines + [l], None)
        case Err(e) => Printed(p.lines, Some(e))
  }

  /** What printing each departure of a list yields. */
  function LineResults(deps: seq<DepartureEntry>, current: int): (rs: seq<Result<string>>)
    ensures |rs| == |deps|
  {
    seq(|deps|, k requires 0 <= k < |deps| => DepartureLine(deps[k], current))
  }

  /** The lines printed for a list of departures, up to the first failure. */
  function DeparturesOutput(deps: seq<DepartureEntry>, current: int): (p: Printed)
    ensures |p.lines| <= |deps|
  {
    Lines(LineResults(deps, current))
  }

  /** The lines printed for a list of stations: each station's departures
      and then an empty line, up to the first failure. */
  function StationsOutput(stations: seq<StationEntry>, current: int): (p: Printed)
    decreases |stations|
  {
    if stations == [] then Printed([], None)
    else
      var p := StationsOutput(stations[..|stations| - 1], current);
      if p.raised.Some? then p
      else
        var q := DeparturesOutput(stations[|stations| - 1].departures.GetOr([]), current);
        if q.raised.Some? then Printed(p.lines + q.lines, q.raised)
        else Printed(p.lines + q.lines + [""], None)
  }

  /** Everything `printOutput` prints: the station heading, then either the
      error alone or the departures of every station. */
  function Output(reply: Reply, stationName: string, current: int): (p: Printed)
    ensures |p.lines| >= 1 && p.lines[0] == "Station: " + stationName
    ensures reply.error.Some? ==> p == Printed(["Station: " + stationName, reply.error.value], None)
  {
    var head := ["Station: " + stationName];
    if reply.error.Some? then Printed(head + [reply.error.value], None)
    else
      var q := StationsOutput(reply.stations.GetOr([]), current);
      Printed(head + q.lines, q.raised)
  }

  /** When every result is a line, every line is printed, in order. */
  lemma {:induction false} AllLinesPrinted(results: seq<Result<string>>)
    requires forall k :: 0 <= k < |results| ==> results[k].Ok?
    ensures Lines(results).raised.None? && |Lines(results).lines| == |results|
    ensures forall k :: 0 <= k < |results| ==> Lines(results).lines[k] == results[k].value
    decreases |results|
  {
    if results != [] {
      var init := results[..|results| - 1];
      assert forall k :: 0 <= k < |init| ==> init[k] == results[k];
      AllLinesPrinted(init);
    }
  }

  /** The first failing result stops the output: the lines before it are
      printed and its exception is raised. */
  lemma {:induction false} FirstFailureStops(results: seq<Result<string>>, i: nat)
    requires i < |results| && results[i].Err?
    requires forall k :: 0 <= k < i ==> results[k].Ok?
    ensures Lines(results).raised == Some(results[i].error) && |Lines(results).lines| == i
    ensures forall k :: 0 <= k < i ==> Lines(results).lines[k] == results[k].value
    decreases |results|
  {
    var init := results[..|results| - 1];
    assert forall k :: 0 <= k < |init| ==> init[k] == results[k];
    if i == |results| - 1 {
      AllLinesPrinted(init);
    } else {
      FirstFailureStops(init, i);
    }
  }

  /** When every departure can be printed, one line per departure, in order. */
  lemma AllDeparturesPrinted(deps: seq<DepartureEntry>, current: int)
    requires forall k :: 0 <= k < |deps| ==> DepartureLine(deps[k], current).Ok?
    ensures DeparturesOutput(deps, current).raised.None? && |DeparturesOutput(deps, current).lines| == |deps|
    ensures forall k :: 0 <= k < |deps| ==>
      DeparturesOutput(deps, current).lines[k] == DepartureLine(deps[k], current).value
  {
    AllLinesPrinted(LineResults(deps, current));
  }

  /** A departure that cannot be printed stops the output: the lines of the
      departures before it are printed and its exception is raised. */
  lemma FirstFailureStopsOutput(deps: seq<DepartureEntry>, current: int, i: nat)
    requires i < |deps| && DepartureLine(deps[i], current).Err?
    requires forall k :: 0 <= k < i ==> DepartureLine(deps[k], current).Ok?
    ensures DeparturesOutput(deps, current).raised == Some(DepartureLine(deps[i], current).error)
    ensures |DeparturesOutput(deps, current).lines| == i
    ensures forall k :: 0 <= k < i ==>
      DeparturesOutput(deps, current).lines[k] == DepartureLine(deps[k], current).value
  {
    FirstFailureStops(LineResults(deps, current), i);
  }

  /** One more result extends the output by its line or raises its error. */
  lemma LinesStep(results: seq<Result<string>>, j: nat)
    requires j < |results| && Lines(results[..j]).raised.None?
    ensures results[j].Ok? ==>
      Lines(results[..j + 1]).raised.None? && Lines(results[..j + 1]).lines == Lines(results[..j]).lines + [results[j].value]
    ensures results[j].Err? ==>
      Lines(results[..j + 1]).raised == Some(results[j].error) && Lines(results[..j + 1]).lines == Lines(results[..j]).lines
  {
    assert results[..j + 1][..j] == results[..j];
    assert results[..j + 1][j] == results[j];
  }

  /** Once the output has raised, later results add nothing. */
  lemma {:induction false} FailureIsFinal(results: seq<Result<string>>, j: nat)
    requires j <= |results| && Lines(results[..j]).raised.Some?
    ensures Lines(results) == Lines(results[..j])
    decreases |results| - j
  {
    if j < |results| {
      assert results[..j + 1][..j] == results[..j];
      FailureIsFinal(results, j + 1);
    } else {
      assert results[..j] == results;
    }
  }

  /** The inner loop of `printOutput`: the lines of one station's departures,
      stopping at the first exception. */
  method PrintDepartures(deps: seq<DepartureEntry>, current: int)
    returns (lines: seq<string>, raised: Option<Exception>)
    ensures lines == DeparturesOutput(deps, current).lines && raised == DeparturesOutput(deps, current).raised
  {
    ghost var results := LineResults(deps, current);
    lines, raised := [], None;
    var j := 0;
    while j < |deps|
      invariant 0 <= j <= |deps|
      invariant Lines(results[..j]).raised.None? && Lines(results[..j]).lines == lines
    {
      var l := DepartureLine(deps[j], current);
      LinesStep(results, j);
      if l.Err? {
        FailureIsFinal(results, j + 1);
        return lines, Some(l.error);
      }
      lines := lines + [l.value];
      j := j + 1;
    }
    assert results[..j] == results;
  }

  /** One more station extends the output by its departures and an empty
      line, or by the departures before the one that raised. */
  lemma StationsStep(stations: seq<StationEntry>, i: nat, current: int)
    requires i < |stations| && StationsOutput(stations[..i], current).raised.None?
    ensures var p, q := StationsOutput(stations[..i + 1], current),
                        DeparturesOutput(stations[i].departures.GetOr([]), current);
      if q.raised.None? then p.raised.None? && p.lines == StationsOutput(stations[..i], current).lines + q.lines + [""]
      else p.raised == q.raised && p.lines == StationsOutput(stations[..i], current).lines + q.lines
  {
    assert stations[..i + 1][..i] == stations[..i];
    assert stations[..i + 1][i] == stations[i];
  }

  /** Once the stations output has raised, later stations add nothing. */
  lemma {:induction false} StationFailureIsFinal(stations: seq<StationEntry>, i: nat, current: int)
    requires i <= |stations| && StationsOutput(stations[..i], current).raised.Some?
    ensures StationsOutput(stations, current) == StationsOutput(stations[..i], current)
    decreases |stations| - i
  {
    if i < |stations| {
      assert stations[..i + 1][..i] == stations[..i];
      StationFailureIsFinal(stations, i + 1, current);
    } else {
      assert stations[..i] == stations;
    }
  }

  /** The outer loop of `printOutput`: each station's departures followed
      by an empty line, stopping at the first exception. */
  method PrintStations(stations: seq<StationEntry>, current: int)
    returns (lines: seq<string>, raised: Option<Exception>)
    ensures lines == StationsOutput(stations, current).lines && raised == StationsOutput(stations, current).raised
  {
    lines, raised := [], None;
    var i := 0;
    while i < |stations|
      invariant 0 <= i <= |stations|
      invariant StationsOutput(stations[..i], current).raised.None?
      invariant lines == StationsOutput(stations[..i], current).lines
    {
      StationsStep(stations, i, current);
      var printed, failure := PrintDepartures(stations[i].departures.GetOr([]), current);
      if failure.Some? {
        lines, raised := lines + printed, failure;
        StationFailureIsFinal(stations, i + 1, current);
        return;
      }
      lines := lines + printed + [""];
      i := i + 1;
    }
    assert stations[..i] == stations;
  }

  /** `printOutput`: the station heading, then the error alone or the
      departures of every station. */
  method PrintOutput(reply: Reply, stationName: string, hour: int, minute: int)
    returns (lines: seq<string>, raised: Option<Exception>)
    ensures lines == Output(reply, stationName, CurrentSeconds(hour, minute)).lines
    ensures raised == Output(reply, stationName, CurrentSeconds(hour, minute)).raised
  {
    lines := ["Station: " + stationName];
    raised := None;
    if reply.error.Some? {
      lines := lines + [reply.error.value];
      return;
    }
    var printed;
    printed, raised := PrintStations(reply.stations.GetOr([]), CurrentSeconds(hour, minute));
    lines := lines + printed;
  }
}
