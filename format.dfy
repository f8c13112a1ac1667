/** `bvggrabber/utils/format.py`: the `strftime` date formatters and `int2bin`. */
module Format {
  import opened Wrappers
  import opened Text
  import opened Calendar

  // ---------------------------------------------------------------------
  // strftime fields
  // ---------------------------------------------------------------------

  /** `%d`, `%m`, `%H`, `%M`, `%S`: two decimal digits, zero-padded. */
  function TwoDigits(n: nat): (s: string)
    requires n < 100
    ensures |s| == 2 && AllDigitsBelow(s, 10) && NumeralValue(s, 10) == n
  {
    var digits := Numeral(n, 10);
    NumeralRoundTrip(n, 10);
    assert |digits| <= 2 by {
      if n >= 10 { assert digits == Numeral(n / 10, 10) + [DigitChar(n % 10, 10)]; }
    }
    var s := PadLeft(digits, 2, '0');
    assert s == Repeat('0', 2 - |digits|) + digits;
    LeadingZerosAddNothing(2 - |digits|, digits, 10);
    s
  }

  /** `%Y` as the C library on Linux renders it: the year in decimal, so four
      digits for every year from 1000 on. */
  function YearDigits(y: nat): (s: string)
    ensures AllDigitsBelow(s, 10) && NumeralValue(s, 10) == y
    ensures 1000 <= y <= 9999 ==> |s| == 4
  {
    NumeralRoundTrip(y, 10);
    FourDigitYear(y);
    Numeral(y, 10)
  }

  lemma FourDigitYear(y: nat)
    ensures 1000 <= y <= 9999 ==> |Numeral(y, 10)| == 4
  {
    if 1000 <= y <= 9999 {
      var a := y / 10;
      var b := a / 10;
      var c := b / 10;
      assert 100 <= a <= 999 && 10 <= b <= 99 && 1 <= c <= 9;
      NumeralGrows(y);
      NumeralGrows(a);
      NumeralGrows(b);
    }
  }

  /** Each digit past the first adds one character. */
  lemma NumeralGrows(n: nat)
    requires n >= 10
    ensures |Numeral(n, 10)| == |Numeral(n / 10, 10)| + 1
  {
  }

  /** `dateformat(dt)`: `dt.strftime('%d.%m.%Y')`. */
  function DateFormat(dt: DateTime): string {
    TwoDigits(dt.day) + "." + TwoDigits(dt.month) + "." + YearDigits(dt.year)
  }

  /** `fullformat(dt)`: `dt.strftime('%Y-%m-%d %H:%M:%S')`. */
  function FullFormat(dt: DateTime): string {
    IsoDate(dt) + " " + ClockTime(dt)
  }

  /** `%Y-%m-%d` */
  function IsoDate(dt: DateTime): string {
    YearDigits(dt.year) + "-" + TwoDigits(dt.month) + "-" + TwoDigits(dt.day)
  }

  /** `%H:%M:%S` */
  function ClockTime(dt: DateTime): string {
    TwoDigits(dt.hour) + ":" + TwoDigits(dt.minute) + ":" + TwoDigits(dt.second)
  }

  /** `timeformat(dt)`: `dt.strftime('%H:%M')`. */
  function TimeFormat(dt: DateTime): string {
    TwoDigits(dt.hour) + ":" + TwoDigits(dt.minute)
  }

  // ---------------------------------------------------------------------
  // Reading the formats back
  // ---------------------------------------------------------------------

  /** The calendar fields `fullformat` shows (microseconds never appear). */
  datatype Shown = Shown(year: int, month: int, day: int, hour: int, minute: int, second: int)

  function ShownOf(dt: DateTime): Shown {
    Shown(dt.year, dt.month, dt.day, dt.hour, dt.minute, dt.second)
  }

  /** Splits `s` at `sep` and reads `count` decimal numbers from the pieces. */
  function ParseNumbers(s: string, sep: char, count: nat): (r: Option<seq<nat>>)
    ensures r.Some? ==> |r.value| == count
  {
    var parts := Split(s, sep);
    if |parts| == count && forall k :: 0 <= k < |parts| ==> |parts[k]| >= 1 && AllDigitsBelow(parts[k], 10)
    then Some(NumberValues(parts))
    else None
  }

  function NumberValues(parts: seq<string>): (r: seq<nat>)
    requires forall k :: 0 <= k < |parts| ==> AllDigitsBelow(parts[k], 10)
    ensures |r| == |parts|
    ensures forall k :: 0 <= k < |parts| ==> r[k] == NumeralValue(parts[k], 10)
  {
    if parts == [] then [] else [NumeralValue(parts[0], 10)] + NumberValues(parts[1..])
  }

  /** Joining three pieces with a separator. */
  lemma JoinThree(a: string, b: string, c: string, sep: char)
    ensures Join([a, b, c], sep) == a + [sep] + b + [sep] + c
  {
    assert [a, b, c][1..] == [b, c];
    assert [b, c][1..] == [c];
    assert Join([c], sep) == c;
    assert Join([b, c], sep) == b + [sep] + c;
  }

  lemma ParseJoinedNumbers(parts: seq<string>, sep: char)
    requires |parts| >= 1
    requires forall k :: 0 <= k < |parts| ==> |parts[k]| >= 1 && AllDigitsBelow(parts[k], 10)
    requires !IsDigitBelow(sep, 10)
    ensures ParseNumbers(Join(parts, sep), sep, |parts|) == Some(NumberValues(parts))
  {
    forall k | 0 <= k < |parts| ensures sep !in parts[k] {
      assert forall j :: 0 <= j < |parts[k]| ==> IsDigitBelow(parts[k][j], 10);
    }
    SplitJoin(parts, sep);
  }

  /** Reads back a 'YYYY-MM-DD HH:MM:SS' string. */
  function ParseFullFormat(s: string): Option<Shown> {
    var halves := Split(s, ' ');
    if |halves| != 2 then None
    else
      var date, time := ParseNumbers(halves[0], '-', 3), ParseNumbers(halves[1], ':', 3);
      if date.None? || time.None? then None
      else Some(Shown(date.value[0], date.value[1], date.value[2],
                      time.value[0], time.value[1], time.value[2]))
  }

  /** Reads back an 'HH:MM' string as (hour, minute). */
  function ParseTimeFormat(s: string): Option<(nat, nat)> {
    var r := ParseNumbers(s, ':', 2);
    if r.None? then None else Some((r.value[0], r.value[1]))
  }

  /** Reads back a 'dd.mm.yyyy' string as (day, month, year). */
  function ParseDateFormat(s: string): Option<(nat, nat, nat)> {
    var r := ParseNumbers(s, '.', 3);
    if r.None? then None else Some((r.value[0], r.value[1], r.value[2]))
  }

  /** The three numbers joined by `sep` read back as themselves. */
  lemma ThreeNumbers(a: string, b: string, c: string, sep: char)
    requires |a| >= 1 && |b| >= 1 && |c| >= 1
    requires AllDigitsBelow(a, 10) && AllDigitsBelow(b, 10) && AllDigitsBelow(c, 10)
    requires !IsDigitBelow(sep, 10)
    ensures ParseNumbers(a + [sep] + b + [sep] + c, sep, 3)
         == Some([NumeralValue(a, 10), NumeralValue(b, 10), NumeralValue(c, 10)])
  {
    var parts := [a, b, c];
    assert forall k :: 0 <= k < 3 ==> |parts[k]| >= 1 && AllDigitsBelow(parts[k], 10);
    JoinThree(a, b, c, sep);
    ParseJoinedNumbers(parts, sep);
    ThreeValues(a, b, c);
  }

  lemma ThreeValues(a: string, b: string, c: string)
    requires AllDigitsBelow(a, 10) && AllDigitsBelow(b, 10) && AllDigitsBelow(c, 10)
    ensures NumberValues([a, b, c]) == [NumeralValue(a, 10), NumeralValue(b, 10), NumeralValue(c, 10)]
  {
    var v := NumberValues([a, b, c]);
    assert v[0] == NumeralValue(a, 10) && v[1] == NumeralValue(b, 10) && v[2] == NumeralValue(c, 10);
  }

  /** `fullformat` loses nothing but the microseconds. */
  lemma FullFormatRoundTrip(dt: DateTime)
    ensures ParseFullFormat(FullFormat(dt)) == Some(ShownOf(dt))
  {
    FullFormatHalves(dt);
    IsoDateRoundTrip(dt);
    ClockTimeRoundTrip(dt);
  }

  lemma FullFormatHalves(dt: DateTime)
    ensures Split(FullFormat(dt), ' ') == [IsoDate(dt), ClockTime(dt)]
  {
    NoSpaceInIsoDate(dt);
    NoSpaceInClockTime(dt);
    SplitTwo(IsoDate(dt), ClockTime(dt), ' ');
  }

  lemma NoSpaceInIsoDate(dt: DateTime)
    ensures ' ' !in IsoDate(dt)
  {
    var y, mo, d := YearDigits(dt.year), TwoDigits(dt.month), TwoDigits(dt.day);
    NotADigitIn(y, ' ');
    NotADigitIn(mo, ' ');
    NotADigitIn(d, ' ');
    NotInFive(y, "-", mo, "-", d, ' ');
  }

  lemma NoSpaceInClockTime(dt: DateTime)
    ensures ' ' !in ClockTime(dt)
  {
    var h, mi, s := TwoDigits(dt.hour), TwoDigits(dt.minute), TwoDigits(dt.second);
    NotADigitIn(h, ' ');
    NotADigitIn(mi, ' ');
    NotADigitIn(s, ' ');
    NotInFive(h, ":", mi, ":", s, ' ');
  }

  lemma NoSpaceInTimeFormat(dt: DateTime)
    ensures ' ' !in TimeFormat(dt)
  {
    var h, mi := TwoDigits(dt.hour), TwoDigits(dt.minute);
    NotADigitIn(h, ' ');
    NotADigitIn(mi, ' ');
    NotInThree(h, ":", mi, ' ');
  }

  /** A character that is not a digit does not occur in a run of digits. */
  lemma NotADigitIn(s: string, c: char)
    requires AllDigitsBelow(s, 10) && !IsDigitBelow(c, 10)
    ensures c !in s
  {
  }

  lemma NotInThree(a: string, b: string, c: string, x: char)
    requires x !in a && x !in b && x !in c
    ensures x !in a + b + c
  {
  }

  lemma NotInFive(a: string, b: string, c: string, d: string, e: string, x: char)
    requires x !in a && x !in b && x !in c && x !in d && x !in e
    ensures x !in a + b + c + d + e
  {
  }

  lemma IsoDateRoundTrip(dt: DateTime)
    ensures ParseNumbers(IsoDate(dt), '-', 3) == Some([dt.year, dt.month, dt.day])
  {
    ThreeNumbers(YearDigits(dt.year), TwoDigits(dt.month), TwoDigits(dt.day), '-');
  }

  lemma ClockTimeRoundTrip(dt: DateTime)
    ensures ParseNumbers(ClockTime(dt), ':', 3) == Some([dt.hour, dt.minute, dt.second])
  {
    ThreeNumbers(TwoDigits(dt.hour), TwoDigits(dt.minute), TwoDigits(dt.second), ':');
  }

  /** `timeformat` shows exactly the hour and the minute. */
  lemma TimeFormatRoundTrip(dt: DateTime)
    ensures ParseTimeFormat(TimeFormat(dt)) == Some((dt.hour, dt.minute))
  {
    var parts := [TwoDigits(dt.hour), TwoDigits(dt.minute)];
    assert parts[1..] == [parts[1]];
    assert Join(parts, ':') == TimeFormat(dt);
    ParseJoinedNumbers(parts, ':');
  }

  /** `dateformat` shows exactly the day, the month and the year. */
  lemma DateFormatRoundTrip(dt: DateTime)
    ensures ParseDateFormat(DateFormat(dt)) == Some((dt.day, dt.month, dt.year))
  {
    ThreeNumbers(TwoDigits(dt.day), TwoDigits(dt.month), YearDigits(dt.year), '.');
  }

  /** Two datetimes have the same `timeformat` exactly when hour and minute
      agree: the seconds are dropped. */
  lemma TimeFormatDropsSeconds(a: DateTime, b: DateTime)
    ensures TimeFormat(a) == TimeFormat(b) <==> a.hour == b.hour && a.minute == b.minute
  {
    TimeFormatRoundTrip(a);
    TimeFormatRoundTrip(b);
  }

  lemma FullFormatLength(dt: DateTime)
    requires dt.year >= 1000
    ensures |FullFormat(dt)| == 19
  {
  }

  lemma FullFormatExample()
    ensures FullFormat(DateTimeFields(2013, 1, 2, 3, 4, 30, 0)) == "2013-01-02 03:04:30"
    ensures FullFormat(DateTimeFields(2013, 1, 2, 0, 0, 0, 0)) == "2013-01-02 00:00:00"
  {
    Year2013();
    SmallTwoDigits();
    var first, second := DateTimeFields(2013, 1, 2, 3, 4, 30, 0), DateTimeFields(2013, 1, 2, 0, 0, 0, 0);
    assert IsoDate(first) == "2013-01-02" && IsoDate(second) == "2013-01-02";
    assert ClockTime(first) == "03:04:30";
    assert ClockTime(second) == "00:00:00";
  }

  lemma Year2013()
    ensures YearDigits(2013) == "2013"
  {
    assert Numeral(20, 10) == "20";
    assert Numeral(201, 10) == "201";
  }

  lemma SmallTwoDigits()
    ensures TwoDigits(0) == "00" && TwoDigits(1) == "01" && TwoDigits(2) == "02"
    ensures TwoDigits(3) == "03" && TwoDigits(4) == "04" && TwoDigits(30) == "30"
  {
    assert Repeat('0', 1) == "0";
    assert Numeral(30, 10) == "30";
  }

  // ---------------------------------------------------------------------
  // int2bin
  // ---------------------------------------------------------------------

  /** The value passed as `length`: Python's `bool` is a subclass of `int`,
      so it passes the `isinstance` guard. */
  datatype LengthArg = IntLength(n: int) | BoolLength(b: bool) | NotAnInt

  function Abs(n: int): nat {
    if n < 0 then -n else n
  }

  /** `'{:b}'.format(i)`: a minus sign, then the binary digits of |i|. */
  function BinaryForm(i: int): (s: string)
    ensures |s| >= 1
  {
    if i >= 0 then Numeral(i, 2) else "-" + Numeral(-i, 2)
  }

  /** `int2bin(i, length)`: `('{:0>' + str(length) + 'b}').format(i)`.
      A negative `length` puts a '-' into the sign position of the format
      specification, so its magnitude is the width; `str(True)` is not a
      width and makes `format` raise `ValueError`. */
  function Int2Bin(i: int, length: LengthArg): (r: Result<string>)
    ensures r.Err? <==> !length.IntLength?
    ensures r.Err? ==> r.error == ValueError
  {
    match length
    case NotAnInt => Err(ValueError)
    case BoolLength(_) => Err(ValueError)
    case IntLength(n) => Ok(PadLeft(BinaryForm(i), Abs(n), '0'))
  }

  /** For non-negative `i` the string holds binary digits only and denotes `i`. */
  lemma Int2BinRoundTrip(i: nat, length: int)
    ensures AllDigitsBelow(Int2Bin(i, IntLength(length)).value, 2)
    ensures NumeralValue(Int2Bin(i, IntLength(length)).value, 2) == i
  {
    var bits := Numeral(i, 2);
    NumeralRoundTrip(i, 2);
    assert Int2Bin(i, IntLength(length)).value == PadLeft(bits, Abs(length), '0');
    ZeroPadded(bits, Abs(length), 2);
  }

  /** Zeros put in front of a numeral change neither its digits nor its value. */
  lemma ZeroPadded(bits: string, width: int, base: Base)
    requires AllDigitsBelow(bits, base)
    ensures AllDigitsBelow(PadLeft(bits, width, '0'), base)
    ensures NumeralValue(PadLeft(bits, width, '0'), base) == NumeralValue(bits, base)
  {
    if width > |bits| {
      LeadingZerosAddNothing(width - |bits|, bits, base);
    }
  }

  /** The length is the larger of `length` and the number of binary digits;
      the digits of `i` end the string and only zeros come before them. */
  lemma Int2BinLayout(i: nat, length: nat)
    ensures var r := Int2Bin(i, IntLength(length)).value;
      var bits := Numeral(i, 2);
      && |r| == (if length > |bits| then length else |bits|)
      && r[|r| - |bits|..] == bits
      && (forall k :: 0 <= k < |r| - |bits| ==> r[k] == '0')
  {
  }

  /** The number of binary digits is the least `k` with `i < 2^k`. */
  function Pow2(k: nat): (p: nat)
    ensures p >= 1
  {
    if k == 0 then 1 else 2 * Pow2(k - 1)
  }

  lemma {:induction false} BinaryDigitCount(i: nat)
    ensures i < Pow2(|Numeral(i, 2)|)
    ensures i >= 1 ==> Pow2(|Numeral(i, 2)| - 1) <= i
    decreases i
  {
    if i >= 2 {
      BinaryDigitCount(i / 2);
      assert Numeral(i, 2) == Numeral(i / 2, 2) + [DigitChar(i % 2, 2)];
    }
  }

  /** A negative `length` pads exactly as its magnitude does. */
  lemma Int2BinNegativeLength(i: int, length: int)
    ensures Int2Bin(i, IntLength(-length)) == Int2Bin(i, IntLength(length))
  {
  }

  lemma Int2BinExamples()
    ensures Int2Bin(109, IntLength(7)) == Ok("1101101")
    ensures Int2Bin(109, IntLength(8)) == Ok("01101101")
    ensures Int2Bin(0x11, IntLength(7)) == Ok("0010001")
    ensures Int2Bin(7, IntLength(8)) == Ok("00000111")
  {
    Binary109();
    Binary17();
    Binary7();
    PaddedExamples();
  }

  lemma Binary109()
    ensures Numeral(109, 2) == "1101101"
  {
    assert Numeral(3, 2) == "11";
    assert Numeral(6, 2) == "110";
    assert Numeral(13, 2) == "1101";
    assert Numeral(27, 2) == "11011";
    assert Numeral(54, 2) == "110110";
  }

  lemma Binary17()
    ensures Numeral(17, 2) == "10001"
  {
    assert Numeral(2, 2) == "10";
    assert Numeral(4, 2) == "100";
    assert Numeral(8, 2) == "1000";
  }

  lemma Binary7()
    ensures Numeral(7, 2) == "111"
  {
    assert Numeral(3, 2) == "11";
  }

  lemma PaddedExamples()
    ensures PadLeft("1101101", 7, '0') == "1101101"
    ensures PadLeft("1101101", 8, '0') == "01101101"
    ensures PadLeft("10001", 7, '0') == "0010001"
    ensures PadLeft("111", 8, '0') == "00000111"
  {
    assert Repeat('0', 1) == "0";
    assert Repeat('0', 2) == "00";
    assert Repeat('0', 5) == "00000";
  }
}
