# bvg-grabber in Dafny

A model, with proofs, of the deterministic logic of bvg-grabber. bvg-grabber is a small Python tool that fetches upcoming departures of Berlin public transport (BVG) stations and shows them on a terminal. The model covers:

- the `Departure` type of `bvggrabber/api/__init__.py`: how a departure time given as a timestamp, a string or a `datetime` is normalised, the day rollover, `remaining()` and `__str__`;
- the later API that the test suite exercises: `compute_remaining`, which floors a gap to whole minutes; the half-day rollover with `since` and `no_add_day`; and `Response.merge`;
- the formatting helpers: `dateformat`, `fullformat`, `timeformat` and `int2bin`;
- the multi-station script: the lookup tables it builds, the "too soon" and "too late" tests, the text simplifiers and the merge loop of `get_data`;
- the curses table: the matrix and departures table data, the cell alignment offset, the constructor's option normalisation, the column layout, the row limit, the footer split and the flattening of a response into rows;
- the old stand-alone script `printOutput`: minutes of the day, the rollover past midnight and the "now" / "in N min" label;
- the JSON member filter `ObjectJSONEncoder.default`.

Library calls become parameters: `dateutil.parse`, `datetime.fromtimestamp`, `datetime.now` / `today`, `durationformat`, `str` as a renderer, and the network queries. A `datetime` is a record with microseconds. It is measured on a proleptic-Gregorian microsecond timeline (`Calendar.Micros`), so `timedelta` arithmetic is integer arithmetic.

Modules, one per source file, plus three shared ones:
`Wrappers` (Option, Result, Python's exceptions), `Text` (the `str` operations used), `Calendar` (dates and the timeline), `Format` (`bvggrabber/utils/format.py`), `Api` (`bvggrabber/api/__init__.py`), `TestedApi` (the API asserted by `tests/test_api.py`), `Extended` (`bvg_grabber_extended.py`), `CursesTable` (`bvg_grabber_curses.py`), `GrabberScript` (`bvggrabber/bvg-grabber.py`) and `JsonEncoder` (`bvggrabber/utils/json.py`).

## Model

| member | source | states |
|---|---|---|
| Text.NumeralRoundTrip | bvggrabber/utils/format.py:42 | a number's positional numeral denotes that number again |
| Text.DeleteAll | bvg_grabber_extended.py:64 | `replace(p, '')` never lengthens its input and returns it unchanged when `p` does not occur |
| Text.DeleteAllOfCharRemovesIt | bvggrabber/bvg-grabber.py:21 | after `replace(c, '')` the character `c` no longer occurs |
| Text.DeleteAllIsSubsequence | bvg_grabber_extended.py:63-68 | `replace(p, '')` keeps the remaining characters in their order |
| Text.JoinSplit | bvggrabber/bvg-grabber.py:21 | joining the pieces of `split(c)` with `c` gives the input back |
| Text.SplitJoin | bvggrabber/bvg-grabber.py:21 | splitting pieces free of `c`, once joined by `c`, gives those pieces back |
| Text.StripIsBothStrips | bvggrabber/bvg-grabber.py:21 | `strip` equals `rstrip` followed by `lstrip` |
| Calendar.ReplaceDay | bvggrabber/api/__init__.py:31 | `replace(day=d)` succeeds exactly when `d` is a valid day of the month, else ValueError |
| Calendar.ReplaceDayShiftsByWholeDays | bvggrabber/api/__init__.py:31 | a successful `replace(day=d)` moves the instant by whole days and keeps year, month and time |
| Calendar.NextDay | tests/test_api.py:241-263 | adding one day fails only on 9999-12-31 (OverflowError) and keeps the time of day |
| Calendar.NextDayIsOneDayLater | tests/test_api.py:241-263 | adding one day moves the instant exactly one day later on the timeline |
| Format.TwoDigits | bvggrabber/utils/format.py:13 | `%d`/`%m`/`%H`/`%M`/`%S`: two decimal digits that denote the field |
| Format.FullFormatRoundTrip | bvggrabber/utils/format.py:16-25 | `fullformat` reads back as year, month, day, hour, minute and second |
| Format.FullFormatLength | bvggrabber/utils/format.py:16-25 | `fullformat` is 19 characters for four-digit years |
| Format.FullFormatExample | bvggrabber/utils/format.py:16-25 | 2013-01-02 03:04:30 is rendered "2013-01-02 03:04:30" |
| Format.TimeFormatRoundTrip | bvggrabber/utils/format.py:45-54 | `timeformat` reads back as hour and minute |
| Format.TimeFormatDropsSeconds | bvggrabber/utils/format.py:45-54 | instants that differ only in seconds or microseconds format alike |
| Format.DateFormatRoundTrip | bvggrabber/utils/format.py:4-13 | `dateformat` reads back as day, month and year |
| Format.Int2Bin | bvggrabber/utils/format.py:28-42 | a non-int length is a ValueError, and so is a bool, which passes the guard but then breaks the format string; otherwise the result is the binary form zero-padded on the left to the width |
| Format.Int2BinRoundTrip | bvggrabber/utils/format.py:28-42 | for `i >= 0` the result holds only '0'/'1' and its binary value is `i` |
| Format.Int2BinLayout | bvggrabber/utils/format.py:31-37 | the length is max(length, number of binary digits), and the padding is zeros on the left only |
| Format.BinaryDigitCount | bvggrabber/utils/format.py:42 | `i` has k binary digits exactly when 2^(k-1) <= i < 2^k |
| Format.Int2BinNegativeLength | bvggrabber/utils/format.py:42 | a negative length pads to its absolute value, because '-' in the format spec is read as the sign option |
| Format.Int2BinExamples | bvggrabber/utils/format.py:30-31 | `int2bin(109, 7) == "1101101"` and `int2bin(109, 8) == "01101101"` |
| Api.MinuteFormatRoundTrip | bvggrabber/api/__init__.py:6 | the `'%Y-%m-%d %H:%M'` format reads back as date, hour and minute |
| Api.MinuteFormatIsMinutePrecise | bvggrabber/api/__init__.py:6 | two instants format alike exactly when they agree up to the minute |
| Api.QueryApi.Call | bvggrabber/api/__init__.py:14-16 | `call` always raises NotImplementedError |
| Api.NewDeparture | bvggrabber/api/__init__.py:21-36 | datetime and timestamp are stored unrolled, and an error of `fromtimestamp` propagates; a parsed string is kept unless it is before now, then its day goes up by one (ValueError past the month's end); parse errors propagate; any other kind completes with `when` unset |
| Api.RolledOverByOneDay | bvggrabber/api/__init__.py:30-31 | a rolled-over string time is exactly one day later, with year, month and time of day unchanged |
| Api.Remaining | bvggrabber/api/__init__.py:42-43 | `now + remaining() == when` exactly, with no rounding; AttributeError when `when` was never set |
| Api.Describe | bvggrabber/api/__init__.py:38-40 | `__str__` fails with AttributeError exactly when `when` was never set |
| Api.DescribedLayout | bvggrabber/api/__init__.py:38-40 | the text `__str__` builds shows start, end, the formatted `when`, and line, in that order, each right after its label; with Api.MinuteFormatRoundTrip the `when` part reads back to the minute |
| Api.UnsupportedWhenIsAcceptedSilently | bvggrabber/api/__init__.py:34-35 | an unsupported `when` builds a departure whose `remaining` and `__str__` raise AttributeError |
| Api.PastTimeFailsOnMonthEnd | bvggrabber/api/__init__.py:30-31 | "10:00" parsed on 31 January at 11:00 raises ValueError instead of rolling over to 1 February |
| Api.NewDepartureChecked | bvggrabber/api/__init__.py:21-36 | as intended: an unsupported `when` raises ValueError, and the rollover is one day of timeline arithmetic |
| Api.CheckedDepartureIsUsable | bvggrabber/api/__init__.py:34-43 | every departure the intended constructor builds has `when` set, so `remaining` and `__str__` succeed |
| Api.CheckedRolloverCrossesMonth | bvggrabber/api/__init__.py:30-31 | as intended, "10:00" on 31 January at 11:00 becomes 1 February 10:00 |
| TestedApi.FloorToMinute | tests/test_api.py:12-34 | the floor of a gap to whole minutes: a multiple of 60 seconds at or below the gap, with the next minute above it |
| TestedApi.FloorToMinuteIsUnique | tests/test_api.py:12-34 | only one multiple of 60 lies in that interval |
| TestedApi.FloorOfSeconds | tests/test_api.py:12-34 | a whole number of seconds `k` floors to `k / 60 * 60`, rounding toward minus infinity |
| TestedApi.FloorShiftsByDay | tests/test_api.py:241-263 | a gap one day longer floors to 86400 seconds more |
| TestedApi.ComputeRemaining | tests/test_api.py:12-42 | ValueError exactly when an argument is a number; otherwise the floored gap from start to end |
| TestedApi.ComputeRemainingTable | tests/test_api.py:12-34 | all 36 cells of the test's target table |
| TestedApi.ComputeRemainingRefusesNumbers | tests/test_api.py:36-42 | the three numeric argument combinations raise ValueError |
| TestedApi.RawInstant | tests/test_api.py:204-208 | a timestamp is what `fromtimestamp` gives, its error included; a datetime is taken as given; a string is parsed after trailing white space and '*' are stripped (ValueError if unparseable); any other kind is a TypeError |
| TestedApi.NewDeparture | tests/test_api.py:92-267 | the stored `when` is the raw instant, moved one day on when rollover applies; `since` defaults to now |
| TestedApi.NewDepartureSucceeds | tests/test_api.py:92-199 | construction succeeds whenever the raw instant exists and a rollover from it stays in range |
| TestedApi.RemainingAfterRollover | tests/test_api.py:241-267 | `remaining` is the floored gap from `since` to the raw instant, plus 86400 exactly when rollover applies |
| TestedApi.NormalisedWithinHalfDay | tests/test_api.py:241-263 | without `no_add_day` the stored `when` lies in [-12 h, +12 h) of `since` exactly when the raw instant lies in [-36 h, +12 h) of it; a raw instant further back is moved by one day only |
| TestedApi.RemainingOfNearbyDeparture | tests/test_api.py:92-199 | for offsets within ±150 s, `remaining` is the offset floored to minutes, whichever kind of input |
| TestedApi.RegressionAfterMidnight | tests/test_api.py:241-250 | 00:01:02 against 23:59:00 gives 120, and -86280 with `no_add_day` |
| TestedApi.RegressionExactlyHalfDay | tests/test_api.py:252-258 | exactly half a day before stays: -43200, with or without `no_add_day` |
| TestedApi.RegressionOverHalfDay | tests/test_api.py:260-267 | one second more than half a day before rolls over to 43140, or -43260 with `no_add_day` |
| TestedApi.ConstructionErrors | tests/test_api.py:204-206 | a list raises TypeError and the unparseable "when" raises ValueError |
| TestedApi.MarkerIsStripped | tests/test_api.py:207-208 | "16:15\n \t*" is read as "16:15" |
| TestedApi.MarkedTimeIsAccepted | tests/test_api.py:207-208 | a departure at "16:15\n \t*" is constructed |
| TestedApi.Response.constructor | tests/test_api.py:66-68 | a raw error message, a list of candidates, or a missing or empty station gives a failed response with no groups; otherwise one group for the named station, in the given state |
| TestedApi.Response.Departures | tests/test_api.py:66-73 | `departures` is the station groups of a successful response, the error otherwise |
| TestedApi.Response.Merge | tests/test_api.py:66-73 | TypeError for a non-response, ValueError when either side failed; otherwise the argument's groups are appended in order and nothing else changes |
| TestedApi.MergeScenario | tests/test_api.py:47-73 | the test's four `merge` calls raise ValueError, ValueError, TypeError and nothing, leaving both stations' groups in order |
| Extended.MinReachTableIsLast | bvg_grabber_extended.py:16-18 | a name's threshold is the one of its last entry; the table has exactly the listed names |
| Extended.IndexTableIsLast | bvg_grabber_extended.py:20-24 | a name's index is the position of its last entry |
| Extended.IndexOfDistinctNames | bvg_grabber_extended.py:20-24 | with distinct names a station's index is its list position |
| Extended.BuildMinReachTable | bvg_grabber_extended.py:16-18 | the loop builds the threshold table |
| Extended.BuildIndexTable | bvg_grabber_extended.py:20-24 | the loop with its counter builds the index table |
| Extended.Lookup | bvg_grabber_extended.py:27-32 | the mapped value, or KeyError when the name is absent |
| Extended.LeavesTooSoon | bvg_grabber_extended.py:79-82 | true exactly when `remaining < minReach(start)`; KeyError for an unknown start station |
| Extended.LeavesTooLate | bvg_grabber_extended.py:85-88 | true exactly when `remaining > minReach(start) + maxWaitSecs`; KeyError for an unknown start station |
| Extended.TooSoonAndTooLateExclude | bvg_grabber_extended.py:79-88 | with `maxWaitSecs >= 0` no departure is both too soon and too late |
| Extended.NegativeBudgetOverlaps | bvg_grabber_extended.py:79-88 | with a negative `maxWaitSecs` a departure can be both |
| Extended.DurationHumanizer | bvg_grabber_extended.py:71-76 | 0 seconds is "now ", and anything else is what `durationformat` returns |
| Extended.LineSimplifier | bvg_grabber_extended.py:63-64 | never longer than the input, unchanged when 'Bus  ' does not occur, and keeps character order |
| Extended.LocationSimplifier | bvg_grabber_extended.py:67-68 | deleting the four station-name decorations never lengthens the name |
| Extended.LocationSimplifierKeepsOrder | bvg_grabber_extended.py:67-68 | the result is a subsequence of the input, and equals it when none of the four patterns occurs |
| Extended.GetStationData | bvg_grabber_extended.py:51-60 | the actual-departure response is merged into the scheduled one only when `bus` is set |
| Extended.GetData | bvg_grabber_extended.py:35-48 | responses are merged into the first in list order until one raises ValueError; the first response's state and error are unchanged; an empty station list is an IndexError |
| CursesTable.PyIndex | bvg_grabber_curses.py:130 | Python list indexing, negative indices included; IndexError out of range |
| CursesTable.IndexOf | bvg_grabber_curses.py:133 | `list.index`: the first position holding the value; ValueError if absent |
| CursesTable.CellStart | bvg_grabber_curses.py:48-57 | LEFT at `colStart`, CENTER offset by max(0, ⌊(w-len)/2⌋), RIGHT by max(0, w-len), never left of `colStart`; RIGHT text that fits ends at `colStart + w`; ValueError for other alignments |
| CursesTable.MatrixTableData.NColsAsWritten | bvg_grabber_curses.py:121-123 | `nCols` reads the nonexistent `self.content` and always raises AttributeError |
| CursesTable.MatrixTableData.NRowsAsWritten | bvg_grabber_curses.py:125-127 | `nRows` reads the nonexistent `self.content` and always raises AttributeError |
| CursesTable.MatrixTableData.NCols | bvg_grabber_curses.py:121-123 | as intended: the width of the first row, equal to the header count |
| CursesTable.MatrixTableData.NRows | bvg_grabber_curses.py:125-127 | as intended: the number of rows |
| CursesTable.MatrixTableData.HeaderAt | bvg_grabber_curses.py:129-130 | the header of a column, counted from the end for a negative column; IndexError out of range |
| CursesTable.MatrixTableData.HeaderIndex | bvg_grabber_curses.py:132-133 | the first column carrying the name; ValueError for an unknown name |
| CursesTable.MatrixTableData.ValueAt | bvg_grabber_curses.py:135-136 | the cell at row and column, IndexError outside the table |
| CursesTable.MatrixTableData.MergeAsWritten | bvg_grabber_curses.py:138-150 | TypeError for another type, otherwise AttributeError from the nonexistent `self.headers` |
| CursesTable.MatrixTableData.Merge | bvg_grabber_curses.py:138-150 | as intended: TypeError, ValueError when the headers differ, otherwise the other rows are appended |
| CursesTable.NewMatrixTableData | bvg_grabber_curses.py:110-119 | IndexError without rows, ValueError when the header count differs from the first row's width |
| CursesTable.MatrixCountsAsWritten | bvg_grabber_curses.py:121-127 | on every table both counts raise AttributeError |
| CursesTable.DeparturesTableData.NCols | bvg_grabber_curses.py:163-165 | always 9, the original headers |
| CursesTable.DeparturesTableData.NRows | bvg_grabber_curses.py:167-169 | the number of departures |
| CursesTable.DeparturesTableData.HeaderAt | bvg_grabber_curses.py:171-172 | one of the nine original headers, counted from the end for a negative column; IndexError out of range |
| CursesTable.DeparturesTableData.HeaderIndex | bvg_grabber_curses.py:174-175 | the column of an original header, whose `header_at` gives the name back; ValueError otherwise |
| CursesTable.DeparturesTableData.ValueAt | bvg_grabber_curses.py:177-189 | columns 0..8 are start, end, when, now, remaining, line, scheduled, too soon and too late; other columns give None; all nine are evaluated first, so an unknown station is a KeyError for every column and a bad row an IndexError |
| CursesTable.DeparturesTableData.Merge | bvg_grabber_curses.py:191-196 | TypeError for another type, leaving the rows alone; otherwise the other rows are appended after the own ones, so `nRows` grows by the other table's `nRows` |
| CursesTable.EmptyTableFooterFails | bvg_grabber_curses.py:374 | on an empty table the footer's `value_at(0, 3)` raises IndexError |
| CursesTable.FlattenAppend | bvg_grabber_curses.py:380-387 | flattening commutes with appending groups, so merging then flattening equals flattening then concatenating |
| CursesTable.FlattenedRowsComeFromGroups | bvg_grabber_curses.py:380-387 | every row belongs to some group |
| CursesTable.FlattenGroups | bvg_grabber_curses.py:380-387 | the nested loops produce every group's departures, in group order |
| CursesTable.ResponseToTable | bvg_grabber_curses.py:380-387 | a new table whose rows are every group's departures, in group order, whatever the response's state |
| CursesTable.FillNones | bvg_grabber_curses.py:234-241 | None entries become the default value, other entries are kept |
| CursesTable.NormaliseAlignments | bvg_grabber_curses.py:229-241 | omitted gives all LEFT; a non-list is the TypeError of its `len`; a length mismatch is a ValueError; None entries become LEFT |
| CursesTable.NormaliseRenderers | bvg_grabber_curses.py:243-257 | omitted gives `str` everywhere; a non-list is a TypeError; a length mismatch is a ValueError; None entries become `str` |
| CursesTable.NormaliseAttribs | bvg_grabber_curses.py:259-266 | omitted gives zeros; a non-list is a TypeError; a length mismatch is a ValueError; otherwise the list as given |
| CursesTable.SizesError | bvg_grabber_curses.py:215-226 | the `colSizes` checks pass exactly when there are columns and the sizes are omitted, or a list of the column count that starts with a float, or starts with an int and sums to a non-zero number |
| CursesTable.HeaderPositions | bvg_grabber_curses.py:274-278 | each header name is replaced by its position; ValueError for an unknown name |
| CursesTable.ColumnIndicesAsWritten | bvg_grabber_curses.py:268-280 | omitted indices raise TypeError (`len` of an int); a non-list is a TypeError; an empty list an IndexError; numbers are kept; names become positions |
| CursesTable.ColumnIndices | bvg_grabber_curses.py:268-280 | as intended: omitted indices are 0..nCols-1; the other cases as written |
| CursesTable.NormaliseOptions | bvg_grabber_curses.py:215-285 | the constructor's checks in order (sizes, alignments, renderers, attributes, indices): the first stage that fails gives its error; otherwise the alignments and renderers with None filled in, the attributes and the resolved indices; header attributes default to 0; indices are resolved as intended (`ColumnIndices`), whereas the constructor as written raises TypeError for omitted indices (see "## Findings") |
| CursesTable.DefaultColumnPositions | bvg_grabber_curses.py:422-426 | the default columns "Line", "To", "In" and "From" are at positions 5, 1, 4 and 0 |
| CursesTable.ColumnLayout | bvg_grabber_curses.py:312-321 | column starts are prefix sums from 0, all but the last width are kept, the last ends at `contCols`, so the widths total `contCols`; no columns is an IndexError |
| CursesTable.ContentLines | bvg_grabber_curses.py:341-363 | min(nRows, h-2) rows are drawn, on lines 1 onward, strictly between the header line and the footer at h-1 |
| CursesTable.FooterSplit | bvg_grabber_curses.py:367-368 | the footer halves add up to `contCols`, the right one at most one wider |
| GrabberScript.ParseInt | bvggrabber/bvg-grabber.py:21 | `int()` of a string fails only with ValueError |
| GrabberScript.ParseIntRejectsBlank | bvggrabber/bvg-grabber.py:21 | an empty or blank field is a ValueError |
| GrabberScript.ParseIntOfNumeral | bvggrabber/bvg-grabber.py:21 | a numeral reads back as its value |
| GrabberScript.ParseIntOfNegative | bvggrabber/bvg-grabber.py:21 | '-' followed by a numeral reads back as the negated value |
| GrabberScript.DepartureSeconds | bvggrabber/bvg-grabber.py:21 | reading a departure time fails only with ValueError, or with IndexError when no ':' is left after removing '*' |
| GrabberScript.DepartureSecondsOfClock | bvggrabber/bvg-grabber.py:21 | "HH:MM", with or without a trailing '*', reads as h·3600 + m·60 seconds |
| GrabberScript.Rolled | bvggrabber/bvg-grabber.py:22-23 | a departure is moved 24 hours later exactly when it is more than one minute in the past |
| GrabberScript.MinutesUntil | bvggrabber/bvg-grabber.py:22-27 | the minutes until departure, after the rollover, as a floor division by 60 |
| GrabberScript.MinutesUntilInRange | bvggrabber/bvg-grabber.py:18-23 | for clock times of one day the adjusted difference lies in [-1, 1439] and agrees with the plain difference of minutes modulo a day |
| GrabberScript.LabelShape | bvggrabber/bvg-grabber.py:24-27 | the label is "now" exactly below two minutes, otherwise "in " + the minutes padded to two places + " min" |
| GrabberScript.LabelReadsBack | bvggrabber/bvg-grabber.py:27 | without its padding, the number in an "in N min" label is N |
| GrabberScript.MidnightExamples | bvggrabber/bvg-grabber.py:18-27 | at 23:59 a departure at 00:01 shows "in  2 min", and one at 23:58 shows "now" |
| GrabberScript.RowLayout | bvggrabber/bvg-grabber.py:28 | fields that fit make a 52-character row: line from column 0, direction from column 9, label flush right |
| GrabberScript.DepartureLine | bvggrabber/bvg-grabber.py:21-28 | a departure prints exactly when 'time' is present and readable and 'line' and 'direction' are present |
| GrabberScript.DepartureLineOfTime | bvggrabber/bvg-grabber.py:21-28 | a departure with a readable time prints as line, direction and the label of its minutes until departure |
| GrabberScript.Output | bvggrabber/bvg-grabber.py:13-29 | the station heading comes first; with an 'error' entry only the error follows |
| GrabberScript.AllDeparturesPrinted | bvggrabber/bvg-grabber.py:19-28 | when every departure prints, one line per departure, in order |
| GrabberScript.FirstFailureStopsOutput | bvggrabber/bvg-grabber.py:19-28 | the first departure that cannot print raises; the ones before it were printed |
| GrabberScript.PrintDepartures | bvggrabber/bvg-grabber.py:20-28 | the inner loop prints what `DeparturesOutput` specifies |
| GrabberScript.PrintStations | bvggrabber/bvg-grabber.py:19-29 | the outer loop prints what `StationsOutput` specifies, an empty line after each station |
| GrabberScript.PrintOutput | bvggrabber/bvg-grabber.py:13-29 | `printOutput` prints what `Output` specifies |
| JsonEncoder.Default | bvggrabber/utils/json.py:8-19 | the keys are exactly the non-routine members whose names do not start with "__" and are not `when` or `now`, each with its value unchanged |
| JsonEncoder.DroppedMembers | bvggrabber/utils/json.py:15-19 | `when`, `now`, routines and dunder names never appear |
| JsonEncoder.KeptMembers | bvggrabber/utils/json.py:16 | every kept data member appears with its value |
| JsonEncoder.DefaultIsIdempotent | bvggrabber/utils/json.py:14-19 | encoding an encoded dictionary's entries again changes nothing |
| JsonEncoder.IgnoredMemberChangesNothing | bvggrabber/utils/json.py:8-19 | adding a routine or a filtered name does not change the output |
| JsonEncoder.DepartureEncoding | bvggrabber/utils/json.py:14-19 | a departure's members encode as start, end and line only |

## Left out

- Network access and JSON decoding, which leave out `queryAPI` and `main` of `bvggrabber/bvg-grabber.py`: I/O, not logic.
- The query classes (`actualdeparture.py`, `scheduleddeparture.py`): HTTP requests and page scraping.
- The root `bvg-grabber.py`: argument parsing, network calls and file output.
- The curses side of `bvg_grabber_curses.py` (`main`, `curses_draw_status`, `addstr`, `refresh`, `getch`, `napms`): terminal I/O. The positions and texts it would draw are what `CellStart`, `ColumnLayout`, `ContentLines` and `FooterSplit` compute.
- `setup.py`: packaging metadata.
- The configuration files are executed with `exec`. Their values (`stations`, `bus`, `maxWaitSecs`, limits) become parameters.
- `dateutil.parse`, `datetime.fromtimestamp`, `datetime.now`/`today`, `durationformat` and `inspect.getmembers` are parameters or inputs. A parser is a function from strings to results.
- Api.NewDeparture: modelled as a function that returns the finished record. The source assigns the fields one by one, but nothing can observe the half-built object.
- `Departure.to_json` is `pass` and returns None; it is not modelled.
- TestedApi.Response.constructor: the file that defines the later API's `Response` class is not part of this model. tests/test_api.py:47-73 shows only that a response built with `state` False refuses to merge and that a successful one holds one group for its station. That a raw message, a candidate list, or an empty or absent station each give a failed response with no groups is a modelling assumption.
- The ordering and equality tests (tests/test_api.py:270-318) compare `datetime` values only. The timeline order of `Calendar.Micros` stands for them.
- CursesTable.NormaliseOptions: `colSizes` is only checked, not normalised. Its checks (TypeError for a non-list or an unsupported first entry or a non-number in the sum, ValueError for a length mismatch, IndexError for an empty list, ZeroDivisionError for omitted sizes with no columns or an integer list that sums to zero) are kept, but the float branch and the division by the sum are floating point, so the normalised sizes are not computed. CursesTable.SizesError tests the zero sum on exact reals; Python's float `sum` can round differently, e.g. `[1, 1e-20, -1]` sums to 0.0 there and raises ZeroDivisionError, while the exact sum is not zero. The floored widths of bvg_grabber_curses.py:306-310 are likewise an input to `ColumnLayout`.
- CursesTable.ColumnIndicesAsWritten and CursesTable.ColumnIndices: a list of column indices that starts with a number and holds any non-number entry is refused with TypeError at construction. The source keeps it and raises TypeError only later, in `draw`, at `self._colSizes[colIndex]` (bvg_grabber_curses.py:307). A list that starts with a name and holds a non-name fails with ValueError at construction in both.
- Callable `colAttribs` (bvg_grabber_curses.py:348-357) and `duration_attribs` (398-408): they dispatch on `co_argcount` and on curses colour attributes, which are display state, not logic.
- `new_curses_response_table` and `duration_renderer` (bvg_grabber_curses.py:411-428): they only hand fixed option lists to the constructor. The default column names it picks are covered by `CursesTable.DefaultColumnPositions`.
- CursesTable.DeparturesTableData: the list is copied, not aliased. In the source `response_to_table`'s list and the table share one Python list.
- CursesTable.MatrixTableData: the content is copied, not aliased. In the source the table keeps, and `merge` extends, the caller's own list (bvg_grabber_curses.py:116, 150), so the caller sees the appended rows too.
- Extended.GetData: the fetched responses must be distinct objects. The source creates a fresh response per station.
- Extended.GetData: the per-station responses are given in advance. In the source each is fetched inside the loop by `get_station_data`, whose own `merge` can raise ValueError when `bus` is set and a response failed (bvg_grabber_extended.py:58); that exit is modelled by Extended.GetStationData alone, not inside GetData.
- GrabberScript.ParseInt: Python's `int` also accepts '_' between digits, non-ASCII digits and non-ASCII white space; these are not modelled. The ASCII white space it strips, `\x1c`-`\x1f` included, is modelled.
- GrabberScript.MinutesUntil: the script divides by 60 with true division. Both times are whole minutes, so that quotient is the integer modelled. The OverflowError that true division raises for differences beyond about 10^308 seconds is not modelled.
- GrabberScript: the header line printed by the script's main loop (bvggrabber/bvg-grabber.py:55) and `queryAPI`'s error text are not modelled.
- Floating-point timestamps are modelled as exact reals handed to `fromTimestamp`, a parameter that may fail; which timestamps it refuses is left to it.
- Format.Int2Bin: `i` is an integer. A non-int `i`, which `format` refuses with ValueError, and the default `length=8` are not modelled: every call passes its length. A width above `sys.maxsize`, which `format` refuses with ValueError, is not modelled either: every integer width is accepted.

## Findings

| source | as written | input that shows it | evidently intended | confidence | as-written member | corrected member |
|---|---|---|---|---|---|---|
| bvggrabber/api/__init__.py:34-35 | `ValueError(...)` is built but not raised | `Departure("a", "b", ["x"], "l")` | raise the ValueError | not executed | Api.UnsupportedWhenIsAcceptedSilently | Api.NewDepartureChecked |
| bvggrabber/api/__init__.py:30-31 | `replace(day=day + 1)` on the last day of a month | "10:00" parsed on 2013-01-31 at 11:00 | roll over to the next calendar day | not executed | Api.PastTimeFailsOnMonthEnd | Api.CheckedRolloverCrossesMonth |
| bvg_grabber_curses.py:121-127 | `nCols`/`nRows` read `self.content`, but the attribute is `_content` | any `MatrixTableData` | read `self._content` | not executed | CursesTable.MatrixCountsAsWritten | CursesTable.MatrixTableData.NCols |
| bvg_grabber_curses.py:142 | `merge` compares `self.headers`, but the attribute is `_headers` | merging two `MatrixTableData` | compare `self._headers` | not executed | CursesTable.MatrixTableData.MergeAsWritten | CursesTable.MatrixTableData.Merge |
| bvg_grabber_curses.py:269 | `len(data.nCols)` of an int | `CursesTable(data, cont)` without `colIndices` | `range(data.nCols)` | not executed | CursesTable.ColumnIndicesAsWritten | CursesTable.ColumnIndices |
