/** The table logic of `bvg_grabber_curses.py`: cell alignment, the two
    table-data classes, the normalisation of the `CursesTable` options, the
    column layout and row limit of `draw`, and `response_to_table`. Drawing
    itself (`addstr`, colours, the main loop) is not part of this model. */
module CursesTable {
  import opened Wrappers
  import opened Calendar
  import opened TestedApi
  import opened Extended

  // ---------------------------------------------------------------------
  // Python list access
  // ---------------------------------------------------------------------

  /** `s[i]`: a negative index counts from the end; out of range is `IndexError`. */
  function PyIndex<T>(s: seq<T>, i: int): (r: Result<T>)
    ensures r.Ok? <==> -|s| <= i < |s|
    ensures r.Ok? && i >= 0 ==> r.value == s[i]
    ensures r.Ok? && i < 0 ==> r.value == s[|s| + i]
    ensures r.Err? ==> r.error == IndexError
  {
    if 0 <= i < |s| then Ok(s[i])
    else if -|s| <= i < 0 then Ok(s[|s| + i])
    else Err(IndexError)
  }

  /** `s.index(x)`: the first position of `x`, `ValueError` when absent. */
  function IndexOf<T(==)>(s: seq<T>, x: T): (r: Result<nat>)
    ensures r.Ok? <==> x in s
    ensures r.Ok? ==> r.value < |s| && s[r.value] == x && forall j :: 0 <= j < r.value ==> s[j] != x
    ensures r.Err? ==> r.error == ValueError
  {
    if |s| == 0 then Err(ValueError)
    else if s[0] == x then Ok(0)
    else
      var k := IndexOf(s[1..], x);
      if k.Err? then Err(ValueError) else Ok(k.value + 1)
  }

  // ---------------------------------------------------------------------
  // curses_draw_table_cell
  // ---------------------------------------------------------------------

  const Left: int := 0
  const Center: int := 1
  const Right: int := 2

  /** The column `curses_draw_table_cell` starts the text at. A text that
      fits is kept inside the cell: flush left, centred with the odd space
      on the right, or flush right. A text wider than the cell starts at the
      cell's left edge. Any other alignment value is a `ValueError`. */
  function CellStart(colStart: int, colWidth: int, textLen: nat, alignment: int): (r: Result<int>)
    ensures r.Err? <==> alignment != Left && alignment != Center && alignment != Right
    ensures r.Err? ==> r.error == ValueError
    ensures r.Ok? ==> r.value >= colStart
    ensures r.Ok? && alignment == Left ==> r.value == colStart
    ensures r.Ok? && textLen > colWidth ==> r.value == colStart
    ensures r.Ok? && textLen <= colWidth ==> r.value + textLen <= colStart + colWidth
    ensures r.Ok? && alignment == Right && textLen <= colWidth ==> r.value + textLen == colStart + colWidth
    ensures r.Ok? && alignment == Center && textLen <= colWidth ==>
      var leftGap, rightGap := r.value - colStart, colStart + colWidth - (r.value + textLen);
      leftGap <= rightGap <= leftGap + 1
  {
    if alignment == Left then Ok(colStart)
    else if alignment == Center then Ok(colStart + Max(0, (colWidth - textLen) / 2))
    else if alignment == Right then Ok(colStart + Max(0, colWidth - textLen))
    else Err(ValueError)
  }

  function Max(a: int, b: int): int {
    if a >= b then a else b
  }

  // ---------------------------------------------------------------------
  // Table data
  // ---------------------------------------------------------------------

  /** A value a table cell holds. */
  datatype Cell = TextCell(s: string) | TimeCell(dt: DateTime) | IntCell(n: int) | BoolCell(b: bool) | NoCell

  /** `ORIG_HEADERS`. */
  const OrigHeaders: seq<string> :=
    ["From", "To", "At", "Fetch-Time", "In", "Line", "Scheduled", "Too-Soon", "Too-Late"]

  /** `MatrixTableData`: headers and rows of cells. */
  class MatrixTableData {
    var headers: seq<string>
    var content: seq<seq<Cell>>

    /** The state the constructor's check leaves: a first row as wide as the headers. */
    predicate Valid()
      reads this
    {
      |content| > 0 && |headers| == |content[0]|
    }

    constructor (headers: seq<string>, content: seq<seq<Cell>>)
      requires |content| > 0 && |headers| == |content[0]|
      ensures Valid() && this.headers == headers && this.content == content
    {
      this.headers, this.content := headers, content;
    }

    /** `nCols` as written: it reads `self.content`, which is never set (the
        attribute is `_content`), so it raises `AttributeError`. */
    function NColsAsWritten(): (r: Result<nat>)
      ensures r == Err(AttributeError)
    {
      Err(AttributeError)
    }

    /** `nRows` as written; the same defect as `nCols`. */
    function NRowsAsWritten(): (r: Result<nat>)
      ensures r == Err(AttributeError)
    {
      Err(AttributeError)
    }

    /** `nCols` as intended: the width of the first row. */
    function NCols(): (n: nat)
      requires Valid()
      reads this
      ensures n == |headers|
    {
      |content[0]|
    }

    /** `nRows` as intended. */
    function NRows(): (n: nat)
      reads this
      ensures n == |content|
    {
      |content|
    }

    /** `header_at(col)`: the header of a column, counted from the end for
        a negative column. */
    function HeaderAt(col: int): (r: Result<string>)
      reads this
      ensures r.Ok? <==> -|headers| <= col < |headers|
      ensures r.Ok? ==> r.value == headers[if col < 0 then |headers| + col else col]
      ensures r.Err? ==> r.error == IndexError
    {
      PyIndex(headers, col)
    }

    /** `header_index(name)`: the first column with that header. */
    function HeaderIndex(name: string): (r: Result<nat>)
      reads this
      ensures r.Ok? <==> name in headers
      ensures r.Ok? ==> r.value < |headers| && headers[r.value] == name && name !in headers[..r.value]
      ensures r.Err? ==> r.error == ValueError
    {
      IndexOf(headers, name)
    }

    /** `value_at(row, col)`: with Python's negative indices. */
    function ValueAt(row: int, col: int): (r: Result<Cell>)
      reads this
      ensures PyIndex(content, row).Err? ==> r == Err(IndexError)
      ensures PyIndex(content, row).Ok? ==> r == PyIndex(PyIndex(content, row).value, col)
    {
      var rowCells := PyIndex(content, row);
      if rowCells.Err? then Err(IndexError) else PyIndex(rowCells.value, col)
    }

    /** `merge(other)` as written: after the type check it reads
        `self.headers`, which does not exist, so every merge of two matrices
        raises `AttributeError` and nothing is appended. */
    method MergeAsWritten(other: MatrixArg) returns (raised: Exception)
      ensures other.NotAMatrix? ==> raised == TypeError
      ensures other.AMatrix? ==> raised == AttributeError
    {
      if other.NotAMatrix? {
        return TypeError;
      }
      return AttributeError;
    }

    /** `merge(other)` as intended: appends the other's rows when the header
        lists are equal, and raises `ValueError` otherwise. */
    method Merge(other: MatrixArg) returns (raised: Option<Exception>)
      modifies this
      ensures other.NotAMatrix? ==> raised == Some(TypeError)
      ensures other.AMatrix? && old(headers) != old(other.matrix.headers) ==> raised == Some(ValueError)
      ensures raised.None? <==> other.AMatrix? && old(headers) == old(other.matrix.headers)
      ensures raised.None? ==> content == old(content) + old(other.matrix.content)
      ensures raised.Some? ==> content == old(content)
      ensures headers == old(headers)
      ensures old(Valid()) ==> Valid()
    {
      if other.NotAMatrix? {
        return Some(TypeError);
      }
      if headers != other.matrix.headers {
        return Some(ValueError);
      }
      content := content + other.matrix.content;
      raised := None;
    }
  }

  /** The argument of `MatrixTableData.merge`. */
  datatype MatrixArg = AMatrix(matrix: MatrixTableData) | NotAMatrix

  /** `MatrixTableData(headers, content)`: `IndexError` for empty content,
      `ValueError` when the first row and the headers differ in width. */
  method NewMatrixTableData(headers: seq<string>, content: seq<seq<Cell>>)
    returns (t: Result<MatrixTableData>)
    ensures |content| == 0 ==> t == Err(IndexError)
    ensures |content| > 0 && |headers| != |content[0]| ==> t == Err(ValueError)
    ensures t.Ok? <==> |content| > 0 && |headers| == |content[0]|
    ensures t.Ok? ==> fresh(t.value) && t.value.Valid() && t.value.headers == headers
                      && t.value.content == content
  {
    if |content| == 0 {
      return Err(IndexError);
    }
    if |headers| != |content[0]| {
      return Err(ValueError);
    }
    var m := new MatrixTableData(headers, content);
    t := Ok(m);
  }

  /** A matrix is built for every content whose first row matches the
      headers, its counts then agree with the inputs, and the counts as
      written fail on every such matrix. */
  lemma MatrixCountsAsWritten(m: MatrixTableData)
    requires m.Valid()
    ensures m.NColsAsWritten().Err? && m.NRowsAsWritten().Err?
    ensures m.NCols() == |m.headers| && m.NRows() >= 1
  {
  }

  /** `DeparturesTableData`: the rows of the departures table. */
  class DeparturesTableData {
    var departures: seq<Departure>

    constructor (departures: seq<Departure>)
      ensures this.departures == departures
    {
      this.departures := departures;
    }

    function NCols(): (n: nat)
      ensures n == |OrigHeaders| == 9
    {
      |OrigHeaders|
    }

    function NRows(): (n: nat)
      reads this
      ensures n == |departures|
    {
      |departures|
    }

    /** `header_at(col)`: one of the nine fixed headers. */
    function HeaderAt(col: int): (r: Result<string>)
      ensures r.Ok? <==> -9 <= col < 9
      ensures r.Ok? ==> r.value == OrigHeaders[if col < 0 then 9 + col else col]
      ensures r.Err? ==> r.error == IndexError
    {
      PyIndex(OrigHeaders, col)
    }

    /** `header_index(name)`: the column of a fixed header. */
    function HeaderIndex(name: string): (r: Result<nat>)
      ensures r.Ok? <==> name in OrigHeaders
      ensures r.Ok? ==> r.value < 9 && OrigHeaders[r.value] == name && HeaderAt(r.value) == Ok(name)
      ensures r.Err? ==> r.error == ValueError
    {
      IndexOf(OrigHeaders, name)
    }

    /** `value_at(row, col)`. The switch is a dictionary built in full
        before `.get(col, None)` picks from it, so both reachability
        predicates are evaluated, and may raise `KeyError`, whatever the
        column. `scheduledOf` reads the `scheduled` attribute, which belongs
        to a version of `Departure` that is not part of this model. */
    function ValueAt(row: int, col: int, minReach: map<string, int>, maxWaitSecs: int,
                     scheduledOf: Departure -> bool): (r: Result<Cell>)
      reads this
      ensures var dep := PyIndex(departures, row);
        && (dep.Err? ==> r == Err(IndexError))
        && (dep.Ok? && dep.value.start !in minReach ==> r == Err(KeyError))
        && (r.Ok? <==> dep.Ok? && dep.value.start in minReach)
      ensures r.Ok? ==>
        var dep := PyIndex(departures, row).value;
        && (col == 0 ==> r.value == TextCell(dep.start))
        && (col == 1 ==> r.value == TextCell(dep.end))
        && (col == 2 ==> r.value == TimeCell(dep.when))
        && (col == 3 ==> r.value == TimeCell(dep.since))
        && (col == 4 ==> r.value == IntCell(Remaining(dep)))
        && (col == 5 ==> r.value == TextCell(dep.line))
        && (col == 6 ==> r.value == BoolCell(scheduledOf(dep)))
        && (col == 7 ==> r.value == BoolCell(Remaining(dep) < minReach[dep.start]))
        && (col == 8 ==> r.value == BoolCell(Remaining(dep) > minReach[dep.start] + maxWaitSecs))
        && (!(0 <= col < 9) ==> r.value == NoCell)
    {
      var picked := PyIndex(departures, row);
      if picked.Err? then Err(IndexError)
      else
      var dep := picked.value;
      if dep.start !in minReach then Err(KeyError)
      else
      var tooSoon := LeavesTooSoon(minReach, dep).value;
      var tooLate := LeavesTooLate(minReach, maxWaitSecs, dep).value;
      var switch := map[0 := TextCell(dep.start), 1 := TextCell(dep.end), 2 := TimeCell(dep.when),
                        3 := TimeCell(dep.since), 4 := IntCell(Remaining(dep)), 5 := TextCell(dep.line),
                        6 := BoolCell(scheduledOf(dep)), 7 := BoolCell(tooSoon), 8 := BoolCell(tooLate)];
      Ok(if col in switch then switch[col] else NoCell)
    }

    /** `merge(other)`: appends the other table's rows; `TypeError` for
        anything but a departures table. */
    method Merge(other: DeparturesArg) returns (raised: Option<Exception>)
      modifies this
      ensures other.NotDepartures? ==> raised == Some(TypeError) && departures == old(departures)
      ensures other.ADepartures? ==> raised.None? && departures == old(departures) + old(other.table.departures)
      ensures other.ADepartures? ==> NRows() == old(NRows()) + old(other.table.NRows())
    {
      if other.NotDepartures? {
        return Some(TypeError);
      }
      departures := departures + other.table.departures;
      raised := None;
    }
  }

  /** The argument of `DeparturesTableData.merge`. */
  datatype DeparturesArg = ADepartures(table: DeparturesTableData) | NotDepartures

  /** An empty table cannot show its footer: `value_at(0, 3)` raises
      `IndexError` there. */
  lemma EmptyTableFooterFails(t: DeparturesTableData, minReach: map<string, int>, maxWaitSecs: int,
                              scheduledOf: Departure -> bool)
    requires t.NRows() == 0
    ensures t.ValueAt(0, 3, minReach, maxWaitSecs, scheduledOf) == Err(IndexError)
  {
  }

  // ---------------------------------------------------------------------
  // response_to_table
  // ---------------------------------------------------------------------

  /** All departures of the groups, group by group. */
  function Flatten(groups: seq<StationGroup>): seq<Departure> {
    if |groups| == 0 then [] else Flatten(groups[..|groups| - 1]) + groups[|groups| - 1].departures
  }

  /** Flattening a merged response gives the first response's rows followed
      by the second's: converting to a table commutes with merging. */
  lemma {:induction false} FlattenAppend(a: seq<StationGroup>, b: seq<StationGroup>)
    ensures Flatten(a + b) == Flatten(a) + Flatten(b)
    decreases |b|
  {
    if |b| == 0 {
      assert a + b == a;
    } else {
      assert (a + b)[..|a + b| - 1] == a + b[..|b| - 1];
      assert (a + b)[|a + b| - 1] == b[|b| - 1];
      FlattenAppend(a, b[..|b| - 1]);
    }
  }

  /** Every row comes from one of the groups. */
  lemma {:induction false} FlattenedRowsComeFromGroups(groups: seq<StationGroup>, d: Departure)
    requires d in Flatten(groups)
    ensures exists g :: 0 <= g < |groups| && d in groups[g].departures
    decreases |groups|
  {
    var last := groups[|groups| - 1];
    if d in last.departures {
      assert d in groups[|groups| - 1].departures;
    } else {
      FlattenedRowsComeFromGroups(groups[..|groups| - 1], d);
      var g :| 0 <= g < |groups| - 1 && d in groups[..|groups| - 1][g].departures;
      assert groups[..|groups| - 1][g] == groups[g];
    }
  }

  /** The nested loops of `response_to_table`. */
  method FlattenGroups(groups: seq<StationGroup>) returns (departures: seq<Departure>)
    ensures departures == Flatten(groups)
  {
    departures := [];
    for i := 0 to |groups|
      invariant departures == Flatten(groups[..i])
    {
      assert groups[..i + 1][..i] == groups[..i];
      ghost var before := departures;
      var items := groups[i].departures;
      for j := 0 to |items|
        invariant departures == before + items[..j]
      {
        assert items[..j + 1] == items[..j] + [items[j]];
        departures := departures + [items[j]];
      }
      assert items[..|items|] == items;
    }
    assert groups[..|groups|] == groups;
  }

  /** `response_to_table(response)`: the receiver's groups are read whatever
      its state. */
  method ResponseToTable(response: Response) returns (t: DeparturesTableData)
    ensures fresh(t) && t.departures == Flatten(response.groups)
  {
    var departures := FlattenGroups(response.groups);
    t := new DeparturesTableData(departures);
  }

  // ---------------------------------------------------------------------
  // CursesTable.__init__: the column options
  // ---------------------------------------------------------------------

  /** A list option: omitted, a list, or a value of another type. */
  datatype ListArg<T> = Omitted | AList(items: seq<T>) | NotAList

  /** The checks every per-column list option undergoes: a value that is
      not a list is a `TypeError`, a list of the wrong length a `ValueError`. */
  function ListError<T>(nCols: nat, arg: ListArg<T>): (e: Option<Exception>)
    ensures e.None? <==> arg.Omitted? || (arg.AList? && |arg.items| == nCols)
    ensures e.Some? ==> e.value == (if arg.NotAList? then TypeError else ValueError)
  {
    match arg
    case Omitted => None
    case NotAList => Some(TypeError)
    case AList(items) => if |items| != nCols then Some(ValueError) else None
  }

  /** An entry of `colSizes`: a float, an int, or a value of another type. */
  datatype SizeEntry = FloatSize(x: real) | IntSize(n: int) | OtherSize

  /** Python's `sum(colSizes)`, `None` where a non-number makes it raise `TypeError`. */
  function SizeSum(items: seq<SizeEntry>): (total: Option<real>)
    ensures total.None? <==> exists k :: 0 <= k < |items| && items[k].OtherSize?
  {
    if |items| == 0 then Some(0.0)
    else
      var rest := SizeSum(items[1..]);
      assert forall k :: 1 <= k < |items| ==> items[k] == items[1..][k - 1];
      match items[0]
      case OtherSize => None
      case FloatSize(x) => if rest.None? then None else Some(x + rest.value)
      case IntSize(n) => if rest.None? then None else Some(n as real + rest.value)
  }

  /** The exception the `colSizes` checks of lines 215-226 raise, if any.
      Omitted, the sizes are `1.0 / nCols`, a `ZeroDivisionError` without
      columns. A list of the right length is judged by its first entry, the
      `IndexError` of `colSizes[0]` when it is empty; integer sizes are
      divided by their sum, which raises for a non-number or a zero sum. */
  function SizesError(nCols: nat, colSizes: ListArg<SizeEntry>): (e: Option<Exception>)
    ensures e.None? <==>
      nCols > 0 && (colSizes.Omitted? || (colSizes.AList? && |colSizes.items| == nCols &&
        (colSizes.items[0].FloatSize? || (colSizes.items[0].IntSize? && SizeSum(colSizes.items).Some? &&
                                          SizeSum(colSizes.items).value != 0.0))))
    ensures !colSizes.Omitted? && ListError(nCols, colSizes).Some? ==> e == ListError(nCols, colSizes)
  {
    match colSizes
    case Omitted => if nCols == 0 then Some(ZeroDivisionError) else None
    case NotAList => Some(TypeError)
    case AList(items) =>
      if |items| != nCols then Some(ValueError)
      else if |items| == 0 then Some(IndexError)
      else
        match items[0]
        case FloatSize(_) => None
        case IntSize(_) =>
          var total := SizeSum(items);
          if total.None? then Some(TypeError)
          else if total.value == 0.0 then Some(ZeroDivisionError)
          else None
        case OtherSize => Some(TypeError)
  }

  /** The loops that replace `None` entries by a default. */
  method FillNones<T>(xs: seq<Option<T>>, default: T) returns (filled: seq<T>)
    ensures |filled| == |xs|
    ensures forall i :: 0 <= i < |xs| ==> filled[i] == (if xs[i].Some? then xs[i].value else default)
  {
    filled := [];
    for i := 0 to |xs|
      invariant |filled| == i
      invariant forall k :: 0 <= k < i ==> filled[k] == (if xs[k].Some? then xs[k].value else default)
    {
      var notNone := if xs[i].None? then default else xs[i].value;
      filled := filled + [notNone];
    }
  }

  /** `colAlignments`: `LEFT` everywhere when omitted, `ValueError` when the
      length differs from the column count, otherwise `None` entries become
      `LEFT`. There is no type check: `NotAList` is a value without a
      length, whose `len` is a `TypeError`. */
  method NormaliseAlignments(nCols: nat, colAlignments: ListArg<Option<int>>)
    returns (r: Result<seq<int>>)
    ensures colAlignments.Omitted? ==> r == Ok(seq(nCols, i => Left))
    ensures colAlignments.NotAList? ==> r == Err(TypeError)
    ensures colAlignments.AList? && |colAlignments.items| != nCols ==> r == Err(ValueError)
    ensures colAlignments.AList? && |colAlignments.items| == nCols ==>
      r.Ok? && |r.value| == nCols &&
      forall i :: 0 <= i < nCols ==> r.value[i] == colAlignments.items[i].GetOr(Left)
  {
    match colAlignments
    case Omitted => return Ok(seq(nCols, i => Left));
    case NotAList => return Err(TypeError);
    case AList(items) =>
      if |items| != nCols {
        return Err(ValueError);
      }
      var filled := FillNones(items, Left);
      r := Ok(filled);
  }

  /** `colRenderers`: `str` everywhere when omitted, `TypeError` for a
      non-list, `ValueError` for a length mismatch, otherwise `None` entries
      become `str`. */
  method NormaliseRenderers(nCols: nat, colRenderers: ListArg<Option<Cell -> string>>, str: Cell -> string)
    returns (r: Result<seq<Cell -> string>>)
    ensures colRenderers.Omitted? ==> r == Ok(seq(nCols, i => str))
    ensures colRenderers.NotAList? ==> r == Err(TypeError)
    ensures colRenderers.AList? && |colRenderers.items| != nCols ==> r == Err(ValueError)
    ensures colRenderers.AList? && |colRenderers.items| == nCols ==>
      r.Ok? && |r.value| == nCols &&
      forall i :: 0 <= i < nCols ==> r.value[i] == colRenderers.items[i].GetOr(str)
  {
    match colRenderers
    case Omitted => return Ok(seq(nCols, i => str));
    case NotAList => return Err(TypeError);
    case AList(items) =>
      if |items| != nCols {
        return Err(ValueError);
      }
      var filled := FillNones(items, str);
      r := Ok(filled);
  }

  /** `colAttribs` (plain attribute numbers): `0` everywhere when omitted,
      `TypeError` for a non-list, `ValueError` for a length mismatch,
      otherwise kept. */
  function NormaliseAttribs(nCols: nat, colAttribs: ListArg<int>): (r: Result<seq<int>>)
    ensures colAttribs.Omitted? ==> r.Ok? && |r.value| == nCols && forall i :: 0 <= i < nCols ==> r.value[i] == 0
    ensures colAttribs.NotAList? ==> r == Err(TypeError)
    ensures colAttribs.AList? ==> (r.Ok? <==> |colAttribs.items| == nCols)
    ensures colAttribs.AList? && r.Ok? ==> r.value == colAttribs.items
    ensures r.Err? ==> r.error == (if colAttribs.NotAList? then TypeError else ValueError)
  {
    match colAttribs
    case Omitted => Ok(seq(nCols, i => 0))
    case NotAList => Err(TypeError)
    case AList(items) => if |items| != nCols then Err(ValueError) else Ok(items)
  }

  /** An entry of `colIndices`: a column number, a header name, or another value. */
  datatype ColumnRef = ColumnNumber(n: int) | HeaderName(name: string) | OtherRef

  /** The loop of lines 275-278: each header name replaced by its first
      position among the headers; a name that is not a header, or an entry
      that is no name at all, is the `ValueError` of `list.index`. */
  method HeaderPositions(headers: seq<string>, names: seq<ColumnRef>) returns (r: Result<seq<nat>>)
    ensures r.Ok? <==> forall k :: 0 <= k < |names| ==> names[k].HeaderName? && names[k].name in headers
    ensures r.Err? ==> r.error == ValueError
    ensures r.Ok? ==> |r.value| == |names|
    ensures r.Ok? ==> forall k :: 0 <= k < |names| ==>
      r.value[k] < |headers| && headers[r.value[k]] == names[k].name && names[k].name !in headers[..r.value[k]]
  {
    var colIndicesInt: seq<nat> := [];
    for i := 0 to |names|
      invariant |colIndicesInt| == i
      invariant forall k :: 0 <= k < i ==> names[k].HeaderName? && names[k].name in headers
      invariant forall k :: 0 <= k < i ==>
        colIndicesInt[k] < |headers| && headers[colIndicesInt[k]] == names[k].name
        && names[k].name !in headers[..colIndicesInt[k]]
    {
      if !names[i].HeaderName? {
        return Err(ValueError);
      }
      var p := IndexOf(headers, names[i].name);
      if p.Err? {
        return Err(ValueError);
      }
      colIndicesInt := colIndicesInt + [p.value];
    }
    r := Ok(colIndicesInt);
  }

  /** All entries are column numbers. */
  predicate AllNumbers(refs: seq<ColumnRef>) {
    forall k :: 0 <= k < |refs| ==> refs[k].ColumnNumber?
  }

  function Numbers(refs: seq<ColumnRef>): (ns: seq<int>)
    requires AllNumbers(refs)
    ensures |ns| == |refs| && forall k :: 0 <= k < |refs| ==> ns[k] == refs[k].n
  {
    if |refs| == 0 then [] else [refs[0].n] + Numbers(refs[1..])
  }

  /** The exception resolving `colIndices` raises, if any, once omitted
      indices stand for every column: `TypeError` for a non-list, `IndexError`
      for an empty list, and for a list the check its first entry selects. */
  function IndicesError(headers: seq<string>, colIndices: ListArg<ColumnRef>): (e: Option<Exception>)
    ensures colIndices.Omitted? ==> e.None?
    ensures colIndices.AList? && |colIndices.items| > 0 && colIndices.items[0].HeaderName? ==>
      (e.None? <==> forall k :: 0 <= k < |colIndices.items| ==>
                     colIndices.items[k].HeaderName? && colIndices.items[k].name in headers)
    ensures colIndices.AList? && |colIndices.items| > 0 && colIndices.items[0].ColumnNumber? ==>
      (e.None? <==> AllNumbers(colIndices.items))
    ensures e.Some? ==> e.value != KeyError
  {
    match colIndices
    case Omitted => None
    case NotAList => Some(TypeError)
    case AList(items) =>
      if |items| == 0 then Some(IndexError)
      else
        match items[0]
        case ColumnNumber(_) => if AllNumbers(items) then None else Some(TypeError)
        case HeaderName(_) =>
          if forall k :: 0 <= k < |items| ==> items[k].HeaderName? && items[k].name in headers then None
          else Some(ValueError)
        case OtherRef => Some(TypeError)
  }

  /** `colIndices` as written. Omitted, it evaluates `len(data.nCols)`, the
      length of an integer, which raises `TypeError`. A list is judged by its
      first entry, and an empty list is an `IndexError`. A list starting with
      a number is kept; a mixed list of that kind fails later, in `draw`,
      and is reported here as that `TypeError`. */
  method ColumnIndicesAsWritten(headers: seq<string>, colIndices: ListArg<ColumnRef>)
    returns (r: Result<seq<int>>)
    ensures colIndices.Omitted? ==> r == Err(TypeError)
    ensures colIndices.NotAList? ==> r == Err(TypeError)
    ensures colIndices.AList? && |colIndices.items| == 0 ==> r == Err(IndexError)
    ensures colIndices.AList? && |colIndices.items| > 0 && colIndices.items[0].ColumnNumber? ==>
      r == if AllNumbers(colIndices.items) then Ok(Numbers(colIndices.items)) else Err(TypeError)
    ensures colIndices.AList? && |colIndices.items| > 0 && colIndices.items[0].HeaderName? ==>
      (r.Ok? <==> forall k :: 0 <= k < |colIndices.items| ==>
                   colIndices.items[k].HeaderName? && colIndices.items[k].name in headers)
    ensures colIndices.AList? && |colIndices.items| > 0 && colIndices.items[0].HeaderName? && r.Ok? ==>
      |r.value| == |colIndices.items| &&
      forall k :: 0 <= k < |r.value| ==>
        0 <= r.value[k] < |headers| && headers[r.value[k]] == colIndices.items[k].name &&
        colIndices.items[k].name !in headers[..r.value[k]]
    ensures colIndices.AList? && |colIndices.items| > 0 && colIndices.items[0].HeaderName? && r.Err? ==>
      r.error == ValueError
    ensures colIndices.AList? && |colIndices.items| > 0 && colIndices.items[0].OtherRef? ==> r == Err(TypeError)
  {
    match colIndices
    case Omitted => return Err(TypeError);
    case NotAList => return Err(TypeError);
    case AList(items) =>
      if |items| == 0 {
        return Err(IndexError);
      }
      match items[0]
      case ColumnNumber(_) =>
        return if AllNumbers(items) then Ok(Numbers(items)) else Err(TypeError);
      case HeaderName(_) =>
        var positions := HeaderPositions(headers, items);
        if positions.Err? {
          return Err(positions.error);
        }
        var ps: seq<int> := positions.value;
        return Ok(ps);
      case OtherRef =>
        return Err(TypeError);
  }

  /** `colIndices` as intended: omitted, every column in order; otherwise
      as written. */
  method ColumnIndices(nCols: nat, headers: seq<string>, colIndices: ListArg<ColumnRef>)
    returns (r: Result<seq<int>>)
    ensures colIndices.Omitted? ==> r.Ok? && |r.value| == nCols && forall k :: 0 <= k < nCols ==> r.value[k] == k
    ensures colIndices.NotAList? ==> r == Err(TypeError)
    ensures colIndices.AList? && |colIndices.items| == 0 ==> r == Err(IndexError)
    ensures colIndices.AList? && |colIndices.items| > 0 && colIndices.items[0].ColumnNumber? ==>
      r == if AllNumbers(colIndices.items) then Ok(Numbers(colIndices.items)) else Err(TypeError)
    ensures colIndices.AList? && |colIndices.items| > 0 && colIndices.items[0].HeaderName? ==>
      (r.Ok? <==> forall k :: 0 <= k < |colIndices.items| ==>
                   colIndices.items[k].HeaderName? && colIndices.items[k].name in headers)
    ensures colIndices.AList? && |colIndices.items| > 0 && colIndices.items[0].HeaderName? && r.Ok? ==>
      |r.value| == |colIndices.items| &&
      forall k :: 0 <= k < |r.value| ==>
        0 <= r.value[k] < |headers| && headers[r.value[k]] == colIndices.items[k].name &&
        colIndices.items[k].name !in headers[..r.value[k]]
    ensures colIndices.AList? && |colIndices.items| > 0 && colIndices.items[0].HeaderName? && r.Err? ==>
      r.error == ValueError
    ensures colIndices.AList? && |colIndices.items| > 0 && colIndices.items[0].OtherRef? ==> r == Err(TypeError)
    ensures r.Err? <==> IndicesError(headers, colIndices).Some?
    ensures r.Err? ==> r.error == IndicesError(headers, colIndices).value
  {
    if colIndices.Omitted? {
      return Ok(seq(nCols, k => k));
    }
    r := ColumnIndicesAsWritten(headers, colIndices);
    assert r.Err? <==> IndicesError(headers, colIndices).Some?;
  }

  /** A header's position is the one place it occurs at. */
  lemma HeaderPosition(name: string, p: nat)
    requires p < |OrigHeaders| && OrigHeaders[p] == name
    requires forall k :: 0 <= k < |OrigHeaders| && k != p ==> OrigHeaders[k] != name
    ensures IndexOf(OrigHeaders, name) == Ok(p)
  {
  }

  /** The column options a `CursesTable` keeps once its constructor is done. */
  datatype TableOptions = TableOptions(alignments: seq<int>, renderers: seq<Cell -> string>,
                                       attribs: seq<int>, indices: seq<int>, headerAttribs: int)

  /** `CursesTable.__init__` for the options it checks, in its order (sizes,
      alignments, renderers, attributes, indices), stopping at the first
      error; `headerAttribs` defaults to 0. Column indices are resolved as
      intended. The sizes are only checked: their values are floating point. */
  method NormaliseOptions(nCols: nat, headers: seq<string>, colSizes: ListArg<SizeEntry>,
                          colAlignments: ListArg<Option<int>>,
                          colRenderers: ListArg<Option<Cell -> string>>, str: Cell -> string,
                          colAttribs: ListArg<int>, colIndices: ListArg<ColumnRef>,
                          headerAttribs: Option<int>)
    returns (r: Result<TableOptions>)
    ensures SizesError(nCols, colSizes).Some? ==> r == Err(SizesError(nCols, colSizes).value)
    ensures SizesError(nCols, colSizes).None? && ListError(nCols, colAlignments).Some? ==>
      r == Err(ListError(nCols, colAlignments).value)
    ensures SizesError(nCols, colSizes).None? && ListError(nCols, colAlignments).None? &&
            ListError(nCols, colRenderers).Some? ==>
      r == Err(ListError(nCols, colRenderers).value)
    ensures SizesError(nCols, colSizes).None? && ListError(nCols, colAlignments).None? &&
            ListError(nCols, colRenderers).None? && ListError(nCols, colAttribs).Some? ==>
      r == Err(ListError(nCols, colAttribs).value)
    ensures SizesError(nCols, colSizes).None? && ListError(nCols, colAlignments).None? &&
            ListError(nCols, colRenderers).None? && ListError(nCols, colAttribs).None? &&
            IndicesError(headers, colIndices).Some? ==>
      r == Err(IndicesError(headers, colIndices).value)
    ensures r.Ok? <==>
      SizesError(nCols, colSizes).None? && ListError(nCols, colAlignments).None? &&
      ListError(nCols, colRenderers).None? && ListError(nCols, colAttribs).None? &&
      IndicesError(headers, colIndices).None?
    ensures r.Ok? ==> |r.value.alignments| == nCols && |r.value.renderers| == nCols
    ensures r.Ok? ==> forall i :: 0 <= i < nCols ==>
      r.value.alignments[i] == (if colAlignments.AList? then colAlignments.items[i].GetOr(Left) else Left)
    ensures r.Ok? ==> forall i :: 0 <= i < nCols ==>
      r.value.renderers[i] == (if colRenderers.AList? then colRenderers.items[i].GetOr(str) else str)
    ensures r.Ok? ==> r.value.attribs == NormaliseAttribs(nCols, colAttribs).value
    ensures r.Ok? && colIndices.Omitted? ==> r.value.indices == seq(nCols, k => k)
    ensures r.Ok? && colIndices.AList? && colIndices.items[0].ColumnNumber? ==>
      r.value.indices == Numbers(colIndices.items)
    ensures r.Ok? && colIndices.AList? && colIndices.items[0].HeaderName? ==>
      |r.value.indices| == |colIndices.items| &&
      forall k :: 0 <= k < |colIndices.items| ==>
        0 <= r.value.indices[k] < |headers| && headers[r.value.indices[k]] == colIndices.items[k].name &&
        colIndices.items[k].name !in headers[..r.value.indices[k]]
    ensures r.Ok? ==> r.value.headerAttribs == headerAttribs.GetOr(0)
  {
    var sizesError := SizesError(nCols, colSizes);
    if sizesError.Some? {
      return Err(sizesError.value);
    }
    var alignments := NormaliseAlignments(nCols, colAlignments);
    if alignments.Err? {
      return Err(alignments.error);
    }
    var renderers := NormaliseRenderers(nCols, colRenderers, str);
    if renderers.Err? {
      return Err(renderers.error);
    }
    var attribs := NormaliseAttribs(nCols, colAttribs);
    if attribs.Err? {
      return Err(attribs.error);
    }
    var indices := ColumnIndices(nCols, headers, colIndices);
    if indices.Err? {
      return Err(indices.error);
    }
    r := Ok(TableOptions(alignments.value, renderers.value, attribs.value, indices.value, headerAttribs.GetOr(0)));
  }

  /** One step of `IndexOf` past a different head. */
  lemma IndexOfPastHead(head: string, tail: seq<string>, x: string, k: nat)
    requires head != x && IndexOf(tail, x) == Ok(k)
    ensures IndexOf([head] + tail, x) == Ok(k + 1)
  {
    assert ([head] + tail)[1..] == tail;
  }

  lemma IndexOfAtHead(tail: seq<string>, x: string)
    ensures IndexOf([x] + tail, x) == Ok(0)
  {
  }

  /** `ORIG_HEADERS` taken apart from the back. */
  lemma HeaderTails()
    ensures OrigHeaders == ["From"] + (["To"] + (["At"] + (["Fetch-Time"] + (["In"] + (["Line"] + ["Scheduled", "Too-Soon", "Too-Late"])))))
  {
  }

  lemma LinePosition()
    ensures IndexOf(OrigHeaders, "Line") == Ok(5)
  {
    var h5: seq<string> := ["Line"] + ["Scheduled", "Too-Soon", "Too-Late"];
    var h4 := ["In"] + h5;
    var h3 := ["Fetch-Time"] + h4;
    var h2 := ["At"] + h3;
    var h1 := ["To"] + h2;
    HeaderTails();
    assert "From"[0] != "Line"[0] && "To"[0] != "Line"[0] && "At"[0] != "Line"[0];
    assert "Fetch-Time"[0] != "Line"[0] && "In"[0] != "Line"[0];
    IndexOfAtHead(["Scheduled", "Too-Soon", "Too-Late"], "Line");
    IndexOfPastHead("In", h5, "Line", 0);
    IndexOfPastHead("Fetch-Time", h4, "Line", 1);
    IndexOfPastHead("At", h3, "Line", 2);
    IndexOfPastHead("To", h2, "Line", 3);
    IndexOfPastHead("From", h1, "Line", 4);
  }

  lemma InPosition()
    ensures IndexOf(OrigHeaders, "In") == Ok(4)
  {
    var h4: seq<string> := ["In"] + (["Line"] + ["Scheduled", "Too-Soon", "Too-Late"]);
    var h3 := ["Fetch-Time"] + h4;
    var h2 := ["At"] + h3;
    var h1 := ["To"] + h2;
    HeaderTails();
    assert "From"[0] != "In"[0] && "To"[0] != "In"[0] && "At"[0] != "In"[0] && "Fetch-Time"[0] != "In"[0];
    IndexOfAtHead(h4[1..], "In");
    assert [h4[0]] + h4[1..] == h4;
    IndexOfPastHead("Fetch-Time", h4, "In", 0);
    IndexOfPastHead("At", h3, "In", 1);
    IndexOfPastHead("To", h2, "In", 2);
    IndexOfPastHead("From", h1, "In", 3);
  }

  lemma ToAndFromPositions()
    ensures IndexOf(OrigHeaders, "To") == Ok(1) && IndexOf(OrigHeaders, "From") == Ok(0)
  {
    var h1: seq<string> := ["To"] + OrigHeaders[2..];
    assert ["From"] + h1 == OrigHeaders;
    assert "From"[0] != "To"[0];
    IndexOfAtHead(OrigHeaders[2..], "To");
    IndexOfPastHead("From", h1, "To", 0);
    IndexOfAtHead(h1, "From");
  }

  /** The positions of the default columns of `new_curses_response_table`:
      "Line", "To", "In" for one station, with "From" added for several. */
  lemma DefaultColumnPositions()
    ensures IndexOf(OrigHeaders, "Line") == Ok(5) && IndexOf(OrigHeaders, "To") == Ok(1)
    ensures IndexOf(OrigHeaders, "In") == Ok(4) && IndexOf(OrigHeaders, "From") == Ok(0)
  {
    LinePosition();
    InPosition();
    ToAndFromPositions();
  }

  // ---------------------------------------------------------------------
  // draw: layout arithmetic
  // ---------------------------------------------------------------------

  function Sum(s: seq<int>): int {
    if |s| == 0 then 0 else Sum(s[..|s| - 1]) + s[|s| - 1]
  }

  /** Lines 313-321: `sizes` are the floored widths of the selected columns.
      Each column starts where the previous one ends, the first at 0, and the
      last is widened (or narrowed) to end at `contCols`, so the widths add
      up to `contCols`. With no columns the last-column update is an
      `IndexError`. */
  method ColumnLayout(sizes: seq<int>, contCols: int)
    returns (xs: seq<int>, widths: seq<int>, raised: Option<Exception>)
    ensures |sizes| == 0 <==> raised == Some(IndexError)
    ensures raised.None? ==> |xs| == |widths| == |sizes|
    ensures raised.None? ==> xs[0] == 0 && forall i :: 0 <= i < |sizes| ==> xs[i] == Sum(sizes[..i])
    ensures raised.None? ==> forall i :: 0 <= i < |sizes| - 1 ==> widths[i] == sizes[i] && xs[i + 1] == xs[i] + widths[i]
    ensures raised.None? ==> xs[|sizes| - 1] + widths[|sizes| - 1] == contCols
    ensures raised.None? ==> Sum(widths) == contCols
  {
    xs := [];
    var curX := 0;
    for i := 0 to |sizes|
      invariant |xs| == i
      invariant curX == Sum(sizes[..i])
      invariant forall k :: 0 <= k < i ==> xs[k] == Sum(sizes[..k])
    {
      assert sizes[..i + 1][..i] == sizes[..i];
      xs := xs + [curX];
      curX := curX + sizes[i];
    }
    if |sizes| == 0 {
      return [], [], Some(IndexError);
    }
    var last := |sizes| - 1;
    widths := sizes[last := contCols - xs[last]];
    raised := None;
    forall i | 0 <= i < last
      ensures xs[i + 1] == xs[i] + widths[i]
    {
      assert sizes[..i + 1][..i] == sizes[..i];
    }
    assert widths[..last] == sizes[..last];
    assert widths[..last + 1] == widths;
  }

  /** Lines 341-360: the content rows drawn, as the lines they are drawn on
      (relative to the table's top). At most `h - 2` rows are drawn, from
      line 1 on, so they lie strictly between the header (line 0) and the
      footer (line `h - 1`). */
  method ContentLines(nRows: nat, h: int) returns (lines: seq<int>)
    ensures |lines| == Min(nRows, Max(0, h - 2))
    ensures forall k :: 0 <= k < |lines| ==> lines[k] == k + 1
    ensures forall k :: 0 <= k < |lines| ==> 0 < lines[k] < h - 1
  {
    lines := [];
    var line := 1;
    var rowInd := 0;
    while rowInd < nRows
      invariant 0 <= rowInd <= nRows && rowInd <= Max(0, h - 2)
      invariant line == rowInd + 1 && |lines| == rowInd
      invariant forall k :: 0 <= k < rowInd ==> lines[k] == k + 1
    {
      if rowInd >= h - 2 {
        break;
      }
      lines := lines + [line];
      line := line + 1;
      rowInd := rowInd + 1;
    }
  }

  function Min(a: int, b: int): int {
    if a <= b then a else b
  }

  /** Lines 367-368: the footer's two parts, left half rounded down. */
  function FooterSplit(contCols: int): (parts: (int, int))
    ensures parts.0 + parts.1 == contCols
    ensures parts.0 <= parts.1 <= parts.0 + 1
  {
    var halfCols := contCols / 2;
    (halfCols, contCols - halfCols)
  }
}
