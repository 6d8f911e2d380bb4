/** The plans sheet reader, from the grid of cells on. */
module PlansParser {
  import opened Outcomes
  import opened Calendar
  import DecimalArithmetic
  import opened Texts
  import opened DateText
  import NumberText
  import opened Numerals

  /** A cell value: nothing, text, a date, a date with a clock time, or any other value with its text form. */
  datatype Cell =
    | Empty
    | Text(text: string)
    | DateCell(date: Date)
    | DateTimeCell(date: Date, clock: string)
    | Other(shown: string)

  type Row = seq<Cell>

  datatype PlanRow = PlanRow(period: Date, categoryName: string, sum: DecimalArithmetic.Decimal)

  datatype Column = PeriodColumn | CategoryColumn | SumColumn

  datatype Problem =
    | MissingColumn | ValueRequired | CannotParseDate | NotFirstOfMonth | CannotParseNumber | NegativeSum

  datatype Location = Header(column: Column) | CellAt(row: nat, column: Column)

  datatype Issue = Issue(location: Location, problem: Problem)

  datatype ParseError = EmptyFile | MissingColumns(issues: seq<Issue>) | InvalidRows(issues: seq<Issue>) | NoDataRows

  function ColumnName(c: Column): string {
    match c
    case PeriodColumn => "period"
    case CategoryColumn => "category"
    case SumColumn => "sum"
  }

  function Rank(c: Column): nat {
    match c
    case PeriodColumn => 0
    case CategoryColumn => 1
    case SumColumn => 2
  }

  /** str(value). */
  function Shown(cell: Cell): string {
    match cell
    case Empty => "None"
    case Text(t) => t
    case DateCell(d) => Print(YearFirst, d)
    case DateTimeCell(d, clock) => Print(YearFirst, d) + " " + clock
    case Other(shown) => shown
  }

  function Lower(s: string): string {
    seq(|s|, i requires 0 <= i < |s| => if 'A' <= s[i] <= 'Z' then s[i] + 32 as char else s[i])
  }

  function HeaderNames(row: Row): (names: seq<string>)
    ensures |names| == |row|
  {
    seq(|row|, i requires 0 <= i < |row| => if row[i] == Empty then "" else Lower(Strip(Shown(row[i]))))
  }

  /** header.index(name), or the length when the name is absent. */
  function PositionOf(names: seq<string>, name: string): (i: nat)
    ensures i <= |names| && (i < |names| <==> name in names)
    ensures i < |names| ==> names[i] == name && name !in names[..i]
  {
    if names == [] then 0
    else if names[0] == name then 0
    else
      var i := 1 + PositionOf(names[1..], name);
      assert forall k :: 0 < k < |names| ==> names[k] == names[1..][k - 1];
      i
  }

  function CellAtIndex(row: Row, index: nat): Cell {
    if index >= |row| then Empty else row[index]
  }

  function ColumnCell(header: Row, row: Row, c: Column): Cell {
    CellAtIndex(row, PositionOf(HeaderNames(header), ColumnName(c)))
  }

  predicate IsBlankValue(cell: Cell) {
    cell == Empty || (cell.Text? && Strip(cell.text) == "")
  }

  predicate IsBlank(row: Row) {
    forall cell :: cell in row ==> cell == Empty
  }

  // What the three cell readers give: a value, or the problem they report.

  function ReadDate(cell: Cell): Option<Date> {
    match cell
    case DateCell(d) => Some(d)
    case DateTimeCell(d, _) => Some(d)
    case Text(t) => TryFormats(Strip(t), SHEET_FORMATS)
    case _ => None
  }

  function PeriodOf(cell: Cell): Result<Date, Problem> {
    if IsBlankValue(cell) then Err(ValueRequired)
    else match ReadDate(cell)
      case None => Err(CannotParseDate)
      case Some(d) => if d.day != 1 then Err(NotFirstOfMonth) else Ok(d)
  }

  function CategoryOf(cell: Cell): Result<string, Problem> {
    if IsBlankValue(cell) then Err(ValueRequired) else Ok(Strip(Shown(cell)))
  }

  function AmountOf(cell: Cell): Result<DecimalArithmetic.Decimal, Problem> {
    if IsBlankValue(cell) then Err(ValueRequired)
    else match NumberText.ParseAmount(Shown(cell))
      case None => Err(CannotParseNumber)
      case Some(a) => if a.coefficient < 0 then Err(NegativeSum) else Ok(a)
  }

  function ProblemIn(header: Row, row: Row, c: Column): Option<Problem> {
    var cell := ColumnCell(header, row, c);
    match c
    case PeriodColumn => var r := PeriodOf(cell); if r.Err? then Some(r.error) else None
    case CategoryColumn => var r := CategoryOf(cell); if r.Err? then Some(r.error) else None
    case SumColumn => var r := AmountOf(cell); if r.Err? then Some(r.error) else None
  }

  function CellIssue(header: Row, row: Row, number: nat, c: Column): seq<Issue> {
    match ProblemIn(header, row, c)
    case None => []
    case Some(p) => [Issue(CellAt(number, c), p)]
  }

  function RowIssues(header: Row, row: Row, number: nat): seq<Issue> {
    if IsBlank(row) then []
    else CellIssue(header, row, number, PeriodColumn) + CellIssue(header, row, number, CategoryColumn)
         + CellIssue(header, row, number, SumColumn)
  }

  function RowValue(header: Row, row: Row): Option<PlanRow> {
    var period := PeriodOf(ColumnCell(header, row, PeriodColumn));
    var category := CategoryOf(ColumnCell(header, row, CategoryColumn));
    var amount := AmountOf(ColumnCell(header, row, SumColumn));
    if period.Ok? && category.Ok? && amount.Ok? then Some(PlanRow(period.value, category.value, amount.value)) else None
  }

  function RowValues(header: Row, row: Row): seq<PlanRow> {
    if IsBlank(row) || RowValue(header, row).None? then [] else [RowValue(header, row).value]
  }

  /** All issues of the data rows; the first of them is sheet row 2. */
  function SheetIssues(header: Row, rows: seq<Row>): seq<Issue> {
    if rows == [] then []
    else SheetIssues(header, rows[..|rows| - 1]) + RowIssues(header, rows[|rows| - 1], |rows| + 1)
  }

  function SheetValues(header: Row, rows: seq<Row>): seq<PlanRow> {
    if rows == [] then []
    else SheetValues(header, rows[..|rows| - 1]) + RowValues(header, rows[|rows| - 1])
  }

  function MissingIssue(header: Row, c: Column): seq<Issue> {
    if ColumnName(c) in HeaderNames(header) then [] else [Issue(Header(c), MissingColumn)]
  }

  function MissingIssues(header: Row): seq<Issue> {
    MissingIssue(header, PeriodColumn) + MissingIssue(header, CategoryColumn) + MissingIssue(header, SumColumn)
  }

  function ParseSheet(grid: seq<Row>): Result<seq<PlanRow>, ParseError> {
    if grid == [] then Err(EmptyFile)
    else
      var header, rows := grid[0], grid[1..];
      var missing := MissingIssues(header);
      var issues := SheetIssues(header, rows);
      var values := SheetValues(header, rows);
      if missing != [] then Err(MissingColumns(missing))
      else if issues != [] then Err(InvalidRows(issues))
      else if values == [] then Err(NoDataRows)
      else Ok(values)
  }

  // The reader, with the issue list its helpers append to.

  class IssueLog {
    var items: seq<Issue>

    constructor ()
      ensures items == []
    {
      items := [];
    }

    method Append(issue: Issue)
      modifies this
      ensures items == old(items) + [issue]
    {
      items := items + [issue];
    }
  }

  method ParsePeriod(cell: Cell, number: nat, issues: IssueLog) returns (period: Option<Date>)
    modifies issues
    ensures match PeriodOf(cell)
      case Ok(d) => period == Some(d) && issues.items == old(issues.items)
      case Err(p) => period == None && issues.items == old(issues.items) + [Issue(CellAt(number, PeriodColumn), p)]
  {
    if cell == Empty || (cell.Text? && Strip(cell.text) == "") {
      issues.Append(Issue(CellAt(number, PeriodColumn), ValueRequired));
      return None;
    }
    period := None;
    if cell.DateTimeCell? || cell.DateCell? {
      period := Some(cell.date);
    } else if cell.Text? {
      var i := 0;
      assert SHEET_FORMATS[0..] == SHEET_FORMATS;
      while i < |SHEET_FORMATS| && period.None?
        invariant 0 <= i <= |SHEET_FORMATS|
        invariant TryFormats(Strip(cell.text), SHEET_FORMATS)
                  == if period.Some? then period else TryFormats(Strip(cell.text), SHEET_FORMATS[i..])
      {
        assert SHEET_FORMATS[i..][1..] == SHEET_FORMATS[i + 1..];
        period := ParseAs(SHEET_FORMATS[i], Strip(cell.text));
        i := i + 1;
      }
    }
    if period.None? {
      issues.Append(Issue(CellAt(number, PeriodColumn), CannotParseDate));
    } else if period.value.day != 1 {
      issues.Append(Issue(CellAt(number, PeriodColumn), NotFirstOfMonth));
      period := None;
    }
  }

  method ParseCategory(cell: Cell, number: nat, issues: IssueLog) returns (category: Option<string>)
    modifies issues
    ensures match CategoryOf(cell)
      case Ok(s) => category == Some(s) && issues.items == old(issues.items)
      case Err(p) => category == None && issues.items == old(issues.items) + [Issue(CellAt(number, CategoryColumn), p)]
  {
    if cell == Empty || (cell.Text? && Strip(cell.text) == "") {
      issues.Append(Issue(CellAt(number, CategoryColumn), ValueRequired));
      return None;
    }
    return Some(Strip(Shown(cell)));
  }

  method ParseSum(cell: Cell, number: nat, issues: IssueLog) returns (amount: Option<DecimalArithmetic.Decimal>)
    modifies issues
    ensures match AmountOf(cell)
      case Ok(a) => amount == Some(a) && issues.items == old(issues.items)
      case Err(p) => amount == None && issues.items == old(issues.items) + [Issue(CellAt(number, SumColumn), p)]
  {
    hide NumberText.ParseAmount;
    if cell == Empty || (cell.Text? && Strip(cell.text) == "") {
      issues.Append(Issue(CellAt(number, SumColumn), ValueRequired));
      return None;
    }
    amount := NumberText.ParseAmount(Shown(cell));
    if amount.None? {
      issues.Append(Issue(CellAt(number, SumColumn), CannotParseNumber));
    } else if amount.value.coefficient < 0 {
      issues.Append(Issue(CellAt(number, SumColumn), NegativeSum));
      amount := None;
    }
  }

  method ParseRow(header: Row, row: Row, number: nat, issues: IssueLog) returns (value: Option<PlanRow>)
    requires !IsBlank(row)
    modifies issues
    ensures issues.items == old(issues.items) + RowIssues(header, row, number)
    ensures value == RowValue(header, row)
  {
    hide PeriodOf, CategoryOf, AmountOf, HeaderNames, PositionOf, CellAtIndex;
    var names := HeaderNames(header);
    var period := ParsePeriod(CellAtIndex(row, PositionOf(names, "period")), number, issues);
    var category := ParseCategory(CellAtIndex(row, PositionOf(names, "category")), number, issues);
    var amount := ParseSum(CellAtIndex(row, PositionOf(names, "sum")), number, issues);
    if period.Some? && category.Some? && amount.Some? {
      value := Some(PlanRow(period.value, category.value, amount.value));
    } else {
      value := None;
    }
  }

  method Parse(grid: seq<Row>) returns (r: Result<seq<PlanRow>, ParseError>)
    ensures r == ParseSheet(grid)
  {
    hide RowIssues, RowValue;
    if grid == [] {
      return Err(EmptyFile);
    }
    var header := grid[0];
    var missing := MissingIssues(header);
    if missing != [] {
      return Err(MissingColumns(missing));
    }
    var parsed: seq<PlanRow> := [];
    var issues := new IssueLog();
    var rows := grid[1..];
    for i := 0 to |rows|
      invariant fresh(issues)
      invariant issues.items == SheetIssues(header, rows[..i])
      invariant parsed == SheetValues(header, rows[..i])
    {
      assert rows[..i + 1][..i] == rows[..i];
      BlankRowAddsNothing(header, rows[i], i + 2);
      if IsBlank(rows[i]) {
        continue;
      }
      var value := ParseRow(header, rows[i], i + 2, issues);
      if value.Some? {
        parsed := parsed + [value.value];
      }
    }
    assert rows[..|rows|] == rows;
    if issues.items != [] {
      return Err(InvalidRows(issues.items));
    }
    if parsed == [] {
      return Err(NoDataRows);
    }
    return Ok(parsed);
  }

  lemma BlankRowAddsNothing(header: Row, row: Row, number: nat)
    ensures IsBlank(row) ==> RowIssues(header, row, number) == []
  {
  }

  // When a sheet is accepted, and what it then means.

  /** The cell is a date, or text that some accepted format reads as that date. */
  ghost predicate ReadsAs(cell: Cell, d: Date) {
    match cell
    case DateCell(x) => x == d
    case DateTimeCell(x, _) => x == d
    case Text(t) => exists f :: ParseAs(f, Strip(t)) == Some(d)
    case _ => false
  }

  lemma BlankTextIsNoDate(s: string)
    requires s == ""
    ensures forall f :: ParseAs(f, s) == None
  {
  }

  /** Nothing, or white space only. */
  predicate IsBlankCell(cell: Cell) {
    cell == Empty || (cell.Text? && IsBlankText(cell.text))
  }

  lemma BlankIsStripped(s: string)
    ensures Strip(s) == "" <==> IsBlankText(s)
  {
    var left, right := StripSplits(s);
    if IsBlankText(s) {
      NothingLeft(s);
    }
    assert Strip(s) == "" ==> s == left + right;
  }

  lemma {:induction false} NothingLeft(s: string)
    requires IsBlankText(s)
    ensures StripLeft(s) == ""
  {
    if s != "" {
      assert s[0] in s;
      NothingLeft(s[1..]);
    }
  }

  lemma BlankMeaning(cell: Cell)
    ensures IsBlankValue(cell) <==> IsBlankCell(cell)
  {
    if cell.Text? {
      BlankIsStripped(cell.text);
    }
  }

  lemma DateMeaning(cell: Cell, d: Date)
    requires !IsBlankCell(cell)
    ensures ReadDate(cell) == Some(d) <==> ReadsAs(cell, d)
  {
    if cell.Text? {
      hide ParseAs;
      TrialOrderIrrelevant(Strip(cell.text), SHEET_FORMATS);
      AllSheetFormats();
    }
  }

  lemma AllSheetFormats()
    ensures forall f: Format :: f in SHEET_FORMATS
  {
    assert SHEET_FORMATS[0] == YearFirst && SHEET_FORMATS[1] == Dotted && SHEET_FORMATS[2] == Slashed;
    forall f: Format
      ensures f in SHEET_FORMATS
    {
      assert f.YearFirst? || f.Dotted? || f.Slashed?;
    }
  }

  lemma BlankHasNoDate(cell: Cell, d: Date)
    requires IsBlankCell(cell)
    ensures !ReadsAs(cell, d)
  {
    if cell.Text? {
      BlankIsStripped(cell.text);
      BlankTextIsNoDate("");
    }
  }

  lemma PeriodMeaning(cell: Cell, d: Date)
    ensures PeriodOf(cell) == Ok(d) <==> ReadsAs(cell, d) && d.day == 1
  {
    hide ReadDate, ReadsAs, IsBlankCell, IsBlankValue;
    BlankMeaning(cell);
    if IsBlankCell(cell) {
      BlankHasNoDate(cell, d);
    } else {
      DateMeaning(cell, d);
    }
  }

  /** A good data row: its period reads as the first of a month, its category is not blank, its sum is a numeral that
      denotes a number that is not negative. */
  ghost predicate IsGood(header: Row, row: Row, value: PlanRow) {
    && ReadsAs(ColumnCell(header, row, PeriodColumn), value.period) && value.period.day == 1
    && !IsBlankCell(ColumnCell(header, row, CategoryColumn))
    && value.categoryName == Strip(Shown(ColumnCell(header, row, CategoryColumn)))
    && !IsBlankCell(ColumnCell(header, row, SumColumn))
    && Denotes(Shown(ColumnCell(header, row, SumColumn)), value.sum) && value.sum.coefficient >= 0
  }

  lemma RowMeaning(header: Row, row: Row, number: nat)
    ensures forall v :: RowValue(header, row) == Some(v) <==> IsGood(header, row, v)
    ensures !IsBlank(row) ==> (RowIssues(header, row, number) == [] <==> RowValue(header, row).Some?)
  {
    hide ReadsAs, NumberText.ParseAmount, ReadDate, Denotes, IsBlankCell, IsBlankValue, ColumnCell, Shown;
    BlankMeaning(ColumnCell(header, row, CategoryColumn));
    BlankMeaning(ColumnCell(header, row, SumColumn));
    forall v
      ensures RowValue(header, row) == Some(v) <==> IsGood(header, row, v)
    {
      PeriodMeaning(ColumnCell(header, row, PeriodColumn), v.period);
      AmountMeaning(Shown(ColumnCell(header, row, SumColumn)), v.sum);
    }
  }

  /** The non-blank data rows with their sheet row numbers, in sheet order. */
  datatype Numbered = Numbered(number: nat, row: Row)

  function DataRows(rows: seq<Row>): seq<Numbered> {
    if rows == [] then []
    else
      var earlier, last := DataRows(rows[..|rows| - 1]), rows[|rows| - 1];
      if IsBlank(last) then earlier else earlier + [Numbered(|rows| + 1, last)]
  }

  predicate AllRead(header: Row, rows: seq<Numbered>) {
    forall x :: x in rows ==> RowValue(header, x.row).Some?
  }

  lemma {:induction false} NoIssueMeansAllRead(header: Row, rows: seq<Row>)
    ensures SheetIssues(header, rows) == [] <==> AllRead(header, DataRows(rows))
  {
    hide RowIssues, RowValue;
    if rows != [] {
      var init, last := rows[..|rows| - 1], rows[|rows| - 1];
      NoIssueMeansAllRead(header, init);
      RowMeaning(header, last, |rows| + 1);
      BlankRowAddsNothing(header, last, |rows| + 1);
      if !IsBlank(last) {
        var added := Numbered(|rows| + 1, last);
        assert DataRows(rows) == DataRows(init) + [added];
        assert forall x :: x in DataRows(rows) <==> x in DataRows(init) || x == added;
      }
    }
  }

  lemma {:induction false} ValueOfDataRow(header: Row, rows: seq<Row>, k: nat)
    requires AllRead(header, DataRows(rows)) && k < |DataRows(rows)|
    ensures |SheetValues(header, rows)| == |DataRows(rows)|
    ensures RowValue(header, DataRows(rows)[k].row) == Some(SheetValues(header, rows)[k])
  {
    hide RowValue;
    var init, last := rows[..|rows| - 1], rows[|rows| - 1];
    assert forall x :: x in DataRows(init) ==> x in DataRows(rows);
    if DataRows(init) != [] {
      ValueOfDataRow(header, init, if k < |DataRows(init)| then k else 0);
    } else {
      NoDataNoValues(header, init);
    }
    if !IsBlank(last) {
      assert Numbered(|rows| + 1, last) in DataRows(rows);
    }
  }

  lemma {:induction false} NoDataNoValues(header: Row, rows: seq<Row>)
    requires DataRows(rows) == []
    ensures SheetValues(header, rows) == []
  {
    if rows != [] {
      NoDataNoValues(header, rows[..|rows| - 1]);
    }
  }

  lemma ValuesAreDataRows(header: Row, rows: seq<Row>)
    requires AllRead(header, DataRows(rows))
    ensures |SheetValues(header, rows)| == |DataRows(rows)|
    ensures forall k :: 0 <= k < |DataRows(rows)| ==>
      IsGood(header, DataRows(rows)[k].row, SheetValues(header, rows)[k])
  {
    hide IsGood, RowValue, DataRows, SheetValues;
    if DataRows(rows) == [] {
      NoDataNoValues(header, rows);
    } else {
      ValueOfDataRow(header, rows, 0);
    }
    forall k | 0 <= k < |DataRows(rows)|
      ensures IsGood(header, DataRows(rows)[k].row, SheetValues(header, rows)[k])
    {
      ValueOfDataRow(header, rows, k);
      RowMeaning(header, DataRows(rows)[k].row, 0);
    }
  }

  /** The text is the name in any mix of cases, with any white space around it. */
  ghost predicate IsNameText(text: string, name: string) {
    exists left, middle, right ::
      && IsBlankText(left) && IsBlankText(right) && text == left + middle + right && IsAnyCase(middle, name)
  }

  predicate IsAnyCase(text: string, name: string) {
    |text| == |name| && forall i :: 0 <= i < |name| ==> text[i] == name[i] || text[i] as int + 32 == name[i] as int
  }

  predicate IsLowerName(name: string) {
    name != "" && forall i :: 0 <= i < |name| ==> 'a' <= name[i] <= 'z'
  }

  lemma LowerMeaning(text: string, name: string)
    requires IsLowerName(name)
    ensures Lower(text) == name <==> IsAnyCase(text, name)
  {
    var lower := Lower(text);
    assert |lower| == |text|;
    assert lower == name <==> |lower| == |name| && forall i :: 0 <= i < |name| ==> lower[i] == name[i];
  }

  /** A header cell is read as a column's name exactly when it shows that name, whatever its case and the white space
      around it. */
  lemma HeaderNameMeaning(text: string, name: string)
    requires IsLowerName(name)
    ensures Lower(Strip(text)) == name <==> IsNameText(text, name)
  {
    hide Lower, Strip, IsAnyCase;
    if Lower(Strip(text)) == name {
      LowerMeaning(Strip(text), name);
      var left, right := StripSplits(text);
      assert IsNameText(text, name);
    }
    if IsNameText(text, name) {
      var left, middle, right :|
        IsBlankText(left) && IsBlankText(right) && text == left + middle + right && IsAnyCase(middle, name);
      LowerMeaning(middle, name);
      NamesAreNotBlank(middle, name);
      StripPadding(left, middle, right);
    }
  }

  lemma NamesAreNotBlank(text: string, name: string)
    requires IsLowerName(name) && IsAnyCase(text, name)
    ensures text != "" && !IsSpace(text[0]) && !IsSpace(text[|text| - 1])
  {
  }

  /** The header cell names the column. */
  ghost predicate Names(cell: Cell, c: Column) {
    cell != Empty && IsNameText(Shown(cell), ColumnName(c))
  }

  lemma ColumnNamesAreLower(c: Column)
    ensures IsLowerName(ColumnName(c))
  {
  }

  lemma {:induction false} PositionIs(names: seq<string>, i: nat)
    requires i < |names| && forall j :: 0 <= j < i ==> names[j] != names[i]
    ensures PositionOf(names, names[i]) == i
  {
    if i > 0 {
      PositionIs(names[1..], i - 1);
    }
  }

  /** A column's cell is the one below the first header cell that names it, and nothing if the row is too short; the
      column is missing exactly when no header cell names it. */
  lemma ColumnMeaning(header: Row, row: Row, c: Column)
    ensures ColumnName(c) in HeaderNames(header) <==> exists i :: 0 <= i < |header| && Names(header[i], c)
    ensures forall i ::
      0 <= i < |header| && Names(header[i], c) && (forall j :: 0 <= j < i ==> !Names(header[j], c)) ==>
      ColumnCell(header, row, c) == if i < |row| then row[i] else Empty
  {
    hide HeaderNames, ColumnName, Names, ColumnCell;
    var names, name := HeaderNames(header), ColumnName(c);
    forall i | 0 <= i < |header|
      ensures names[i] == name <==> Names(header[i], c)
    {
      NameAt(header, i, c);
    }
    if name in names {
      var i :| 0 <= i < |names| && names[i] == name;
      assert Names(header[i], c);
    }
    if k :| 0 <= k < |header| && Names(header[k], c) {
      assert names[k] == name;
    }
    forall i | 0 <= i < |header| && Names(header[i], c) && forall j :: 0 <= j < i ==> !Names(header[j], c)
      ensures ColumnCell(header, row, c) == if i < |row| then row[i] else Empty
    {
      FirstNamed(header, row, c, i);
    }
  }

  lemma FirstNamed(header: Row, row: Row, c: Column, i: nat)
    requires i < |header| && Names(header[i], c) && forall j :: 0 <= j < i ==> !Names(header[j], c)
    ensures ColumnCell(header, row, c) == if i < |row| then row[i] else Empty
  {
    hide HeaderNames, ColumnName, Names, PositionOf;
    NameAt(header, i, c);
    forall j | 0 <= j < i
      ensures HeaderNames(header)[j] != ColumnName(c)
    {
      NameAt(header, j, c);
    }
    PositionIs(HeaderNames(header), i);
  }

  lemma NameAt(header: Row, i: nat, c: Column)
    requires i < |header|
    ensures HeaderNames(header)[i] == ColumnName(c) <==> Names(header[i], c)
  {
    ColumnNamesAreLower(c);
    hide ColumnName, IsNameText, Lower, Strip, Shown;
    if header[i] != Empty {
      HeaderNameMeaning(Shown(header[i]), ColumnName(c));
    }
  }

  /** Sheet rows that a caller can check: the three columns, some data, and only good data rows. */
  ghost predicate IsGoodSheet(grid: seq<Row>) {
    && grid != []
    && (forall c :: ColumnName(c) in HeaderNames(grid[0]))
    && DataRows(grid[1..]) != []
    && (forall x :: x in DataRows(grid[1..]) ==> exists v :: IsGood(grid[0], x.row, v))
  }

  lemma NothingMissing(header: Row)
    ensures MissingIssues(header) == [] <==> forall c :: ColumnName(c) in HeaderNames(header)
  {
    hide HeaderNames, ColumnName;
    if MissingIssues(header) == [] {
      forall c
        ensures ColumnName(c) in HeaderNames(header)
      {
        assert MissingIssue(header, c) == [] by {
          assert c.PeriodColumn? || c.CategoryColumn? || c.SumColumn?;
        }
      }
    }
  }

  /** The reader succeeds exactly when the header has the three columns, some row is not blank, and every
      row that is not blank is good; and then its rows are the good rows, one each, in sheet order. */
  lemma AcceptsExactlyGoodSheets(grid: seq<Row>)
    ensures ParseSheet(grid).Ok? <==> IsGoodSheet(grid)
    ensures ParseSheet(grid).Ok? ==>
      && |ParseSheet(grid).value| == |DataRows(grid[1..])|
      && (forall k :: 0 <= k < |DataRows(grid[1..])| ==>
            IsGood(grid[0], DataRows(grid[1..])[k].row, ParseSheet(grid).value[k]))
  {
    hide IsGood, RowValue, RowIssues, HeaderNames, MissingIssues, SheetIssues, SheetValues, DataRows;
    if grid != [] {
      var header, rows := grid[0], grid[1..];
      NothingMissing(header);
      NoIssueMeansAllRead(header, rows);
      if AllRead(header, DataRows(rows)) {
        ValuesAreDataRows(header, rows);
      }
      forall x | x in DataRows(rows)
        ensures RowValue(header, x.row).Some? <==> exists v :: IsGood(header, x.row, v)
      {
        RowMeaning(header, x.row, 0);
        if RowValue(header, x.row).Some? {
          assert IsGood(header, x.row, RowValue(header, x.row).value);
        }
      }
    }
  }

  // The issues of a rejected sheet.

  predicate ComesBefore(a: Issue, b: Issue) {
    a.location.CellAt? && b.location.CellAt?
    && (a.location.row < b.location.row
        || (a.location.row == b.location.row && Rank(a.location.column) < Rank(b.location.column)))
  }

  predicate InOrder(issues: seq<Issue>) {
    forall i, j :: 0 <= i < j < |issues| ==> ComesBefore(issues[i], issues[j])
  }

  /** What can be wrong with a cell of a column, read off the cell. */
  ghost predicate HasProblem(cell: Cell, c: Column, p: Problem) {
    match c
    case PeriodColumn =>
      (match p
       case ValueRequired => IsBlankCell(cell)
       case CannotParseDate => !IsBlankCell(cell) && forall d: Date :: !ReadsAs(cell, d)
       case NotFirstOfMonth => exists d: Date :: ReadsAs(cell, d) && d.day != 1
       case _ => false)
    case CategoryColumn => p == ValueRequired && IsBlankCell(cell)
    case SumColumn =>
      (match p
       case ValueRequired => IsBlankCell(cell)
       case CannotParseNumber => !IsBlankCell(cell) && forall a :: !Denotes(Shown(cell), a)
       case NegativeSum => !IsBlankCell(cell) && exists a :: Denotes(Shown(cell), a) && a.coefficient < 0
       case _ => false)
  }

  lemma PeriodProblem(cell: Cell, p: Problem)
    ensures PeriodOf(cell) == Err(p) <==> HasProblem(cell, PeriodColumn, p)
  {
    hide ReadDate, ReadsAs, IsBlankCell, IsBlankValue;
    BlankMeaning(cell);
    forall d: Date
      ensures IsBlankCell(cell) ==> !ReadsAs(cell, d)
      ensures !IsBlankCell(cell) ==> (ReadDate(cell) == Some(d) <==> ReadsAs(cell, d))
    {
      if IsBlankCell(cell) {
        BlankHasNoDate(cell, d);
      } else {
        DateMeaning(cell, d);
      }
    }
    if !IsBlankCell(cell) && ReadDate(cell).Some? {
      assert ReadsAs(cell, ReadDate(cell).value);
    }
  }

  lemma SumProblem(cell: Cell, p: Problem)
    ensures AmountOf(cell) == Err(p) <==> HasProblem(cell, SumColumn, p)
  {
    hide NumberText.ParseAmount, Denotes, IsBlankCell, IsBlankValue, Shown;
    BlankMeaning(cell);
    var read := NumberText.ParseAmount(Shown(cell));
    forall a
      ensures read == Some(a) <==> Denotes(Shown(cell), a)
    {
      AmountMeaning(Shown(cell), a);
    }
    if read.Some? {
      assert Denotes(Shown(cell), read.value);
    }
  }

  lemma ProblemMeaning(header: Row, row: Row, c: Column, p: Problem)
    ensures ProblemIn(header, row, c) == Some(p) <==> HasProblem(ColumnCell(header, row, c), c, p)
  {
    hide PeriodOf, AmountOf, IsBlankCell, IsBlankValue, ColumnCell;
    var cell := ColumnCell(header, row, c);
    BlankMeaning(cell);
    PeriodProblem(cell, p);
    SumProblem(cell, p);
  }

  /** The issue names a required cell of a non-blank data row and what is wrong with it. */
  ghost predicate IsBadCell(header: Row, rows: seq<Row>, x: Issue) {
    && x.location.CellAt? && 2 <= x.location.row < |rows| + 2
    && !IsBlank(rows[x.location.row - 2])
    && HasProblem(ColumnCell(header, rows[x.location.row - 2], x.location.column), x.location.column, x.problem)
  }

  lemma CellIssueMeaning(header: Row, row: Row, number: nat, c: Column)
    ensures |CellIssue(header, row, number, c)| <= 1
    ensures forall x :: x in CellIssue(header, row, number, c) <==>
      x.location == CellAt(number, c) && HasProblem(ColumnCell(header, row, c), c, x.problem)
  {
    hide ProblemIn, HasProblem, ColumnCell;
    forall x
      ensures x in CellIssue(header, row, number, c) <==>
        x.location == CellAt(number, c) && HasProblem(ColumnCell(header, row, c), c, x.problem)
    {
      ProblemMeaning(header, row, c, x.problem);
    }
  }

  lemma RowIssuesMeaning(header: Row, row: Row, number: nat)
    ensures InOrder(RowIssues(header, row, number))
    ensures forall x :: x in RowIssues(header, row, number) <==>
      !IsBlank(row) && x.location.CellAt? && x.location.row == number
      && HasProblem(ColumnCell(header, row, x.location.column), x.location.column, x.problem)
  {
    hide CellIssue, HasProblem, ColumnCell;
    var a, b := CellIssue(header, row, number, PeriodColumn), CellIssue(header, row, number, CategoryColumn);
    var d := CellIssue(header, row, number, SumColumn);
    CellIssueMeaning(header, row, number, PeriodColumn);
    CellIssueMeaning(header, row, number, CategoryColumn);
    CellIssueMeaning(header, row, number, SumColumn);
    assert forall x :: x in a + b + d <==> x in a || x in b || x in d;
    forall x: Issue
      ensures x in a + b + d <==>
        x.location.CellAt? && x.location.row == number
        && HasProblem(ColumnCell(header, row, x.location.column), x.location.column, x.problem)
    {
      if x.location.CellAt? {
        var c := x.location.column;
        assert c.PeriodColumn? || c.CategoryColumn? || c.SumColumn?;
      }
    }
    InOrderPieces(a, b, d, number);
  }

  lemma InOrderPieces(a: seq<Issue>, b: seq<Issue>, d: seq<Issue>, number: nat)
    requires |a| <= 1 && |b| <= 1 && |d| <= 1
    requires forall x :: x in a ==> x.location == CellAt(number, PeriodColumn)
    requires forall x :: x in b ==> x.location == CellAt(number, CategoryColumn)
    requires forall x :: x in d ==> x.location == CellAt(number, SumColumn)
    ensures InOrder(a + b + d)
  {
    forall i, j | 0 <= i < j < |a + b + d|
      ensures ComesBefore((a + b + d)[i], (a + b + d)[j])
    {
      var x, y := (a + b + d)[i], (a + b + d)[j];
      assert i < |a| ==> x in a;
      assert |a| <= i < |a| + |b| ==> x in b;
      assert |a| <= j < |a| + |b| ==> y in b;
      assert |a| + |b| <= j ==> y in d;
    }
  }

  lemma {:induction false} SheetIssuesMeaning(header: Row, rows: seq<Row>)
    ensures forall x :: x in SheetIssues(header, rows) <==> IsBadCell(header, rows, x)
    ensures InOrder(SheetIssues(header, rows))
  {
    hide HasProblem, ColumnCell, RowIssues;
    if rows != [] {
      var init, last := rows[..|rows| - 1], rows[|rows| - 1];
      SheetIssuesMeaning(header, init);
      RowIssuesMeaning(header, last, |rows| + 1);
      var before, added := SheetIssues(header, init), RowIssues(header, last, |rows| + 1);
      assert SheetIssues(header, rows) == before + added;
      assert forall x :: x in before + added <==> x in before || x in added;
      forall i, j | 0 <= i < j < |before + added|
        ensures ComesBefore((before + added)[i], (before + added)[j])
      {
        if j < |before| {
          assert ComesBefore(before[i], before[j]);
        } else if i >= |before| {
          assert ComesBefore(added[i - |before|], added[j - |before|]);
        } else {
          assert before[i] in before && IsBadCell(header, init, before[i]);
          assert added[j - |before|] in added && added[j - |before|].location.row == |rows| + 1;
        }
      }
    }
  }

  /** The reader reports bad rows exactly when the header is complete and some required cell of a non-blank row is
      bad. Then every bad cell is reported, nothing else is, and the reports are strictly ordered by row, then
      period, category, sum, so none is repeated. */
  lemma IssuesAreTheBadCells(grid: seq<Row>)
    ensures ParseSheet(grid).Err? && ParseSheet(grid).error.InvalidRows? <==>
      && grid != [] && (forall c :: ColumnName(c) in HeaderNames(grid[0]))
      && exists x :: IsBadCell(grid[0], grid[1..], x)
    ensures forall issues | ParseSheet(grid) == Err(InvalidRows(issues)) ::
      (forall x :: x in issues <==> IsBadCell(grid[0], grid[1..], x)) && InOrder(issues)
  {
    hide SheetIssues, SheetValues, MissingIssues, HeaderNames, ColumnName, IsBadCell, InOrder;
    if grid != [] {
      NothingMissing(grid[0]);
      SheetIssuesMeaning(grid[0], grid[1..]);
      var issues := SheetIssues(grid[0], grid[1..]);
      assert issues != [] ==> issues[0] in issues;
    }
  }

  ghost predicate AreTheMissing(header: Row, issues: seq<Issue>) {
    && (forall x :: x in issues <==>
          x.location.Header? && x.problem == MissingColumn && ColumnName(x.location.column) !in HeaderNames(header))
    && (forall i, j :: 0 <= i < j < |issues| && issues[i].location.Header? && issues[j].location.Header? ==>
          Rank(issues[i].location.column) < Rank(issues[j].location.column))
  }

  /** The other refusals: no header row at all; columns no header cell names, each once and in the order period,
      category, sum; and a complete header with no data row. */
  lemma OtherRefusals(grid: seq<Row>)
    ensures ParseSheet(grid) == Err(EmptyFile) <==> grid == []
    ensures ParseSheet(grid).Err? && ParseSheet(grid).error.MissingColumns? <==>
      grid != [] && exists c :: ColumnName(c) !in HeaderNames(grid[0])
    ensures forall issues | ParseSheet(grid) == Err(MissingColumns(issues)) :: AreTheMissing(grid[0], issues)
    ensures ParseSheet(grid) == Err(NoDataRows) <==>
      grid != [] && (forall c :: ColumnName(c) in HeaderNames(grid[0])) && DataRows(grid[1..]) == []
  {
    hide SheetIssues, SheetValues, HeaderNames, ColumnName, DataRows, MissingIssues, AllRead, AreTheMissing;
    if grid != [] {
      var header, rows := grid[0], grid[1..];
      MissingMeaning(header);
      NothingMissing(header);
      NoIssueMeansAllRead(header, rows);
      if DataRows(rows) == [] {
        assert AllRead(header, []) by { NothingToRead(header); }
        NoDataNoValues(header, rows);
      } else if AllRead(header, DataRows(rows)) {
        ValuesAreDataRows(header, rows);
      }
    }
  }

  lemma NothingToRead(header: Row)
    ensures AllRead(header, [])
  {
  }

  lemma MissingMeaning(header: Row)
    ensures var issues := MissingIssues(header);
      && (issues != [] <==> exists c :: ColumnName(c) !in HeaderNames(header))
      && AreTheMissing(header, issues)
  {
    hide HeaderNames, ColumnName;
    NothingMissing(header);
    var a, b := MissingIssue(header, PeriodColumn), MissingIssue(header, CategoryColumn);
    var d := MissingIssue(header, SumColumn);
    assert forall x :: x in a + b + d <==> x in a || x in b || x in d;
    forall x: Issue
      ensures x in a + b + d <==>
        x.location.Header? && x.problem == MissingColumn && ColumnName(x.location.column) !in HeaderNames(header)
    {
      if x.location.Header? {
        var c := x.location.column;
        assert c.PeriodColumn? || c.CategoryColumn? || c.SumColumn?;
      }
    }
  }

  // Numerals in sum cells.

  /** A text cell, or any other value shown as it, with white space around a numeral: below zero it is a negative sum,
      otherwise it is the number the numeral denotes. */
  lemma NumeralInSumCell(cell: Cell, left: string, n: Numeral, right: string)
    requires IsWrittenAs(Shown(cell), left, n, right) && (cell.Text? || cell.Other?)
    ensures AmountOf(cell) == if n.sign == Minus && NumberOf(n.whole + n.fraction) > 0 then Err(NegativeSum)
                              else Ok(Denoted(n))
  {
    hide NumberText.ParseAmount, Strip, IsSpace;
    NumeralsAreRead(left, n, right);
    if cell.Text? {
      WrittenIsInside(left, n, right);
      BlankMeaning(cell);
    }
  }

  lemma WrittenIsInside(left: string, n: Numeral, right: string)
    requires IsNumeral(n) && IsBlankText(left) && IsBlankText(right)
    ensures !IsBlankText(left + Written(n) + right)
  {
    WrittenIsStripped(left, n, right);
    BlankIsStripped(left + Written(n) + right);
  }

  /** A minus before a numeral that is not zero refuses the sheet with an issue for that row, whatever else it holds. */
  lemma NegativeSumIsReported(grid: seq<Row>, i: nat, left: string, n: Numeral, right: string)
    requires 1 <= i < |grid| && !IsBlank(grid[i]) && forall c :: ColumnName(c) in HeaderNames(grid[0])
    requires var cell := ColumnCell(grid[0], grid[i], SumColumn);
      (cell.Text? || cell.Other?) && IsWrittenAs(Shown(cell), left, n, right)
    requires n.sign == Minus && NumberOf(n.whole + n.fraction) > 0
    ensures ParseSheet(grid).Err? && ParseSheet(grid).error.InvalidRows?
    ensures Issue(CellAt(i + 1, SumColumn), NegativeSum) in ParseSheet(grid).error.issues
  {
    hide ParseSheet, HasProblem, HeaderNames, ColumnCell, IsWrittenAs, InOrder, Shown, ColumnName, IsBlank, AllDigits;
    var x := Issue(CellAt(i + 1, SumColumn), NegativeSum);
    NegativeSumCell(ColumnCell(grid[0], grid[i], SumColumn), left, n, right);
    assert grid[1..][i - 1] == grid[i];
    assert IsBadCell(grid[0], grid[1..], x);
    hide IsBadCell;
    IssuesAreTheBadCells(grid);
  }

  lemma NegativeSumCell(cell: Cell, left: string, n: Numeral, right: string)
    requires IsWrittenAs(Shown(cell), left, n, right) && (cell.Text? || cell.Other?)
    requires n.sign == Minus && NumberOf(n.whole + n.fraction) > 0
    ensures HasProblem(cell, SumColumn, NegativeSum)
  {
    hide HasProblem, AmountOf, Shown;
    NumeralInSumCell(cell, left, n, right);
    SumProblem(cell, NegativeSum);
  }

  // Row numbers.

  function BlanksBefore(rows: seq<Row>, number: nat): nat
    requires 2 <= number <= |rows| + 2
    decreases number
  {
    if number == 2 then 0 else BlanksBefore(rows, number - 1) + if IsBlank(rows[number - 3]) then 1 else 0
  }

  lemma {:induction false} BlanksOfPrefix(rows: seq<Row>, k: nat, number: nat)
    requires k <= |rows| && 2 <= number <= k + 2
    ensures BlanksBefore(rows[..k], number) == BlanksBefore(rows, number)
    decreases number
  {
    if number > 2 {
      BlanksOfPrefix(rows, k, number - 1);
    }
  }

  lemma {:induction false} DataRowsCount(rows: seq<Row>)
    ensures |DataRows(rows)| + BlanksBefore(rows, |rows| + 2) == |rows|
  {
    if rows != [] {
      DataRowsCount(rows[..|rows| - 1]);
      BlanksOfPrefix(rows, |rows| - 1, |rows| + 1);
    }
  }

  /** The k-th data row stands in sheet row k + 2 plus the number of blank rows skipped before it. */
  lemma {:induction false} TrueRowNumber(rows: seq<Row>, k: nat)
    requires k < |DataRows(rows)|
    ensures var n := DataRows(rows)[k].number;
      && 2 <= n < |rows| + 2 && rows[n - 2] == DataRows(rows)[k].row
      && n == k + 2 + BlanksBefore(rows, n)
  {
    var init := rows[..|rows| - 1];
    if k < |DataRows(init)| {
      TrueRowNumber(init, k);
      BlanksOfPrefix(rows, |rows| - 1, DataRows(init)[k].number);
    } else {
      DataRowsCount(init);
      BlanksOfPrefix(rows, |rows| - 1, |rows| + 1);
    }
  }
}
