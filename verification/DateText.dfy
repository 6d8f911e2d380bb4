/** The textual dates both file readers accept, as Python's strptime reads them field by field. */
module DateText {
  import opened Arithmetic
  import opened Outcomes
  import opened Calendar
  import opened Texts

  datatype Format =
    | YearFirst   // %Y-%m-%d
    | Dotted      // %d.%m.%Y
    | Slashed     // %d/%m/%Y

  function Separator(f: Format): char {
    match f
    case YearFirst => '-'
    case Dotted => '.'
    case Slashed => '/'
  }

  function YearField(s: string): Option<int> {
    if |s| == 4 && AllDigits(s) then Some(NumberOf(s)) else None
  }

  function MonthField(s: string): Option<int> {
    if 1 <= |s| <= 2 && AllDigits(s) && 1 <= NumberOf(s) <= 12 then Some(NumberOf(s)) else None
  }

  /** One or two digits, or a digit after a space. */
  function DayField(s: string): Option<int> {
    if |s| == 2 && s[0] == ' ' && '1' <= s[1] <= '9' then Some(s[1] as int - '0' as int)
    else if 1 <= |s| <= 2 && AllDigits(s) && 1 <= NumberOf(s) <= 31 then Some(NumberOf(s))
    else None
  }

  function MakeDate(year: Option<int>, month: Option<int>, day: Option<int>): Option<Date> {
    if year.Some? && month.Some? && day.Some? && IsValid(year.value, month.value, day.value)
    then Some(CalendarDate(year.value, month.value, day.value)) else None
  }

  /** strptime with one format; None stands for its ValueError. */
  function ParseAs(f: Format, s: string): Option<Date> {
    var i := IndexOf(s, Separator(f), 0);
    if i == |s| then None else
      var j := IndexOf(s, Separator(f), i + 1);
      if j == |s| then None else
        var first, middle, last := s[..i], s[i + 1..j], s[j + 1..];
        if f == YearFirst then MakeDate(YearField(first), MonthField(middle), DayField(last))
        else MakeDate(YearField(last), MonthField(middle), DayField(first))
  }

  /** The loop over formats: the first that accepts decides. */
  function TryFormats(s: string, formats: seq<Format>): Option<Date> {
    if formats == [] then None
    else if ParseAs(formats[0], s).Some? then ParseAs(formats[0], s)
    else TryFormats(s, formats[1..])
  }

  const SHEET_FORMATS := [YearFirst, Dotted, Slashed]
  const CSV_FORMATS := [Dotted, YearFirst]

  function Print(f: Format, d: Date): string {
    var year, month, day := Padded(d.year, 4), Padded(d.month, 2), Padded(d.day, 2);
    var sep := [Separator(f)];
    if f == YearFirst then year + sep + month + sep + day else day + sep + month + sep + year
  }

  lemma PaddedFields(d: Date)
    ensures YearField(Padded(d.year, 4)) == Some(d.year)
    ensures MonthField(Padded(d.month, 2)) == Some(d.month)
    ensures DayField(Padded(d.day, 2)) == Some(d.day)
  {
    assert Pow10(2) == 100 && Pow10(4) == 10000;
    NumberOfPadded(d.year, 4);
    NumberOfPadded(d.month, 2);
    NumberOfPadded(d.day, 2);
  }

  lemma ThreeFields(s: string, sep: char, i: nat, j: nat)
    requires i < j < |s| && s[i] == sep && s[j] == sep
    requires sep !in s[..i] && sep !in s[i + 1..j]
    ensures IndexOf(s, sep, 0) == i && IndexOf(s, sep, i + 1) == j
  {
    assert forall k :: 0 <= k < i ==> s[..i][k] in s[..i];
    IndexOfIs(s, sep, 0, i);
    forall k | i + 1 <= k < j
      ensures s[k] != sep
    {
      assert s[i + 1..j][k - i - 1] in s[i + 1..j];
    }
    IndexOfIs(s, sep, i + 1, j);
  }

  // The reference reading of date texts.

  /** Four digits for a year; one or two digits for a month or a day; a day may also be a space and a digit. */
  predicate IsYearText(y: string, year: int) {
    |y| == 4 && AllDigits(y) && NumberOf(y) == year
  }

  predicate IsMonthText(m: string, month: int) {
    1 <= |m| <= 2 && AllDigits(m) && NumberOf(m) == month
  }

  predicate IsDayText(d: string, day: int) {
    || (1 <= |d| <= 2 && AllDigits(d) && NumberOf(d) == day)
    || (|d| == 2 && d[0] == ' ' && IsDigit(d[1]) && DigitValue(d[1]) == day)
  }

  function Joined(f: Format, y: string, m: string, d: string): string {
    var sep := [Separator(f)];
    if f == YearFirst then y + sep + m + sep + d else d + sep + m + sep + y
  }

  predicate IsWrittenDate(f: Format, s: string, y: string, m: string, d: string, date: Date) {
    s == Joined(f, y, m, d) && IsYearText(y, date.year) && IsMonthText(m, date.month) && IsDayText(d, date.day)
  }

  lemma YearMeans(y: string, year: int)
    ensures YearField(y) == Some(year) <==> IsYearText(y, year)
  {
  }

  lemma MonthMeans(m: string, month: int)
    requires 1 <= month <= 12
    ensures MonthField(m) == Some(month) <==> IsMonthText(m, month)
  {
  }

  lemma DayMeans(d: string, day: int)
    requires 1 <= day <= 31
    ensures DayField(d) == Some(day) <==> IsDayText(d, day)
  {
    if |d| == 2 && d[0] == ' ' {
      assert d[0] in d;
    }
  }

  lemma FieldsMean(y: string, m: string, d: string, date: Date)
    ensures MakeDate(YearField(y), MonthField(m), DayField(d)) == Some(date) <==>
      IsYearText(y, date.year) && IsMonthText(m, date.month) && IsDayText(d, date.day)
  {
    assert 1 <= date.day <= DaysInMonth(date.year, date.month) <= 31;
    YearMeans(y, date.year);
    MonthMeans(m, date.month);
    DayMeans(d, date.day);
    hide YearField, MonthField, DayField, IsYearText, IsMonthText, IsDayText;
  }

  lemma FieldsHaveNoSeparator(f: Format, y: string, m: string, d: string, date: Date)
    requires IsYearText(y, date.year) && IsMonthText(m, date.month) && IsDayText(d, date.day)
    ensures Separator(f) !in y && Separator(f) !in m && Separator(f) !in d
  {
  }

  lemma ReadIsWritten(f: Format, s: string, date: Date) returns (y: string, m: string, d: string)
    requires ParseAs(f, s) == Some(date)
    ensures IsWrittenDate(f, s, y, m, d, date)
  {
    hide IsValid, YearField, MonthField, DayField, MakeDate, IsYearText, IsMonthText, IsDayText;
    var i := IndexOf(s, Separator(f), 0);
    var j := IndexOf(s, Separator(f), i + 1);
    var first, last := s[..i], s[j + 1..];
    m := s[i + 1..j];
    y, d := if f == YearFirst then first else last, if f == YearFirst then last else first;
    assert s == first + [Separator(f)] + m + [Separator(f)] + last;
    FieldsMean(y, m, d, date);
  }

  lemma WrittenIsRead(f: Format, s: string, y: string, m: string, d: string, date: Date)
    requires IsWrittenDate(f, s, y, m, d, date)
    ensures ParseAs(f, s) == Some(date)
  {
    FieldsMean(y, m, d, date);
    FieldsHaveNoSeparator(f, y, m, d, date);
    hide IsValid, YearField, MonthField, DayField, MakeDate, IsYearText, IsMonthText, IsDayText;
    var first, last := if f == YearFirst then y else d, if f == YearFirst then d else y;
    var i := |first|;
    var j := i + 1 + |m|;
    assert s == first + [Separator(f)] + m + [Separator(f)] + last;
    assert s[..i] == first && s[i + 1..j] == m && s[j + 1..] == last;
    ThreeFields(s, Separator(f), i, j);
  }

  /** A format accepts a text as a date exactly when it is the date's year, month and day in the format's order, between
      its separators. */
  lemma DateMeaning(f: Format, s: string, date: Date)
    ensures ParseAs(f, s) == Some(date) <==> exists y, m, d :: IsWrittenDate(f, s, y, m, d, date)
  {
    hide ParseAs, IsWrittenDate;
    if ParseAs(f, s) == Some(date) {
      var y, m, d := ReadIsWritten(f, s, date);
    }
    if y, m, d :| IsWrittenDate(f, s, y, m, d, date) {
      WrittenIsRead(f, s, y, m, d, date);
    }
  }

  /** Every date, leap days included, is read back from what any format prints. */
  lemma PrintThenParse(f: Format, d: Date)
    ensures ParseAs(f, Print(f, d)) == Some(d)
  {
    PaddedFields(d);
    var year, month, day := Padded(d.year, 4), Padded(d.month, 2), Padded(d.day, 2);
    var first, last := if f == YearFirst then year else day, if f == YearFirst then day else year;
    var s := Print(f, d);
    assert s == first + [Separator(f)] + month + [Separator(f)] + last;
    assert s[..|first|] == first;
    assert s[|first| + 1..|first| + 3] == month;
    assert s[|first| + 4..] == last;
    assert Separator(f) !in first && Separator(f) !in month;
    ThreeFields(s, Separator(f), |first|, |first| + 3);
  }

  lemma FieldCharacters(s: string)
    requires YearField(s).Some? || MonthField(s).Some? || DayField(s).Some?
    ensures forall c :: c in s ==> IsDigit(c) || c == ' '
  {
  }

  lemma AcceptedFields(f: Format, s: string) returns (first: string, middle: string, last: string)
    requires ParseAs(f, s).Some?
    ensures s == first + [Separator(f)] + middle + [Separator(f)] + last
    ensures YearField(first).Some? || DayField(first).Some?
    ensures MonthField(middle).Some? && (YearField(last).Some? || DayField(last).Some?)
  {
    hide IsValid, YearField, MonthField, DayField;
    var i := IndexOf(s, Separator(f), 0);
    var j := IndexOf(s, Separator(f), i + 1);
    first, middle, last := s[..i], s[i + 1..j], s[j + 1..];
  }

  lemma AcceptedCharacters(f: Format, s: string)
    requires ParseAs(f, s).Some?
    ensures Separator(f) in s
    ensures forall c :: c in s ==> c == Separator(f) || IsDigit(c) || c == ' '
  {
    hide ParseAs;
    var first, middle, last := AcceptedFields(f, s);
    FieldCharacters(first);
    FieldCharacters(middle);
    FieldCharacters(last);
    assert s[|first|] == Separator(f);
    assert forall c :: c in s ==> c in first || c in middle || c in last || c == Separator(f);
  }

  /** No text is accepted by two formats. */
  lemma AtMostOneFormat(f: Format, g: Format, s: string)
    requires ParseAs(f, s).Some? && ParseAs(g, s).Some?
    ensures f == g
  {
    AcceptedCharacters(f, s);
    AcceptedCharacters(g, s);
    assert Separator(f) in s && Separator(g) in s;
  }

  /** So the order in which formats are tried never matters: the result is the reading of the one that accepts. */
  lemma {:induction false} TrialOrderIrrelevant(s: string, formats: seq<Format>)
    ensures forall d :: TryFormats(s, formats) == Some(d) <==> exists f :: f in formats && ParseAs(f, s) == Some(d)
  {
    if formats != [] {
      var f0, rest := formats[0], formats[1..];
      TrialOrderIrrelevant(s, rest);
      forall d
        ensures TryFormats(s, formats) == Some(d) <==> exists f :: f in formats && ParseAs(f, s) == Some(d)
      {
        if f :| f in formats && ParseAs(f, s) == Some(d) {
          if ParseAs(f0, s).Some? {
            AtMostOneFormat(f, f0, s);
          } else {
            assert f in rest;
          }
        }
      }
    }
  }

  /** The sheet reader and the seed reader give the same date, or both none, exactly on the texts
      that are not slash dates, which only the sheet reader knows. */
  lemma ReadersAgree(s: string)
    ensures TryFormats(s, SHEET_FORMATS) == TryFormats(s, CSV_FORMATS) <==> ParseAs(Slashed, s).None?
  {
    var y, d, l := ParseAs(YearFirst, s), ParseAs(Dotted, s), ParseAs(Slashed, s);
    assert SHEET_FORMATS[1..] == [Dotted, Slashed] && CSV_FORMATS[1..] == [YearFirst];
    assert TryFormats(s, [Slashed]) == if l.Some? then l else TryFormats(s, []);
    assert TryFormats(s, [YearFirst]) == if y.Some? then y else TryFormats(s, []);
    assert TryFormats(s, [Dotted, Slashed]) == if d.Some? then d else TryFormats(s, [Slashed]) by {
      assert [Dotted, Slashed][1..] == [Slashed];
    }
    if y.Some? && d.Some? { AtMostOneFormat(YearFirst, Dotted, s); }
    if y.Some? && l.Some? { AtMostOneFormat(YearFirst, Slashed, s); }
    if d.Some? && l.Some? { AtMostOneFormat(Dotted, Slashed, s); }
  }
}
