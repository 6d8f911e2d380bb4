/** A year of storable credits, some of them negative, whose printed shares miss 100.00 by more than half a hundredth
    of a percent a month: the one exception in the bound on the year report's shares is real. */
module SlippingYear {
  import opened Arithmetic
  import opened Outcomes
  import opened Folds
  import Calendar
  import opened DecimalArithmetic
  import opened Ledger
  import opened YearPerformance

  // Both end 1/22 of a hundredth of a percent of 11 cents away from a midpoint, on a grid of ten steps.
  const ISSUED := 110_000_000_000_000_000_000_006
  const REVOKED := 132_000_000_000_000_000_000_005

  /** Six months of credits and five of negative ones: 6 * ISSUED - 5 * REVOKED is 11 cents. */
  function BodyIn(m: int): int {
    if 1 <= m <= 6 then ISSUED else if 7 <= m <= 11 then -REVOKED else 0
  }

  /** The year's monthly sums of credits are these, however many credits they come from. */
  predicate HasTheseBodies(t: Tables, year: int) {
    forall m :: m in MONTHS ==> MonthTotal(Issued(t.credits), year, m) == BodyIn(m)
  }

  lemma {:induction false} RunningTotal(n: nat)
    requires n <= 12
    ensures SumOf(NumbersTo(n), BodyIn)
            == if n <= 6 then n * ISSUED else 6 * ISSUED - (if n <= 11 then n - 6 else 5) * REVOKED
  {
    if n > 0 {
      RunningTotal(n - 1);
      assert NumbersTo(n)[..n - 1] == NumbersTo(n - 1);
      hide NumbersTo;
    }
  }

  lemma {:induction false} RunningCount(n: nat)
    requires n <= 12
    ensures SumOf(NumbersTo(n), ActiveBy(BodyIn)) == if n <= 11 then n else 11
  {
    if n > 0 {
      RunningCount(n - 1);
      assert NumbersTo(n)[..n - 1] == NumbersTo(n - 1);
      assert BodyIn(n) == 0 <==> n == 12;
    }
  }

  lemma ElevenCentsInElevenMonths(t: Tables, year: int)
    requires HasTheseBodies(t, year)
    ensures YearTotal(Issued(t.credits), year) == 11 && ActiveMonthCount(Issued(t.credits), year) == 11
  {
    hide BodyIn, MonthTotal;
    var totals := TotalBy(Issued(t.credits), year);
    MonthlySumsAddUp(Issued(t.credits), year);
    SumCongruent(MONTHS, totals, BodyIn);
    SumCongruent(MONTHS, ActiveBy(totals), ActiveBy(BodyIn));
    RunningTotal(12);
    RunningCount(12);
  }

  lemma BothSlip()
    ensures RatioSlip(ISSUED, 11) == 1 && RatioSlip(-REVOKED, 11) == 1
    ensures IsPrintable(ISSUED, 11) && IsPrintable(-REVOKED, 11)
  {
    PowersOfTen();
    GridIs(ISSUED * 10000, 11, 1);
    GridIs(REVOKED * 10000, 11, 1);
    assert Slip(REVOKED * 10000, 11) == -1;
    assert -REVOKED * 10000 == -(REVOKED * 10000);
  }

  /** For any tables with these monthly sums: the year's total is positive, all eleven shares slip the same way, and
      they add up to 100.00 only within 0.06, not within 0.05. */
  lemma SharesMissByMore(t: Tables, year: int)
    requires 1 <= year <= 9999 && HasTheseBodies(t, year) && YearReport(t, year).Ok?
    ensures YearTotal(Issued(t.credits), year) > 0 && ActiveMonthCount(Issued(t.credits), year) == 11
    ensures SlipsTogether(Issued(t.credits), year)
    ensures var off := SumOf(YearReport(t, year).value, IssuanceShare) - 10000; off == 6 || off == -6
  {
    hide YearReport, RatioSlip, MonthTotal;
    ElevenCentsInElevenMonths(t, year);
    BothSlip();
    assert MonthsSlip(Issued(t.credits), year, 1);
    IssuanceSharesAddUp(t, year);
  }

  // Rows that the tables can hold.

  const COLUMN_LIMIT := 1_000_000_000_000_000_000 // what NUMERIC(18,2) stays below, in cents

  predicate AreStorable(credits: seq<Credit>) {
    && (forall i, j :: 0 <= i < j < |credits| ==> credits[i].id != credits[j].id)
    && (forall c :: c in credits ==> -COLUMN_LIMIT < c.body < COLUMN_LIMIT)
  }

  const EQUAL_ROWS := 200_000

  /** Each month has this many equal credits and one small one more. */
  function RowBody(m: int, j: nat): int {
    if m <= 6 then (if j < EQUAL_ROWS then 550_000_000_000_000_000 else 6)
    else (if j < EQUAL_ROWS then -660_000_000_000_000_000 else -5)
  }

  function CreditAt(m: int, j: nat): Credit
    requires 1 <= m <= 11
  {
    Credit((m - 1) * (EQUAL_ROWS + 1) + j + 1, 1, Calendar.CalendarDate(2024, m, 1), Calendar.CalendarDate(2025, 1, 1),
           None, RowBody(m, j), 0)
  }

  function MonthRows(m: int): (rows: seq<Credit>)
    requires 1 <= m <= 11
    ensures |rows| == EQUAL_ROWS + 1
  {
    seq(EQUAL_ROWS + 1, j requires 0 <= j < EQUAL_ROWS + 1 => CreditAt(m, j))
  }

  function YearRows(n: nat): seq<Credit>
    requires n <= 11
  {
    if n == 0 then [] else YearRows(n - 1) + MonthRows(n)
  }

  function BodyOf(m: int): Credit -> int {
    (c: Credit) => if c.issuanceDate.year == 2024 && c.issuanceDate.month == m then c.body else 0
  }

  lemma OneCredit(k: int, m: int, j: nat)
    requires 1 <= k <= 11 && j <= EQUAL_ROWS
    ensures BodyOf(m)(MonthRows(k)[j]) == if k == m then RowBody(k, j) else 0
  {
    assert MonthRows(k)[j] == CreditAt(k, j);
  }

  lemma {:induction false} EqualRowsAddUp(k: int, m: int, j: nat)
    requires 1 <= k <= 11 && j <= EQUAL_ROWS
    ensures SumOf(MonthRows(k)[..j], BodyOf(m)) == if k == m then j * RowBody(k, 0) else 0
  {
    hide MonthRows;
    if j == 0 {
      assert MonthRows(k)[..0] == [];
    } else {
      EqualRowsAddUp(k, m, j - 1);
      SumSnoc(MonthRows(k), j - 1, BodyOf(m));
      OneCredit(k, m, j - 1);
      assert RowBody(k, j - 1) == RowBody(k, 0);
      Distribute(j, RowBody(k, 0));
    }
  }

  lemma Distribute(j: int, body: int)
    ensures j * body == (j - 1) * body + body
  {
  }

  lemma MonthAddsUp(k: int, m: int)
    requires 1 <= k <= 11
    ensures SumOf(MonthRows(k), BodyOf(m)) == if k == m then BodyIn(m) else 0
  {
    hide MonthRows;
    EqualRowsAddUp(k, m, EQUAL_ROWS);
    SumSnoc(MonthRows(k), EQUAL_ROWS, BodyOf(m));
    OneCredit(k, m, EQUAL_ROWS);
    assert EQUAL_ROWS * RowBody(k, 0) + RowBody(k, EQUAL_ROWS) == BodyIn(k);
    assert MonthRows(k)[..EQUAL_ROWS + 1] == MonthRows(k);
  }

  lemma {:induction false} YearAddsUp(n: nat, m: int)
    requires n <= 11
    ensures SumOf(YearRows(n), BodyOf(m)) == if 1 <= m <= n then BodyIn(m) else 0
  {
    if n > 0 {
      hide MonthRows, BodyIn;
      YearAddsUp(n - 1, m);
      SumAppend(YearRows(n - 1), MonthRows(n), BodyOf(m));
      MonthAddsUp(n, m);
    }
  }

  lemma {:induction false} YearIsNumbered(n: nat)
    requires n <= 11
    ensures |YearRows(n)| == n * (EQUAL_ROWS + 1)
    ensures forall i :: 0 <= i < |YearRows(n)| ==>
      YearRows(n)[i].id == i + 1 && -COLUMN_LIMIT < YearRows(n)[i].body < COLUMN_LIMIT
  {
    if n > 0 {
      YearIsNumbered(n - 1);
      var earlier := |YearRows(n - 1)|;
      forall i | 0 <= i < |YearRows(n)|
        ensures YearRows(n)[i].id == i + 1 && -COLUMN_LIMIT < YearRows(n)[i].body < COLUMN_LIMIT
      {
        if i >= earlier {
          assert YearRows(n)[i] == CreditAt(n, i - earlier);
        }
      }
    }
  }

  function TheTables(): Tables {
    Tables([], [], YearRows(11), [])
  }

  lemma TheirBodies()
    ensures HasTheseBodies(TheTables(), 2024)
  {
    hide YearRows;
    var credits := YearRows(11);
    forall m | m in MONTHS
      ensures MonthTotal(Issued(credits), 2024, m) == BodyIn(m)
    {
      SumMap(credits, CreditEntry, AmountIn(2024, m), BodyOf(m));
      YearAddsUp(11, m);
      InMonths(m);
    }
  }

  lemma ReportIsGiven()
    ensures YearReport(TheTables(), 2024).Ok?
  {
    hide Percent, RowsFor, HalfEven, RatioSlip, YearRows, YearReport;
    var t := TheTables();
    TheirBodies();
    ElevenCentsInElevenMonths(t, 2024);
    forall m | m in MONTHS
      ensures AllPrintable(FiguresOf(t, 2024, m))
    {
      hide IsPrintable;
      BothSlip();
      ModestIsPrinted(0, 0);
      ModestIsPrinted(0, 11);
      WithoutPlan(BodyIn(m));
      assert Paid(t.payments) == [];
    }
    ReportPrintsRatios(t, 2024);
  }

  lemma WithoutPlan(part: int)
    ensures IsPrintable(part, 0)
  {
  }

  /** Rows the database can hold, on which the report is given and its shares miss 100.00 by 0.06 in a year of eleven
      active months. */
  lemma SharesCanMissByMore()
    ensures var t := TheTables();
      && AreStorable(t.credits) && HasTheseBodies(t, 2024)
      && YearTotal(Issued(t.credits), 2024) > 0 && ActiveMonthCount(Issued(t.credits), 2024) == 11
      && YearReport(t, 2024).Ok?
      && var off := SumOf(YearReport(t, 2024).value, IssuanceShare) - 10000; off == 6 || off == -6
  {
    hide YearReport, YearRows, MonthTotal;
    YearIsNumbered(11);
    var credits := YearRows(11);
    forall c | c in credits
      ensures -COLUMN_LIMIT < c.body < COLUMN_LIMIT
    {
      var i :| 0 <= i < |credits| && credits[i] == c;
    }
    TheirBodies();
    ReportIsGiven();
    SharesMissByMore(TheTables(), 2024);
  }
}
