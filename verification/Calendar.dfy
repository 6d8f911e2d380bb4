/** The proleptic Gregorian calendar of Python's `date`: validity, order, day numbers and month windows. */
module Calendar {

  datatype CalendarDate = CalendarDate(year: int, month: int, day: int)

  predicate IsLeap(year: int) {
    year % 4 == 0 && (year % 100 != 0 || year % 400 == 0)
  }

  function DaysInMonth(year: int, month: int): int {
    if month == 2 then (if IsLeap(year) then 29 else 28)
    else if month == 4 || month == 6 || month == 9 || month == 11 then 30
    else 31
  }

  predicate IsValid(year: int, month: int, day: int) {
    1 <= year <= 9999 && 1 <= month <= 12 && 1 <= day <= DaysInMonth(year, month)
  }

  type Date = d: CalendarDate | IsValid(d.year, d.month, d.day) witness CalendarDate(1, 1, 1)

  predicate Before(a: Date, b: Date) {
    a.year < b.year || (a.year == b.year && (a.month < b.month || (a.month == b.month && a.day < b.day)))
  }

  predicate AtMost(a: Date, b: Date) {
    a == b || Before(a, b)
  }

  function Earlier(a: Date, b: Date): Date {
    if Before(b, a) then b else a
  }

  function FirstOfMonth(d: Date): Date {
    CalendarDate(d.year, d.month, 1)
  }

  function EndOfMonth(d: Date): Date {
    CalendarDate(d.year, d.month, DaysInMonth(d.year, d.month))
  }

  predicate SameMonth(a: Date, b: Date) {
    a.year == b.year && a.month == b.month
  }

  /** The window from the first to the last day of a month holds exactly that month's dates. */
  lemma WindowIsMonth(period: Date, d: Date)
    requires period.day == 1
    ensures AtMost(period, d) && AtMost(d, EndOfMonth(period)) <==> SameMonth(period, d)
  {
    assert DaysInMonth(d.year, d.month) >= d.day;
  }

  // Day numbers, as Python's toordinal computes them.

  function DaysBeforeYear(year: int): int {
    (year - 1) * 365 + (year - 1) / 4 - (year - 1) / 100 + (year - 1) / 400
  }

  function DaysBeforeMonth(year: int, month: int): int
    decreases month
  {
    if month <= 1 then 0 else DaysBeforeMonth(year, month - 1) + DaysInMonth(year, month - 1)
  }

  function DayNumber(d: Date): int {
    DaysBeforeYear(d.year) + DaysBeforeMonth(d.year, d.month) + d.day
  }

  function DaysFrom(a: Date, b: Date): int {
    DayNumber(b) - DayNumber(a)
  }

  predicate IsLastDate(d: Date) {
    d == CalendarDate(9999, 12, 31)
  }

  function NextDay(d: Date): Date
    requires !IsLastDate(d)
  {
    if d.day < DaysInMonth(d.year, d.month) then CalendarDate(d.year, d.month, d.day + 1)
    else if d.month < 12 then CalendarDate(d.year, d.month + 1, 1)
    else CalendarDate(d.year + 1, 1, 1)
  }

  lemma MonthsAddUp(year: int)
    ensures DaysBeforeMonth(year, 12) + 31 == 365 + (if IsLeap(year) then 1 else 0)
  {
    assert DaysBeforeMonth(year, 3) == 31 + DaysInMonth(year, 2);
    assert DaysBeforeMonth(year, 5) == 92 + DaysInMonth(year, 2);
    assert DaysBeforeMonth(year, 7) == 153 + DaysInMonth(year, 2);
    assert DaysBeforeMonth(year, 9) == 215 + DaysInMonth(year, 2);
    assert DaysBeforeMonth(year, 11) == 276 + DaysInMonth(year, 2);
  }

  lemma QuotientStep(year: int, k: int)
    requires k > 1
    ensures year / k - (year - 1) / k == if year % k == 0 then 1 else 0
  {
    var q, r := year / k, year % k;
    assert year == q * k + r;
    if r == 0 {
      assert year - 1 == (q - 1) * k + (k - 1);
      UniqueQuotient(year - 1, k, q - 1, k - 1);
    } else {
      UniqueQuotient(year - 1, k, q, r - 1);
    }
  }

  lemma UniqueQuotient(n: int, k: int, q: int, r: int)
    requires 0 <= r < k && n == q * k + r
    ensures n / k == q && n % k == r
  {
    var d := n / k - q;
    assert d * k == r - n % k;
    assert d > 0 ==> d * k >= k;
    assert d < 0 ==> d * k <= -k;
  }

  lemma YearLength(year: int)
    ensures DaysBeforeYear(year + 1) == DaysBeforeYear(year) + 365 + (if IsLeap(year) then 1 else 0)
  {
    QuotientStep(year, 4);
    QuotientStep(year, 100);
    QuotientStep(year, 400);
    var c := year / 100;
    assert year % 100 == 0 ==> year == 4 * (25 * c);
    var f := year / 400;
    assert year % 400 == 0 ==> year == 100 * (4 * f);
  }

  lemma MonthsFillTheYear(year: int)
    ensures DaysBeforeYear(year + 1) == DaysBeforeYear(year) + DaysBeforeMonth(year, 12) + 31
  {
    MonthsAddUp(year);
    YearLength(year);
  }

  lemma {:induction false} LaterMonthStartsLater(year: int, early: int, late: int)
    requires 1 <= early < late
    ensures DaysBeforeMonth(year, early) + DaysInMonth(year, early) <= DaysBeforeMonth(year, late)
    decreases late
  {
    if early < late - 1 {
      LaterMonthStartsLater(year, early, late - 1);
    }
  }

  lemma {:induction false} LaterYearStartsLater(early: int, late: int)
    requires 1 <= early < late
    ensures DaysBeforeYear(early + 1) <= DaysBeforeYear(late)
    decreases late
  {
    if early < late - 1 {
      LaterYearStartsLater(early, late - 1);
      MonthsFillTheYear(late - 1);
    }
  }

  lemma EarlierDateSmallerNumber(a: Date, b: Date)
    requires Before(a, b)
    ensures DayNumber(a) < DayNumber(b)
  {
    if a.year < b.year {
      if a.month < 12 {
        LaterMonthStartsLater(a.year, a.month, 12);
      }
      MonthsFillTheYear(a.year);
      LaterYearStartsLater(a.year, b.year);
      if b.month > 1 {
        LaterMonthStartsLater(b.year, 1, b.month);
      }
    } else if a.month < b.month {
      LaterMonthStartsLater(a.year, a.month, b.month);
    }
  }

  /** Day numbers order dates exactly as year, month and day do. */
  lemma DayNumberOrder(a: Date, b: Date)
    ensures Before(a, b) <==> DaysFrom(a, b) > 0
    ensures a == b <==> DaysFrom(a, b) == 0
  {
    if Before(a, b) {
      EarlierDateSmallerNumber(a, b);
    } else if Before(b, a) {
      EarlierDateSmallerNumber(b, a);
    }
  }

  /** The calendar successor, across month ends, year ends and leap days, has the next day number. */
  lemma NextDayNumber(d: Date)
    requires !IsLastDate(d)
    ensures DayNumber(NextDay(d)) == DayNumber(d) + 1
  {
    if d.day == DaysInMonth(d.year, d.month) && d.month == 12 {
      MonthsFillTheYear(d.year);
    }
  }

  /** The reference reading of "n days later": take the calendar successor n times. */
  ghost predicate IsDaysLater(a: Date, n: nat, b: Date)
    decreases n
  {
    if n == 0 then a == b else !IsLastDate(a) && IsDaysLater(NextDay(a), n - 1, b)
  }

  /** The day-number difference is the number of calendar steps from one date to the other. */
  lemma {:induction false} DaysFromCountsSteps(a: Date, b: Date, n: nat)
    ensures IsDaysLater(a, n, b) <==> DaysFrom(a, b) == n
    decreases n
  {
    DayNumberOrder(a, b);
    if n > 0 {
      if IsLastDate(a) {
        assert !Before(a, b);
      } else {
        NextDayNumber(a);
        DaysFromCountsSteps(NextDay(a), b, n - 1);
      }
    }
  }
}
