/** The plan report sums date ranges and the year report sums monthly groups: over finished months
    they print the same figures. */
module ReportsAgree {
  import opened Outcomes
  import opened Folds
  import opened Calendar
  import DecimalArithmetic
  import opened Ledger
  import opened PlansPerformance
  import opened YearPerformance

  /** What both reports say about one plan: its sum, what was achieved, and the percentage. */
  datatype Figures = Figures(planSum: int, actualSum: int, completionPercent: int)

  function PlanFigures(r: PlanPerformance): Figures {
    Figures(r.planSum, r.actualSum, r.completionPercent)
  }

  function YearFigures(r: YearRow, category: string): Figures {
    if category == ISSUANCE then Figures(r.issuancePlan, r.issuanceActual, r.issuanceCompletion)
    else Figures(r.collectionPlan, r.collectionActual, r.collectionCompletion)
  }

  /** The keys of the dictionary and of the plan table. */
  predicate MeetsConstraints(t: Tables) {
    IsDictionary(t.dictionary) && UniqueKeys(t.plans)
  }

  lemma {:induction false} RowComesFromPlan(t: Tables, plans: seq<Plan>, check: Date, r: PlanPerformance)
    returns (p: Plan)
    requires ReportOn(t, plans, check).Ok? && r in ReportOn(t, plans, check).value
    ensures p in plans && RowsOf(t, p, check).Ok? && r in RowsOf(t, p, check).value
  {
    hide RowsOf;
    var init, last := plans[..|plans| - 1], plans[|plans| - 1];
    if r in RowsOf(t, last, check).value {
      p := last;
    } else {
      p := RowComesFromPlan(t, init, check, r);
    }
  }

  lemma {:induction false} PlanHasItsRow(t: Tables, plans: seq<Plan>, check: Date, p: Plan)
    requires ReportOn(t, plans, check).Ok? && p in plans
    ensures RowsOf(t, p, check).Ok?
    ensures forall r :: r in RowsOf(t, p, check).value ==> r in ReportOn(t, plans, check).value
  {
    hide RowsOf;
    var init, last := plans[..|plans| - 1], plans[|plans| - 1];
    assert plans == init + [last];
    if p != last {
      PlanHasItsRow(t, init, check, p);
    }
  }

  lemma RowOfPlan(t: Tables, p: Plan, category: string, check: Date)
    requires IsOfCategory(t, p, category) && IsReported(category) && RowsOf(t, p, check).Ok?
    ensures |RowsOf(t, p, check).value| == 1
    ensures RowsOf(t, p, check).value[0].period == p.period && RowsOf(t, p, check).value[0].category == category
  {
    hide DecimalArithmetic.Percent;
  }

  // What the year report counts and the plan report does not, for a plan of any date.

  /** The sum of a plan of the category in the same month under another date. */
  function OtherInMonth(t: Tables, category: string, period: Date): Plan -> int {
    (q: Plan) => if IsOfCategory(t, q, category) && SameMonth(q.period, period) && q.period != period then q.sum else 0
  }

  /** The amount of an entry of the same month dated before the plan. */
  function EarlierInMonth(period: Date): Entry -> int {
    (e: Entry) => if SameMonth(e.date, period) && Before(e.date, period) then e.amount else 0
  }

  function BodyEarlier(period: Date): Credit -> int {
    (c: Credit) => if SameMonth(c.issuanceDate, period) && Before(c.issuanceDate, period) then c.body else 0
  }

  function PaidEarlier(period: Date): Payment -> int {
    (p: Payment) => if SameMonth(p.paymentDate, period) && Before(p.paymentDate, period) then p.sum else 0
  }

  /** The credits or payments of the month dated before the plan. */
  function EarlierAmounts(t: Tables, category: string, period: Date): int {
    if category == ISSUANCE then SumOf(t.credits, BodyEarlier(period)) else SumOf(t.payments, PaidEarlier(period))
  }

  lemma EarlierOverRows(t: Tables, category: string, period: Date)
    ensures SumOf(EntriesFor(t, category), EarlierInMonth(period)) == EarlierAmounts(t, category, period)
  {
    OverCredits(t.credits, EarlierInMonth(period), BodyEarlier(period));
    OverPayments(t.payments, EarlierInMonth(period), PaidEarlier(period));
  }

  function OwnSum(p: Plan): Plan -> int {
    (q: Plan) => if q.categoryId == p.categoryId && q.period == p.period then q.sum else 0
  }

  /** A month's plan total for a category is one plan's sum and the sums of the others. */
  lemma PlanTotalSplits(t: Tables, p: Plan, category: string)
    requires MeetsConstraints(t) && p in t.plans && IsOfCategory(t, p, category)
    ensures IdByName(t.dictionary, category) == Some(p.categoryId)
    ensures PlanTotal(t, category, p.period.year, p.period.month)
            == p.sum + SumOf(t.plans, OtherInMonth(t, category, p.period))
  {
    NameOfListed(t.dictionary, p.categoryId, category);
    var f := PlanSumIn(Some(p.categoryId), p.period.year, p.period.month);
    var i :| 0 <= i < |t.plans| && t.plans[i] == p;
    forall j | 0 <= j < |t.plans| && j != i
      ensures OwnSum(p)(t.plans[j]) == 0
    {
      assert Key(t.plans[j]) != Key(p);
    }
    SumSingle(t.plans, i, OwnSum(p));
    forall q | q in t.plans
      ensures f(q) == OwnSum(p)(q) + OtherInMonth(t, category, p.period)(q)
    {
      NameOfListed(t.dictionary, q.categoryId, category);
    }
    SumAdd(t.plans, OwnSum(p), OtherInMonth(t, category, p.period), f);
  }

  /** A month's group sum is the range sum from any of its days on and what is dated before that day. */
  lemma MonthTotalSplits(entries: seq<Entry>, period: Date)
    ensures MonthTotal(entries, period.year, period.month)
            == SumBetween(entries, period, EndOfMonth(period)) + SumOf(entries, EarlierInMonth(period))
  {
    forall e | e in entries
      ensures AmountIn(period.year, period.month)(e)
              == AmountWithin(period, EndOfMonth(period))(e) + EarlierInMonth(period)(e)
    {
      WindowIsMonth(FirstOfMonth(period), e.date);
    }
    SumAdd(entries, AmountWithin(period, EndOfMonth(period)), EarlierInMonth(period),
           AmountIn(period.year, period.month));
  }

  lemma FiguresOfRow(t: Tables, year: int, month: int, category: string)
    requires 1 <= year <= 9999 && month in MONTHS && IsReported(category) && RowFor(t, year, month).Ok?
    ensures var y := RowFor(t, year, month).value;
      var figures := YearFigures(y, category);
      && y.period.year == year && y.period.month == month && y.period.day == 1
      && figures.planSum == PlanTotal(t, category, year, month)
      && figures.actualSum == MonthTotal(EntriesFor(t, category), year, month)
      && Ok(figures.completionPercent) == DecimalArithmetic.Percent(figures.actualSum, figures.planSum)
  {
    hide DecimalArithmetic.Percent;
  }

  lemma PositionInMonths(t: Tables, year: int, month: int) returns (i: nat)
    requires month in MONTHS && MonthAppears(t, year, month)
    ensures i < |Filter(MONTHS, Appears(t, year))| && Filter(MONTHS, Appears(t, year))[i] == month
  {
    var months := Filter(MONTHS, Appears(t, year));
    assert Appears(t, year)(month);
    assert month in months;
    i :| 0 <= i < |months| && months[i] == month;
  }

  /** The year report has a row for a plan's month, with the month's figures. */
  lemma YearRowOfPlan(t: Tables, p: Plan, category: string) returns (y: YearRow)
    requires MeetsConstraints(t) && p in t.plans && IsOfCategory(t, p, category) && IsReported(category)
    requires YearReport(t, p.period.year).Ok?
    ensures y in YearReport(t, p.period.year).value && y.period == FirstOfMonth(p.period)
    ensures var figures := YearFigures(y, category);
      && figures.planSum == PlanTotal(t, category, p.period.year, p.period.month)
      && figures.actualSum == MonthTotal(EntriesFor(t, category), p.period.year, p.period.month)
      && Ok(figures.completionPercent) == DecimalArithmetic.Percent(figures.actualSum, figures.planSum)
  {
    hide RowFor, DecimalArithmetic.Percent;
    var year, month := p.period.year, p.period.month;
    PlanTotalSplits(t, p, category);
    InMonths(month);
    assert IsPlanFor(p, IdByName(t.dictionary, category), year, month);
    var i := PositionInMonths(t, year, month);
    RowAt(t, year, Filter(MONTHS, Appears(t, year)), i);
    y := YearReport(t, year).value[i];
    FiguresOfRow(t, year, month, category);
  }

  lemma OneRowAMonth(t: Tables, year: int, y: YearRow)
    requires 1 <= year <= 9999 && YearReport(t, year).Ok? && y in YearReport(t, year).value
    ensures y.period.year == year && y.period.day == 1
    ensures forall y' :: y' in YearReport(t, year).value && y'.period == y.period ==> y' == y
  {
    hide RowFor, RowsFor;
    ListedMonths(t, year);
  }

  lemma RowIsOfPlan(t: Tables, p: Plan, check: Date, r: PlanPerformance)
    requires RowsOf(t, p, check).Ok? && r in RowsOf(t, p, check).value
    ensures IsOfCategory(t, p, r.category) && IsReported(r.category) && r.period == p.period && r.planSum == p.sum
    ensures r.actualSum == ActualSum(t, p.period, r.category, check)
    ensures Ok(r.completionPercent) == DecimalArithmetic.Percent(r.actualSum, p.sum)
  {
    hide DecimalArithmetic.Percent;
  }

  /** The stored plan behind a row of the plan report. */
  lemma PlanBehind(t: Tables, check: Date, r: PlanPerformance) returns (p: Plan)
    requires PlansReport(t, check).Ok? && r in PlansReport(t, check).value
    ensures p in t.plans && RowsOf(t, p, check).Ok? && r in RowsOf(t, p, check).value
  {
    hide RowsOf;
    OrderedPlans(Filter(t.plans, DueBy(check)));
    p := RowComesFromPlan(t, ListUpTo(t.plans, check), check, r);
  }

  // When the reports agree.

  /** Every row of the plan report has its month in the year report. */
  lemma MonthIsListed(t: Tables, check: Date, r: PlanPerformance) returns (y: YearRow)
    requires MeetsConstraints(t) && PlansReport(t, check).Ok? && r in PlansReport(t, check).value
    requires YearReport(t, r.period.year).Ok?
    ensures y in YearReport(t, r.period.year).value && y.period == FirstOfMonth(r.period)
  {
    hide RowsOf, RowFor, RowsFor;
    var p := PlanBehind(t, check, r);
    RowIsOfPlan(t, p, check, r);
    y := YearRowOfPlan(t, p, r.category);
  }

  /** For plans of any date, once a row's month is over: the two reports show the same plan sum exactly when the
      category's other plans of the month add up to nothing, the same actual sum exactly when the amounts dated
      earlier in the month than the plan add up to nothing, and the same figures exactly when both hold. */
  lemma FiguresAgreeExactlyWhen(t: Tables, check: Date, r: PlanPerformance, y: YearRow)
    requires MeetsConstraints(t) && PlansReport(t, check).Ok? && r in PlansReport(t, check).value
    requires AtMost(EndOfMonth(r.period), check)
    requires YearReport(t, r.period.year).Ok? && y in YearReport(t, r.period.year).value
    requires y.period == FirstOfMonth(r.period)
    ensures var others := SumOf(t.plans, OtherInMonth(t, r.category, r.period));
      var earlier := EarlierAmounts(t, r.category, r.period);
      var figures := YearFigures(y, r.category);
      && figures.planSum == r.planSum + others && figures.actualSum == r.actualSum + earlier
      && (figures == PlanFigures(r) <==> others == 0 && earlier == 0)
  {
    hide DecimalArithmetic.Percent, RowsOf, PlansReport, YearReport, PlanTotal, MonthTotal, SumBetween;
    var p := PlanBehind(t, check, r);
    RowIsOfPlan(t, p, check, r);
    var y' := YearRowOfPlan(t, p, r.category);
    OneRowAMonth(t, r.period.year, y);
    assert y' == y;
    PlanTotalSplits(t, p, r.category);
    MonthTotalSplits(EntriesFor(t, r.category), r.period);
    EarlierOverRows(t, r.category, r.period);
    assert Earlier(check, EndOfMonth(p.period)) == EndOfMonth(p.period);
  }

  /** Nothing in a month comes before its first day. */
  lemma FirstOfMonthAgrees(t: Tables, category: string, period: Date)
    requires MonthlyPlans(t.plans) && period.day == 1
    ensures SumOf(t.plans, OtherInMonth(t, category, period)) == 0
    ensures EarlierAmounts(t, category, period) == 0
  {
    SumZero(t.plans, OtherInMonth(t, category, period));
    SumZero(t.credits, BodyEarlier(period));
    SumZero(t.payments, PaidEarlier(period));
  }

  /** With plans dated the first of a month, every plan-report row whose month is over reappears in the year
      report of its year, with the same plan sum, actual sum and completion percentage. */
  lemma PlanRowsReappear(t: Tables, check: Date, r: PlanPerformance)
    requires MeetsConstraints(t) && MonthlyPlans(t.plans)
    requires PlansReport(t, check).Ok? && r in PlansReport(t, check).value
    requires AtMost(EndOfMonth(r.period), check) && YearReport(t, r.period.year).Ok?
    ensures exists y :: y in YearReport(t, r.period.year).value && y.period == r.period
                        && YearFigures(y, r.category) == PlanFigures(r)
  {
    hide RowsOf, RowFor, RowsFor;
    var p := PlanBehind(t, check, r);
    RowIsOfPlan(t, p, check, r);
    var y := MonthIsListed(t, check, r);
    FiguresAgreeExactlyWhen(t, check, r, y);
    FirstOfMonthAgrees(t, r.category, r.period);
  }

  /** A due plan of a reported category has its row. */
  lemma RowOfDuePlan(t: Tables, check: Date, p: Plan, category: string) returns (r: PlanPerformance)
    requires PlansReport(t, check).Ok? && p in t.plans && IsOfCategory(t, p, category) && IsReported(category)
    requires AtMost(EndOfMonth(p.period), check)
    ensures r in PlansReport(t, check).value && r.period == p.period && r.category == category
  {
    hide RowsOf, ReportOn, OrderPlans;
    OrderedPlans(Filter(t.plans, DueBy(check)));
    assert AtMost(p.period, EndOfMonth(p.period));
    assert p in Filter(t.plans, DueBy(check));
    PlanHasItsRow(t, ListUpTo(t.plans, check), check, p);
    RowOfPlan(t, p, category, check);
    r := RowsOf(t, p, check).value[0];
  }

  /** The category has a plan, of any date, in the month. */
  predicate IsPlannedIn(t: Tables, category: string, month: Date) {
    exists p :: p in t.plans && IsOfCategory(t, p, category) && SameMonth(p.period, month)
  }

  /** The row is of the category and the month, and shows the year row's figures less what the year report counts and
      the plan report does not. */
  predicate IsCounterpart(t: Tables, r: PlanPerformance, y: YearRow, category: string) {
    var others := SumOf(t.plans, OtherInMonth(t, category, r.period));
    var earlier := EarlierAmounts(t, category, r.period);
    var figures := YearFigures(y, category);
    && r.category == category && SameMonth(r.period, y.period)
    && figures.planSum == r.planSum + others && figures.actualSum == r.actualSum + earlier
    && (figures == PlanFigures(r) <==> others == 0 && earlier == 0)
  }

  /** And every finished month of the year report with a plan of a category, of any date, has its row in the plan
      report; the figures agree exactly when the category's other plans of the month and the amounts dated before the
      plan add up to nothing, so always when plans are dated the first of a month. */
  lemma YearRowsReappear(t: Tables, check: Date, year: int, y: YearRow, category: string)
    requires MeetsConstraints(t) && 1 <= year <= 9999 && IsReported(category)
    requires PlansReport(t, check).Ok? && YearReport(t, year).Ok? && y in YearReport(t, year).value
    requires AtMost(EndOfMonth(y.period), check) && IsPlannedIn(t, category, y.period)
    ensures exists r ::
      && r in PlansReport(t, check).value && IsCounterpart(t, r, y, category)
      && (MonthlyPlans(t.plans) ==> r.period == y.period && YearFigures(y, category) == PlanFigures(r))
  {
    hide RowFor, RowsFor, RowsOf, PlansReport;
    OneRowAMonth(t, year, y);
    var p :| p in t.plans && IsOfCategory(t, p, category) && SameMonth(p.period, y.period);
    assert EndOfMonth(p.period) == EndOfMonth(y.period);
    var r := RowOfDuePlan(t, check, p, category);
    assert YearReport(t, r.period.year).Ok?;
    FiguresAgreeExactlyWhen(t, check, r, y);
    assert IsCounterpart(t, r, y, category);
    if MonthlyPlans(t.plans) {
      FirstOfMonthAgrees(t, category, r.period);
    }
  }
}
