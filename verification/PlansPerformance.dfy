/** The plan report: every plan due by a check date against the amounts in its month up to that date. */
module PlansPerformance {
  import opened Outcomes
  import opened Folds
  import opened Calendar
  import opened DecimalArithmetic
  import opened Ledger

  datatype PlanPerformance = PlanPerformance(period: Date, category: string, planSum: int,
                                             actualSum: int, completionPercent: int)

  datatype ReportError = UnknownCategory(plan: Plan) | CannotRound(error: ArithmeticError)

  predicate IsReported(category: string) {
    category == ISSUANCE || category == COLLECTION
  }

  /** Issuance plans are measured by credits issued, collection plans by payments made. */
  function EntriesFor(t: Tables, category: string): seq<Entry> {
    if category == ISSUANCE then Issued(t.credits) else Paid(t.payments)
  }

  function ActualSum(t: Tables, period: Date, category: string, check: Date): int {
    SumBetween(EntriesFor(t, category), period, Earlier(check, EndOfMonth(period)))
  }

  /** One plan's part of the report: a row, nothing for a category that is not reported, or an error. */
  function RowsOf(t: Tables, plan: Plan, check: Date): Result<seq<PlanPerformance>, ReportError> {
    match NameById(t.dictionary, plan.categoryId)
    case None => Err(UnknownCategory(plan))
    case Some(category) =>
      if !IsReported(category) then Ok([])
      else
        var actual := ActualSum(t, plan.period, category, check);
        match Percent(actual, plan.sum)
        case Ok(completion) => Ok([PlanPerformance(plan.period, category, plan.sum, actual, completion)])
        case Err(e) => Err(CannotRound(e))
  }

  /** The rows for a list of plans, in order; the first plan that fails decides the error. */
  function ReportOn(t: Tables, plans: seq<Plan>, check: Date): Result<seq<PlanPerformance>, ReportError> {
    if plans == [] then Ok([])
    else
      var earlier :- ReportOn(t, plans[..|plans| - 1], check);
      var rows :- RowsOf(t, plans[|plans| - 1], check);
      Ok(earlier + rows)
  }

  function PlansReport(t: Tables, check: Date): Result<seq<PlanPerformance>, ReportError> {
    ReportOn(t, ListUpTo(t.plans, check), check)
  }

  lemma {:induction false} FailureIsFinal(t: Tables, plans: seq<Plan>, k: nat, check: Date)
    requires k <= |plans|
    ensures ReportOn(t, plans[..k], check).Err? ==> ReportOn(t, plans, check) == ReportOn(t, plans[..k], check)
    ensures ReportOn(t, plans, check).Ok? ==>
            && ReportOn(t, plans[..k], check).Ok?
            && ReportOn(t, plans[..k], check).value <= ReportOn(t, plans, check).value
  {
    hide RowsOf;
    if k == |plans| {
      assert plans[..k] == plans;
    } else {
      FailureIsFinal(t, plans[..|plans| - 1], k, check);
      assert plans[..|plans| - 1][..k] == plans[..k];
    }
  }

  /** The body of the loop over plans. */
  method MeasurePlan(t: Tables, plan: Plan, check: Date) returns (r: Result<seq<PlanPerformance>, ReportError>)
    ensures r == RowsOf(t, plan, check)
  {
    hide Percent;
    var categoryName := NameById(t.dictionary, plan.categoryId);
    if categoryName.None? {
      return Err(UnknownCategory(plan));
    }
    var periodEnd := Earlier(check, EndOfMonth(plan.period));
    var actual: int;
    if categoryName.value == ISSUANCE {
      actual := SumBetween(Issued(t.credits), plan.period, periodEnd);
    } else if categoryName.value == COLLECTION {
      actual := SumBetween(Paid(t.payments), plan.period, periodEnd);
    } else {
      return Ok([]);
    }
    var completion := Percent(actual, plan.sum);
    if completion.Err? {
      return Err(CannotRound(completion.error));
    }
    return Ok([PlanPerformance(plan.period, categoryName.value, plan.sum, actual, completion.value)]);
  }

  method Execute(t: Tables, check: Date) returns (r: Result<seq<PlanPerformance>, ReportError>)
    ensures r == PlansReport(t, check)
  {
    hide RowsOf, ReportOn, ListUpTo;
    var plans := ListUpTo(t.plans, check);
    ReportOnNone(t, check);
    if plans == [] {
      return Ok([]);
    }
    var result: seq<PlanPerformance> := [];
    for i := 0 to |plans|
      invariant ReportOn(t, plans[..i], check) == Ok(result)
    {
      FailureIsFinal(t, plans, i + 1, check);
      ReportOnMore(t, plans, i, check);
      var rows :- MeasurePlan(t, plans[i], check);
      result := result + rows;
    }
    assert plans[..|plans|] == plans;
    return Ok(result);
  }

  lemma ReportOnNone(t: Tables, check: Date)
    ensures ReportOn(t, [], check) == Ok([])
  {
  }

  lemma ReportOnMore(t: Tables, plans: seq<Plan>, i: nat, check: Date)
    requires i < |plans| && ReportOn(t, plans[..i], check).Ok?
    ensures ReportOn(t, plans[..i + 1], check) == match RowsOf(t, plans[i], check)
      case Ok(rows) => Ok(ReportOn(t, plans[..i], check).value + rows)
      case Err(e) => Err(e)
  {
    hide RowsOf;
    assert plans[..i + 1][..i] == plans[..i];
  }

  // What the report shows.

  /** Credits issued or payments made, by the report's category, from the first of two dates to the second. */
  function AchievedBetween(t: Tables, category: string, start: Date, end: Date): int {
    if category == "видача" then SumOf(t.credits, BodyWithin(start, end)) else SumOf(t.payments, PaidWithin(start, end))
  }

  lemma ActualIsAchieved(t: Tables, period: Date, category: string, check: Date)
    ensures ActualSum(t, period, category, check)
            == AchievedBetween(t, category, period, Earlier(check, EndOfMonth(period)))
  {
    var end := Earlier(check, EndOfMonth(period));
    OverCredits(t.credits, AmountWithin(period, end), BodyWithin(period, end));
    OverPayments(t.payments, AmountWithin(period, end), PaidWithin(period, end));
  }

  /** The row is for the plan, and shows what was achieved from its date to the end of its month or the check date. */
  predicate ShowsPlan(r: PlanPerformance, t: Tables, p: Plan, check: Date) {
    && r.period == p.period && NameById(t.dictionary, p.categoryId) == Some(r.category) && r.planSum == p.sum
    && r.actualSum == AchievedBetween(t, r.category, p.period, Earlier(check, EndOfMonth(p.period)))
    && Percent(r.actualSum, r.planSum) == Ok(r.completionPercent)
  }

  function ReportedPlan(t: Tables): Plan -> bool {
    (p: Plan) =>
      NameById(t.dictionary, p.categoryId) == Some("видача") || NameById(t.dictionary, p.categoryId) == Some("збір")
  }

  lemma RowShowsPlan(t: Tables, p: Plan, check: Date)
    requires RowsOf(t, p, check).Ok?
    ensures |RowsOf(t, p, check).value| == if ReportedPlan(t)(p) then 1 else 0
    ensures ReportedPlan(t)(p) ==> ShowsPlan(RowsOf(t, p, check).value[0], t, p, check)
  {
    hide Percent, ActualSum, AchievedBetween;
    if ReportedPlan(t)(p) {
      ActualIsAchieved(t, p.period, NameById(t.dictionary, p.categoryId).value, check);
    }
  }

  lemma {:induction false} RowsShowPlans(t: Tables, plans: seq<Plan>, check: Date)
    requires ReportOn(t, plans, check).Ok?
    ensures var rows, shown := ReportOn(t, plans, check).value, Filter(plans, ReportedPlan(t));
      |rows| == |shown| && forall i :: 0 <= i < |rows| ==> ShowsPlan(rows[i], t, shown[i], check)
  {
    hide RowsOf, ShowsPlan;
    if plans != [] {
      var init, last := plans[..|plans| - 1], plans[|plans| - 1];
      RowsShowPlans(t, init, check);
      RowShowsPlan(t, last, check);
      assert Filter(plans, ReportedPlan(t))
             == Filter(init, ReportedPlan(t)) + if ReportedPlan(t)(last) then [last] else [];
    }
  }

  /** The report has one row for each due plan of the two categories, ordered by period and category id, and each row
      shows its plan and what the credit or payment rows themselves add up to. */
  lemma ReportShowsDuePlans(t: Tables, check: Date)
    requires PlansReport(t, check).Ok?
    ensures var rows, shown := PlansReport(t, check).value, Filter(ListUpTo(t.plans, check), ReportedPlan(t));
      && |rows| == |shown| && (forall i :: 0 <= i < |rows| ==> ShowsPlan(rows[i], t, shown[i], check))
      && IsSorted(ListUpTo(t.plans, check))
      && multiset(ListUpTo(t.plans, check)) == multiset(Filter(t.plans, DueBy(check)))
  {
    hide ReportOn, ShowsPlan;
    RowsShowPlans(t, ListUpTo(t.plans, check), check);
    OrderedPlans(Filter(t.plans, DueBy(check)));
  }

  // What the printed percentage is, and when the report can be given.

  predicate IsOfCategory(t: Tables, p: Plan, category: string) {
    NameById(t.dictionary, p.categoryId) == Some(category)
  }

  /** If the plan is reported, its rounded completion has at most 28 digits. */
  predicate CanBePrinted(t: Tables, p: Plan, check: Date) {
    forall category :: category in [ISSUANCE, COLLECTION] && IsOfCategory(t, p, category) ==>
      IsPrintable(ActualSum(t, p.period, category, check), p.sum)
  }

  predicate PrintsRatio(r: PlanPerformance) {
    && r.completionPercent == RoundedRatio(r.actualSum, r.planSum) - RatioSlip(r.actualSum, r.planSum)
    && (IsModest(r.actualSum) ==> r.completionPercent == RoundedRatio(r.actualSum, r.planSum))
  }

  lemma PlanIsPrintedExactlyWhen(t: Tables, p: Plan, check: Date)
    ensures RowsOf(t, p, check).Ok? <==> NameById(t.dictionary, p.categoryId).Some? && CanBePrinted(t, p, check)
    ensures RowsOf(t, p, check).Ok? ==> forall r :: r in RowsOf(t, p, check).value ==> PrintsRatio(r)
  {
    hide Percent, RoundedRatio, RatioSlip, IsPrintable;
    var name := NameById(t.dictionary, p.categoryId);
    if name.Some? && IsReported(name.value) {
      assert name.value in [ISSUANCE, COLLECTION];
      var actual := ActualSum(t, p.period, name.value, check);
      PercentExactly(actual, p.sum);
      if IsModest(actual) {
        ModestPercent(actual, p.sum);
      }
    }
  }

  lemma {:induction false} ReportOnPrintedPlans(t: Tables, plans: seq<Plan>, check: Date)
    ensures ReportOn(t, plans, check).Ok? <==>
      forall p :: p in plans ==> NameById(t.dictionary, p.categoryId).Some? && CanBePrinted(t, p, check)
    ensures ReportOn(t, plans, check).Ok? ==> forall r :: r in ReportOn(t, plans, check).value ==> PrintsRatio(r)
  {
    hide RowsOf, CanBePrinted, PrintsRatio;
    if plans != [] {
      var init, last := plans[..|plans| - 1], plans[|plans| - 1];
      assert plans == init + [last];
      assert forall p :: p in plans <==> p in init || p == last;
      ReportOnPrintedPlans(t, init, check);
      PlanIsPrintedExactlyWhen(t, last, check);
    }
  }

  /** The report is given exactly when every due plan's category is in the dictionary and no rounded completion has
      more than 28 digits; each percentage is the exact ratio rounded once, less its slip, and below 10^23 cents
      there is no slip. */
  lemma ReportIsGivenExactlyWhen(t: Tables, check: Date)
    ensures PlansReport(t, check).Ok? <==>
      forall p :: p in t.plans && AtMost(p.period, check) ==>
        NameById(t.dictionary, p.categoryId).Some? && CanBePrinted(t, p, check)
    ensures PlansReport(t, check).Ok? ==> forall r :: r in PlansReport(t, check).value ==> PrintsRatio(r)
  {
    hide CanBePrinted, PrintsRatio, RowsOf, ReportOn;
    OrderedPlans(Filter(t.plans, DueBy(check)));
    ReportOnPrintedPlans(t, ListUpTo(t.plans, check), check);
    assert forall p :: p in ListUpTo(t.plans, check) <==> p in t.plans && AtMost(p.period, check);
  }

  /** The plan cannot be reported: its category is unknown, or its completion has too many digits to print. */
  predicate Fails(t: Tables, p: Plan, check: Date) {
    NameById(t.dictionary, p.categoryId).None? || !CanBePrinted(t, p, check)
  }

  /** When the report cannot be given, the first due plan in order that fails decides the error. */
  lemma {:induction false} FirstFailureOf(t: Tables, plans: seq<Plan>, check: Date) returns (k: nat)
    requires ReportOn(t, plans, check).Err?
    ensures k < |plans| && Fails(t, plans[k], check) && forall i :: 0 <= i < k ==> !Fails(t, plans[i], check)
    ensures ReportOn(t, plans, check).error == if NameById(t.dictionary, plans[k].categoryId).None?
                                               then UnknownCategory(plans[k]) else CannotRound(InvalidOperation)
  {
    hide RowsOf, CanBePrinted;
    var init, last := plans[..|plans| - 1], plans[|plans| - 1];
    if ReportOn(t, init, check).Err? {
      k := FirstFailureOf(t, init, check);
    } else {
      k := |plans| - 1;
      ReportOnPrintedPlans(t, init, check);
      PlanIsPrintedExactlyWhen(t, last, check);
      FailureOfPlan(t, last, check);
      forall i | 0 <= i < k
        ensures !Fails(t, plans[i], check)
      {
        assert plans[i] == init[i];
      }
    }
  }

  lemma FailureOfPlan(t: Tables, p: Plan, check: Date)
    requires RowsOf(t, p, check).Err?
    ensures RowsOf(t, p, check).error == if NameById(t.dictionary, p.categoryId).None?
                                         then UnknownCategory(p) else CannotRound(InvalidOperation)
  {
    hide Percent;
  }

  lemma FirstFailureDecides(t: Tables, check: Date) returns (k: nat)
    requires PlansReport(t, check).Err?
    ensures var due := ListUpTo(t.plans, check);
      && k < |due| && Fails(t, due[k], check) && (forall i :: 0 <= i < k ==> !Fails(t, due[i], check))
      && PlansReport(t, check).error == if NameById(t.dictionary, due[k].categoryId).None?
                                        then UnknownCategory(due[k]) else CannotRound(InvalidOperation)
  {
    hide ReportOn, Fails;
    k := FirstFailureOf(t, ListUpTo(t.plans, check), check);
  }

  // Moving the check date forward.

  /** What an entry of the report is about, whatever was achieved. */
  datatype Subject = Subject(period: Date, category: string, planSum: int)

  function SubjectOf(r: PlanPerformance): Subject {
    Subject(r.period, r.category, r.planSum)
  }

  lemma {:induction false} SamePlansSameSubjects(t: Tables, plans: seq<Plan>, early: Date, late: Date)
    requires ReportOn(t, plans, early).Ok? && ReportOn(t, plans, late).Ok?
    ensures Map(ReportOn(t, plans, early).value, SubjectOf) == Map(ReportOn(t, plans, late).value, SubjectOf)
  {
    if plans != [] {
      hide ReportOn, Percent;
      var k := |plans| - 1;
      FailureIsFinal(t, plans, k, early);
      FailureIsFinal(t, plans, k, late);
      assert plans[..k + 1] == plans;
      ReportOnMore(t, plans, k, early);
      ReportOnMore(t, plans, k, late);
      SamePlansSameSubjects(t, plans[..k], early, late);
    }
  }

  /** Whatever the amounts and their signs, a later check date keeps every entry in its place and only appends. */
  lemma LaterDateKeepsEntries(t: Tables, early: Date, late: Date)
    requires AtMost(early, late) && PlansReport(t, early).Ok? && PlansReport(t, late).Ok?
    ensures Map(PlansReport(t, early).value, SubjectOf) <= Map(PlansReport(t, late).value, SubjectOf)
  {
    hide RowsOf, ReportOn;
    var plans, all := ListUpTo(t.plans, early), ListUpTo(t.plans, late);
    ListUpToGrows(t.plans, early, late);
    assert plans == all[..|plans|];
    FailureIsFinal(t, all, |plans|, late);
    SamePlansSameSubjects(t, plans, early, late);
  }

  predicate NonNegativeAmounts(t: Tables) {
    (forall c :: c in t.credits ==> c.body >= 0) && (forall p :: p in t.payments ==> p.sum >= 0)
  }

  lemma ActualGrows(t: Tables, period: Date, category: string, early: Date, late: Date)
    requires AtMost(early, late) && NonNegativeAmounts(t)
    ensures 0 <= ActualSum(t, period, category, early) <= ActualSum(t, period, category, late)
  {
    var entries := EntriesFor(t, category);
    var f := AmountWithin(period, Earlier(early, EndOfMonth(period)));
    var g := AmountWithin(period, Earlier(late, EndOfMonth(period)));
    forall e | e in entries
      ensures 0 <= f(e) <= g(e)
    {
      var i :| 0 <= i < |entries| && entries[i] == e;
      if category == ISSUANCE {
        assert e == CreditEntry(t.credits[i]);
      } else {
        assert e == PaymentEntry(t.payments[i]);
      }
    }
    SumAtMost(entries, f, g);
    SumAtMost(entries, e => 0, f);
    SumZero(entries, e => 0);
  }

  /** The later row is for the same plan and shows at least as much. */
  predicate Advances(early: PlanPerformance, late: PlanPerformance) {
    && early.period == late.period && early.category == late.category && early.planSum == late.planSum
    && early.actualSum <= late.actualSum && early.completionPercent <= late.completionPercent
  }

  predicate AllAdvance(early: seq<PlanPerformance>, late: seq<PlanPerformance>) {
    |early| <= |late| && forall i :: 0 <= i < |early| ==> Advances(early[i], late[i])
  }

  lemma SamePlanLaterDate(t: Tables, plan: Plan, early: Date, late: Date)
    requires AtMost(early, late) && NonNegativeAmounts(t)
    requires RowsOf(t, plan, late).Ok?
    ensures RowsOf(t, plan, early).Ok?
    ensures |RowsOf(t, plan, early).value| == |RowsOf(t, plan, late).value|
    ensures AllAdvance(RowsOf(t, plan, early).value, RowsOf(t, plan, late).value)
  {
    hide Percent;
    var category := NameById(t.dictionary, plan.categoryId).value;
    if IsReported(category) {
      ActualGrows(t, plan.period, category, early, late);
      PercentMonotone(ActualSum(t, plan.period, category, early), ActualSum(t, plan.period, category, late), plan.sum);
    }
  }

  lemma {:induction false} SamePlansLaterDate(t: Tables, plans: seq<Plan>, early: Date, late: Date)
    requires AtMost(early, late) && NonNegativeAmounts(t)
    requires ReportOn(t, plans, late).Ok?
    ensures ReportOn(t, plans, early).Ok?
    ensures |ReportOn(t, plans, early).value| == |ReportOn(t, plans, late).value|
    ensures AllAdvance(ReportOn(t, plans, early).value, ReportOn(t, plans, late).value)
  {
    hide RowsOf;
    if plans != [] {
      SamePlansLaterDate(t, plans[..|plans| - 1], early, late);
      SamePlanLaterDate(t, plans[|plans| - 1], early, late);
    }
  }

  /** With non-negative amounts a later check date moreover lowers no actual sum and no printed percentage, and
      when the later report can be given, so can the earlier. */
  lemma LaterDateOnlyAdds(t: Tables, early: Date, late: Date)
    requires AtMost(early, late) && NonNegativeAmounts(t)
    requires PlansReport(t, late).Ok?
    ensures PlansReport(t, early).Ok?
    ensures AllAdvance(PlansReport(t, early).value, PlansReport(t, late).value)
  {
    hide RowsOf;
    var plans := ListUpTo(t.plans, early);
    ListUpToGrows(t.plans, early, late);
    assert plans == ListUpTo(t.plans, late)[..|plans|];
    FailureIsFinal(t, ListUpTo(t.plans, late), |plans|, late);
    SamePlansLaterDate(t, plans, early, late);
  }

  // Where the windows of plans overlap.

  predicate InWindow(p: Plan, check: Date, d: Date) {
    AtMost(p.period, d) && AtMost(d, Earlier(check, EndOfMonth(p.period)))
  }

  /** For plans of any date: the windows of two plans share a day exactly when the plans are of one month and both
      due. */
  lemma WindowsOverlapExactlyWhen(p: Plan, q: Plan, check: Date)
    ensures (exists d: Date :: InWindow(p, check, d) && InWindow(q, check, d)) <==>
      SameMonth(p.period, q.period) && AtMost(p.period, check) && AtMost(q.period, check)
  {
    if SameMonth(p.period, q.period) && AtMost(p.period, check) && AtMost(q.period, check) {
      var later := if Before(p.period, q.period) then q.period else p.period;
      assert InWindow(p, check, later) && InWindow(q, check, later);
    }
  }

  /** What an accepted upload guarantees of every stored plan. */
  predicate MonthlyPlans(plans: seq<Plan>) {
    forall p :: p in plans ==> p.period.day == 1
  }

  /** For plans dated the first of a month, the window is the part of that month up to the check date. */
  lemma WindowMeaning(p: Plan, check: Date, d: Date)
    requires p.period.day == 1
    ensures InWindow(p, check, d) <==> p.period == FirstOfMonth(d) && AtMost(d, check)
  {
    WindowIsMonth(p.period, d);
  }

  /** With unique keys and plans dated the first of a month, two plans of one category never share a day. */
  lemma WindowsAreDisjoint(t: Tables, i: nat, j: nat, category: string, check: Date, d: Date)
    requires IsDictionary(t.dictionary) && UniqueKeys(t.plans) && MonthlyPlans(t.plans)
    requires i < j < |t.plans|
    requires IsOfCategory(t, t.plans[i], category) && IsOfCategory(t, t.plans[j], category)
    ensures !(InWindow(t.plans[i], check, d) && InWindow(t.plans[j], check, d))
  {
    var p, q := t.plans[i], t.plans[j];
    assert p in t.plans && q in t.plans;
    WindowsOverlapExactlyWhen(p, q, check);
    NameOfListed(t.dictionary, p.categoryId, category);
    NameOfListed(t.dictionary, q.categoryId, category);
    assert Key(p) != Key(q);
  }

  /** Without the first of a month they can: two plans the tables can hold, and a day in both windows. */
  lemma WindowsCanOverlap()
    ensures var entry := DictionaryEntry(1, ISSUANCE);
      var p, q := Plan(CalendarDate(2024, 1, 1), 100, 1), Plan(CalendarDate(2024, 1, 15), 100, 1);
      var t := Tables([entry], [p, q], [], []);
      var check, d := CalendarDate(2024, 2, 1), CalendarDate(2024, 1, 20);
      && IsDictionary(t.dictionary) && UniqueKeys(t.plans)
      && IsOfCategory(t, p, ISSUANCE) && IsOfCategory(t, q, ISSUANCE)
      && InWindow(p, check, d) && InWindow(q, check, d)
  {
  }

  function ActualOf(category: string): PlanPerformance -> int {
    (r: PlanPerformance) => if r.category == category then r.actualSum else 0
  }

  function PlanActual(t: Tables, category: string, check: Date): Plan -> int {
    (p: Plan) => if IsOfCategory(t, p, category) then ActualSum(t, p.period, category, check) else 0
  }

  predicate MonthIsPlanned(t: Tables, category: string, d: Date) {
    exists p :: p in t.plans && IsOfCategory(t, p, category) && p.period == FirstOfMonth(d)
  }

  lemma RowContribution(t: Tables, plan: Plan, category: string, check: Date)
    requires IsReported(category) && RowsOf(t, plan, check).Ok?
    ensures SumOf(RowsOf(t, plan, check).value, ActualOf(category)) == PlanActual(t, category, check)(plan)
  {
    hide Percent;
    var rows := RowsOf(t, plan, check).value;
    if |rows| == 1 {
      assert rows[..0] == [];
    }
  }

  lemma {:induction false} ReportAddsUp(t: Tables, plans: seq<Plan>, category: string, check: Date)
    requires IsReported(category) && ReportOn(t, plans, check).Ok?
    ensures SumOf(ReportOn(t, plans, check).value, ActualOf(category)) == SumOf(plans, PlanActual(t, category, check))
  {
    hide RowsOf;
    if plans != [] {
      var init, plan := plans[..|plans| - 1], plans[|plans| - 1];
      ReportAddsUp(t, init, category, check);
      RowContribution(t, plan, category, check);
      SumAppend(ReportOn(t, init, check).value, RowsOf(t, plan, check).value, ActualOf(category));
    }
  }

  function WindowAmount(t: Tables, category: string, check: Date): (Plan, Entry) -> int {
    (p: Plan, e: Entry) =>
      if AtMost(p.period, check) && IsOfCategory(t, p, category) && InWindow(p, check, e.date) then e.amount else 0
  }

  function DuePlanActual(t: Tables, category: string, check: Date): Plan -> int {
    (p: Plan) => if AtMost(p.period, check) then PlanActual(t, category, check)(p) else 0
  }

  /** 1 for a due plan of the category whose window contains the day. */
  function Covers(t: Tables, category: string, check: Date, d: Date): Plan -> int {
    (p: Plan) => if AtMost(p.period, check) && IsOfCategory(t, p, category) && InWindow(p, check, d) then 1 else 0
  }

  /** The number of due plans of the category whose windows contain the day. */
  function CoveringPlans(t: Tables, category: string, check: Date, d: Date): int {
    SumOf(t.plans, Covers(t, category, check, d))
  }

  function CoveredAmount(t: Tables, category: string, check: Date): Entry -> int {
    (e: Entry) => e.amount * CoveringPlans(t, category, check, e.date)
  }

  lemma EachEntryCounted(t: Tables, category: string, check: Date)
    requires IsReported(category) && PlansReport(t, check).Ok?
    ensures SumOf(PlansReport(t, check).value, ActualOf(category))
            == SumOf(EntriesFor(t, category), CoveredAmount(t, category, check))
  {
    hide RowsOf;
    var due := Filter(t.plans, DueBy(check));
    var actual := PlanActual(t, category, check);
    ReportAddsUp(t, ListUpTo(t.plans, check), category, check);
    OrderedPlans(due);
    SumPermuted(OrderPlans(due), due, actual);
    SumFilter(t.plans, DueBy(check), actual, DuePlanActual(t, category, check));
    var h := WindowAmount(t, category, check);
    var entries := EntriesFor(t, category);
    forall p | p in t.plans
      ensures DuePlanActual(t, category, check)(p) == SumOf(entries, AlongRow(h, p))
    {
      if AtMost(p.period, check) && IsOfCategory(t, p, category) {
        SumCongruent(entries, AmountWithin(p.period, Earlier(check, EndOfMonth(p.period))), AlongRow(h, p));
      } else {
        SumZero(entries, AlongRow(h, p));
      }
    }
    forall e | e in entries
      ensures CoveredAmount(t, category, check)(e) == SumOf(t.plans, AlongColumn(h, e))
    {
      SumScaled(t.plans, e.amount, Covers(t, category, check, e.date), AlongColumn(h, e));
    }
    SumExchange(t.plans, entries, h, DuePlanActual(t, category, check), CoveredAmount(t, category, check));
  }

  /** With unique first-of-month plans, a day is in one window if it is in a planned month and not after the check
      date, and otherwise in none. */
  lemma DayInOneWindow(t: Tables, category: string, check: Date, d: Date)
    requires IsDictionary(t.dictionary) && UniqueKeys(t.plans) && MonthlyPlans(t.plans)
    ensures CoveringPlans(t, category, check, d) == if AtMost(d, check) && MonthIsPlanned(t, category, d) then 1 else 0
  {
    var f := Covers(t, category, check, d);
    forall p | p in t.plans
      ensures f(p) == if IsOfCategory(t, p, category) && p.period == FirstOfMonth(d) && AtMost(d, check) then 1 else 0
    {
      WindowMeaning(p, check, d);
    }
    if MonthIsPlanned(t, category, d) {
      var p :| p in t.plans && IsOfCategory(t, p, category) && p.period == FirstOfMonth(d);
      var i :| 0 <= i < |t.plans| && t.plans[i] == p;
      forall j | 0 <= j < |t.plans| && j != i
        ensures f(t.plans[j]) == 0
      {
        var q := t.plans[j];
        assert q in t.plans;
        NameOfListed(t.dictionary, p.categoryId, category);
        NameOfListed(t.dictionary, q.categoryId, category);
        assert Key(p) != Key(q);
      }
      SumSingle(t.plans, i, f);
    } else {
      SumZero(t.plans, f);
    }
  }

  function CoveredBody(t: Tables, check: Date): Credit -> int {
    (c: Credit) => c.body * CoveringPlans(t, ISSUANCE, check, c.issuanceDate)
  }

  function CoveredPayment(t: Tables, check: Date): Payment -> int {
    (p: Payment) => p.sum * CoveringPlans(t, COLLECTION, check, p.paymentDate)
  }

  /** For plans of any date: the actual sums of a category's entries in the plan report add up to every credit or
      payment as often as due plans of the category have it in their windows. */
  lemma EachAmountCounted(t: Tables, check: Date)
    requires PlansReport(t, check).Ok?
    ensures SumOf(PlansReport(t, check).value, ActualOf(ISSUANCE)) == SumOf(t.credits, CoveredBody(t, check))
    ensures SumOf(PlansReport(t, check).value, ActualOf(COLLECTION)) == SumOf(t.payments, CoveredPayment(t, check))
  {
    hide PlansReport, CoveringPlans;
    assert |ISSUANCE| != |COLLECTION|;
    EachEntryCounted(t, ISSUANCE, check);
    EachEntryCounted(t, COLLECTION, check);
    OverCredits(t.credits, CoveredAmount(t, ISSUANCE, check), CoveredBody(t, check));
    OverPayments(t.payments, CoveredAmount(t, COLLECTION, check), CoveredPayment(t, check));
  }

  /** The body of a credit issued by the check date in a month that has an issuance plan. */
  function PlannedBody(t: Tables, check: Date): Credit -> int {
    (c: Credit) => if AtMost(c.issuanceDate, check) && MonthIsPlanned(t, ISSUANCE, c.issuanceDate) then c.body else 0
  }

  /** The sum of a payment made by the check date in a month that has a collection plan. */
  function PlannedPayment(t: Tables, check: Date): Payment -> int {
    (p: Payment) => if AtMost(p.paymentDate, check) && MonthIsPlanned(t, COLLECTION, p.paymentDate) then p.sum else 0
  }

  /** So with unique first-of-month plans the actual sums of a category's entries in the plan report add up to exactly
      the amounts dated by the check date in a planned month, each credit or payment once. */
  lemma EachAmountCountedOnce(t: Tables, check: Date)
    requires IsDictionary(t.dictionary) && UniqueKeys(t.plans) && MonthlyPlans(t.plans)
    requires PlansReport(t, check).Ok?
    ensures SumOf(PlansReport(t, check).value, ActualOf(ISSUANCE)) == SumOf(t.credits, PlannedBody(t, check))
    ensures SumOf(PlansReport(t, check).value, ActualOf(COLLECTION)) == SumOf(t.payments, PlannedPayment(t, check))
  {
    hide PlansReport, CoveringPlans, MonthIsPlanned;
    EachAmountCounted(t, check);
    forall c | c in t.credits
      ensures CoveredBody(t, check)(c) == PlannedBody(t, check)(c)
    {
      DayInOneWindow(t, ISSUANCE, check, c.issuanceDate);
    }
    forall p | p in t.payments
      ensures CoveredPayment(t, check)(p) == PlannedPayment(t, check)(p)
    {
      DayInOneWindow(t, COLLECTION, check, p.paymentDate);
    }
    SumCongruent(t.credits, CoveredBody(t, check), PlannedBody(t, check));
    SumCongruent(t.payments, CoveredPayment(t, check), PlannedPayment(t, check));
  }
}
