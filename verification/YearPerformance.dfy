/** The year report: plans, credits and payments of one year grouped by calendar month. */
module YearPerformance {
  import opened Arithmetic
  import opened Outcomes
  import opened Folds
  import Calendar
  import opened DecimalArithmetic
  import opened Ledger
  import Sorting

  datatype YearRow = YearRow(period: Calendar.Date, issuanceCount: int, issuancePlan: int, issuanceActual: int,
                             issuanceCompletion: int, paymentCount: int, collectionPlan: int,
                             collectionActual: int, collectionCompletion: int,
                             issuanceShare: int, collectionShare: int)

  // What each month of the report stands for, read off the tables.

  predicate IsPlanFor(p: Plan, id: Option<int>, year: int, month: int) {
    Some(p.categoryId) == id && p.period.year == year && p.period.month == month
  }

  function PlanSumIn(id: Option<int>, year: int, month: int): Plan -> int {
    (p: Plan) => if IsPlanFor(p, id, year, month) then p.sum else 0
  }

  function PlanTotal(t: Tables, category: string, year: int, month: int): int {
    SumOf(t.plans, PlanSumIn(IdByName(t.dictionary, category), year, month))
  }

  predicate HasPlan(plans: seq<Plan>, id: Option<int>, year: int, month: int) {
    exists p :: p in plans && IsPlanFor(p, id, year, month)
  }

  predicate MonthAppears(t: Tables, year: int, month: int) {
    || HasPlan(t.plans, IdByName(t.dictionary, ISSUANCE), year, month)
    || HasPlan(t.plans, IdByName(t.dictionary, COLLECTION), year, month)
    || MonthCount(Issued(t.credits), year, month) > 0
    || MonthCount(Paid(t.payments), year, month) > 0
  }

  function Appears(t: Tables, year: int): int -> bool {
    (m: int) => MonthAppears(t, year, m)
  }

  function YearTotal(entries: seq<Entry>, year: int): int {
    SumOf(entries, AmountInYear(year))
  }

  /** The two sides of the business in one month, and what they are compared with. */
  datatype MonthFigures = MonthFigures(issuanceActual: int, issuancePlan: int, yearIssued: int,
                                       collectionActual: int, collectionPlan: int, yearCollected: int)

  datatype Percentages = Percentages(issuanceCompletion: int, collectionCompletion: int,
                                     issuanceShare: int, collectionShare: int)

  function PercentagesOf(f: MonthFigures): Result<Percentages, ArithmeticError> {
    var issuanceCompletion :- Percent(f.issuanceActual, f.issuancePlan);
    var collectionCompletion :- Percent(f.collectionActual, f.collectionPlan);
    var issuanceShare :- Percent(f.issuanceActual, f.yearIssued);
    var collectionShare :- Percent(f.collectionActual, f.yearCollected);
    Ok(Percentages(issuanceCompletion, collectionCompletion, issuanceShare, collectionShare))
  }

  function FiguresOf(t: Tables, year: int, month: int): MonthFigures {
    MonthFigures(MonthTotal(Issued(t.credits), year, month), PlanTotal(t, ISSUANCE, year, month),
                 YearTotal(Issued(t.credits), year),
                 MonthTotal(Paid(t.payments), year, month), PlanTotal(t, COLLECTION, year, month),
                 YearTotal(Paid(t.payments), year))
  }

  function MakeRow(period: Calendar.Date, issuanceCount: int, paymentCount: int, f: MonthFigures, p: Percentages)
    : YearRow
  {
    YearRow(period, issuanceCount, f.issuancePlan, f.issuanceActual, p.issuanceCompletion,
            paymentCount, f.collectionPlan, f.collectionActual, p.collectionCompletion,
            p.issuanceShare, p.collectionShare)
  }

  function RowFor(t: Tables, year: int, month: int): Result<YearRow, ArithmeticError>
    requires 1 <= year <= 9999 && month in MONTHS
  {
    InMonths(month);
    var f := FiguresOf(t, year, month);
    var p :- PercentagesOf(f);
    Ok(MakeRow(Calendar.CalendarDate(year, month, 1), MonthCount(Issued(t.credits), year, month),
               MonthCount(Paid(t.payments), year, month), f, p))
  }

  function RowsFor(t: Tables, year: int, months: seq<int>): Result<seq<YearRow>, ArithmeticError>
    requires 1 <= year <= 9999 && forall m :: m in months ==> m in MONTHS
  {
    if months == [] then Ok([])
    else
      var earlier :- RowsFor(t, year, months[..|months| - 1]);
      var row :- RowFor(t, year, months[|months| - 1]);
      Ok(earlier + [row])
  }

  function YearReport(t: Tables, year: int): Result<seq<YearRow>, ArithmeticError>
    requires 1 <= year <= 9999
  {
    RowsFor(t, year, Filter(MONTHS, Appears(t, year)))
  }

  // The computation with per-month dictionaries.

  /** The dictionary entry of a month, or (0, 0) when the query returned no group for it. */
  function StatFor(stats: seq<MonthStat>, month: int): MonthStat {
    if stats == [] then MonthStat(month, 0, 0)
    else if stats[|stats| - 1].month == month then stats[|stats| - 1]
    else StatFor(stats[..|stats| - 1], month)
  }

  predicate HasStat(stats: seq<MonthStat>, month: int) {
    exists s :: s in stats && s.month == month
  }

  lemma {:induction false} StatForIsGroup(entries: seq<Entry>, year: int, months: seq<int>, month: int)
    ensures var stats := Map(months, StatOf(entries, year));
            (HasStat(stats, month) <==> month in months)
            && StatFor(stats, month) == if month in months then StatOf(entries, year)(month) else MonthStat(month, 0, 0)
  {
    var stats := Map(months, StatOf(entries, year));
    if months != [] {
      StatForIsGroup(entries, year, months[..|months| - 1], month);
      assert stats[..|stats| - 1] == Map(months[..|months| - 1], StatOf(entries, year));
      assert months == months[..|months| - 1] + [months[|months| - 1]];
    }
    if month in months {
      var i :| 0 <= i < |months| && months[i] == month;
      assert stats[i] in stats;
    }
  }

  lemma LookupIsGroup(entries: seq<Entry>, year: int, month: int)
    requires month in MONTHS
    ensures StatFor(MonthlyStats(entries, year), month) == StatOf(entries, year)(month)
    ensures HasStat(MonthlyStats(entries, year), month) <==> MonthCount(entries, year, month) > 0
  {
    StatForIsGroup(entries, year, Filter(MONTHS, HasRows(entries, year)), month);
    MonthCounts(entries, year, month);
  }

  function Get(m: map<int, int>, month: int): int {
    if month in m then m[month] else 0
  }

  /** A per-month dictionary holds the sums of exactly the months that have a plan of the category. */
  predicate Collects(m: map<int, int>, plans: seq<Plan>, id: Option<int>, year: int) {
    && (forall k :: k in m ==> HasPlan(plans, id, year, k) && m[k] == SumOf(plans, PlanSumIn(id, year, k)))
    && (forall p :: p in plans && Some(p.categoryId) == id && p.period.year == year ==> p.period.month in m)
  }

  lemma {:induction false} NoPlanNoSum(plans: seq<Plan>, id: Option<int>, year: int, month: int)
    requires !HasPlan(plans, id, year, month)
    ensures SumOf(plans, PlanSumIn(id, year, month)) == 0
  {
    SumZero(plans, PlanSumIn(id, year, month));
  }

  lemma HasPlanSnoc(plans: seq<Plan>, i: nat, id: Option<int>, year: int, month: int)
    requires i < |plans|
    ensures HasPlan(plans[..i + 1], id, year, month)
            <==> HasPlan(plans[..i], id, year, month) || IsPlanFor(plans[i], id, year, month)
    ensures SumOf(plans[..i + 1], PlanSumIn(id, year, month))
            == SumOf(plans[..i], PlanSumIn(id, year, month)) + PlanSumIn(id, year, month)(plans[i])
  {
    SumSnoc(plans, i, PlanSumIn(id, year, month));
    assert plans[..i + 1] == plans[..i] + [plans[i]];
    assert plans[i] in plans[..i + 1];
  }

  lemma CollectPlan(m: map<int, int>, plans: seq<Plan>, i: nat, id: Option<int>, year: int)
    requires i < |plans| && plans[i].period.year == year && Some(plans[i].categoryId) == id
    requires Collects(m, plans[..i], id, year)
    ensures Collects(m[plans[i].period.month := Get(m, plans[i].period.month) + plans[i].sum], plans[..i + 1], id, year)
  {
    var month := plans[i].period.month;
    var m' := m[month := Get(m, month) + plans[i].sum];
    assert plans[..i + 1] == plans[..i] + [plans[i]];
    forall k | k in m'
      ensures HasPlan(plans[..i + 1], id, year, k) && m'[k] == SumOf(plans[..i + 1], PlanSumIn(id, year, k))
    {
      HasPlanSnoc(plans, i, id, year, k);
      if k !in m {
        NoPlanNoSum(plans[..i], id, year, k);
      }
    }
  }

  lemma SkipPlan(m: map<int, int>, plans: seq<Plan>, i: nat, id: Option<int>, year: int)
    requires i < |plans| && Some(plans[i].categoryId) != id
    requires Collects(m, plans[..i], id, year)
    ensures Collects(m, plans[..i + 1], id, year)
  {
    assert plans[..i + 1] == plans[..i] + [plans[i]];
    forall k | k in m
      ensures HasPlan(plans[..i + 1], id, year, k) && m[k] == SumOf(plans[..i + 1], PlanSumIn(id, year, k))
    {
      HasPlanSnoc(plans, i, id, year, k);
    }
  }

  /** Reading the dictionary agrees with reading the whole table, whatever the query's order. */
  lemma CollectedMeans(t: Tables, m: map<int, int>, id: Option<int>, year: int, month: int)
    requires Collects(m, ListForYear(t.plans, year), id, year)
    ensures month in m <==> HasPlan(t.plans, id, year, month)
    ensures Get(m, month) == SumOf(t.plans, PlanSumIn(id, year, month))
  {
    var ofYear := Filter(t.plans, OfYear(year));
    OrderedPlans(ofYear);
    var f := PlanSumIn(id, year, month);
    SumPermuted(OrderPlans(ofYear), ofYear, f);
    SumFilter(t.plans, OfYear(year), f, f);
    if month !in m {
      assert !HasPlan(t.plans, id, year, month);
      NoPlanNoSum(t.plans, id, year, month);
    }
  }

  lemma DifferentCategories(dictionary: seq<DictionaryEntry>)
    requires IsDictionary(dictionary) && IdByName(dictionary, ISSUANCE).Some?
    ensures IdByName(dictionary, ISSUANCE) != IdByName(dictionary, COLLECTION)
  {
    var id := IdByName(dictionary, ISSUANCE).value;
    NameOfListed(dictionary, id, ISSUANCE);
    NameOfListed(dictionary, id, COLLECTION);
    assert |ISSUANCE| != |COLLECTION|;
  }

  /** The first loop: the two per-month plan dictionaries. */
  method PlansByMonth(plans: seq<Plan>, year: int, issuanceId: Option<int>, collectionId: Option<int>)
    returns (issuanceByMonth: map<int, int>, collectionByMonth: map<int, int>)
    requires forall p :: p in plans ==> p.period.year == year
    requires issuanceId.Some? ==> issuanceId != collectionId
    ensures Collects(issuanceByMonth, plans, issuanceId, year)
    ensures Collects(collectionByMonth, plans, collectionId, year)
  {
    issuanceByMonth, collectionByMonth := map[], map[];
    for i := 0 to |plans|
      invariant Collects(issuanceByMonth, plans[..i], issuanceId, year)
      invariant Collects(collectionByMonth, plans[..i], collectionId, year)
    {
      var plan := plans[i];
      var month := plan.period.month;
      if Some(plan.categoryId) == issuanceId {
        CollectPlan(issuanceByMonth, plans, i, issuanceId, year);
        SkipPlan(collectionByMonth, plans, i, collectionId, year);
        issuanceByMonth := issuanceByMonth[month := Get(issuanceByMonth, month) + plan.sum];
      } else if Some(plan.categoryId) == collectionId {
        CollectPlan(collectionByMonth, plans, i, collectionId, year);
        SkipPlan(issuanceByMonth, plans, i, issuanceId, year);
        collectionByMonth := collectionByMonth[month := Get(collectionByMonth, month) + plan.sum];
      } else {
        SkipPlan(issuanceByMonth, plans, i, issuanceId, year);
        SkipPlan(collectionByMonth, plans, i, collectionId, year);
      }
    }
    assert plans[..|plans|] == plans;
  }

  /** The four dictionaries and the two totals that the second loop reads. */
  datatype Dictionaries = Dictionaries(issuancePlans: map<int, int>, collectionPlans: map<int, int>,
                                       credits: seq<MonthStat>, payments: seq<MonthStat>,
                                       creditsTotal: int, paymentsTotal: int)

  /** They say about one month what the tables say. */
  predicate Describe(d: Dictionaries, t: Tables, year: int, month: int) {
    && StatFor(d.credits, month) == StatOf(Issued(t.credits), year)(month)
    && StatFor(d.payments, month) == StatOf(Paid(t.payments), year)(month)
    && Get(d.issuancePlans, month) == PlanTotal(t, ISSUANCE, year, month)
    && Get(d.collectionPlans, month) == PlanTotal(t, COLLECTION, year, month)
  }

  /** The keys of the four dictionaries together. */
  function KeysOf(d: Dictionaries): set<int> {
    d.issuancePlans.Keys + d.collectionPlans.Keys
    + (set s | s in d.credits :: s.month) + (set s | s in d.payments :: s.month)
  }

  /** The body of the second loop: one row, or the first rounding error. */
  method BuildRow(ghost t: Tables, year: int, month: int, d: Dictionaries)
    returns (row: Result<YearRow, ArithmeticError>)
    requires 1 <= year <= 9999 && month in MONTHS && Describe(d, t, year, month)
    requires d.creditsTotal == YearTotal(Issued(t.credits), year)
    requires d.paymentsTotal == YearTotal(Paid(t.payments), year)
    ensures row == RowFor(t, year, month)
  {
    hide PercentagesOf;
    InMonths(month);
    var issuance, payment := StatFor(d.credits, month), StatFor(d.payments, month);
    var f := MonthFigures(issuance.total, Get(d.issuancePlans, month), d.creditsTotal,
                          payment.total, Get(d.collectionPlans, month), d.paymentsTotal);
    var p :- PercentagesOf(f);
    row := Ok(MakeRow(Calendar.CalendarDate(year, month, 1), issuance.count, payment.count, f, p));
  }

  method BuildRows(ghost t: Tables, year: int, months: seq<int>, d: Dictionaries)
    returns (r: Result<seq<YearRow>, ArithmeticError>)
    requires 1 <= year <= 9999 && forall m :: m in months ==> m in MONTHS && Describe(d, t, year, m)
    requires d.creditsTotal == YearTotal(Issued(t.credits), year)
    requires d.paymentsTotal == YearTotal(Paid(t.payments), year)
    ensures r == RowsFor(t, year, months)
  {
    hide PercentagesOf;
    var result: seq<YearRow> := [];
    for i := 0 to |months|
      invariant RowsFor(t, year, months[..i]) == Ok(result)
    {
      assert months[i] in months && months[..i + 1][..i] == months[..i];
      RowFailureIsFinal(t, year, months, i + 1);
      var row := BuildRow(t, year, months[i], d);
      if row.Err? {
        return Err(row.error);
      }
      result := result + [row.value];
    }
    assert months[..|months|] == months;
    return Ok(result);
  }

  lemma DictionariesDescribe(t: Tables, year: int, d: Dictionaries, month: int)
    requires month in MONTHS
    requires Collects(d.issuancePlans, ListForYear(t.plans, year), IdByName(t.dictionary, ISSUANCE), year)
    requires Collects(d.collectionPlans, ListForYear(t.plans, year), IdByName(t.dictionary, COLLECTION), year)
    requires d.credits == MonthlyStats(Issued(t.credits), year)
    requires d.payments == MonthlyStats(Paid(t.payments), year)
    ensures Describe(d, t, year, month)
    ensures month in KeysOf(d) <==> MonthAppears(t, year, month)
  {
    CollectedMeans(t, d.issuancePlans, IdByName(t.dictionary, ISSUANCE), year, month);
    CollectedMeans(t, d.collectionPlans, IdByName(t.dictionary, COLLECTION), year, month);
    LookupIsGroup(Issued(t.credits), year, month);
    LookupIsGroup(Paid(t.payments), year, month);
  }

  method Execute(t: Tables, year: int) returns (r: Result<seq<YearRow>, ArithmeticError>)
    requires IsDictionary(t.dictionary) && 1 <= year <= 9999
    ensures r == YearReport(t, year)
  {
    var issuanceId, collectionId := IdByName(t.dictionary, ISSUANCE), IdByName(t.dictionary, COLLECTION);
    if issuanceId.Some? {
      DifferentCategories(t.dictionary);
    }
    var plans := ListForYear(t.plans, year);
    OrderedPlans(Filter(t.plans, OfYear(year)));
    var issuancePlans, collectionPlans := PlansByMonth(plans, year, issuanceId, collectionId);
    var creditStats, paymentStats := MonthlyStats(Issued(t.credits), year), MonthlyStats(Paid(t.payments), year);
    StatsAddUp(Issued(t.credits), year);
    StatsAddUp(Paid(t.payments), year);
    var d := Dictionaries(issuancePlans, collectionPlans, creditStats, paymentStats,
                          SumOf(creditStats, StatTotal), SumOf(paymentStats, StatTotal));
    forall m | m in MONTHS
      ensures Describe(d, t, year, m) && (m in KeysOf(d) <==> MonthAppears(t, year, m))
    {
      DictionariesDescribe(t, year, d, m);
    }
    var months := Sorting.Sorted(KeysOf(d));
    SortedKeysAreListed(t, year, d, months);
    r := BuildRows(t, year, months, d);
  }

  lemma KeysAreMonths(t: Tables, year: int, d: Dictionaries, m: int)
    requires Collects(d.issuancePlans, ListForYear(t.plans, year), IdByName(t.dictionary, ISSUANCE), year)
    requires Collects(d.collectionPlans, ListForYear(t.plans, year), IdByName(t.dictionary, COLLECTION), year)
    requires d.credits == MonthlyStats(Issued(t.credits), year) && d.payments == MonthlyStats(Paid(t.payments), year)
    requires m in KeysOf(d)
    ensures m in MONTHS
  {
    InMonths(m);
    if s :| s in d.credits && s.month == m {
      StatIsOfMonth(Issued(t.credits), year, s);
    } else if s :| s in d.payments && s.month == m {
      StatIsOfMonth(Paid(t.payments), year, s);
    }
  }

  lemma StatIsOfMonth(entries: seq<Entry>, year: int, s: MonthStat)
    requires s in MonthlyStats(entries, year)
    ensures s.month in MONTHS
  {
    var months := Filter(MONTHS, HasRows(entries, year));
    var i :| 0 <= i < |months| && Map(months, StatOf(entries, year))[i] == s;
    assert months[i] in months;
  }

  /** The sorted union of the keys is the list of the year's months that appear. */
  lemma SortedKeysAreListed(t: Tables, year: int, d: Dictionaries, months: seq<int>)
    requires Collects(d.issuancePlans, ListForYear(t.plans, year), IdByName(t.dictionary, ISSUANCE), year)
    requires Collects(d.collectionPlans, ListForYear(t.plans, year), IdByName(t.dictionary, COLLECTION), year)
    requires d.credits == MonthlyStats(Issued(t.credits), year) && d.payments == MonthlyStats(Paid(t.payments), year)
    requires Sorting.Ascending(months) && forall m :: m in months <==> m in KeysOf(d)
    ensures months == Filter(MONTHS, Appears(t, year))
  {
    hide Collects, KeysOf, MonthAppears;
    forall m
      ensures m in months <==> m in Filter(MONTHS, Appears(t, year))
    {
      if m in KeysOf(d) {
        KeysAreMonths(t, year, d, m);
      }
      if m in MONTHS {
        DictionariesDescribe(t, year, d, m);
        assert Appears(t, year)(m) == MonthAppears(t, year, m);
      }
    }
    FilterAscends(MONTHS, Appears(t, year));
    Sorting.SameAscending(months, Filter(MONTHS, Appears(t, year)));
  }

  lemma {:induction false} SameFilter(xs: seq<int>, p: int -> bool, q: int -> bool)
    requires forall x :: x in xs ==> p(x) == q(x)
    ensures Filter(xs, p) == Filter(xs, q)
  {
    if xs != [] {
      var init, last := xs[..|xs| - 1], xs[|xs| - 1];
      SameFilter(init, p, q);
      assert last in xs && p(last) == q(last);
      assert Filter(xs, p) == if p(last) then Filter(init, p) + [last] else Filter(init, p);
      assert Filter(xs, q) == if q(last) then Filter(init, q) + [last] else Filter(init, q);
    }
  }

  lemma {:induction false} RowFailureIsFinal(t: Tables, year: int, months: seq<int>, k: nat)
    requires 1 <= year <= 9999 && k <= |months| && forall m :: m in months ==> m in MONTHS
    ensures RowsFor(t, year, months[..k]).Err? ==> RowsFor(t, year, months) == RowsFor(t, year, months[..k])
  {
    hide RowFor;
    if k == |months| {
      assert months[..k] == months;
    } else {
      RowFailureIsFinal(t, year, months[..|months| - 1], k);
      assert months[..|months| - 1][..k] == months[..k];
    }
  }

  // What the report promises about the year.

  lemma LastRow(t: Tables, year: int, months: seq<int>)
    requires 1 <= year <= 9999 && forall m :: m in months ==> m in MONTHS
    requires months != [] && RowsFor(t, year, months).Ok?
    ensures var init, last := months[..|months| - 1], months[|months| - 1];
      && RowsFor(t, year, init).Ok? && RowFor(t, year, last).Ok?
      && RowsFor(t, year, months).value == RowsFor(t, year, init).value + [RowFor(t, year, last).value]
  {
    hide RowFor;
  }

  lemma {:induction false} RowAt(t: Tables, year: int, months: seq<int>, i: nat)
    requires 1 <= year <= 9999 && forall m :: m in months ==> m in MONTHS
    requires RowsFor(t, year, months).Ok? && i < |months|
    ensures |RowsFor(t, year, months).value| == |months| && months[i] in MONTHS
    ensures RowFor(t, year, months[i]) == Ok(RowsFor(t, year, months).value[i])
  {
    hide RowFor, RowsFor;
    var init := months[..|months| - 1];
    LastRow(t, year, months);
    if init == [] {
      NoRows(t, year);
    } else {
      RowAt(t, year, init, if i < |init| then i else 0);
    }
  }

  lemma RowsAre(t: Tables, year: int, months: seq<int>)
    requires 1 <= year <= 9999 && forall m :: m in months ==> m in MONTHS
    requires RowsFor(t, year, months).Ok?
    ensures |RowsFor(t, year, months).value| == |months|
    ensures forall i :: 0 <= i < |months| ==>
      months[i] in MONTHS && RowFor(t, year, months[i]) == Ok(RowsFor(t, year, months).value[i])
  {
    hide RowFor, RowsFor;
    if months == [] {
      assert RowsFor(t, year, months) == Ok([]) by { NoRows(t, year); }
    } else {
      RowAt(t, year, months, 0);
    }
    forall i | 0 <= i < |months|
      ensures months[i] in MONTHS && RowFor(t, year, months[i]) == Ok(RowsFor(t, year, months).value[i])
    {
      RowAt(t, year, months, i);
    }
  }

  lemma NoRows(t: Tables, year: int)
    requires 1 <= year <= 9999
    ensures RowsFor(t, year, []) == Ok([])
  {
  }

  /** A row holds its month's figures. */
  predicate Carries(r: YearRow, t: Tables, year: int, month: int) {
    && r.period.year == year && r.period.month == month && r.period.day == 1
    && r.issuanceCount == MonthCount(Issued(t.credits), year, month)
    && r.issuanceActual == MonthTotal(Issued(t.credits), year, month)
    && r.issuancePlan == PlanTotal(t, ISSUANCE, year, month)
    && r.paymentCount == MonthCount(Paid(t.payments), year, month)
    && r.collectionActual == MonthTotal(Paid(t.payments), year, month)
    && r.collectionPlan == PlanTotal(t, COLLECTION, year, month)
  }

  lemma RowCarries(t: Tables, year: int, month: int)
    requires 1 <= year <= 9999 && month in MONTHS && RowFor(t, year, month).Ok?
    ensures Carries(RowFor(t, year, month).value, t, year, month)
  {
    hide PercentagesOf;
  }

  lemma RowsCarry(t: Tables, year: int) returns (months: seq<int>)
    requires 1 <= year <= 9999 && YearReport(t, year).Ok?
    ensures months == Filter(MONTHS, Appears(t, year)) && |months| == |YearReport(t, year).value|
    ensures forall i :: 0 <= i < |months| ==>
      months[i] in MONTHS && Carries(YearReport(t, year).value[i], t, year, months[i])
  {
    hide RowFor;
    months := Filter(MONTHS, Appears(t, year));
    RowsAre(t, year, months);
    forall i | 0 <= i < |months|
      ensures months[i] in MONTHS && Carries(YearReport(t, year).value[i], t, year, months[i])
    {
      RowCarries(t, year, months[i]);
    }
  }

  lemma {:induction false} FilterAscends(xs: seq<int>, p: int -> bool)
    requires Sorting.Ascending(xs)
    ensures Sorting.Ascending(Filter(xs, p))
  {
    if xs != [] {
      var init, last := xs[..|xs| - 1], xs[|xs| - 1];
      FilterAscends(init, p);
      var kept := Filter(init, p);
      forall i | 0 <= i < |kept|
        ensures kept[i] < last
      {
        assert kept[i] in init;
      }
      assert Filter(xs, p) == if p(last) then kept + [last] else kept;
    }
  }

  predicate IsListed(rows: seq<YearRow>, month: int) {
    exists i :: 0 <= i < |rows| && rows[i].period.month == month
  }

  lemma ListedMonths(t: Tables, year: int)
    requires 1 <= year <= 9999 && YearReport(t, year).Ok?
    ensures var rows := YearReport(t, year).value;
      && (forall i :: 0 <= i < |rows| ==> rows[i].period.year == year && rows[i].period.day == 1)
      && (forall i, j :: 0 <= i < j < |rows| ==> rows[i].period.month < rows[j].period.month)
      && (forall m :: m in MONTHS ==> (IsListed(rows, m) <==> Appears(t, year)(m)))
  {
    hide PercentagesOf;
    var months := RowsCarry(t, year);
    FilterAscends(MONTHS, Appears(t, year));
    MonthsOfRows(YearReport(t, year).value, months, Appears(t, year));
  }

  lemma MonthsOfRows(rows: seq<YearRow>, months: seq<int>, p: int -> bool)
    requires months == Filter(MONTHS, p) && |rows| == |months|
    requires forall i :: 0 <= i < |rows| ==> rows[i].period.month == months[i]
    ensures forall m :: m in MONTHS ==> (IsListed(rows, m) <==> p(m))
  {
    forall m | m in MONTHS
      ensures IsListed(rows, m) <==> p(m)
    {
      if p(m) {
        assert m in months;
        var i :| 0 <= i < |months| && months[i] == m;
        assert rows[i].period.month == m;
      }
      if IsListed(rows, m) {
        var i :| 0 <= i < |rows| && rows[i].period.month == m;
        assert months[i] in months;
      }
    }
  }

  /** The month has an issuance or collection plan, a credit or a payment. */
  predicate IsActive(t: Tables, year: int, m: int) {
    || HasPlan(t.plans, IdByName(t.dictionary, ISSUANCE), year, m)
    || HasPlan(t.plans, IdByName(t.dictionary, COLLECTION), year, m)
    || (exists c :: c in t.credits && c.issuanceDate.year == year && c.issuanceDate.month == m)
    || (exists p :: p in t.payments && p.paymentDate.year == year && p.paymentDate.month == m)
  }

  /** The report lists each month at most once, ascending, and exactly the active months of the year. */
  lemma ListsExactlyTheActiveMonths(t: Tables, year: int)
    requires 1 <= year <= 9999 && YearReport(t, year).Ok?
    ensures var rows := YearReport(t, year).value;
      && (forall i :: 0 <= i < |rows| ==> rows[i].period.year == year && rows[i].period.day == 1)
      && (forall i, j :: 0 <= i < j < |rows| ==> rows[i].period.month < rows[j].period.month)
      && (forall m :: m in MONTHS ==> (IsListed(rows, m) <==> IsActive(t, year, m)))
  {
    hide PercentagesOf;
    ListedMonths(t, year);
    forall m | m in MONTHS
      ensures IsActive(t, year, m) <==> Appears(t, year)(m)
    {
      MonthsOfCredits(t.credits, year, m);
      MonthsOfPayments(t.payments, year, m);
    }
  }

  lemma MonthsOfCredits(credits: seq<Credit>, year: int, month: int)
    ensures MonthCount(Issued(credits), year, month) > 0 <==>
            exists c :: c in credits && c.issuanceDate.year == year && c.issuanceDate.month == month
  {
    MonthCounts(Issued(credits), year, month);
    if e :| e in Issued(credits) && e.date.year == year && e.date.month == month {
      var i :| 0 <= i < |credits| && Issued(credits)[i] == e;
      assert credits[i] in credits && CreditEntry(credits[i]) == e;
    }
    if c :| c in credits && c.issuanceDate.year == year && c.issuanceDate.month == month {
      var i :| 0 <= i < |credits| && credits[i] == c;
      assert Issued(credits)[i] in Issued(credits) && Issued(credits)[i] == CreditEntry(c);
    }
  }

  lemma MonthsOfPayments(payments: seq<Payment>, year: int, month: int)
    ensures MonthCount(Paid(payments), year, month) > 0 <==>
            exists p :: p in payments && p.paymentDate.year == year && p.paymentDate.month == month
  {
    MonthCounts(Paid(payments), year, month);
    if e :| e in Paid(payments) && e.date.year == year && e.date.month == month {
      var i :| 0 <= i < |payments| && Paid(payments)[i] == e;
      assert payments[i] in payments && PaymentEntry(payments[i]) == e;
    }
    if p :| p in payments && p.paymentDate.year == year && p.paymentDate.month == month {
      var i :| 0 <= i < |payments| && payments[i] == p;
      assert Paid(payments)[i] in Paid(payments) && Paid(payments)[i] == PaymentEntry(p);
    }
  }

  /** A column of the report adds up to the twelve monthly figures when absent months contribute nothing. */
  lemma ColumnAddsUp(t: Tables, year: int, column: YearRow -> int, figure: int -> int)
    requires 1 <= year <= 9999 && YearReport(t, year).Ok?
    requires forall r, m :: Carries(r, t, year, m) ==> column(r) == figure(m)
    requires forall m :: m in MONTHS && !MonthAppears(t, year, m) ==> figure(m) == 0
    ensures SumOf(YearReport(t, year).value, column) == SumOf(MONTHS, figure)
  {
    hide PercentagesOf;
    var months := RowsCarry(t, year);
    RowsSum(YearReport(t, year).value, months, column, figure);
    SumFilter(MONTHS, Appears(t, year), figure, figure);
  }

  lemma {:induction false} RowsSum(rows: seq<YearRow>, months: seq<int>, column: YearRow -> int, figure: int -> int)
    requires |rows| == |months| && forall i :: 0 <= i < |rows| ==> column(rows[i]) == figure(months[i])
    ensures SumOf(rows, column) == SumOf(months, figure)
  {
    if rows != [] {
      var k := |rows| - 1;
      RowsSum(rows[..k], months[..k], column, figure);
      assert column(rows[k]) == figure(months[k]);
    }
  }

  function PlanBy(t: Tables, category: string, year: int): int -> int {
    (m: int) => PlanTotal(t, category, year, m)
  }

  function PlanSumInYear(id: Option<int>, year: int): Plan -> int {
    (p: Plan) => if Some(p.categoryId) == id && p.period.year == year then p.sum else 0
  }

  lemma PlanSumsAddUp(t: Tables, category: string, year: int)
    ensures SumOf(MONTHS, PlanBy(t, category, year))
            == SumOf(t.plans, PlanSumInYear(IdByName(t.dictionary, category), year))
  {
    var id := IdByName(t.dictionary, category);
    var inMonth := (m: int, p: Plan) => PlanSumIn(id, year, m)(p);
    forall m | m in MONTHS
      ensures PlanBy(t, category, year)(m) == SumOf(t.plans, AlongRow(inMonth, m))
    {
      SumCongruent(t.plans, PlanSumIn(id, year, m), AlongRow(inMonth, m));
    }
    var dateOf := (p: Plan) => p.period;
    GroupsAddUp(t.plans, year, dateOf, PlanSumInYear(id, year), inMonth, PlanBy(t, category, year));
  }

  lemma AbsentMonthsAreEmpty(t: Tables, year: int, month: int)
    requires !MonthAppears(t, year, month)
    ensures MonthTotal(Issued(t.credits), year, month) == MonthCount(Issued(t.credits), year, month) == 0
    ensures MonthTotal(Paid(t.payments), year, month) == MonthCount(Paid(t.payments), year, month) == 0
    ensures PlanTotal(t, ISSUANCE, year, month) == PlanTotal(t, COLLECTION, year, month) == 0
  {
    MonthCounts(Issued(t.credits), year, month);
    MonthCounts(Paid(t.payments), year, month);
    NoPlanNoSum(t.plans, IdByName(t.dictionary, ISSUANCE), year, month);
    NoPlanNoSum(t.plans, IdByName(t.dictionary, COLLECTION), year, month);
  }

  lemma EmptyMonths(t: Tables, year: int)
    ensures forall m :: m in MONTHS && !MonthAppears(t, year, m) ==>
      MonthTotal(Issued(t.credits), year, m) == MonthTotal(Paid(t.payments), year, m) == 0
  {
    hide MonthTotal, MonthAppears;
    forall m | m in MONTHS && !MonthAppears(t, year, m)
      ensures MonthTotal(Issued(t.credits), year, m) == MonthTotal(Paid(t.payments), year, m) == 0
    {
      AbsentMonthsAreEmpty(t, year, m);
    }
  }

  function IssuanceCount(r: YearRow): int { r.issuanceCount }
  function IssuanceActual(r: YearRow): int { r.issuanceActual }
  function IssuancePlan(r: YearRow): int { r.issuancePlan }
  function IssuanceShare(r: YearRow): int { r.issuanceShare }
  function PaymentCount(r: YearRow): int { r.paymentCount }
  function CollectionActual(r: YearRow): int { r.collectionActual }
  function CollectionPlan(r: YearRow): int { r.collectionPlan }
  function CollectionShare(r: YearRow): int { r.collectionShare }

  /** A row shows what the plan, credit and payment rows of its month themselves add up to. */
  predicate ShowsMonth(r: YearRow, t: Tables) {
    var year, month := r.period.year, r.period.month;
    && r.period.day == 1
    && r.issuanceCount == SumOf(t.credits, IsIssuedIn(year, month))
    && r.issuanceActual == SumOf(t.credits, BodyIn(year, month))
    && r.paymentCount == SumOf(t.payments, IsPaidIn(year, month))
    && r.collectionActual == SumOf(t.payments, PaidIn(year, month))
    && r.issuancePlan == SumOf(t.plans, PlanSumIn(IdByName(t.dictionary, "видача"), year, month))
    && r.collectionPlan == SumOf(t.plans, PlanSumIn(IdByName(t.dictionary, "збір"), year, month))
  }

  lemma MonthOverRows(t: Tables, year: int, month: int)
    ensures MonthTotal(Issued(t.credits), year, month) == SumOf(t.credits, BodyIn(year, month))
    ensures MonthCount(Issued(t.credits), year, month) == SumOf(t.credits, IsIssuedIn(year, month))
    ensures MonthTotal(Paid(t.payments), year, month) == SumOf(t.payments, PaidIn(year, month))
    ensures MonthCount(Paid(t.payments), year, month) == SumOf(t.payments, IsPaidIn(year, month))
  {
    OverCredits(t.credits, AmountIn(year, month), BodyIn(year, month));
    OverCredits(t.credits, OneIn(year, month), IsIssuedIn(year, month));
    OverPayments(t.payments, AmountIn(year, month), PaidIn(year, month));
    OverPayments(t.payments, OneIn(year, month), IsPaidIn(year, month));
  }

  lemma YearOverRows(t: Tables, year: int)
    ensures YearTotal(Issued(t.credits), year) == SumOf(t.credits, BodyInYear(year))
    ensures SumOf(Issued(t.credits), OneInYear(year)) == SumOf(t.credits, IsIssuedInYear(year))
    ensures YearTotal(Paid(t.payments), year) == SumOf(t.payments, PaidInYear(year))
    ensures SumOf(Paid(t.payments), OneInYear(year)) == SumOf(t.payments, IsPaidInYear(year))
  {
    OverCredits(t.credits, AmountInYear(year), BodyInYear(year));
    OverCredits(t.credits, OneInYear(year), IsIssuedInYear(year));
    OverPayments(t.payments, AmountInYear(year), PaidInYear(year));
    OverPayments(t.payments, OneInYear(year), IsPaidInYear(year));
  }

  /** Every row of the report shows what its month's rows in the tables add up to, and its four percentages are those of
      the month against its plans and against the year. */
  lemma RowsShowTheirMonths(t: Tables, year: int, r: YearRow)
    requires 1 <= year <= 9999 && YearReport(t, year).Ok? && r in YearReport(t, year).value
    ensures r.period.year == year && ShowsMonth(r, t)
    ensures Percent(r.issuanceActual, r.issuancePlan) == Ok(r.issuanceCompletion)
    ensures Percent(r.collectionActual, r.collectionPlan) == Ok(r.collectionCompletion)
    ensures Percent(r.issuanceActual, SumOf(t.credits, BodyInYear(year))) == Ok(r.issuanceShare)
    ensures Percent(r.collectionActual, SumOf(t.payments, PaidInYear(year))) == Ok(r.collectionShare)
  {
    hide RowFor, RowsFor, Percent;
    var months := RowsCarry(t, year);
    var i :| 0 <= i < |months| && YearReport(t, year).value[i] == r;
    MonthOverRows(t, year, months[i]);
    YearOverRows(t, year);
    RowsPrint(t, year, Filter(MONTHS, Appears(t, year)));
  }

  lemma EntriesAreConserved(t: Tables, year: int)
    requires 1 <= year <= 9999 && YearReport(t, year).Ok?
    ensures SumOf(YearReport(t, year).value, IssuanceCount) == SumOf(Issued(t.credits), OneInYear(year))
    ensures SumOf(YearReport(t, year).value, IssuanceActual) == YearTotal(Issued(t.credits), year)
    ensures SumOf(YearReport(t, year).value, PaymentCount) == SumOf(Paid(t.payments), OneInYear(year))
    ensures SumOf(YearReport(t, year).value, CollectionActual) == YearTotal(Paid(t.payments), year)
  {
    hide PercentagesOf;
    forall m | m in MONTHS && !MonthAppears(t, year, m)
      ensures TotalBy(Issued(t.credits), year)(m) == CountBy(Issued(t.credits), year)(m) == 0
      ensures TotalBy(Paid(t.payments), year)(m) == CountBy(Paid(t.payments), year)(m) == 0
    {
      AbsentMonthsAreEmpty(t, year, m);
    }
    MonthlySumsAddUp(Issued(t.credits), year);
    MonthlySumsAddUp(Paid(t.payments), year);
    ColumnAddsUp(t, year, IssuanceCount, CountBy(Issued(t.credits), year));
    ColumnAddsUp(t, year, IssuanceActual, TotalBy(Issued(t.credits), year));
    ColumnAddsUp(t, year, PaymentCount, CountBy(Paid(t.payments), year));
    ColumnAddsUp(t, year, CollectionActual, TotalBy(Paid(t.payments), year));
  }

  /** The actual sums and counts of the listed months add up to the credits and payments of the year. */
  lemma ActualsAreConserved(t: Tables, year: int)
    requires 1 <= year <= 9999 && YearReport(t, year).Ok?
    ensures SumOf(YearReport(t, year).value, IssuanceCount) == SumOf(t.credits, IsIssuedInYear(year))
    ensures SumOf(YearReport(t, year).value, IssuanceActual) == SumOf(t.credits, BodyInYear(year))
    ensures SumOf(YearReport(t, year).value, PaymentCount) == SumOf(t.payments, IsPaidInYear(year))
    ensures SumOf(YearReport(t, year).value, CollectionActual) == SumOf(t.payments, PaidInYear(year))
  {
    hide YearReport;
    EntriesAreConserved(t, year);
    YearOverRows(t, year);
  }

  /** The plan sums of the listed months add up to all plans of the category dated in the year. */
  lemma PlansAreConserved(t: Tables, year: int)
    requires 1 <= year <= 9999 && YearReport(t, year).Ok?
    ensures SumOf(YearReport(t, year).value, IssuancePlan)
            == SumOf(t.plans, PlanSumInYear(IdByName(t.dictionary, ISSUANCE), year))
    ensures SumOf(YearReport(t, year).value, CollectionPlan)
            == SumOf(t.plans, PlanSumInYear(IdByName(t.dictionary, COLLECTION), year))
  {
    hide PercentagesOf;
    forall m | m in MONTHS && !MonthAppears(t, year, m)
      ensures PlanBy(t, ISSUANCE, year)(m) == PlanBy(t, COLLECTION, year)(m) == 0
    {
      AbsentMonthsAreEmpty(t, year, m);
    }
    PlanSumsAddUp(t, ISSUANCE, year);
    PlanSumsAddUp(t, COLLECTION, year);
    ColumnAddsUp(t, year, IssuancePlan, PlanBy(t, ISSUANCE, year));
    ColumnAddsUp(t, year, CollectionPlan, PlanBy(t, COLLECTION, year));
  }

  predicate SameRows(t: Tables, t': Tables) {
    && t.dictionary == t'.dictionary && multiset(t.plans) == multiset(t'.plans)
    && multiset(t.credits) == multiset(t'.credits) && multiset(t.payments) == multiset(t'.payments)
  }

  lemma SameFigures(t: Tables, t': Tables, year: int, month: int)
    requires SameRows(t, t') && 1 <= year <= 9999 && month in MONTHS
    ensures Appears(t, year)(month) == Appears(t', year)(month)
    ensures RowFor(t, year, month) == RowFor(t', year, month)
  {
    hide PercentagesOf;
    MapPermuted(t.credits, t'.credits, CreditEntry);
    MapPermuted(t.payments, t'.payments, PaymentEntry);
    SameEntryFigures(Issued(t.credits), Issued(t'.credits), year, month);
    SameEntryFigures(Paid(t.payments), Paid(t'.payments), year, month);
    SamePlanFigures(t, t', ISSUANCE, year, month);
    SamePlanFigures(t, t', COLLECTION, year, month);
  }

  lemma SameEntryFigures(es: seq<Entry>, es': seq<Entry>, year: int, month: int)
    requires multiset(es) == multiset(es')
    ensures MonthTotal(es, year, month) == MonthTotal(es', year, month)
    ensures MonthCount(es, year, month) == MonthCount(es', year, month)
    ensures YearTotal(es, year) == YearTotal(es', year)
  {
    SumPermuted(es, es', AmountIn(year, month));
    SumPermuted(es, es', OneIn(year, month));
    SumPermuted(es, es', AmountInYear(year));
  }

  lemma SamePlanFigures(t: Tables, t': Tables, category: string, year: int, month: int)
    requires t.dictionary == t'.dictionary && multiset(t.plans) == multiset(t'.plans)
    ensures PlanTotal(t, category, year, month) == PlanTotal(t', category, year, month)
    ensures HasPlan(t.plans, IdByName(t.dictionary, category), year, month)
            == HasPlan(t'.plans, IdByName(t.dictionary, category), year, month)
  {
    SumPermuted(t.plans, t'.plans, PlanSumIn(IdByName(t.dictionary, category), year, month));
    assert forall p :: p in t.plans <==> p in multiset(t.plans);
    assert forall p :: p in t'.plans <==> p in multiset(t'.plans);
  }

  lemma {:induction false} SameMonthRows(t: Tables, t': Tables, year: int, months: seq<int>)
    requires SameRows(t, t') && 1 <= year <= 9999 && forall m :: m in months ==> m in MONTHS
    ensures RowsFor(t, year, months) == RowsFor(t', year, months)
  {
    hide RowFor;
    if months != [] {
      SameMonthRows(t, t', year, months[..|months| - 1]);
      SameFigures(t, t', year, months[|months| - 1]);
    }
  }

  /** The report does not depend on the order in which the database holds or returns rows. */
  lemma RowOrderIrrelevant(t: Tables, t': Tables, year: int)
    requires SameRows(t, t') && 1 <= year <= 9999
    ensures YearReport(t, year) == YearReport(t', year)
  {
    hide RowFor;
    forall m | m in MONTHS
      ensures Appears(t, year)(m) == Appears(t', year)(m)
    {
      SameFigures(t, t', year, m);
    }
    SameFilter(MONTHS, Appears(t, year), Appears(t', year));
    SameMonthRows(t, t', year, Filter(MONTHS, Appears(t', year)));
  }

  // The shares of the year.

  /** 1 for a row whose actual sum is not zero. */
  function ActiveBy<T(!new)>(actual: T -> int): T -> int {
    (r: T) => if actual(r) != 0 then 1 else 0
  }

  /** The number of months of the year with a non-zero sum. */
  function ActiveMonthCount(entries: seq<Entry>, year: int): int {
    SumOf(MONTHS, ActiveBy(TotalBy(entries, year)))
  }

  lemma ActiveColumn(t: Tables, year: int, entries: seq<Entry>, actual: YearRow -> int)
    requires 1 <= year <= 9999 && YearReport(t, year).Ok?
    requires forall r, m :: Carries(r, t, year, m) ==> actual(r) == MonthTotal(entries, year, m)
    requires forall m :: m in MONTHS && !MonthAppears(t, year, m) ==> MonthTotal(entries, year, m) == 0
    ensures SumOf(YearReport(t, year).value, ActiveBy(actual)) == ActiveMonthCount(entries, year)
  {
    hide Carries, MonthTotal, MonthAppears, YearReport;
    var figure := ActiveBy(TotalBy(entries, year));
    assert forall m :: figure(m) == if MonthTotal(entries, year, m) != 0 then 1 else 0;
    ColumnAddsUp(t, year, ActiveBy(actual), figure);
  }

  /** The active rows are the months of the year with a non-zero sum. */
  lemma ActiveMonths(t: Tables, year: int)
    requires 1 <= year <= 9999 && YearReport(t, year).Ok?
    ensures SumOf(YearReport(t, year).value, ActiveBy(IssuanceActual)) == ActiveMonthCount(Issued(t.credits), year)
    ensures SumOf(YearReport(t, year).value, ActiveBy(CollectionActual)) == ActiveMonthCount(Paid(t.payments), year)
  {
    hide YearReport, MonthTotal, MonthAppears, ActiveMonthCount;
    EmptyMonths(t, year);
    ActiveColumn(t, year, Issued(t.credits), IssuanceActual);
    ActiveColumn(t, year, Paid(t.payments), CollectionActual);
  }

  /** 1 for an active row whose share slips by sign. */
  function SlipsBy<T(!new)>(actual: T -> int, total: int, sign: int): T -> int {
    (r: T) => if actual(r) != 0 && RatioSlip(actual(r), total) == sign then 1 else 0
  }

  ghost predicate AllSlip<T(!new)>(rows: seq<T>, actual: T -> int, total: int, sign: int) {
    forall r :: r in rows && actual(r) != 0 ==> RatioSlip(actual(r), total) == sign
  }

  /** Eleven active rows whose shares all slip the same way. */
  ghost predicate RowsSlipTogether<T(!new)>(rows: seq<T>, actual: T -> int, total: int) {
    SumOf(rows, ActiveBy(actual)) == 11 && (AllSlip(rows, actual, total, 1) || AllSlip(rows, actual, total, -1))
  }

  /** Not huge: below 10^23 cents, or below 10^22 times the total. */
  predicate IsOrdinary(actual: int, total: int) {
    IsModest(actual) || -(ONE_ROUNDING_LIMIT * total) < 10 * actual < ONE_ROUNDING_LIMIT * total
  }

  /** Bounds on twice the error of shares with k active rows, up and down of which slip by 1 and by -1. */
  ghost predicate WithinSlips(error: int, k: int, up: int, down: int, total: int) {
    && 10 * error + up <= (10 * k + up - 20 * down) * total
    && -10 * error + down <= (10 * k + down - 20 * up) * total
  }

  ghost predicate WithinUnits(error: int, k: int, total: int) {
    -(21 * k * total) <= 20 * error <= 21 * k * total
  }

  ghost function TwiceError(actual: int, share: int, total: int): int {
    2 * (actual * 10000 - share * total)
  }

  lemma OneShare<T(!new)>(r: T, actual: T -> int, share: int, total: int)
    requires total > 0 && Percent(actual(r), total) == Ok(share)
    ensures WithinSlips(TwiceError(actual(r), share, total), ActiveBy(actual)(r),
                        SlipsBy(actual, total, 1)(r), SlipsBy(actual, total, -1)(r), total)
    ensures IsOrdinary(actual(r), total) ==>
      WithinUnits(TwiceError(actual(r), share, total), ActiveBy(actual)(r), total)
  {
    hide HalfEven, Slip, Percent;
    var a := actual(r);
    PercentExactly(a, total);
    PrintedError(a * 10000, total);
    SlipIsSmall(a * 10000, total);
    if a == 0 {
      PercentOfZero(total);
    }
    if IsModest(a) {
      SmallNeverSlips(a * 10000, total);
    }
  }

  lemma ErrorsAdd(e: int, k: int, up: int, down: int, e': int, k': int, up': int, down': int, total: int)
    ensures WithinSlips(e, k, up, down, total) && WithinSlips(e', k', up', down', total) ==>
      WithinSlips(e + e', k + k', up + up', down + down', total)
    ensures WithinUnits(e, k, total) && WithinUnits(e', k', total) ==> WithinUnits(e + e', k + k', total)
  {
    assert (10 * (k + k') + (up + up') - 20 * (down + down')) * total
        == (10 * k + up - 20 * down) * total + (10 * k' + up' - 20 * down') * total;
    assert (10 * (k + k') + (down + down') - 20 * (up + up')) * total
        == (10 * k + down - 20 * up) * total + (10 * k' + down' - 20 * up') * total;
    assert 21 * (k + k') * total == 21 * k * total + 21 * k' * total;
  }

  lemma {:induction false} SharesWithinSlips<T(!new)>(rows: seq<T>, actual: T -> int, share: T -> int, total: int)
    requires total > 0 && forall r :: r in rows ==> Percent(actual(r), total) == Ok(share(r))
    ensures var error, k := TwiceError(SumOf(rows, actual), SumOf(rows, share), total), SumOf(rows, ActiveBy(actual));
      && WithinSlips(error, k, SumOf(rows, SlipsBy(actual, total, 1)), SumOf(rows, SlipsBy(actual, total, -1)), total)
      && ((forall r :: r in rows ==> IsOrdinary(actual(r), total)) ==> WithinUnits(error, k, total))
  {
    hide Percent, RatioSlip, IsOrdinary;
    if rows != [] {
      var init, last := rows[..|rows| - 1], rows[|rows| - 1];
      SharesWithinSlips(init, actual, share, total);
      assert last in rows;
      OneShare(last, actual, share(last), total);
      ErrorsAdd(TwiceError(SumOf(init, actual), SumOf(init, share), total), SumOf(init, ActiveBy(actual)),
                SumOf(init, SlipsBy(actual, total, 1)), SumOf(init, SlipsBy(actual, total, -1)),
                TwiceError(actual(last), share(last), total), ActiveBy(actual)(last),
                SlipsBy(actual, total, 1)(last), SlipsBy(actual, total, -1)(last), total);
      ErrorOfSum(SumOf(init, actual), SumOf(init, share), actual(last), share(last), total);
    }
  }

  lemma ErrorOfSum(a: int, s: int, a': int, s': int, total: int)
    ensures TwiceError(a + a', s + s', total) == TwiceError(a, s, total) + TwiceError(a', s', total)
  {
    assert (s + s') * total == s * total + s' * total;
  }

  /** Active rows and slipping rows are counted within the rows; all active rows slip exactly when the counts agree. */
  lemma {:induction false} CountSlips<T(!new)>(rows: seq<T>, actual: T -> int, total: int)
    ensures var k, up, down := SumOf(rows, ActiveBy(actual)), SumOf(rows, SlipsBy(actual, total, 1)),
                               SumOf(rows, SlipsBy(actual, total, -1));
      && 0 <= up && 0 <= down && up + down <= k <= |rows|
      && (up == k <==> AllSlip(rows, actual, total, 1)) && (down == k <==> AllSlip(rows, actual, total, -1))
  {
    hide RatioSlip;
    if rows != [] {
      var init, last := rows[..|rows| - 1], rows[|rows| - 1];
      CountSlips(init, actual, total);
      assert rows == init + [last];
      assert forall r :: r in rows <==> r in init || r == last;
    }
  }

  /** What holds of printed shares that are the parts of a positive total. */
  ghost predicate SharesAddUp<T(!new)>(rows: seq<T>, actual: T -> int, share: T -> int, total: int) {
    var k, off := SumOf(rows, ActiveBy(actual)), SumOf(rows, share) - 10000;
    && -6 <= off <= 6
    && (-(k / 2) <= off <= k / 2 <==> !RowsSlipTogether(rows, actual, total))
    && (k == 1 ==> off == 0)
    && ((forall r :: r in rows ==> IsOrdinary(actual(r), total)) ==> -(k / 2) <= off <= k / 2)
  }

  lemma SharesNearHundred<T(!new)>(rows: seq<T>, actual: T -> int, share: T -> int, total: int)
    requires |rows| <= 12 && total > 0 && SumOf(rows, actual) == total
    requires forall r :: r in rows ==> Percent(actual(r), total) == Ok(share(r))
    ensures SharesAddUp(rows, actual, share, total)
  {
    hide Percent, RatioSlip, IsOrdinary, AllSlip, WithinSlips, WithinUnits;
    var k, up, down := SumOf(rows, ActiveBy(actual)), SumOf(rows, SlipsBy(actual, total, 1)),
                       SumOf(rows, SlipsBy(actual, total, -1));
    var missing := 10000 - SumOf(rows, share);
    SharesWithinSlips(rows, actual, share, total);
    CountSlips(rows, actual, total);
    assert TwiceError(total, SumOf(rows, share), total) == 2 * missing * total;
    MissingWithin(missing, k, up, down, total);
    CountedSlips(missing, k, up, down);
  }

  lemma MissingWithin(missing: int, k: nat, up: nat, down: nat, total: int)
    requires total > 0 && WithinSlips(2 * missing * total, k, up, down, total)
    ensures 20 * missing <= 10 * k + up - 20 * down - (if up > 0 then 1 else 0)
    ensures -20 * missing <= 10 * k + down - 20 * up - (if down > 0 then 1 else 0)
    ensures WithinUnits(2 * missing * total, k, total) ==> -(21 * k) <= 40 * missing <= 21 * k
  {
    assert 10 * (2 * missing * total) == 20 * missing * total;
    assert -10 * (2 * missing * total) == -20 * missing * total;
    assert 20 * (2 * missing * total) == 40 * missing * total == -(-40 * missing * total);
    FactorBound(20 * missing, up, 10 * k + up - 20 * down, total);
    FactorBound(-20 * missing, down, 10 * k + down - 20 * up, total);
    if WithinUnits(2 * missing * total, k, total) {
      FactorBound(40 * missing, 0, 21 * k, total);
      FactorBound(-40 * missing, 0, 21 * k, total);
    }
  }

  lemma CountedSlips(missing: int, k: nat, up: nat, down: nat)
    requires up + down <= k <= 12
    requires 20 * missing <= 10 * k + up - 20 * down - (if up > 0 then 1 else 0)
    requires -20 * missing <= 10 * k + down - 20 * up - (if down > 0 then 1 else 0)
    ensures -6 <= missing <= 6
    ensures -(k / 2) <= missing <= k / 2 <==> !(k == 11 && (up == k || down == k))
    ensures -(21 * k) <= 40 * missing <= 21 * k ==> -(k / 2) <= missing <= k / 2
  {
  }

  lemma FactorBound(a: int, rest: nat, b: int, d: int)
    requires d > 0 && a * d + rest <= b * d
    ensures a <= b && (rest > 0 ==> a < b)
  {
    if a > b {
      MulStrict(b, a, d);
    }
  }

  // All percentages of the report.

  /** The four percentages of a row are what Percent gives. */
  predicate Prints(r: YearRow, t: Tables, year: int) {
    && Percent(r.issuanceActual, r.issuancePlan) == Ok(r.issuanceCompletion)
    && Percent(r.collectionActual, r.collectionPlan) == Ok(r.collectionCompletion)
    && Percent(r.issuanceActual, YearTotal(Issued(t.credits), year)) == Ok(r.issuanceShare)
    && Percent(r.collectionActual, YearTotal(Paid(t.payments), year)) == Ok(r.collectionShare)
  }

  predicate AllPrintable(f: MonthFigures) {
    && IsPrintable(f.issuanceActual, f.issuancePlan) && IsPrintable(f.collectionActual, f.collectionPlan)
    && IsPrintable(f.issuanceActual, f.yearIssued) && IsPrintable(f.collectionActual, f.yearCollected)
  }

  lemma RowPrints(t: Tables, year: int, month: int)
    requires 1 <= year <= 9999 && month in MONTHS
    ensures RowFor(t, year, month).Ok? <==> AllPrintable(FiguresOf(t, year, month))
    ensures RowFor(t, year, month).Ok? ==> Prints(RowFor(t, year, month).value, t, year)
  {
    hide Percent, IsPrintable;
    var f := FiguresOf(t, year, month);
    PercentExactly(f.issuanceActual, f.issuancePlan);
    PercentExactly(f.collectionActual, f.collectionPlan);
    PercentExactly(f.issuanceActual, f.yearIssued);
    PercentExactly(f.collectionActual, f.yearCollected);
  }

  lemma {:induction false} RowsPrint(t: Tables, year: int, months: seq<int>)
    requires 1 <= year <= 9999 && forall m :: m in months ==> m in MONTHS
    ensures RowsFor(t, year, months).Ok? <==> forall m :: m in months ==> AllPrintable(FiguresOf(t, year, m))
    ensures RowsFor(t, year, months).Ok? ==> forall r :: r in RowsFor(t, year, months).value ==> Prints(r, t, year)
  {
    hide RowFor, Prints, AllPrintable;
    if months != [] {
      var init, last := months[..|months| - 1], months[|months| - 1];
      RowsPrint(t, year, init);
      assert months == init + [last];
      assert last in months && forall m :: m in months <==> m in init || m == last;
      RowPrints(t, year, last);
    }
  }

  /** The four percentages of a row are exact ratios rounded once, less their slips. */
  predicate PrintsRatios(r: YearRow, t: Tables, year: int) {
    var issued, collected := YearTotal(Issued(t.credits), year), YearTotal(Paid(t.payments), year);
    && r.issuanceCompletion
       == RoundedRatio(r.issuanceActual, r.issuancePlan) - RatioSlip(r.issuanceActual, r.issuancePlan)
    && r.collectionCompletion
       == RoundedRatio(r.collectionActual, r.collectionPlan) - RatioSlip(r.collectionActual, r.collectionPlan)
    && r.issuanceShare == RoundedRatio(r.issuanceActual, issued) - RatioSlip(r.issuanceActual, issued)
    && r.collectionShare == RoundedRatio(r.collectionActual, collected) - RatioSlip(r.collectionActual, collected)
  }

  /** The report is given exactly when, in every listed month, the four rounded ratios have at most 28 digits;
      and each percentage is that ratio rounded once, half to even, less its slip. */
  lemma ReportPrintsRatios(t: Tables, year: int)
    requires 1 <= year <= 9999
    ensures YearReport(t, year).Ok? <==>
      forall m :: m in MONTHS && MonthAppears(t, year, m) ==> AllPrintable(FiguresOf(t, year, m))
    ensures YearReport(t, year).Ok? ==> forall r :: r in YearReport(t, year).value ==> PrintsRatios(r, t, year)
  {
    hide RowsFor, AllPrintable, Percent, RoundedRatio, RatioSlip, Prints, PrintsRatios;
    var months := Filter(MONTHS, Appears(t, year));
    RowsPrint(t, year, months);
    assert forall m :: m in months <==> m in MONTHS && Appears(t, year)(m);
    if YearReport(t, year).Ok? {
      forall r | r in YearReport(t, year).value
        ensures PrintsRatios(r, t, year)
      {
        PrintedRatios(r, t, year);
      }
    }
  }

  lemma PrintedRatios(r: YearRow, t: Tables, year: int)
    requires Prints(r, t, year)
    ensures PrintsRatios(r, t, year)
  {
    hide Percent, RoundedRatio, RatioSlip, IsPrintable;
    PercentExactly(r.issuanceActual, r.issuancePlan);
    PercentExactly(r.collectionActual, r.collectionPlan);
    PercentExactly(r.issuanceActual, YearTotal(Issued(t.credits), year));
    PercentExactly(r.collectionActual, YearTotal(Paid(t.payments), year));
  }

  predicate ModestMonths(entries: seq<Entry>, year: int) {
    forall m :: m in MONTHS ==> IsModest(MonthTotal(entries, year, m))
  }

  predicate NonNegativeMonths(entries: seq<Entry>, year: int) {
    forall m :: m in MONTHS ==> MonthTotal(entries, year, m) >= 0
  }

  /** With monthly sums below 10^23 cents the report is always given and nothing slips. */
  lemma ModestReport(t: Tables, year: int)
    requires 1 <= year <= 9999
    requires ModestMonths(Issued(t.credits), year) && ModestMonths(Paid(t.payments), year)
    ensures YearReport(t, year).Ok?
    ensures forall r, whole :: r in YearReport(t, year).value ==>
      RatioSlip(r.issuanceActual, whole) == RatioSlip(r.collectionActual, whole) == 0
  {
    hide RowsFor, RowFor, Percent, RoundedRatio, RatioSlip, IsPrintable;
    ReportPrintsRatios(t, year);
    forall m | m in MONTHS
      ensures AllPrintable(FiguresOf(t, year, m))
    {
      var f := FiguresOf(t, year, m);
      ModestIsPrinted(f.issuanceActual, f.issuancePlan);
      ModestIsPrinted(f.collectionActual, f.collectionPlan);
      ModestIsPrinted(f.issuanceActual, f.yearIssued);
      ModestIsPrinted(f.collectionActual, f.yearCollected);
    }
    var months := RowsCarry(t, year);
    forall r, whole | r in YearReport(t, year).value
      ensures RatioSlip(r.issuanceActual, whole) == RatioSlip(r.collectionActual, whole) == 0
    {
      var i :| 0 <= i < |months| && YearReport(t, year).value[i] == r;
      assert months[i] in MONTHS;
      ModestIsPrinted(r.issuanceActual, whole);
      ModestIsPrinted(r.collectionActual, whole);
    }
  }

  lemma ModestIsPrinted(part: int, whole: int)
    requires IsModest(part)
    ensures IsPrintable(part, whole) && RatioSlip(part, whole) == 0
  {
    hide HalfEven, Percent, Slip;
    ModestPercent(part, whole);
    PercentExactly(part, whole);
  }

  /** No part of a sum of non-negative months is larger than the sum. */
  lemma MonthWithinYear(entries: seq<Entry>, year: int, m: int)
    requires NonNegativeMonths(entries, year) && m in MONTHS
    ensures 0 <= MonthTotal(entries, year, m) <= YearTotal(entries, year)
  {
    InMonths(m);
    MonthAt(m - 1);
    MonthlySumsAddUp(entries, year);
    PartWithinSum(MONTHS, m - 1, TotalBy(entries, year));
  }

  lemma {:induction false} PartWithinSum<T(!new)>(xs: seq<T>, i: nat, f: T -> int)
    requires i < |xs| && forall x :: x in xs ==> f(x) >= 0
    ensures 0 <= f(xs[i]) <= SumOf(xs, f)
  {
    var init := xs[..|xs| - 1];
    if i < |init| {
      PartWithinSum(init, i, f);
      assert xs[|xs| - 1] in xs;
    } else {
      SumAtMost(init, x => 0, f);
      SumZero(init, x => 0);
    }
  }

  /** One side's shares, spoken of in terms of the rows. */
  lemma SharesOfRows(t: Tables, year: int, entries: seq<Entry>, actual: YearRow -> int, share: YearRow -> int)
    requires 1 <= year <= 9999 && YearReport(t, year).Ok? && YearTotal(entries, year) > 0
    requires SumOf(YearReport(t, year).value, actual) == YearTotal(entries, year)
    requires forall r :: Prints(r, t, year) ==> Percent(actual(r), YearTotal(entries, year)) == Ok(share(r))
    ensures SharesAddUp(YearReport(t, year).value, actual, share, YearTotal(entries, year))
  {
    hide RowsFor, RowFor, Percent, Prints, SharesAddUp, YearTotal;
    RowsPrint(t, year, Filter(MONTHS, Appears(t, year)));
    var months := RowsCarry(t, year);
    SharesNearHundred(YearReport(t, year).value, actual, share, YearTotal(entries, year));
  }

  lemma MonthsAreOrdinary(t: Tables, year: int, entries: seq<Entry>, actual: YearRow -> int)
    requires 1 <= year <= 9999 && YearReport(t, year).Ok? && YearTotal(entries, year) > 0
    requires forall r, m :: Carries(r, t, year, m) ==> actual(r) == MonthTotal(entries, year, m)
    requires ModestMonths(entries, year) || NonNegativeMonths(entries, year)
    ensures forall r :: r in YearReport(t, year).value ==> IsOrdinary(actual(r), YearTotal(entries, year))
  {
    hide RowsFor, RowFor, Carries, MonthTotal, YearTotal;
    var rows, total := YearReport(t, year).value, YearTotal(entries, year);
    var months := RowsCarry(t, year);
    forall r | r in rows
      ensures IsOrdinary(actual(r), total)
    {
      var i :| 0 <= i < |rows| && rows[i] == r;
      assert actual(r) == MonthTotal(entries, year, months[i]);
      if NonNegativeMonths(entries, year) {
        MonthWithinYear(entries, year, months[i]);
      }
    }
  }

  /** Every month with a non-zero sum has a share of the year that slips by sign. */
  predicate MonthsSlip(entries: seq<Entry>, year: int, sign: int) {
    forall m :: m in MONTHS && MonthTotal(entries, year, m) != 0 ==>
      RatioSlip(MonthTotal(entries, year, m), YearTotal(entries, year)) == sign
  }

  /** The one way the shares can miss 100.00 by more than half a unit a month: eleven months have a non-zero sum and
      the two roundings of their shares all slip the same way. */
  predicate SlipsTogether(entries: seq<Entry>, year: int) {
    ActiveMonthCount(entries, year) == 11 && (MonthsSlip(entries, year, 1) || MonthsSlip(entries, year, -1))
  }

  lemma RowsSlipAsMonths(t: Tables, year: int, entries: seq<Entry>, actual: YearRow -> int, sign: int)
    requires 1 <= year <= 9999 && YearReport(t, year).Ok?
    requires forall r, m :: Carries(r, t, year, m) ==> actual(r) == MonthTotal(entries, year, m)
    requires forall m :: m in MONTHS && !MonthAppears(t, year, m) ==> MonthTotal(entries, year, m) == 0
    ensures AllSlip(YearReport(t, year).value, actual, YearTotal(entries, year), sign)
            <==> MonthsSlip(entries, year, sign)
  {
    hide YearReport, Carries, MonthTotal, MonthAppears, YearTotal, RatioSlip;
    var rows, total := YearReport(t, year).value, YearTotal(entries, year);
    var months := RowsCarry(t, year);
    forall i | 0 <= i < |rows|
      ensures months[i] in MONTHS && actual(rows[i]) == MonthTotal(entries, year, months[i])
    {
      assert Carries(rows[i], t, year, months[i]);
    }
    if MonthsSlip(entries, year, sign) {
      forall r | r in rows && actual(r) != 0
        ensures RatioSlip(actual(r), total) == sign
      {
        var i :| 0 <= i < |rows| && rows[i] == r;
        assert months[i] in MONTHS;
      }
    }
    if AllSlip(rows, actual, total, sign) {
      forall m | m in MONTHS && MonthTotal(entries, year, m) != 0
        ensures RatioSlip(MonthTotal(entries, year, m), total) == sign
      {
        assert Appears(t, year)(m);
        assert m in months;
        var i :| 0 <= i < |months| && months[i] == m;
        assert rows[i] in rows;
      }
    }
  }

  /** One side's shares, spoken of in terms of the tables. */
  lemma SideAddsUp(t: Tables, year: int, entries: seq<Entry>, actual: YearRow -> int, share: YearRow -> int)
    requires 1 <= year <= 9999 && YearReport(t, year).Ok? && YearTotal(entries, year) > 0
    requires SumOf(YearReport(t, year).value, actual) == YearTotal(entries, year)
    requires forall r, m :: Carries(r, t, year, m) ==> actual(r) == MonthTotal(entries, year, m)
    requires forall m :: m in MONTHS && !MonthAppears(t, year, m) ==> MonthTotal(entries, year, m) == 0
    requires forall r :: Prints(r, t, year) ==> Percent(actual(r), YearTotal(entries, year)) == Ok(share(r))
    ensures var k, off := ActiveMonthCount(entries, year), SumOf(YearReport(t, year).value, share) - 10000;
      && -6 <= off <= 6 && (k == 1 ==> off == 0)
      && (-(k / 2) <= off <= k / 2 <==> !SlipsTogether(entries, year))
      && (NonNegativeMonths(entries, year) || ModestMonths(entries, year) ==> -(k / 2) <= off <= k / 2)
  {
    hide YearReport, Carries, Prints, Percent, MonthTotal, MonthAppears, YearTotal, AllSlip, MonthsSlip;
    hide IsOrdinary, NonNegativeMonths, ModestMonths, ActiveMonthCount;
    SharesOfRows(t, year, entries, actual, share);
    ActiveColumn(t, year, entries, actual);
    RowsSlipAsMonths(t, year, entries, actual, 1);
    RowsSlipAsMonths(t, year, entries, actual, -1);
    if NonNegativeMonths(entries, year) || ModestMonths(entries, year) {
      MonthsAreOrdinary(t, year, entries, actual);
    }
  }

  /** In a year with a positive total, whatever the signs and sizes of the monthly sums, the printed shares of
      credits add up to 100.00 within 0.06, exactly if one month is active, and within 0.01 * floor(k / 2), k
      being the number of months with a non-zero sum, except when there are eleven and all slip the same way. That
      cannot happen when the monthly sums are non-negative, or below 10^23 cents. */
  lemma IssuanceSharesAddUp(t: Tables, year: int)
    requires 1 <= year <= 9999 && YearReport(t, year).Ok? && YearTotal(Issued(t.credits), year) > 0
    ensures var k := ActiveMonthCount(Issued(t.credits), year);
      var off := SumOf(YearReport(t, year).value, IssuanceShare) - 10000;
      && -6 <= off <= 6 && (k == 1 ==> off == 0)
      && (-(k / 2) <= off <= k / 2 <==> !SlipsTogether(Issued(t.credits), year))
      && (NonNegativeMonths(Issued(t.credits), year) || ModestMonths(Issued(t.credits), year) ==>
            -(k / 2) <= off <= k / 2)
  {
    hide YearReport, Percent, MonthTotal, MonthAppears, YearTotal, SlipsTogether, NonNegativeMonths, ModestMonths;
    hide ActiveMonthCount;
    EntriesAreConserved(t, year);
    EmptyMonths(t, year);
    SideAddsUp(t, year, Issued(t.credits), IssuanceActual, IssuanceShare);
  }

  /** The same for payments. */
  lemma CollectionSharesAddUp(t: Tables, year: int)
    requires 1 <= year <= 9999 && YearReport(t, year).Ok? && YearTotal(Paid(t.payments), year) > 0
    ensures var k := ActiveMonthCount(Paid(t.payments), year);
      var off := SumOf(YearReport(t, year).value, CollectionShare) - 10000;
      && -6 <= off <= 6 && (k == 1 ==> off == 0)
      && (-(k / 2) <= off <= k / 2 <==> !SlipsTogether(Paid(t.payments), year))
      && (NonNegativeMonths(Paid(t.payments), year) || ModestMonths(Paid(t.payments), year) ==>
            -(k / 2) <= off <= k / 2)
  {
    hide YearReport, Percent, MonthTotal, MonthAppears, YearTotal, SlipsTogether, NonNegativeMonths, ModestMonths;
    hide ActiveMonthCount;
    EntriesAreConserved(t, year);
    EmptyMonths(t, year);
    SideAddsUp(t, year, Paid(t.payments), CollectionActual, CollectionShare);
  }
}
