/** The reports over a seeded database, whose plans may have any date. */
module SeededReports {
  import opened Arithmetic
  import opened Outcomes
  import Folds
  import opened Calendar
  import opened DecimalArithmetic
  import Texts
  import DateText
  import opened Ledger
  import opened PlansPerformance
  import opened YearPerformance
  import ReportsAgree
  import opened SeedLoader

  // What the reports read of a seeded database.

  /** The rows are those of the table, each once, in the order of ids. */
  ghost predicate Lists<E, R>(rows: seq<E>, table: map<int, R>, ids: seq<int>, isRow: (E, int, R) -> bool) {
    && |ids| == |rows|
    && (forall i, j :: 0 <= i < j < |ids| ==> ids[i] != ids[j])
    && (forall id :: id in table <==> id in ids)
    && (forall i :: 0 <= i < |ids| ==> ids[i] in table && isRow(rows[i], ids[i], table[ids[i]]))
  }

  predicate IsEntry(e: DictionaryEntry, id: int, r: EntryRow) {
    e == DictionaryEntry(id, r.name)
  }

  predicate IsPlan(p: Plan, id: int, r: PlanRecord) {
    r == PlanRecord(Some(p.period), p.sum, p.categoryId)
  }

  predicate IsCredit(c: Credit, id: int, r: CreditRow) {
    c.id == id
    && r == CreditRow(c.userId, Some(c.issuanceDate), Some(c.returnDate), c.actualReturnDate, c.body, c.percent)
  }

  predicate IsPayment(p: Payment, id: int, r: PaymentRow) {
    p.id == id && r == PaymentRow(p.creditId, p.typeId, Some(p.paymentDate), p.sum)
  }

  datatype Orders = Orders(dictionary: seq<int>, plans: seq<int>, credits: seq<int>, payments: seq<int>)

  /** The tables the reports read are those of the seeded database, whatever order its rows come in. */
  ghost predicate Shows(t: Tables, s: SeedTables, orders: Orders) {
    && Lists(t.dictionary, s.dictionary, orders.dictionary, IsEntry)
    && Lists(t.plans, s.plans, orders.plans, IsPlan)
    && Lists(t.credits, s.credits, orders.credits, IsCredit)
    && Lists(t.payments, s.payments, orders.payments, IsPayment)
  }

  /** Every successfully seeded database has the keys on which the comparison of the reports rests. */
  lemma SeededTablesMeetConstraints(before: SeedTables, files: SeedFiles, t: Tables, orders: Orders)
    requires LoadAll(before, files).Ok? && Shows(t, LoadAll(before, files).value, orders)
    ensures ReportsAgree.MeetsConstraints(t)
  {
    hide Load;
    var s := LoadAll(before, files).value;
    assert MeetsSchema(s);
    forall i, j | 0 <= i < j < |t.dictionary|
      ensures t.dictionary[i].id != t.dictionary[j].id && t.dictionary[i].name != t.dictionary[j].name
    {
      assert IsEntry(t.dictionary[i], orders.dictionary[i], s.dictionary[orders.dictionary[i]]);
      assert IsEntry(t.dictionary[j], orders.dictionary[j], s.dictionary[orders.dictionary[j]]);
    }
    forall i, j | 0 <= i < j < |t.plans|
      ensures Key(t.plans[i]) != Key(t.plans[j])
    {
      assert IsPlan(t.plans[i], orders.plans[i], s.plans[orders.plans[i]]);
      assert IsPlan(t.plans[j], orders.plans[j], s.plans[orders.plans[j]]);
    }
  }

  // A seed on which the reports disagree.

  const EMPTY := SeedTables(map[], map[], map[], map[], map[])

  /** One credit on the first of a month, and an issuance plan dated a later day of it. */
  function LatePlanFiles(d: Date, cents: nat, width: nat): SeedFiles {
    var first, later := DateText.Print(DateText.Dotted, FirstOfMonth(d)), DateText.Print(DateText.Dotted, d);
    var one, money := Texts.Padded(1, 1), Money(cents, width, '.');
    SeedFiles(Some([Record(one, UserFields("user", first))]),
              Some([Record(one, EntryFields(ISSUANCE))]),
              Some([Record(one, CreditFields(one, first, later, "", money, ""))]),
              Some([Record(one, PlanFields(later, money, one))]),
              None)
  }

  function LatePlanDatabase(d: Date, cents: nat): SeedTables {
    SeedTables(map[1 := UserRow("user", Some(FirstOfMonth(d)))], map[1 := EntryRow(ISSUANCE)],
               map[1 := CreditRow(1, Some(FirstOfMonth(d)), Some(d), None, cents, 0)],
               map[1 := PlanRecord(Some(d), cents, 1)], map[])
  }

  function LatePlanTables(d: Date, cents: nat): Tables {
    Tables([DictionaryEntry(1, ISSUANCE)], [Plan(d, cents, 1)],
           [Credit(1, 1, FirstOfMonth(d), d, None, cents, 0)], [])
  }

  lemma OneRecordLoads<F, R>(r: Record<F>, read: F -> Result<R, SeedError>, id: int, row: R)
    requires ParseId(r.id) == Ok(id) && read(r.fields) == Ok(row)
    ensures Load(map[], Some([r]), read) == Ok(map[id := row])
  {
    hide ParseId;
    var empty: map<int, R> := map[];
    assert [r][..0] == [];
    assert AddNew(empty.Keys, empty, [], read) == Ok(empty);
  }

  lemma LatePlanIsSeeded(d: Date, cents: nat, width: nat)
    requires cents / 100 < Pow10(width)
    ensures LoadAll(EMPTY, LatePlanFiles(d, cents, width)) == Ok(LatePlanDatabase(d, cents))
  {
    hide ParseDate, ParseMoney, ParseId, DateText.Print, Texts.Padded, Money, Load;
    var files := LatePlanFiles(d, cents, width);
    assert Pow10(1) == 10;
    PrintedIdIsRead(1, 1);
    PrintedDateIsRead(DateText.Dotted, d);
    PrintedDateIsRead(DateText.Dotted, FirstOfMonth(d));
    PrintedMoneyIsRead(cents, width, '.');
    BlankFields();
    OneRecordLoads(files.users.value[0], ReadUser, 1, UserRow("user", Some(FirstOfMonth(d))));
    OneRecordLoads(files.dictionary.value[0], ReadEntry, 1, EntryRow(ISSUANCE));
    OneRecordLoads(files.credits.value[0], ReadCredit, 1, CreditRow(1, Some(FirstOfMonth(d)), Some(d), None, cents, 0));
    OneRecordLoads(files.plans.value[0], ReadPlan, 1, PlanRecord(Some(d), cents, 1));
    NoFile();
  }

  lemma BlankFields()
    ensures ParseDate("") == Ok(None) && ParseMoney("") == Ok(0)
  {
  }

  lemma NoFile()
    ensures Load(EMPTY.payments, None, ReadPayment) == Ok(EMPTY.payments)
  {
  }

  lemma LatePlanIsShown(d: Date, cents: nat)
    ensures Shows(LatePlanTables(d, cents), LatePlanDatabase(d, cents), Orders([1], [1], [1], []))
  {
  }

  lemma SumOfOne<T(!new)>(x: T, f: T -> int)
    ensures Folds.SumOf([x], f) == f(x)
  {
    assert [x][..0] == [];
  }

  /** All or nothing of an amount is 100 or 0 percent, whatever its size. */
  lemma WholeOrNothing(part: int, whole: int, amount: int)
    requires amount > 0 && (part == 0 || part == amount) && (whole == 0 || whole == amount)
    ensures IsPrintable(part, whole)
  {
    hide HalfEven;
    if whole > 0 {
      assert amount * 10000 == 10000 * amount && 0 * amount == 0;
      HalfEvenExact(if part == 0 then 0 else 10000, amount);
    }
  }

  lemma LatePlanFigures(d: Date, cents: nat, m: int)
    ensures var f := FiguresOf(LatePlanTables(d, cents), d.year, m);
      && f.issuanceActual in {0, cents} && f.issuancePlan in {0, cents} && f.yearIssued in {0, cents}
      && f.collectionActual == f.collectionPlan == f.yearCollected == 0
  {
    var t := LatePlanTables(d, cents);
    assert Issued(t.credits) == [Entry(FirstOfMonth(d), cents)] && Paid(t.payments) == [];
    SumOfOne(Issued(t.credits)[0], AmountIn(d.year, m));
    SumOfOne(Issued(t.credits)[0], AmountInYear(d.year));
    SumOfOne(t.plans[0], PlanSumIn(IdByName(t.dictionary, ISSUANCE), d.year, m));
    SumOfOne(t.plans[0], PlanSumIn(IdByName(t.dictionary, COLLECTION), d.year, m));
    assert |ISSUANCE| != |COLLECTION|;
    assert IdByName(t.dictionary[..0], COLLECTION) == None;
  }

  lemma LatePlanReports(d: Date, cents: nat, check: Date)
    requires cents > 0
    ensures PlansReport(LatePlanTables(d, cents), check).Ok? && YearReport(LatePlanTables(d, cents), d.year).Ok?
  {
    hide Percent, RoundedRatio, RatioSlip, IsPrintable, PlansReport, YearReport;
    var t := LatePlanTables(d, cents);
    assert Issued(t.credits) == [Entry(FirstOfMonth(d), cents)];
    forall p | p in t.plans && AtMost(p.period, check)
      ensures NameById(t.dictionary, p.categoryId).Some? && CanBePrinted(t, p, check)
    {
      assert ISSUANCE != COLLECTION by { assert |ISSUANCE| != |COLLECTION|; }
      SumOfOne(Issued(t.credits)[0], AmountWithin(p.period, Earlier(check, EndOfMonth(p.period))));
      WholeOrNothing(ActualSum(t, p.period, ISSUANCE, check), p.sum, cents);
    }
    ReportIsGivenExactlyWhen(t, check);
    forall m | m in MONTHS
      ensures AllPrintable(FiguresOf(t, d.year, m))
    {
      hide FiguresOf;
      LatePlanFigures(d, cents, m);
      var f := FiguresOf(t, d.year, m);
      WholeOrNothing(f.issuanceActual, f.issuancePlan, cents);
      WholeOrNothing(f.issuanceActual, f.yearIssued, cents);
      WholeOrNothing(0, 0, cents);
    }
    ReportPrintsRatios(t, d.year);
  }

  lemma LatePlanRows(d: Date, cents: nat, check: Date) returns (r: PlanPerformance, y: YearRow)
    requires cents > 0 && AtMost(EndOfMonth(d), check)
    ensures var t := LatePlanTables(d, cents);
      && PlansReport(t, check).Ok? && r in PlansReport(t, check).value
      && YearReport(t, d.year).Ok? && y in YearReport(t, d.year).value
      && r.period == d && y.period == FirstOfMonth(d) && r.category == ISSUANCE
  {
    hide RowsOf, ReportOn, RowsFor, PlansReport, YearReport;
    var t := LatePlanTables(d, cents);
    LatePlanReports(d, cents, check);
    assert IsOfCategory(t, t.plans[0], ISSUANCE);
    r := ReportsAgree.RowOfDuePlan(t, check, t.plans[0], ISSUANCE);
    y := ReportsAgree.MonthIsListed(t, check, r);
  }

  lemma LatePlanDiffers(d: Date, cents: nat, check: Date, r: PlanPerformance, y: YearRow)
    requires d.day > 1 && AtMost(EndOfMonth(d), check)
    requires var t := LatePlanTables(d, cents);
      && PlansReport(t, check).Ok? && r in PlansReport(t, check).value
      && YearReport(t, d.year).Ok? && y in YearReport(t, d.year).value
      && r.period == d && y.period == FirstOfMonth(d) && r.category == ISSUANCE
    ensures ReportsAgree.YearFigures(y, ISSUANCE).actualSum == r.actualSum + cents
  {
    hide RowsOf, ReportOn, RowsFor, PlansReport, YearReport;
    var t := LatePlanTables(d, cents);
    ReportsAgree.FiguresAgreeExactlyWhen(t, check, r, y);
    SumOfOne(t.credits[0], ReportsAgree.BodyEarlier(d));
  }

  /** For every date that is not the first of a month and every positive amount, there are data files that the loader
      accepts and on which the reports show different actual sums once the month is over. */
  lemma SeededReportsCanDisagree(d: Date, cents: nat, width: nat, check: Date) returns (r: PlanPerformance, y: YearRow)
    requires d.day > 1 && cents > 0 && cents / 100 < Pow10(width)
    requires AtMost(EndOfMonth(d), check)
    ensures var t := LatePlanTables(d, cents);
      && LoadAll(EMPTY, LatePlanFiles(d, cents, width)) == Ok(LatePlanDatabase(d, cents))
      && Shows(t, LatePlanDatabase(d, cents), Orders([1], [1], [1], []))
      && PlansReport(t, check).Ok? && r in PlansReport(t, check).value
      && YearReport(t, d.year).Ok? && y in YearReport(t, d.year).value
      && r.period == d && y.period == FirstOfMonth(d) && r.category == ISSUANCE
      && ReportsAgree.YearFigures(y, ISSUANCE).actualSum == r.actualSum + cents
  {
    hide LoadAll, LatePlanFiles, LatePlanDatabase, LatePlanTables, Shows, PlansReport, YearReport;
    LatePlanIsSeeded(d, cents, width);
    LatePlanIsShown(d, cents);
    r, y := LatePlanRows(d, cents, check);
    LatePlanDiffers(d, cents, check, r, y);
  }
}
