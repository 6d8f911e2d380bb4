/** The tables and the meaning of the queries over them: filter, sum, group by month, order by.
    Amounts are whole cents, as the NUMERIC(18,2) columns store them. */
module Ledger {
  import opened Outcomes
  import opened Folds
  import opened Calendar

  datatype DictionaryEntry = DictionaryEntry(id: int, name: string)

  datatype Credit = Credit(id: int, userId: int, issuanceDate: Date, returnDate: Date,
                           actualReturnDate: Option<Date>, body: int, percent: int)

  datatype Payment = Payment(id: int, creditId: int, typeId: int, paymentDate: Date, sum: int)

  datatype Plan = Plan(period: Date, sum: int, categoryId: int)

  const ISSUANCE := "видача"
  const COLLECTION := "збір"
  const BODY := "тіло"
  const INTEREST := "відсотки"

  // The dictionary, as the two comprehensions {id: name} and {name: id} read it.

  function NameById(dictionary: seq<DictionaryEntry>, id: int): Option<string> {
    if dictionary == [] then None
    else
      var last := dictionary[|dictionary| - 1];
      if last.id == id then Some(last.name) else NameById(dictionary[..|dictionary| - 1], id)
  }

  function IdByName(dictionary: seq<DictionaryEntry>, name: string): Option<int> {
    if dictionary == [] then None
    else
      var last := dictionary[|dictionary| - 1];
      if last.name == name then Some(last.id) else IdByName(dictionary[..|dictionary| - 1], name)
  }

  /** The primary key and the unique constraint of the dictionary table. */
  predicate IsDictionary(dictionary: seq<DictionaryEntry>) {
    forall i, j :: 0 <= i < j < |dictionary| ==>
      dictionary[i].id != dictionary[j].id && dictionary[i].name != dictionary[j].name
  }

  lemma {:induction false} NameOfListed(dictionary: seq<DictionaryEntry>, id: int, name: string)
    requires IsDictionary(dictionary)
    ensures NameById(dictionary, id) == Some(name) <==> DictionaryEntry(id, name) in dictionary
    ensures IdByName(dictionary, name) == Some(id) <==> DictionaryEntry(id, name) in dictionary
  {
    if dictionary != [] {
      var init, last := dictionary[..|dictionary| - 1], dictionary[|dictionary| - 1];
      NameOfListed(init, id, name);
      assert dictionary == init + [last];
      if DictionaryEntry(id, name) in init {
        var i :| 0 <= i < |init| && init[i] == DictionaryEntry(id, name);
        assert dictionary[i] == DictionaryEntry(id, name);
      }
    }
  }

  // Sums and monthly groups over dated amounts.

  /** What the reports read from a credit (issuance date, body) or a payment (payment date, sum). */
  datatype Entry = Entry(date: Date, amount: int)

  function CreditEntry(c: Credit): Entry {
    Entry(c.issuanceDate, c.body)
  }

  function PaymentEntry(p: Payment): Entry {
    Entry(p.paymentDate, p.sum)
  }

  function Issued(credits: seq<Credit>): seq<Entry> {
    Map(credits, CreditEntry)
  }

  function Paid(payments: seq<Payment>): seq<Entry> {
    Map(payments, PaymentEntry)
  }

  function AmountWithin(start: Date, end: Date): Entry -> int {
    (e: Entry) => if AtMost(start, e.date) && AtMost(e.date, end) then e.amount else 0
  }

  /** SELECT COALESCE(SUM(amount), 0) WHERE start <= date AND date <= end. */
  function SumBetween(entries: seq<Entry>, start: Date, end: Date): int {
    SumOf(entries, AmountWithin(start, end))
  }

  // The same queries over the rows themselves: what they add up, and which rows they take.

  function BodyWithin(start: Date, end: Date): Credit -> int {
    (c: Credit) => if AtMost(start, c.issuanceDate) && AtMost(c.issuanceDate, end) then c.body else 0
  }

  function PaidWithin(start: Date, end: Date): Payment -> int {
    (p: Payment) => if AtMost(start, p.paymentDate) && AtMost(p.paymentDate, end) then p.sum else 0
  }

  function BodyIn(year: int, month: int): Credit -> int {
    (c: Credit) => if c.issuanceDate.year == year && c.issuanceDate.month == month then c.body else 0
  }

  function PaidIn(year: int, month: int): Payment -> int {
    (p: Payment) => if p.paymentDate.year == year && p.paymentDate.month == month then p.sum else 0
  }

  function IsIssuedIn(year: int, month: int): Credit -> int {
    (c: Credit) => if c.issuanceDate.year == year && c.issuanceDate.month == month then 1 else 0
  }

  function IsPaidIn(year: int, month: int): Payment -> int {
    (p: Payment) => if p.paymentDate.year == year && p.paymentDate.month == month then 1 else 0
  }

  function BodyInYear(year: int): Credit -> int {
    (c: Credit) => if c.issuanceDate.year == year then c.body else 0
  }

  function PaidInYear(year: int): Payment -> int {
    (p: Payment) => if p.paymentDate.year == year then p.sum else 0
  }

  function IsIssuedInYear(year: int): Credit -> int {
    (c: Credit) => if c.issuanceDate.year == year then 1 else 0
  }

  function IsPaidInYear(year: int): Payment -> int {
    (p: Payment) => if p.paymentDate.year == year then 1 else 0
  }

  /** A sum over the credits' entries is the sum over the credits, whether open or closed. */
  lemma OverCredits(credits: seq<Credit>, f: Entry -> int, g: Credit -> int)
    requires forall c :: c in credits ==> g(c) == f(Entry(c.issuanceDate, c.body))
    ensures SumOf(Issued(credits), f) == SumOf(credits, g)
  {
    SumMap(credits, CreditEntry, f, g);
  }

  lemma OverPayments(payments: seq<Payment>, f: Entry -> int, g: Payment -> int)
    requires forall p :: p in payments ==> g(p) == f(Entry(p.paymentDate, p.sum))
    ensures SumOf(Paid(payments), f) == SumOf(payments, g)
  {
    SumMap(payments, PaymentEntry, f, g);
  }

  function AmountIn(year: int, month: int): Entry -> int {
    (e: Entry) => if e.date.year == year && e.date.month == month then e.amount else 0
  }

  function OneIn(year: int, month: int): Entry -> int {
    (e: Entry) => if e.date.year == year && e.date.month == month then 1 else 0
  }

  function MonthTotal(entries: seq<Entry>, year: int, month: int): int {
    SumOf(entries, AmountIn(year, month))
  }

  function MonthCount(entries: seq<Entry>, year: int, month: int): int {
    SumOf(entries, OneIn(year, month))
  }

  function NumbersTo(n: nat): (r: seq<int>)
    ensures |r| == n && forall i :: 0 <= i < n ==> r[i] == i + 1
  {
    if n == 0 then [] else NumbersTo(n - 1) + [n]
  }

  const MONTHS: seq<int> := NumbersTo(12)

  lemma MonthAt(i: nat)
    requires i < 12
    ensures MONTHS[i] == i + 1
  {
  }

  lemma InMonths(m: int)
    ensures m in MONTHS <==> 1 <= m <= 12
  {
    if 1 <= m <= 12 {
      MonthAt(m - 1);
    }
  }

  datatype MonthStat = MonthStat(month: int, count: int, total: int)

  function HasRows(entries: seq<Entry>, year: int): int -> bool {
    (m: int) => MonthCount(entries, year, m) > 0
  }

  function StatOf(entries: seq<Entry>, year: int): int -> MonthStat {
    (m: int) => MonthStat(m, MonthCount(entries, year, m), MonthTotal(entries, year, m))
  }

  /** SELECT month, COUNT(id), SUM(amount) WHERE year GROUP BY month: one group per month that has rows. */
  function MonthlyStats(entries: seq<Entry>, year: int): seq<MonthStat> {
    Map(Filter(MONTHS, HasRows(entries, year)), StatOf(entries, year))
  }

  lemma {:induction false} MonthCounts(entries: seq<Entry>, year: int, month: int)
    ensures MonthCount(entries, year, month) >= 0
    ensures MonthCount(entries, year, month) > 0 <==>
            exists e :: e in entries && e.date.year == year && e.date.month == month
    ensures MonthCount(entries, year, month) == 0 ==> MonthTotal(entries, year, month) == 0
  {
    if entries != [] {
      var init, last := entries[..|entries| - 1], entries[|entries| - 1];
      MonthCounts(init, year, month);
      assert entries == init + [last];
      if e :| e in entries && e.date.year == year && e.date.month == month {
        assert e in init || e == last;
      }
    }
  }

  /** Grouping dated rows by the months of a year loses none and repeats none. */
  lemma GroupsAddUp<T(!new)>(rows: seq<T>, year: int, dateOf: T -> Date, inYear: T -> int,
                             inMonth: (int, T) -> int, group: int -> int)
    requires forall x, m :: x in rows && m in MONTHS ==>
      inMonth(m, x) == if dateOf(x).month == m then inYear(x) else 0
    requires forall m :: m in MONTHS ==> group(m) == SumOf(rows, AlongRow(inMonth, m))
    ensures SumOf(MONTHS, group) == SumOf(rows, inYear)
  {
    forall x | x in rows
      ensures inYear(x) == SumOf(MONTHS, AlongColumn(inMonth, x))
    {
      MonthAt(dateOf(x).month - 1);
      forall j | 0 <= j < 12
        ensures MONTHS[j] in MONTHS && MONTHS[j] == j + 1
      {
        MonthAt(j);
      }
      SumSingle(MONTHS, dateOf(x).month - 1, AlongColumn(inMonth, x));
    }
    SumExchange(MONTHS, rows, inMonth, group, inYear);
  }

  function OneInYear(year: int): Entry -> int {
    (e: Entry) => if e.date.year == year then 1 else 0
  }

  function AmountInYear(year: int): Entry -> int {
    (e: Entry) => if e.date.year == year then e.amount else 0
  }

  function TotalBy(entries: seq<Entry>, year: int): int -> int {
    (m: int) => MonthTotal(entries, year, m)
  }

  function CountBy(entries: seq<Entry>, year: int): int -> int {
    (m: int) => MonthCount(entries, year, m)
  }

  function DateOf(): Entry -> Date {
    (e: Entry) => e.date
  }

  lemma MonthlyTotalsAddUp(entries: seq<Entry>, year: int)
    ensures SumOf(MONTHS, TotalBy(entries, year)) == SumOf(entries, AmountInYear(year))
  {
    var amount := (m: int, e: Entry) => AmountIn(year, m)(e);
    forall m | m in MONTHS
      ensures TotalBy(entries, year)(m) == SumOf(entries, AlongRow(amount, m))
    {
      SumCongruent(entries, AmountIn(year, m), AlongRow(amount, m));
    }
    GroupsAddUp(entries, year, DateOf(), AmountInYear(year), amount, TotalBy(entries, year));
  }

  lemma MonthlyCountsAddUp(entries: seq<Entry>, year: int)
    ensures SumOf(MONTHS, CountBy(entries, year)) == SumOf(entries, OneInYear(year))
  {
    var one := (m: int, e: Entry) => OneIn(year, m)(e);
    forall m | m in MONTHS
      ensures CountBy(entries, year)(m) == SumOf(entries, AlongRow(one, m))
    {
      SumCongruent(entries, OneIn(year, m), AlongRow(one, m));
    }
    GroupsAddUp(entries, year, DateOf(), OneInYear(year), one, CountBy(entries, year));
  }

  /** The twelve monthly sums of a year add up to the year's sum, and likewise the counts. */
  lemma MonthlySumsAddUp(entries: seq<Entry>, year: int)
    ensures SumOf(MONTHS, TotalBy(entries, year)) == SumOf(entries, AmountInYear(year))
    ensures SumOf(MONTHS, CountBy(entries, year)) == SumOf(entries, OneInYear(year))
  {
    MonthlyTotalsAddUp(entries, year);
    MonthlyCountsAddUp(entries, year);
  }

  function StatTotal(s: MonthStat): int { s.total }

  /** The totals of the groups the query returns add up to the year, although empty months have no group. */
  lemma StatsAddUp(entries: seq<Entry>, year: int)
    ensures SumOf(MonthlyStats(entries, year), StatTotal) == SumOf(entries, AmountInYear(year))
  {
    var months := Filter(MONTHS, HasRows(entries, year));
    SumMap(months, StatOf(entries, year), StatTotal, TotalBy(entries, year));
    forall m | m in MONTHS
      ensures TotalBy(entries, year)(m) == if HasRows(entries, year)(m) then TotalBy(entries, year)(m) else 0
    {
      MonthCounts(entries, year, m);
    }
    SumFilter(MONTHS, HasRows(entries, year), TotalBy(entries, year), TotalBy(entries, year));
    MonthlySumsAddUp(entries, year);
  }

  /** A month's range sum and its group sum read the same rows. */
  lemma RangeIsGroup(entries: seq<Entry>, period: Date)
    requires period.day == 1
    ensures SumBetween(entries, period, EndOfMonth(period)) == MonthTotal(entries, period.year, period.month)
  {
    forall e | e in entries
      ensures AmountWithin(period, EndOfMonth(period))(e) == AmountIn(period.year, period.month)(e)
    {
      WindowIsMonth(period, e.date);
    }
    SumCongruent(entries, AmountWithin(period, EndOfMonth(period)), AmountIn(period.year, period.month));
  }

  /** The tables the reports read. */
  datatype Tables = Tables(dictionary: seq<DictionaryEntry>, plans: seq<Plan>,
                           credits: seq<Credit>, payments: seq<Payment>)

  // The plan table.

  function Key(p: Plan): (Date, int) {
    (p.period, p.categoryId)
  }

  /** The unique constraint uq_plans_period_category. */
  predicate UniqueKeys(plans: seq<Plan>) {
    forall i, j :: 0 <= i < j < |plans| ==> Key(plans[i]) != Key(plans[j])
  }

  predicate KeyStored(plans: seq<Plan>, key: (Date, int)) {
    exists p :: p in plans && Key(p) == key
  }

  predicate KeyAtMost(p: Plan, q: Plan) {
    Before(p.period, q.period) || (p.period == q.period && p.categoryId <= q.categoryId)
  }

  predicate IsSorted(plans: seq<Plan>) {
    forall i, j :: 0 <= i < j < |plans| ==> KeyAtMost(plans[i], plans[j])
  }

  lemma KeyOrder(p: Plan, q: Plan, r: Plan)
    ensures KeyAtMost(p, q) || KeyAtMost(q, p)
    ensures KeyAtMost(p, q) && KeyAtMost(q, r) ==> KeyAtMost(p, r)
  {
  }

  function InsertPlan(sorted: seq<Plan>, p: Plan): (r: seq<Plan>)
    ensures |r| == |sorted| + 1
  {
    if sorted == [] || KeyAtMost(sorted[|sorted| - 1], p) then sorted + [p]
    else InsertPlan(sorted[..|sorted| - 1], p) + [sorted[|sorted| - 1]]
  }

  lemma {:induction false} InsertedPlan(sorted: seq<Plan>, p: Plan)
    ensures multiset(InsertPlan(sorted, p)) == multiset(sorted) + multiset{p}
    ensures forall x :: x in InsertPlan(sorted, p) <==> x in sorted || x == p
  {
    if sorted != [] {
      InsertedPlan(sorted[..|sorted| - 1], p);
      assert sorted == sorted[..|sorted| - 1] + [sorted[|sorted| - 1]];
    }
  }

  lemma {:induction false} InsertKeepsOrder(sorted: seq<Plan>, p: Plan)
    requires IsSorted(sorted)
    ensures IsSorted(InsertPlan(sorted, p))
  {
    if sorted != [] {
      var init, last := sorted[..|sorted| - 1], sorted[|sorted| - 1];
      if KeyAtMost(last, p) {
        forall i | 0 <= i < |sorted|
          ensures KeyAtMost(sorted[i], p)
        {
          KeyOrder(sorted[i], last, p);
        }
      } else {
        InsertKeepsOrder(init, p);
        InsertedPlan(init, p);
        KeyOrder(last, p, last);
        var r := InsertPlan(init, p);
        forall i | 0 <= i < |r|
          ensures KeyAtMost(r[i], last)
        {
          assert r[i] in r;
          if r[i] in init {
            var k :| 0 <= k < |init| && init[k] == r[i];
            assert KeyAtMost(sorted[k], last);
          }
        }
      }
    }
  }

  /** ORDER BY period, category_id. */
  function OrderPlans(plans: seq<Plan>): (r: seq<Plan>)
    ensures |r| == |plans|
  {
    if plans == [] then []
    else InsertPlan(OrderPlans(plans[..|plans| - 1]), plans[|plans| - 1])
  }

  /** The ordered list is sorted and holds the same rows. */
  lemma {:induction false} OrderedPlans(plans: seq<Plan>)
    ensures IsSorted(OrderPlans(plans))
    ensures multiset(OrderPlans(plans)) == multiset(plans)
    ensures forall p :: p in OrderPlans(plans) <==> p in plans
  {
    if plans != [] {
      var init, last := plans[..|plans| - 1], plans[|plans| - 1];
      assert plans == init + [last];
      OrderedPlans(init);
      InsertedPlan(OrderPlans(init), last);
      InsertKeepsOrder(OrderPlans(init), last);
    }
  }

  function DueBy(date: Date): Plan -> bool {
    (p: Plan) => AtMost(p.period, date)
  }

  function ListUpTo(plans: seq<Plan>, date: Date): seq<Plan> {
    OrderPlans(Filter(plans, DueBy(date)))
  }

  function OfYear(year: int): Plan -> bool {
    (p: Plan) => p.period.year == year
  }

  function ListForYear(plans: seq<Plan>, year: int): seq<Plan> {
    OrderPlans(Filter(plans, OfYear(year)))
  }

  lemma {:induction false} InsertIntoFiltered(sorted: seq<Plan>, x: Plan, p: Plan -> bool)
    requires IsSorted(sorted) && p(x)
    ensures Filter(InsertPlan(sorted, x), p) == InsertPlan(Filter(sorted, p), x)
  {
    var kept := Filter(sorted, p);
    if sorted != [] {
      var init, last := sorted[..|sorted| - 1], sorted[|sorted| - 1];
      if KeyAtMost(last, x) {
        assert (sorted + [x])[..|sorted|] == sorted;
        if kept != [] {
          assert kept[|kept| - 1] in sorted;
          var i :| 0 <= i < |sorted| && sorted[i] == kept[|kept| - 1];
          KeyOrder(sorted[i], last, x);
        }
      } else {
        InsertIntoFiltered(init, x, p);
        var r := InsertPlan(sorted, x);
        assert r[..|r| - 1] == InsertPlan(init, x) && r[|r| - 1] == last;
        if p(last) {
          assert kept[..|kept| - 1] == Filter(init, p);
        }
      }
    } else {
      assert [x][..0] == [];
    }
  }

  lemma {:induction false} InsertFilteredOut(sorted: seq<Plan>, x: Plan, p: Plan -> bool)
    requires !p(x)
    ensures Filter(InsertPlan(sorted, x), p) == Filter(sorted, p)
  {
    var r := InsertPlan(sorted, x);
    if sorted == [] || KeyAtMost(sorted[|sorted| - 1], x) {
      assert r[..|r| - 1] == sorted;
    } else {
      InsertFilteredOut(sorted[..|sorted| - 1], x, p);
      assert r[..|r| - 1] == InsertPlan(sorted[..|sorted| - 1], x);
    }
  }

  /** Filtering before ordering is filtering after ordering. */
  lemma {:induction false} FilterOrdered(plans: seq<Plan>, p: Plan -> bool)
    ensures OrderPlans(Filter(plans, p)) == Filter(OrderPlans(plans), p)
  {
    if plans != [] {
      var init, last := plans[..|plans| - 1], plans[|plans| - 1];
      FilterOrdered(init, p);
      OrderedPlans(init);
      if p(last) {
        InsertIntoFiltered(OrderPlans(init), last, p);
        var kept := Filter(plans, p);
        assert kept[..|kept| - 1] == Filter(init, p);
      } else {
        InsertFilteredOut(OrderPlans(init), last, p);
      }
    }
  }

  lemma {:induction false} DueIsPrefix(sorted: seq<Plan>, early: Date, late: Date)
    requires IsSorted(sorted) && AtMost(early, late)
    ensures Filter(sorted, DueBy(early)) <= Filter(sorted, DueBy(late))
  {
    hide IsValid;
    if sorted != [] {
      var init, last := sorted[..|sorted| - 1], sorted[|sorted| - 1];
      DueIsPrefix(init, early, late);
      if AtMost(last.period, early) {
        assert forall p :: p in init ==> KeyAtMost(p, last);
        AllDue(init, early);
        AllDue(init, late);
      }
    }
  }

  lemma {:induction false} AllDue(plans: seq<Plan>, date: Date)
    requires forall p :: p in plans ==> AtMost(p.period, date)
    ensures Filter(plans, DueBy(date)) == plans
  {
    hide AtMost;
    if plans != [] {
      var init, last := plans[..|plans| - 1], plans[|plans| - 1];
      AllDue(init, date);
      assert DueBy(date)(last) && plans == init + [last];
      assert Filter(plans, DueBy(date)) == Filter(init, DueBy(date)) + [last];
    }
  }

  /** Moving the date forward only appends plans to the list, in any table. */
  lemma ListUpToGrows(plans: seq<Plan>, early: Date, late: Date)
    requires AtMost(early, late)
    ensures ListUpTo(plans, early) <= ListUpTo(plans, late)
  {
    FilterOrdered(plans, DueBy(early));
    FilterOrdered(plans, DueBy(late));
    OrderedPlans(plans);
    DueIsPrefix(OrderPlans(plans), early, late);
  }
}
