/** The credits of one user: one pass buckets the payments, a second builds the views. */
module UserCredits {
  import opened Outcomes
  import opened Folds
  import opened Calendar
  import opened Ledger

  datatype CreditView =
    | Closed(issuanceDate: Date, returnDate: Date, body: int, percent: int, totalPayments: int)
    | Open(issuanceDate: Date, returnDate: Date, overdueDays: int, body: int, percent: int,
           bodyPayments: int, interestPayments: int)

  datatype Failure = UserNotFound(userId: int)

  // The two queries. The database may return rows that tie in any order, so a result is any list
  // that the query allows.

  function OfUser(userId: int): Credit -> bool {
    (c: Credit) => c.userId == userId
  }

  /** WHERE user_id ORDER BY issuance_date. */
  predicate IsListByUser(listed: seq<Credit>, table: seq<Credit>, userId: int) {
    && multiset(listed) == multiset(Filter(table, OfUser(userId)))
    && forall i, j :: 0 <= i < j < |listed| ==> AtMost(listed[i].issuanceDate, listed[j].issuanceDate)
  }

  predicate IsId(credits: seq<Credit>, id: int) {
    exists c :: c in credits && c.id == id
  }

  function OnCredits(credits: seq<Credit>): Payment -> bool {
    (p: Payment) => IsId(credits, p.creditId)
  }

  /** WHERE credit_id IN (ids of the credits), in no particular order. */
  predicate IsListByCredits(paid: seq<Payment>, table: seq<Payment>, credits: seq<Credit>) {
    multiset(paid) == multiset(Filter(table, OnCredits(credits)))
  }

  // The reference reading: filter all payments by credit and by type, and add up.

  function OfCredit(id: int): Payment -> int {
    (p: Payment) => if p.creditId == id then p.sum else 0
  }

  function OfCreditAndType(dictionary: seq<DictionaryEntry>, id: int, name: string): Payment -> int {
    (p: Payment) => if p.creditId == id && NameById(dictionary, p.typeId) == Some(name) then p.sum else 0
  }

  function CreditTotal(payments: seq<Payment>, id: int): int {
    SumOf(payments, OfCredit(id))
  }

  function TypeTotal(payments: seq<Payment>, dictionary: seq<DictionaryEntry>, id: int, name: string): int {
    SumOf(payments, OfCreditAndType(dictionary, id, name))
  }

  function OverdueDays(returnDate: Date, today: Date): int {
    var days := DaysFrom(returnDate, today);
    if days > 0 then days else 0
  }

  function ViewOf(c: Credit, payments: seq<Payment>, dictionary: seq<DictionaryEntry>, today: Date): CreditView {
    match c.actualReturnDate
    case Some(returned) => Closed(c.issuanceDate, returned, c.body, c.percent, CreditTotal(payments, c.id))
    case None => Open(c.issuanceDate, c.returnDate, OverdueDays(c.returnDate, today), c.body, c.percent,
                      TypeTotal(payments, dictionary, c.id, BODY), TypeTotal(payments, dictionary, c.id, INTEREST))
  }

  function ViewBy(payments: seq<Payment>, dictionary: seq<DictionaryEntry>, today: Date): Credit -> CreditView {
    (c: Credit) => ViewOf(c, payments, dictionary, today)
  }

  function Views(credits: seq<Credit>, payments: seq<Payment>, dictionary: seq<DictionaryEntry>, today: Date)
    : seq<CreditView>
  {
    Map(credits, ViewBy(payments, dictionary, today))
  }

  // The computation.

  datatype Bucket = Bucket(body: int, interest: int)

  function TotalIn(totals: map<int, int>, id: int): int {
    if id in totals then totals[id] else 0
  }

  function BucketIn(byType: map<int, Bucket>, id: int): Bucket {
    if id in byType then byType[id] else Bucket(0, 0)
  }

  function Add(b: Bucket, name: string, amount: int): Bucket {
    if name == BODY then b.(body := b.body + amount) else b.(interest := b.interest + amount)
  }

  ghost predicate Buckets(totals: map<int, int>, byType: map<int, Bucket>, paid: seq<Payment>,
                    dictionary: seq<DictionaryEntry>) {
    forall id :: && TotalIn(totals, id) == CreditTotal(paid, id)
                 && BucketIn(byType, id).body == TypeTotal(paid, dictionary, id, BODY)
                 && BucketIn(byType, id).interest == TypeTotal(paid, dictionary, id, INTEREST)
  }

  lemma OneMorePayment(paid: seq<Payment>, i: nat, dictionary: seq<DictionaryEntry>, id: int)
    requires i < |paid|
    ensures CreditTotal(paid[..i + 1], id) == CreditTotal(paid[..i], id) + OfCredit(id)(paid[i])
    ensures forall name ::
      TypeTotal(paid[..i + 1], dictionary, id, name)
      == TypeTotal(paid[..i], dictionary, id, name) + OfCreditAndType(dictionary, id, name)(paid[i])
  {
    SumSnoc(paid, i, OfCredit(id));
    forall name
      ensures TypeTotal(paid[..i + 1], dictionary, id, name)
              == TypeTotal(paid[..i], dictionary, id, name) + OfCreditAndType(dictionary, id, name)(paid[i])
    {
      SumSnoc(paid, i, OfCreditAndType(dictionary, id, name));
    }
  }

  /** The first loop: one pass over the payments fills both dictionaries. */
  method BucketPayments(paid: seq<Payment>, dictionary: seq<DictionaryEntry>)
    returns (totals: map<int, int>, byType: map<int, Bucket>)
    ensures Buckets(totals, byType, paid, dictionary)
  {
    totals, byType := map[], map[];
    assert |BODY| != |INTEREST|;
    for i := 0 to |paid|
      invariant Buckets(totals, byType, paid[..i], dictionary)
    {
      var payment := paid[i];
      forall id
        ensures CreditTotal(paid[..i + 1], id) == CreditTotal(paid[..i], id) + OfCredit(id)(payment)
        ensures forall name :: TypeTotal(paid[..i + 1], dictionary, id, name)
                  == TypeTotal(paid[..i], dictionary, id, name) + OfCreditAndType(dictionary, id, name)(payment)
      {
        OneMorePayment(paid, i, dictionary, id);
      }
      totals := totals[payment.creditId := TotalIn(totals, payment.creditId) + payment.sum];
      var typeName := NameById(dictionary, payment.typeId);
      if typeName == Some(BODY) || typeName == Some(INTEREST) {
        byType := byType[payment.creditId := Add(BucketIn(byType, payment.creditId), typeName.value, payment.sum)];
      }
    }
    assert paid[..|paid|] == paid;
  }

  lemma QueriedMeansAll(paid: seq<Payment>, table: seq<Payment>, credits: seq<Credit>, c: Credit, f: Payment -> int)
    requires IsListByCredits(paid, table, credits) && c in credits
    requires forall p: Payment :: p.creditId != c.id ==> f(p) == 0
    ensures SumOf(paid, f) == SumOf(table, f)
  {
    SumPermuted(paid, Filter(table, OnCredits(credits)), f);
    SumFilter(table, OnCredits(credits), f, f);
  }

  lemma BucketsAnswer(totals: map<int, int>, byType: map<int, Bucket>, payments: seq<Payment>, table: seq<Payment>,
                      dictionary: seq<DictionaryEntry>, credits: seq<Credit>, c: Credit)
    requires Buckets(totals, byType, payments, dictionary)
    requires IsListByCredits(payments, table, credits) && c in credits
    ensures TotalIn(totals, c.id) == CreditTotal(table, c.id)
    ensures BucketIn(byType, c.id) == Bucket(TypeTotal(table, dictionary, c.id, BODY),
                                             TypeTotal(table, dictionary, c.id, INTEREST))
  {
    QueriedMeansAll(payments, table, credits, c, OfCredit(c.id));
    QueriedMeansAll(payments, table, credits, c, OfCreditAndType(dictionary, c.id, BODY));
    QueriedMeansAll(payments, table, credits, c, OfCreditAndType(dictionary, c.id, INTEREST));
  }

  /** The body of the second loop. */
  method BuildView(credit: Credit, totals: map<int, int>, byType: map<int, Bucket>, today: Date,
                   ghost payments: seq<Payment>, ghost dictionary: seq<DictionaryEntry>)
    returns (v: CreditView)
    requires TotalIn(totals, credit.id) == CreditTotal(payments, credit.id)
    requires BucketIn(byType, credit.id) == Bucket(TypeTotal(payments, dictionary, credit.id, BODY),
                                                   TypeTotal(payments, dictionary, credit.id, INTEREST))
    ensures v == ViewOf(credit, payments, dictionary, today)
  {
    hide CreditTotal, TypeTotal, DaysFrom;
    if credit.actualReturnDate.Some? {
      return Closed(credit.issuanceDate, credit.actualReturnDate.value, credit.body, credit.percent,
                    TotalIn(totals, credit.id));
    }
    var days := DaysFrom(credit.returnDate, today);
    var bucket := BucketIn(byType, credit.id);
    return Open(credit.issuanceDate, credit.returnDate, if days > 0 then days else 0,
                credit.body, credit.percent, bucket.body, bucket.interest);
  }

  // Overdue days.

  /** Overdue days are positive exactly when today is after the return date, and then count the calendar
      days from one to the other; otherwise they are 0. */
  lemma OverdueMeaning(returnDate: Date, today: Date)
    ensures OverdueDays(returnDate, today) > 0 <==> Before(returnDate, today)
    ensures OverdueDays(returnDate, today) >= 0
    ensures !Before(today, returnDate) ==> IsDaysLater(returnDate, OverdueDays(returnDate, today), today)
  {
    DayNumberOrder(returnDate, today);
    DayNumberOrder(today, returnDate);
    if !Before(today, returnDate) {
      DaysFromCountsSteps(returnDate, today, OverdueDays(returnDate, today));
    }
  }

  /** From the return date on, each calendar day adds exactly one overdue day. */
  lemma OverdueGrowsDaily(returnDate: Date, today: Date)
    requires !IsLastDate(today) && !Before(today, returnDate)
    ensures OverdueDays(returnDate, NextDay(today)) == OverdueDays(returnDate, today) + 1
  {
    DayNumberOrder(today, returnDate);
    NextDayNumber(today);
  }

  // What a view shows.

  /** Days overdue: none unless today is after the return date, and then the calendar days from one to the other. */
  ghost predicate IsOverdueBy(days: int, returnDate: Date, today: Date) {
    if Before(returnDate, today) then days >= 0 && IsDaysLater(returnDate, days, today) else days == 0
  }

  /** What a view shows of its credit, field by field. */
  ghost predicate Shows(v: CreditView, c: Credit, payments: seq<Payment>, dictionary: seq<DictionaryEntry>,
                        today: Date)
  {
    && (v.Closed? <==> c.actualReturnDate.Some?)
    && v.issuanceDate == c.issuanceDate && v.body == c.body && v.percent == c.percent
    && (v.Closed? ==> v.returnDate == c.actualReturnDate.value && v.totalPayments == SumOf(payments, OfCredit(c.id)))
    && (v.Open? ==>
          && v.returnDate == c.returnDate && IsOverdueBy(v.overdueDays, c.returnDate, today)
          && v.bodyPayments == SumOf(payments, OfCreditAndType(dictionary, c.id, "тіло"))
          && v.interestPayments == SumOf(payments, OfCreditAndType(dictionary, c.id, "відсотки")))
  }

  /** A closed credit is shown with its actual return date and everything paid on it; an open one with the agreed return
      date, the days overdue, and what was paid of the body and of the interest. */
  lemma ViewShowsCredit(c: Credit, payments: seq<Payment>, dictionary: seq<DictionaryEntry>, today: Date)
    ensures Shows(ViewOf(c, payments, dictionary, today), c, payments, dictionary, today)
  {
    hide DaysFrom;
    OverdueMeaning(c.returnDate, today);
  }

  lemma ViewAt(credits: seq<Credit>, payments: seq<Payment>, dictionary: seq<DictionaryEntry>, today: Date, i: nat)
    requires i < |credits|
    ensures |Views(credits, payments, dictionary, today)| == |credits|
    ensures Views(credits, payments, dictionary, today)[i] == ViewOf(credits[i], payments, dictionary, today)
  {
  }

  lemma ViewsShow(credits: seq<Credit>, payments: seq<Payment>, dictionary: seq<DictionaryEntry>, today: Date)
    ensures |Views(credits, payments, dictionary, today)| == |credits|
    ensures forall i :: 0 <= i < |credits| ==>
      Shows(Views(credits, payments, dictionary, today)[i], credits[i], payments, dictionary, today)
  {
    hide ViewOf, Shows;
    forall i | 0 <= i < |credits|
      ensures Shows(Views(credits, payments, dictionary, today)[i], credits[i], payments, dictionary, today)
    {
      ViewShowsCredit(credits[i], payments, dictionary, today);
    }
  }

  predicate InIssuanceOrder(views: seq<CreditView>) {
    forall i, j :: 0 <= i < j < |views| ==> AtMost(views[i].issuanceDate, views[j].issuanceDate)
  }

  lemma ViewsKeepOrder(credits: seq<Credit>, payments: seq<Payment>, dictionary: seq<DictionaryEntry>, today: Date)
    requires forall i, j :: 0 <= i < j < |credits| ==> AtMost(credits[i].issuanceDate, credits[j].issuanceDate)
    ensures InIssuanceOrder(Views(credits, payments, dictionary, today))
  {
    var views := Views(credits, payments, dictionary, today);
    assert forall i :: 0 <= i < |views| ==> views[i].issuanceDate == credits[i].issuanceDate;
  }

  /** The query lists each of the user's credits as often as the table holds it, and no other credit. */
  lemma ListedCredits(listed: seq<Credit>, table: seq<Credit>, userId: int)
    requires IsListByUser(listed, table, userId)
    ensures forall c: Credit :: multiset(listed)[c] == if c.userId == userId then multiset(table)[c] else 0
  {
    FilterMultiplicity(table, OfUser(userId));
    forall c: Credit
      ensures multiset(listed)[c] == if c.userId == userId then multiset(table)[c] else 0
    {
      assert OfUser(userId)(c) == (c.userId == userId);
    }
  }

  /** For whatever order the two queries answer in, every credit is shown once, in issuance order, with the
      payment sums that filtering the whole payment table by credit and type gives. */
  method Execute(users: set<int>, userId: int, today: Date, dictionary: seq<DictionaryEntry>,
                 ghost creditTable: seq<Credit>, ghost paymentTable: seq<Payment>,
                 credits: seq<Credit>, payments: seq<Payment>)
    returns (r: Result<seq<CreditView>, Failure>)
    requires IsListByUser(credits, creditTable, userId)
    requires IsListByCredits(payments, paymentTable, credits)
    ensures r == if userId in users then Ok(Views(credits, paymentTable, dictionary, today))
                 else Err(UserNotFound(userId))
    ensures r.Ok? ==> InIssuanceOrder(r.value)
    ensures r.Ok? ==>
      |r.value| == |credits| && forall i :: 0 <= i < |credits| ==>
        Shows(r.value[i], credits[i], paymentTable, dictionary, today)
  {
    if userId !in users {
      return Err(UserNotFound(userId));
    }
    hide Buckets, ViewOf, Views, Shows, InIssuanceOrder, CreditTotal, TypeTotal, TotalIn, BucketIn;
    ViewsShow(credits, paymentTable, dictionary, today);
    ghost var views := Views(credits, paymentTable, dictionary, today);
    if credits == [] {
      return Ok([]);
    }
    var totals, byType := BucketPayments(payments, dictionary);
    var result: seq<CreditView> := [];
    for i := 0 to |credits|
      invariant result == views[..i]
    {
      BucketsAnswer(totals, byType, payments, paymentTable, dictionary, credits, credits[i]);
      var view := BuildView(credits[i], totals, byType, today, paymentTable, dictionary);
      ViewAt(credits, paymentTable, dictionary, today, i);
      result := result + [view];
    }
    assert views[..|credits|] == views;
    ViewsKeepOrder(credits, paymentTable, dictionary, today);
    return Ok(result);
  }

  // Nothing paid is lost.

  predicate BodyOrInterest(dictionary: seq<DictionaryEntry>, p: Payment) {
    NameById(dictionary, p.typeId) == Some(BODY) || NameById(dictionary, p.typeId) == Some(INTEREST)
  }

  function OfOtherType(dictionary: seq<DictionaryEntry>, id: int): Payment -> int {
    (p: Payment) => if p.creditId == id && !BodyOrInterest(dictionary, p) then p.sum else 0
  }

  /** A credit's total is its body payments, its interest payments and its payments of any other type. */
  lemma TotalSplitsByType(payments: seq<Payment>, dictionary: seq<DictionaryEntry>, id: int)
    ensures CreditTotal(payments, id)
            == TypeTotal(payments, dictionary, id, BODY) + TypeTotal(payments, dictionary, id, INTEREST)
               + SumOf(payments, OfOtherType(dictionary, id))
  {
    assert |BODY| != |INTEREST|;
    var body, interest := OfCreditAndType(dictionary, id, BODY), OfCreditAndType(dictionary, id, INTEREST);
    var typed := (p: Payment) => body(p) + interest(p);
    SumAdd(payments, body, interest, typed);
    SumAdd(payments, typed, OfOtherType(dictionary, id), OfCredit(id));
  }

  function ShownPayments(v: CreditView): int {
    match v
    case Closed(_, _, _, _, total) => total
    case Open(_, _, _, _, _, body, interest) => body + interest
  }

  predicate DistinctIds(credits: seq<Credit>) {
    forall i, j :: 0 <= i < j < |credits| ==> credits[i].id != credits[j].id
  }

  function OnAny(credits: seq<Credit>): Payment -> int {
    (p: Payment) => if IsId(credits, p.creditId) then p.sum else 0
  }

  function ShownFor(payments: seq<Payment>, dictionary: seq<DictionaryEntry>, today: Date): Credit -> int {
    (c: Credit) => ShownPayments(ViewOf(c, payments, dictionary, today))
  }

  function PaidOn(): (Credit, Payment) -> int {
    (c: Credit, p: Payment) => if p.creditId == c.id then p.sum else 0
  }

  /** When every payment on the credits is of type body or interest, what the views show, totals for closed
      credits and the two buckets for open ones, adds up to every payment on those credits, once each. */
  lemma EveryPaymentIsShown(credits: seq<Credit>, payments: seq<Payment>, dictionary: seq<DictionaryEntry>, today: Date)
    requires DistinctIds(credits)
    requires forall p :: p in payments && IsId(credits, p.creditId) ==> BodyOrInterest(dictionary, p)
    ensures SumOf(Views(credits, payments, dictionary, today), ShownPayments) == SumOf(payments, OnAny(credits))
  {
    forall c | c in credits
      ensures ShownFor(payments, dictionary, today)(c) == SumOf(payments, AlongRow(PaidOn(), c))
    {
      SumCongruent(payments, OfCredit(c.id), AlongRow(PaidOn(), c));
      TotalSplitsByType(payments, dictionary, c.id);
      SumZero(payments, OfOtherType(dictionary, c.id));
    }
    forall p | p in payments
      ensures OnAny(credits)(p) == SumOf(credits, AlongColumn(PaidOn(), p))
    {
      if IsId(credits, p.creditId) {
        var c :| c in credits && c.id == p.creditId;
        var i :| 0 <= i < |credits| && credits[i] == c;
        SumSingle(credits, i, AlongColumn(PaidOn(), p));
      } else {
        SumZero(credits, AlongColumn(PaidOn(), p));
      }
    }
    SumMap(credits, ViewBy(payments, dictionary, today), ShownPayments, ShownFor(payments, dictionary, today));
    SumExchange(credits, payments, PaidOn(), ShownFor(payments, dictionary, today), OnAny(credits));
  }
}
