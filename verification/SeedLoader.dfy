/** Seeding the five tables from CSV records: rows whose ids exist are skipped, the rest are parsed and added. */
module SeedLoader {
  import opened Arithmetic
  import opened Outcomes
  import opened Calendar
  import opened Texts
  import opened DateText
  import NumberText
  import opened Numerals
  import InsertPlans
  import PlansParser

  /** One CSV line: its id column and its other columns, all text. */
  datatype Record<+F> = Record(id: string, fields: F)

  datatype SeedError = BadValue | ConstraintViolated

  // Column readers.

  function ParseInt(s: string): Option<int> {
    NumberText.Integer(Strip(s))
  }

  /** Blank is NULL; otherwise one of the two CSV formats. */
  function ParseDate(s: string): Result<Option<Date>, SeedError> {
    var value := Strip(s);
    if value == "" then Ok(None)
    else match TryFormats(value, CSV_FORMATS)
      case Some(d) => Ok(Some(d))
      case None => Err(BadValue)
  }

  /** Blank counts as zero. */
  function ParseMoney(s: string): Result<int, SeedError> {
    if Strip(s) == "" then Ok(0)
    else match NumberText.ParseAmount(Strip(s))
      case Some(a) => Ok(InsertPlans.ToCents(a))
      case None => Err(BadValue)
  }

  function ParseId(s: string): Result<int, SeedError> {
    match ParseInt(s)
    case Some(n) => Ok(n)
    case None => Err(BadValue)
  }

  // Rows of the five tables; a None in a required date column violates NOT NULL.

  datatype UserFields = UserFields(login: string, registrationDate: string)
  datatype UserRow = UserRow(login: string, registrationDate: Option<Date>)

  datatype EntryFields = EntryFields(name: string)
  datatype EntryRow = EntryRow(name: string)

  datatype CreditFields = CreditFields(userId: string, issuanceDate: string, returnDate: string,
                                       actualReturnDate: string, body: string, percent: string)
  datatype CreditRow = CreditRow(userId: int, issuanceDate: Option<Date>, returnDate: Option<Date>,
                                 actualReturnDate: Option<Date>, body: int, percent: int)

  datatype PlanFields = PlanFields(period: string, sum: string, categoryId: string)
  datatype PlanRecord = PlanRecord(period: Option<Date>, sum: int, categoryId: int)

  datatype PaymentFields = PaymentFields(creditId: string, paymentDate: string, typeId: string, sum: string)
  datatype PaymentRow = PaymentRow(creditId: int, typeId: int, paymentDate: Option<Date>, sum: int)

  function ReadUser(f: UserFields): Result<UserRow, SeedError> {
    var registered :- ParseDate(f.registrationDate);
    Ok(UserRow(f.login, registered))
  }

  function ReadEntry(f: EntryFields): Result<EntryRow, SeedError> {
    Ok(EntryRow(f.name))
  }

  function ReadCredit(f: CreditFields): Result<CreditRow, SeedError> {
    var userId :- ParseId(f.userId);
    var issued :- ParseDate(f.issuanceDate);
    var due :- ParseDate(f.returnDate);
    var returned :- ParseDate(f.actualReturnDate);
    var body :- ParseMoney(f.body);
    var percent :- ParseMoney(f.percent);
    Ok(CreditRow(userId, issued, due, returned, body, percent))
  }

  function ReadPlan(f: PlanFields): Result<PlanRecord, SeedError> {
    var period :- ParseDate(f.period);
    var sum :- ParseMoney(f.sum);
    var categoryId :- ParseId(f.categoryId);
    Ok(PlanRecord(period, sum, categoryId))
  }

  function ReadPayment(f: PaymentFields): Result<PaymentRow, SeedError> {
    var creditId :- ParseId(f.creditId);
    var paid :- ParseDate(f.paymentDate);
    var typeId :- ParseId(f.typeId);
    var sum :- ParseMoney(f.sum);
    Ok(PaymentRow(creditId, typeId, paid, sum))
  }

  // Loading one table.

  /** The table with the new records added. `existing` is the set of ids queried before the file is read, so a
      record with such an id is skipped unread; an id repeated among the new records violates the primary key. */
  function AddNew<F, R>(existing: set<int>, table: map<int, R>, records: seq<Record<F>>,
                        read: F -> Result<R, SeedError>): Result<map<int, R>, SeedError>
  {
    if records == [] then Ok(table)
    else
      var last := records[|records| - 1];
      var before :- AddNew(existing, table, records[..|records| - 1], read);
      var id :- ParseId(last.id);
      if id in existing then Ok(before)
      else
        var row :- read(last.fields);
        if id in before then Err(ConstraintViolated) else Ok(before[id := row])
  }

  /** A missing file loads nothing. */
  function Load<F, R>(table: map<int, R>, file: Option<seq<Record<F>>>, read: F -> Result<R, SeedError>)
    : Result<map<int, R>, SeedError>
  {
    match file
    case None => Ok(table)
    case Some(records) => AddNew(table.Keys, table, records, read)
  }

  /** A successful load leaves every existing row as it was, has a row for every id in the file, and every row
      it added is what the reader makes of a record of the file. */
  lemma {:induction false} LoadedRows<F(!new), R(!new)>(existing: set<int>, table: map<int, R>, records: seq<Record<F>>,
                                                        read: F -> Result<R, SeedError>)
    requires existing == table.Keys && AddNew(existing, table, records, read).Ok?
    ensures var after := AddNew(existing, table, records, read).value;
      && (forall id :: id in table ==> id in after && after[id] == table[id])
      && (forall r :: r in records ==> ParseId(r.id).Ok? && ParseId(r.id).value in after)
      && (forall id :: id in after && id !in table ==>
            exists r :: r in records && ParseId(r.id) == Ok(id) && read(r.fields) == Ok(after[id]))
  {
    hide ParseId;
    if records != [] {
      var init, last := records[..|records| - 1], records[|records| - 1];
      LoadedRows(existing, table, init, read);
      assert records == init + [last];
      var before, after := AddNew(existing, table, init, read).value, AddNew(existing, table, records, read).value;
      forall id | id in after && id !in table
        ensures exists r :: r in records && ParseId(r.id) == Ok(id) && read(r.fields) == Ok(after[id])
      {
        if id in before {
          var r :| r in init && ParseId(r.id) == Ok(id) && read(r.fields) == Ok(before[id]);
          assert r in records && after[id] == before[id];
        } else {
          assert last in records && ParseId(last.id) == Ok(id);
        }
      }
    }
  }

  lemma {:induction false} NothingNew<F(!new), R>(table: map<int, R>, records: seq<Record<F>>,
                                                  read: F -> Result<R, SeedError>)
    requires forall r :: r in records ==> ParseId(r.id).Ok? && ParseId(r.id).value in table
    ensures AddNew(table.Keys, table, records, read) == Ok(table)
  {
    if records != [] {
      assert records[|records| - 1] in records;
      NothingNew(table, records[..|records| - 1], read);
    }
  }

  lemma LoadTwice<F(!new), R(!new)>(table: map<int, R>, file: Option<seq<Record<F>>>, read: F -> Result<R, SeedError>)
    requires Load(table, file, read).Ok?
    ensures var after := Load(table, file, read).value;
      && Load(after, file, read) == Ok(after)
      && forall id :: id in table ==> id in after && after[id] == table[id]
  {
    hide AddNew, ParseId;
    if file.Some? {
      LoadedRows(table.Keys, table, file.value, read);
      NothingNew(Load(table, file, read).value, file.value, read);
    }
  }

  // Loading all five.

  datatype SeedTables = SeedTables(users: map<int, UserRow>, dictionary: map<int, EntryRow>,
                                   credits: map<int, CreditRow>, plans: map<int, PlanRecord>,
                                   payments: map<int, PaymentRow>)

  datatype SeedFiles = SeedFiles(users: Option<seq<Record<UserFields>>>, dictionary: Option<seq<Record<EntryFields>>>,
                                 credits: Option<seq<Record<CreditFields>>>, plans: Option<seq<Record<PlanFields>>>,
                                 payments: Option<seq<Record<PaymentFields>>>)

  /** NOT NULL, unique and foreign key constraints, checked when the session is flushed. */
  predicate MeetsSchema(t: SeedTables) {
    && (forall i :: i in t.users ==> t.users[i].registrationDate.Some?)
    && (forall i, j :: i in t.users && j in t.users && i != j ==> t.users[i].login != t.users[j].login)
    && (forall i, j :: i in t.dictionary && j in t.dictionary && i != j ==>
          t.dictionary[i].name != t.dictionary[j].name)
    && (forall i :: i in t.credits ==>
          t.credits[i].issuanceDate.Some? && t.credits[i].returnDate.Some? && t.credits[i].userId in t.users)
    && (forall i :: i in t.plans ==> t.plans[i].period.Some? && t.plans[i].categoryId in t.dictionary)
    && (forall i, j :: i in t.plans && j in t.plans && i != j ==>
          (t.plans[i].period, t.plans[i].categoryId) != (t.plans[j].period, t.plans[j].categoryId))
    && (forall i :: i in t.payments ==>
          && t.payments[i].paymentDate.Some? && t.payments[i].creditId in t.credits
          && t.payments[i].typeId in t.dictionary)
  }

  function LoadAll(t: SeedTables, files: SeedFiles): Result<SeedTables, SeedError> {
    var users :- Load(t.users, files.users, ReadUser);
    var dictionary :- Load(t.dictionary, files.dictionary, ReadEntry);
    var credits :- Load(t.credits, files.credits, ReadCredit);
    var plans :- Load(t.plans, files.plans, ReadPlan);
    var payments :- Load(t.payments, files.payments, ReadPayment);
    var after := SeedTables(users, dictionary, credits, plans, payments);
    if MeetsSchema(after) then Ok(after) else Err(ConstraintViolated)
  }

  predicate Extends<R(!new, ==)>(after: map<int, R>, before: map<int, R>) {
    forall id :: id in before ==> id in after && after[id] == before[id]
  }

  /** A successful seed load run a second time on the same files succeeds and changes nothing, and no load
      changes or drops a row that was there. */
  lemma SeedingTwice(t: SeedTables, files: SeedFiles)
    requires LoadAll(t, files).Ok?
    ensures var after := LoadAll(t, files).value;
      && LoadAll(after, files) == Ok(after)
      && Extends(after.users, t.users) && Extends(after.dictionary, t.dictionary)
      && Extends(after.credits, t.credits) && Extends(after.plans, t.plans) && Extends(after.payments, t.payments)
  {
    hide Load, MeetsSchema;
    LoadTwice(t.users, files.users, ReadUser);
    LoadTwice(t.dictionary, files.dictionary, ReadEntry);
    LoadTwice(t.credits, files.credits, ReadCredit);
    LoadTwice(t.plans, files.plans, ReadPlan);
    LoadTwice(t.payments, files.payments, ReadPayment);
  }

  /** Both readers give a date text the same meaning unless it is a slash date, which seeding refuses. */
  lemma SeedDatesMatchSheetDates(s: string)
    requires Strip(s) != ""
    ensures ParseDate(s).Ok? ==> ParseDate(s).value == TryFormats(Strip(s), SHEET_FORMATS)
    ensures ParseDate(s).Err? <==> TryFormats(Strip(s), SHEET_FORMATS) == None || ParseAs(Slashed, Strip(s)).Some?
  {
    ReadersAgree(Strip(s));
    TrialOrderIrrelevant(Strip(s), CSV_FORMATS);
    TrialOrderIrrelevant(Strip(s), SHEET_FORMATS);
  }

  // What a load does to each table, and when it succeeds.

  /** Existing rows are kept; every id of the file has a row; every added row is what the reader makes of a record. A
      missing file adds nothing. */
  ghost predicate IsLoaded<F(!new), R(!new)>(before: map<int, R>, file: Option<seq<Record<F>>>,
                                             read: F -> Result<R, SeedError>, after: map<int, R>)
  {
    match file
    case None => after == before
    case Some(records) =>
      && (forall id :: id in before ==> id in after && after[id] == before[id])
      && (forall r :: r in records ==> ParseId(r.id).Ok? && ParseId(r.id).value in after)
      && (forall id :: id in after && id !in before ==>
            exists r :: r in records && ParseId(r.id) == Ok(id) && read(r.fields) == Ok(after[id]))
  }

  lemma LoadLoads<F(!new), R(!new)>(before: map<int, R>, file: Option<seq<Record<F>>>, read: F -> Result<R, SeedError>)
    requires Load(before, file, read).Ok?
    ensures IsLoaded(before, file, read, Load(before, file, read).value)
  {
    hide AddNew, ParseId;
    if file.Some? {
      LoadedRows(before.Keys, before, file.value, read);
    }
  }

  /** A successful seed load loads each of the five tables from its own file. */
  lemma EveryTableIsLoaded(t: SeedTables, files: SeedFiles)
    requires LoadAll(t, files).Ok?
    ensures var after := LoadAll(t, files).value;
      && IsLoaded(t.users, files.users, ReadUser, after.users)
      && IsLoaded(t.dictionary, files.dictionary, ReadEntry, after.dictionary)
      && IsLoaded(t.credits, files.credits, ReadCredit, after.credits)
      && IsLoaded(t.plans, files.plans, ReadPlan, after.plans)
      && IsLoaded(t.payments, files.payments, ReadPayment, after.payments)
      && MeetsSchema(after)
  {
    hide Load, IsLoaded, MeetsSchema;
    LoadLoads(t.users, files.users, ReadUser);
    LoadLoads(t.dictionary, files.dictionary, ReadEntry);
    LoadLoads(t.credits, files.credits, ReadCredit);
    LoadLoads(t.plans, files.plans, ReadPlan);
    LoadLoads(t.payments, files.payments, ReadPayment);
  }

  /** After a successful load no row lacks a required date, every reference leads to a row, and the unique columns are
      unique. */
  lemma SeededRowsAreSound(t: SeedTables, files: SeedFiles)
    requires LoadAll(t, files).Ok?
    ensures var after := LoadAll(t, files).value;
      && (forall i :: i in after.users ==> after.users[i].registrationDate.Some?)
      && (forall i :: i in after.credits ==>
            var c := after.credits[i]; c.issuanceDate.Some? && c.returnDate.Some? && c.userId in after.users)
      && (forall i :: i in after.plans ==> after.plans[i].period.Some? && after.plans[i].categoryId in after.dictionary)
      && (forall i :: i in after.payments ==>
            var p := after.payments[i];
            p.paymentDate.Some? && p.creditId in after.credits && p.typeId in after.dictionary)
      && (forall i, j :: i in after.users && j in after.users && i != j ==>
            after.users[i].login != after.users[j].login)
      && (forall i, j :: i in after.dictionary && j in after.dictionary && i != j ==>
            after.dictionary[i].name != after.dictionary[j].name)
      && (forall i, j :: i in after.plans && j in after.plans && i != j ==>
            after.plans[i].period != after.plans[j].period || after.plans[i].categoryId != after.plans[j].categoryId)
  {
    hide Load;
  }

  predicate IsNew<F>(existing: set<int>, r: Record<F>) {
    ParseId(r.id).Ok? && ParseId(r.id).value !in existing
  }

  /** All ids are integers, all new records can be read, and no two new records have one id. */
  ghost predicate CanBeAdded<F(!new), R>(existing: set<int>, records: seq<Record<F>>, read: F -> Result<R, SeedError>) {
    && (forall r :: r in records ==> ParseId(r.id).Ok?)
    && (forall r :: r in records && IsNew(existing, r) ==> read(r.fields).Ok?)
    && (forall i, j :: 0 <= i < j < |records| && IsNew(existing, records[i]) && IsNew(existing, records[j]) ==>
          ParseId(records[i].id) != ParseId(records[j].id))
  }

  /** A table's file loads exactly when that holds; and then the added ids are those of the new records. */
  lemma {:induction false} LoadsExactlyWhen<F(!new), R>(table: map<int, R>, records: seq<Record<F>>,
                                                        read: F -> Result<R, SeedError>)
    ensures AddNew(table.Keys, table, records, read).Ok? <==> CanBeAdded(table.Keys, records, read)
    ensures AddNew(table.Keys, table, records, read).Ok? ==>
      forall id :: id in AddNew(table.Keys, table, records, read).value <==>
        id in table || exists i :: 0 <= i < |records| && ParseId(records[i].id) == Ok(id)
  {
    hide ParseId;
    if records != [] {
      var init, last := records[..|records| - 1], records[|records| - 1];
      LoadsExactlyWhen(table, init, read);
      CanBeAddedSnoc(table.Keys, records, read);
      forall id
        ensures (exists i :: 0 <= i < |records| && ParseId(records[i].id) == Ok(id)) <==>
                (exists i :: 0 <= i < |init| && ParseId(init[i].id) == Ok(id)) || ParseId(last.id) == Ok(id)
      {
        if i :| 0 <= i < |records| && ParseId(records[i].id) == Ok(id) {
          assert i < |init| ==> init[i] == records[i];
        }
        if i :| 0 <= i < |init| && ParseId(init[i].id) == Ok(id) {
          assert records[i] == init[i];
        }
      }
    }
  }

  lemma CanBeAddedSnoc<F(!new), R>(existing: set<int>, records: seq<Record<F>>, read: F -> Result<R, SeedError>)
    requires records != []
    ensures var init, last := records[..|records| - 1], records[|records| - 1];
      CanBeAdded(existing, records, read) <==>
        && CanBeAdded(existing, init, read) && ParseId(last.id).Ok?
        && (IsNew(existing, last) ==>
              && read(last.fields).Ok?
              && forall i :: 0 <= i < |init| && IsNew(existing, init[i]) ==> ParseId(init[i].id) != ParseId(last.id))
  {
    hide ParseId;
    var init, last := records[..|records| - 1], records[|records| - 1];
    assert records == init + [last];
    assert forall r :: r in records <==> r in init || r == last;
    assert forall i :: 0 <= i < |init| ==> records[i] == init[i];
    if CanBeAdded(existing, records, read) {
      forall i | 0 <= i < |init| && IsNew(existing, init[i]) && IsNew(existing, last)
        ensures ParseId(init[i].id) != ParseId(last.id)
      {
        assert records[i] == init[i] && records[|records| - 1] == last;
      }
      assert CanBeAdded(existing, init, read);
    }
  }

  // Printed values are read back.

  lemma DigitsAreStripped(s: string)
    requires s != "" && IsDigit(s[0]) && IsDigit(s[|s| - 1])
    ensures Strip(s) == s
  {
    StripPadding("", s, "");
    assert "" + s + "" == s;
  }

  lemma PrintedIdIsRead(n: nat, width: nat)
    requires width > 0 && n < Pow10(width)
    ensures ParseId(Padded(n, width)) == Ok(n)
  {
    var s := Padded(n, width);
    assert s[0] in s && s[|s| - 1] in s;
    DigitsAreStripped(s);
    NumberOfPadded(n, width);
  }

  /** Any date printed in a CSV format is read back, whatever its day of the month. */
  lemma PrintedDateIsRead(f: Format, d: Date)
    requires f in CSV_FORMATS
    ensures ParseDate(Print(f, d)) == Ok(Some(d))
  {
    hide ParseAs;
    var s := Print(f, d);
    var year, day := Padded(d.year, 4), Padded(d.day, 2);
    assert year[0] in year && year[3] in year && day[0] in day && day[1] in day;
    DigitsAreStripped(s) by {
      assert s[0] == if f == YearFirst then year[0] else day[0];
      assert s[|s| - 1] == if f == YearFirst then day[1] else year[3];
    }
    PrintThenParse(f, d);
    TrialOrderIrrelevant(s, CSV_FORMATS);
  }

  function Money(cents: nat, width: nat, mark: char): string {
    Padded(cents / 100, width) + [mark] + Padded(cents % 100, 2)
  }

  lemma PrintedMoneyIsRead(cents: nat, width: nat, mark: char)
    requires cents / 100 < Pow10(width) && (mark == '.' || mark == ',')
    ensures ParseMoney(Money(cents, width, mark)) == Ok(cents)
  {
    hide NumberText.ParseAmount;
    InsertPlans.NumeralIsStripped(Padded(cents / 100, width), mark, Padded(cents % 100, 2));
    PrintedCentsParse(cents, width, mark);
    assert Pow10(0) == 1;
  }

  /** The loader reads a plan of any date: nothing asks for the first of a month, as the sheet reader does. */
  lemma AnyPlanIsRead(f: Format, period: Date, cents: nat, width: nat, mark: char, categoryId: nat, idWidth: nat)
    requires f in CSV_FORMATS && cents / 100 < Pow10(width) && (mark == '.' || mark == ',')
    requires idWidth > 0 && categoryId < Pow10(idWidth)
    ensures ReadPlan(PlanFields(Print(f, period), Money(cents, width, mark), Padded(categoryId, idWidth)))
            == Ok(PlanRecord(Some(period), cents, categoryId))
  {
    hide ParseDate, ParseMoney, ParseId;
    PrintedDateIsRead(f, period);
    PrintedMoneyIsRead(cents, width, mark);
    PrintedIdIsRead(categoryId, idWidth);
  }

  // What the column readers accept, and what the row readers make of their columns.

  /** A money column is empty, for zero, or white space around a numeral, signed or not, kept to the cent. */
  lemma MoneyMeaning(s: string, cents: int)
    ensures ParseMoney(s) == Ok(cents) <==>
      (IsBlankText(s) && cents == 0) || exists a :: Denotes(s, a) && cents == InsertPlans.ToCents(a)
  {
    hide NumberText.ParseAmount, InsertPlans.ToCents, IsSpace, Strip, Denotes;
    PlansParser.BlankIsStripped(s);
    var read := NumberText.ParseAmount(Strip(s));
    forall a
      ensures read == Some(a) <==> Denotes(s, a)
    {
      AmountMeaning(Strip(s), a);
      DenotesStripped(s, a);
    }
    if IsBlankText(s) {
      forall a
        ensures !Denotes(s, a)
      {
        BlankDenotesNothing(s, a);
      }
    }
    if read.Some? {
      assert Denotes(s, read.value);
    }
  }

  lemma BlankDenotesNothing(s: string, a: DecimalArithmetic.Decimal)
    requires IsBlankText(s)
    ensures !Denotes(s, a)
  {
    hide Strip, IsSpace, Written, IsNumeral;
    if Denotes(s, a) {
      var left, n, right :| IsWrittenAs(s, left, n, right) && a == Denoted(n);
      PlansParser.WrittenIsInside(left, n, right);
    }
  }

  lemma DenotesStripped(s: string, a: DecimalArithmetic.Decimal)
    ensures Denotes(Strip(s), a) <==> Denotes(s, a)
  {
    hide Strip, IsSpace, Written, IsNumeral;
    if Denotes(Strip(s), a) {
      var left, n, right :| IsWrittenAs(Strip(s), left, n, right) && a == Denoted(n);
      var before, after := StripSplits(s);
      assert s == (before + left) + Written(n) + (right + after);
      assert IsWrittenAs(s, before + left, n, right + after);
    }
    if Denotes(s, a) {
      var left, n, right :| IsWrittenAs(s, left, n, right) && a == Denoted(n);
      WrittenIsStripped(left, n, right);
      assert "" + Written(n) + "" == Written(n);
      assert IsWrittenAs(Strip(s), "", n, "");
    }
  }

  /** A date column is empty, for no date, or white space around a date in one of the two CSV formats. */
  lemma DateMeaning(s: string, d: Option<Date>)
    ensures ParseDate(s) == Ok(d) <==>
      match d
      case None => IsBlankText(s)
      case Some(date) =>
        !IsBlankText(s) && (ParseAs(Dotted, Strip(s)) == Some(date) || ParseAs(YearFirst, Strip(s)) == Some(date))
  {
    hide ParseAs, Strip, IsSpace;
    PlansParser.BlankIsStripped(s);
    TrialOrderIrrelevant(Strip(s), CSV_FORMATS);
    assert forall f :: f in CSV_FORMATS <==> f == Dotted || f == YearFirst;
  }

  /** What cannot be read is a bad value. */
  lemma UnreadableIsBadValue(s: string)
    ensures ParseDate(s).Err? ==> ParseDate(s) == Err(BadValue)
    ensures ParseMoney(s).Err? ==> ParseMoney(s) == Err(BadValue)
    ensures ParseId(s).Err? ==> ParseId(s) == Err(BadValue)
  {
    hide TryFormats, NumberText.ParseAmount, ParseInt, Strip;
  }

  /** An id column with white space around a signed integer. */
  lemma IdIsRead(left: string, sign: Sign, digits: string, right: string)
    requires digits != "" && AllDigits(digits) && IsBlankText(left) && IsBlankText(right)
    ensures ParseId(left + (SignText(sign) + digits) + right) == Ok(Signed(sign, NumberOf(digits)))
  {
    var s := SignText(sign) + digits;
    assert digits[0] in digits && digits[|digits| - 1] in digits;
    assert s[|s| - 1] == digits[|digits| - 1];
    StripPadding(left, s, right);
    hide Strip;
    IntegerIsRead(sign, digits);
  }

  /** A user's row has the columns of its record. */
  lemma UserMeaning(f: UserFields, r: UserRow)
    ensures ReadUser(f) == Ok(r) <==> r.login == f.login && ParseDate(f.registrationDate) == Ok(r.registrationDate)
  {
    hide ParseDate;
  }

  lemma EntryMeaning(f: EntryFields, r: EntryRow)
    ensures ReadEntry(f) == Ok(r) <==> r.name == f.name
  {
  }

  lemma CreditMeaning(f: CreditFields, r: CreditRow)
    ensures ReadCredit(f) == Ok(r) <==>
      && ParseId(f.userId) == Ok(r.userId) && ParseDate(f.issuanceDate) == Ok(r.issuanceDate)
      && ParseDate(f.returnDate) == Ok(r.returnDate) && ParseDate(f.actualReturnDate) == Ok(r.actualReturnDate)
      && ParseMoney(f.body) == Ok(r.body) && ParseMoney(f.percent) == Ok(r.percent)
  {
    hide ParseId, ParseDate, ParseMoney;
  }

  lemma PlanMeaning(f: PlanFields, r: PlanRecord)
    ensures ReadPlan(f) == Ok(r) <==>
      && ParseDate(f.period) == Ok(r.period) && ParseMoney(f.sum) == Ok(r.sum)
      && ParseId(f.categoryId) == Ok(r.categoryId)
  {
    hide ParseId, ParseDate, ParseMoney;
  }

  lemma PaymentMeaning(f: PaymentFields, r: PaymentRow)
    ensures ReadPayment(f) == Ok(r) <==>
      && ParseId(f.creditId) == Ok(r.creditId) && ParseId(f.typeId) == Ok(r.typeId)
      && ParseDate(f.paymentDate) == Ok(r.paymentDate) && ParseMoney(f.sum) == Ok(r.sum)
  {
    hide ParseId, ParseDate, ParseMoney;
  }

  /** A payment printed with any date, amount, credit and type is read back. */
  lemma AnyPaymentIsRead(f: Format, paid: Date, cents: nat, width: nat, mark: char,
                         creditId: nat, typeId: nat, idWidth: nat)
    requires f in CSV_FORMATS && cents / 100 < Pow10(width) && (mark == '.' || mark == ',')
    requires idWidth > 0 && creditId < Pow10(idWidth) && typeId < Pow10(idWidth)
    ensures ReadPayment(PaymentFields(Padded(creditId, idWidth), Print(f, paid), Padded(typeId, idWidth),
                                      Money(cents, width, mark)))
            == Ok(PaymentRow(creditId, typeId, Some(paid), cents))
  {
    hide ParseDate, ParseMoney, ParseId;
    PrintedDateIsRead(f, paid);
    PrintedMoneyIsRead(cents, width, mark);
    PrintedIdIsRead(creditId, idWidth);
    PrintedIdIsRead(typeId, idWidth);
  }

  function PrintedReturn(f: Format, returned: Option<Date>): string {
    if returned.Some? then Print(f, returned.value) else ""
  }

  /** A credit printed with any dates, closed or open, and any amounts is read back. */
  lemma AnyCreditIsRead(f: Format, issued: Date, due: Date, returned: Option<Date>, body: nat, percent: nat,
                        width: nat, mark: char, userId: nat, idWidth: nat)
    requires f in CSV_FORMATS && body / 100 < Pow10(width) && percent / 100 < Pow10(width)
    requires (mark == '.' || mark == ',') && idWidth > 0 && userId < Pow10(idWidth)
    ensures ReadCredit(CreditFields(Padded(userId, idWidth), Print(f, issued), Print(f, due),
                                    PrintedReturn(f, returned), Money(body, width, mark), Money(percent, width, mark)))
            == Ok(CreditRow(userId, Some(issued), Some(due), returned, body, percent))
  {
    PrintedDateIsRead(f, issued);
    PrintedDateIsRead(f, due);
    if returned.Some? {
      PrintedDateIsRead(f, returned.value);
    }
    hide ParseDate, ParseMoney, ParseId, Print;
    PrintedMoneyIsRead(body, width, mark);
    PrintedMoneyIsRead(percent, width, mark);
    PrintedIdIsRead(userId, idWidth);
    NoDateIsRead();
  }

  lemma NoDateIsRead()
    ensures ParseDate("") == Ok(None)
  {
  }
}
