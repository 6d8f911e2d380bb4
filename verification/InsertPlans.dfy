/** The upload loop: check every row, then insert all of them or none. */
module InsertPlans {
  import opened Arithmetic
  import opened Outcomes
  import opened Calendar
  import opened DecimalArithmetic
  import opened Texts
  import NumberText
  import opened Numerals
  import opened Ledger
  import opened PlansParser

  /** Issues name the row by its position among the parsed rows, counting the header as row 1. */
  datatype UploadIssue = UnknownCategory(row: nat) | DuplicateInFile(row: nat) | AlreadyExists(row: nat)

  datatype UploadFailure =
    | EmptyUpload | OversizedUpload
    | InvalidFile(error: ParseError)
    | InvalidPlans(issues: seq<UploadIssue>)

  /** A NUMERIC(18,2) column keeps two decimal places, halves away from zero. */
  function ToCents(d: Decimal): int {
    if d.exponent >= -2 then d.coefficient * Pow10(d.exponent + 2)
    else
      var p := Pow10(-2 - d.exponent);
      if d.coefficient >= 0 then (2 * d.coefficient + p) / (2 * p) else -((2 * -d.coefficient + p) / (2 * p))
  }

  lemma CentsAreNonNegative(d: Decimal)
    requires d.coefficient >= 0
    ensures ToCents(d) >= 0
  {
    if d.exponent >= -2 {
      MulMonotone(0, d.coefficient, Pow10(d.exponent + 2));
    } else {
      var p := Pow10(-2 - d.exponent);
      NonNegativeQuotient(2 * d.coefficient + p, 2 * p);
    }
  }

  /** The stored cents are a nearest number of cents; with at most two decimal places, exactly the amount. */
  lemma CentsAreNearest(d: Decimal)
    requires d.coefficient >= 0
    ensures d.exponent >= -2 ==> ToCents(d) == d.coefficient * Pow10(d.exponent + 2)
    ensures d.exponent < -2 ==>
      var p: int := Pow10(-2 - d.exponent); -p <= 2 * (d.coefficient - ToCents(d) * p) < p
  {
    if d.exponent < -2 {
      var p := Pow10(-2 - d.exponent);
      NearestQuotient(d.coefficient, p);
    }
  }

  /** A negative amount becomes the negative of what the amount becomes: halves go away from zero on both sides. */
  lemma CentsOfNegative(d: Decimal)
    requires d.coefficient >= 0
    ensures ToCents(Decimal(-d.coefficient, d.exponent)) == -ToCents(d)
  {
    if d.exponent >= -2 {
      NegatedProduct(d.coefficient, Pow10(d.exponent + 2));
    } else if d.coefficient == 0 {
      HalfIsNothing(Pow10(-2 - d.exponent));
    }
  }

  lemma NegatedProduct(a: int, b: int)
    ensures -a * b == -(a * b)
  {
  }

  lemma HalfIsNothing(p: nat)
    requires p > 0
    ensures p / (2 * p) == 0
  {
    NearestQuotient(0, p);
    var q := p / (2 * p);
    assert q * p <= 0 ==> q <= 0;
  }

  lemma NearestQuotient(c: int, p: int)
    requires p > 0
    ensures -p <= 2 * (c - ((2 * c + p) / (2 * p)) * p) < p
  {
    var q := (2 * c + p) / (2 * p);
    assert 2 * c + p == q * (2 * p) + (2 * c + p) % (2 * p);
    assert q * (2 * p) == 2 * (q * p);
  }

  /** A sum typed with a point or a comma and two decimals is stored as that many cents. */
  lemma TypedSumIsStored(cents: nat, width: nat, mark: char)
    requires cents / 100 < Pow10(width) && (mark == '.' || mark == ',')
    ensures var cell := Text(Padded(cents / 100, width) + [mark] + Padded(cents % 100, 2));
      AmountOf(cell).Ok? && ToCents(AmountOf(cell).value) == cents
  {
    hide NumberText.ParseAmount, Strip, NumberOf;
    var whole, fraction := Padded(cents / 100, width), Padded(cents % 100, 2);
    PrintedCentsParse(cents, width, mark);
    assert Pow10(0) == 1;
    NumeralIsStripped(whole, mark, fraction);
  }

  lemma NumeralIsStripped(whole: string, mark: char, fraction: string)
    requires AllDigits(whole) && AllDigits(fraction) && fraction != "" && (mark == '.' || mark == ',')
    ensures Strip(whole + [mark] + fraction) == whole + [mark] + fraction
  {
    var text := whole + [mark] + fraction;
    assert text[0] == mark || (text[0] == whole[0] && whole[0] in whole);
    assert text[|text| - 1] == fraction[|fraction| - 1] && fraction[|fraction| - 1] in fraction;
    StripPadding("", text, "");
    assert "" + text + "" == text;
  }

  lemma NonNegativeQuotient(a: int, b: int)
    requires a >= 0 && b > 0
    ensures a / b >= 0
  {
  }

  function RowKey(row: PlanRow, dictionary: seq<DictionaryEntry>): Option<(Date, int)> {
    match IdByName(dictionary, row.categoryName)
    case None => None
    case Some(id) => Some((row.period, id))
  }

  function PlanOf(row: PlanRow, dictionary: seq<DictionaryEntry>): Plan
    requires RowKey(row, dictionary).Some?
  {
    Plan(row.period, ToCents(row.sum), RowKey(row, dictionary).value.1)
  }

  // One turn of the loop, given what the existence query would answer for the row.

  datatype Progress = Progress(issues: seq<UploadIssue>, toInsert: seq<Plan>, seen: set<(Date, int)>)

  const START := Progress([], [], {})

  function CheckRow(p: Progress, row: PlanRow, number: nat, dictionary: seq<DictionaryEntry>, stored: bool): Progress {
    var key := RowKey(row, dictionary);
    if key.None? then p.(issues := p.issues + [UnknownCategory(number)])
    else if key.value in p.seen then p.(issues := p.issues + [DuplicateInFile(number)])
    else if stored then p.(issues := p.issues + [AlreadyExists(number)], seen := p.seen + {key.value})
    else p.(toInsert := p.toInsert + [PlanOf(row, dictionary)], seen := p.seen + {key.value})
  }

  predicate RowStored(row: PlanRow, dictionary: seq<DictionaryEntry>, plans: seq<Plan>) {
    RowKey(row, dictionary).Some? && KeyStored(plans, RowKey(row, dictionary).value)
  }

  function CheckRows(rows: seq<PlanRow>, dictionary: seq<DictionaryEntry>, plans: seq<Plan>): Progress {
    if rows == [] then START
    else
      var last := rows[|rows| - 1];
      CheckRow(CheckRows(rows[..|rows| - 1], dictionary, plans), last, |rows| + 1, dictionary,
               RowStored(last, dictionary, plans))
  }

  /** The upload of parsed rows, as one step on the stored plans. */
  function Upload(rows: seq<PlanRow>, dictionary: seq<DictionaryEntry>, plans: seq<Plan>)
    : Result<seq<Plan>, UploadFailure>
  {
    var p := CheckRows(rows, dictionary, plans);
    if p.issues != [] then Err(InvalidPlans(p.issues)) else Ok(plans + p.toInsert)
  }

  // What the loop decides, row by row, without its running state.

  predicate RepeatsEarlier(rows: seq<PlanRow>, i: nat, dictionary: seq<DictionaryEntry>)
    requires i < |rows|
  {
    exists j :: 0 <= j < i && RowKey(rows[j], dictionary) == RowKey(rows[i], dictionary)
  }

  function Verdict(rows: seq<PlanRow>, i: nat, dictionary: seq<DictionaryEntry>, plans: seq<Plan>): Option<UploadIssue>
    requires i < |rows|
  {
    if RowKey(rows[i], dictionary).None? then Some(UnknownCategory(i + 2))
    else if RepeatsEarlier(rows, i, dictionary) then Some(DuplicateInFile(i + 2))
    else if RowStored(rows[i], dictionary, plans) then Some(AlreadyExists(i + 2))
    else None
  }

  predicate KeyAmong(rows: seq<PlanRow>, dictionary: seq<DictionaryEntry>, key: (Date, int)) {
    exists j :: 0 <= j < |rows| && RowKey(rows[j], dictionary) == Some(key)
  }

  lemma {:induction false} SeenAreTheKeys(rows: seq<PlanRow>, dictionary: seq<DictionaryEntry>, plans: seq<Plan>)
    ensures forall key :: key in CheckRows(rows, dictionary, plans).seen <==> KeyAmong(rows, dictionary, key)
  {
    if rows != [] {
      var init := rows[..|rows| - 1];
      SeenAreTheKeys(init, dictionary, plans);
      forall key
        ensures KeyAmong(rows, dictionary, key)
                <==> KeyAmong(init, dictionary, key) || RowKey(rows[|rows| - 1], dictionary) == Some(key)
      {
        if KeyAmong(init, dictionary, key) {
          var j :| 0 <= j < |init| && RowKey(init[j], dictionary) == Some(key);
          assert RowKey(rows[j], dictionary) == Some(key);
        }
        if KeyAmong(rows, dictionary, key) {
          var j :| 0 <= j < |rows| && RowKey(rows[j], dictionary) == Some(key);
          assert j < |init| ==> RowKey(init[j], dictionary) == Some(key);
        }
      }
    }
  }

  lemma LastVerdict(rows: seq<PlanRow>, dictionary: seq<DictionaryEntry>, plans: seq<Plan>)
    requires rows != []
    ensures var k := |rows| - 1;
      var before, after := CheckRows(rows[..k], dictionary, plans), CheckRows(rows, dictionary, plans);
      match Verdict(rows, k, dictionary, plans)
      case Some(issue) => after.issues == before.issues + [issue] && after.toInsert == before.toInsert
      case None => after.issues == before.issues && RowKey(rows[k], dictionary).Some?
                   && after.toInsert == before.toInsert + [PlanOf(rows[k], dictionary)]
  {
    var k := |rows| - 1;
    SeenAreTheKeys(rows[..k], dictionary, plans);
    var key := RowKey(rows[k], dictionary);
    if key.Some? {
      assert RepeatsEarlier(rows, k, dictionary) <==> KeyAmong(rows[..k], dictionary, key.value) by {
        assert forall j :: 0 <= j < k ==> rows[j] == rows[..k][j];
      }
    }
  }

  lemma VerdictOfPrefix(rows: seq<PlanRow>, k: nat, i: nat, dictionary: seq<DictionaryEntry>, plans: seq<Plan>)
    requires i < k <= |rows|
    ensures Verdict(rows[..k], i, dictionary, plans) == Verdict(rows, i, dictionary, plans)
  {
    assert forall j :: 0 <= j < k ==> rows[..k][j] == rows[j];
  }

  predicate IsFailingRow(rows: seq<PlanRow>, dictionary: seq<DictionaryEntry>, plans: seq<Plan>, x: UploadIssue) {
    2 <= x.row < |rows| + 2 && Verdict(rows, x.row - 2, dictionary, plans) == Some(x)
  }

  predicate Ascending(issues: seq<UploadIssue>) {
    forall i, j :: 0 <= i < j < |issues| ==> issues[i].row < issues[j].row
  }

  /** The loop reports exactly one issue for each failing row, in row order, and every other row is to be
      inserted: issues and insertable rows together are the rows. */
  lemma {:induction false} OneIssuePerFailingRow(rows: seq<PlanRow>, dictionary: seq<DictionaryEntry>, plans: seq<Plan>)
    ensures var p := CheckRows(rows, dictionary, plans);
      && |p.issues| + |p.toInsert| == |rows|
      && Ascending(p.issues)
      && (forall x :: x in p.issues <==> IsFailingRow(rows, dictionary, plans, x))
  {
    hide CheckRow, RowStored, RepeatsEarlier;
    if rows != [] {
      var k := |rows| - 1;
      var init := rows[..k];
      OneIssuePerFailingRow(init, dictionary, plans);
      LastVerdict(rows, dictionary, plans);
      var before, after := CheckRows(init, dictionary, plans), CheckRows(rows, dictionary, plans);
      var last := Verdict(rows, k, dictionary, plans);
      forall x
        ensures x in after.issues <==> IsFailingRow(rows, dictionary, plans, x)
      {
        if 2 <= x.row < k + 2 {
          VerdictOfPrefix(rows, k, x.row - 2, dictionary, plans);
        }
        assert x in after.issues <==> x in before.issues || last == Some(x);
      }
      forall i, j | 0 <= i < j < |after.issues|
        ensures after.issues[i].row < after.issues[j].row
      {
        if j == |before.issues| {
          assert before.issues[i] in before.issues;
        } else {
          assert before.issues[i].row < before.issues[j].row;
        }
      }
    }
  }

  // When an upload is accepted.

  predicate CategoriesKnown(rows: seq<PlanRow>, dictionary: seq<DictionaryEntry>) {
    forall i :: 0 <= i < |rows| ==> RowKey(rows[i], dictionary).Some?
  }

  predicate KeysDistinct(rows: seq<PlanRow>, dictionary: seq<DictionaryEntry>) {
    forall i, j :: 0 <= i < j < |rows| ==> RowKey(rows[i], dictionary) != RowKey(rows[j], dictionary)
  }

  predicate NoneStored(rows: seq<PlanRow>, dictionary: seq<DictionaryEntry>, plans: seq<Plan>) {
    forall i :: 0 <= i < |rows| ==> !RowStored(rows[i], dictionary, plans)
  }

  function PlansOf(rows: seq<PlanRow>, dictionary: seq<DictionaryEntry>): (plans: seq<Plan>)
    requires CategoriesKnown(rows, dictionary)
    ensures |plans| == |rows|
  {
    seq(|rows|, i requires 0 <= i < |rows| => PlanOf(rows[i], dictionary))
  }

  lemma {:induction false} CleanRunInsertsAll(rows: seq<PlanRow>, dictionary: seq<DictionaryEntry>, plans: seq<Plan>)
    requires CheckRows(rows, dictionary, plans).issues == []
    ensures CategoriesKnown(rows, dictionary)
    ensures CheckRows(rows, dictionary, plans).toInsert == PlansOf(rows, dictionary)
  {
    if rows != [] {
      var init := rows[..|rows| - 1];
      LastVerdict(rows, dictionary, plans);
      CleanRunInsertsAll(init, dictionary, plans);
      assert forall i :: 0 <= i < |init| ==> rows[i] == init[i];
      assert PlansOf(rows, dictionary) == PlansOf(init, dictionary) + [PlanOf(rows[|rows| - 1], dictionary)];
    }
  }

  /** A file is accepted exactly when every category is known, all keys are pairwise distinct and none is
      stored; then all its rows are appended to the stored plans, in order. */
  lemma AcceptedExactlyWhen(rows: seq<PlanRow>, dictionary: seq<DictionaryEntry>, plans: seq<Plan>)
    ensures Upload(rows, dictionary, plans).Ok? <==>
      CategoriesKnown(rows, dictionary) && KeysDistinct(rows, dictionary) && NoneStored(rows, dictionary, plans)
    ensures Upload(rows, dictionary, plans).Ok? ==>
      CategoriesKnown(rows, dictionary)
      && Upload(rows, dictionary, plans).value == plans + PlansOf(rows, dictionary)
  {
    hide Verdict;
    var p := CheckRows(rows, dictionary, plans);
    OneIssuePerFailingRow(rows, dictionary, plans);
    NoVerdictExactlyWhen(rows, dictionary, plans);
    if p.issues == [] {
      CleanRunInsertsAll(rows, dictionary, plans);
      forall i | 0 <= i < |rows|
        ensures Verdict(rows, i, dictionary, plans) == None
      {
        var v := Verdict(rows, i, dictionary, plans);
        VerdictNamesRow(rows, i, dictionary, plans);
        assert v.Some? ==> IsFailingRow(rows, dictionary, plans, v.value);
      }
    } else {
      var x := p.issues[0];
      assert x in p.issues && IsFailingRow(rows, dictionary, plans, x);
    }
  }

  lemma VerdictNamesRow(rows: seq<PlanRow>, i: nat, dictionary: seq<DictionaryEntry>, plans: seq<Plan>)
    requires i < |rows|
    ensures Verdict(rows, i, dictionary, plans).Some? ==> Verdict(rows, i, dictionary, plans).value.row == i + 2
  {
  }

  lemma NoVerdictExactlyWhen(rows: seq<PlanRow>, dictionary: seq<DictionaryEntry>, plans: seq<Plan>)
    ensures (forall i :: 0 <= i < |rows| ==> Verdict(rows, i, dictionary, plans) == None) <==>
      CategoriesKnown(rows, dictionary) && KeysDistinct(rows, dictionary) && NoneStored(rows, dictionary, plans)
  {
    if forall i :: 0 <= i < |rows| ==> Verdict(rows, i, dictionary, plans) == None {
      forall i, j | 0 <= i < j < |rows|
        ensures RowKey(rows[i], dictionary) != RowKey(rows[j], dictionary)
      {
        assert Verdict(rows, j, dictionary, plans) == None;
        assert !RepeatsEarlier(rows, j, dictionary);
      }
      forall i | 0 <= i < |rows|
        ensures RowKey(rows[i], dictionary).Some? && !RowStored(rows[i], dictionary, plans)
      {
        assert Verdict(rows, i, dictionary, plans) == None;
      }
    }
  }

  // The stored plans stay well formed.

  predicate IsCategory(dictionary: seq<DictionaryEntry>, id: int) {
    exists e :: e in dictionary && e.id == id
  }

  predicate GoodPlan(p: Plan, dictionary: seq<DictionaryEntry>) {
    p.period.day == 1 && p.sum >= 0 && IsCategory(dictionary, p.categoryId)
  }

  predicate GoodStore(plans: seq<Plan>, dictionary: seq<DictionaryEntry>) {
    UniqueKeys(plans) && forall p :: p in plans ==> GoodPlan(p, dictionary)
  }

  predicate GoodRow(row: PlanRow) {
    row.period.day == 1 && row.sum.coefficient >= 0
  }

  lemma {:induction false} KnownNameIsCategory(dictionary: seq<DictionaryEntry>, name: string)
    requires IdByName(dictionary, name).Some?
    ensures IsCategory(dictionary, IdByName(dictionary, name).value)
  {
    var init, last := dictionary[..|dictionary| - 1], dictionary[|dictionary| - 1];
    if last.name == name {
      assert last in dictionary;
    } else {
      KnownNameIsCategory(init, name);
      var e :| e in init && e.id == IdByName(dictionary, name).value;
      assert e in dictionary;
    }
  }

  lemma UploadKeepsStoreGood(rows: seq<PlanRow>, dictionary: seq<DictionaryEntry>, plans: seq<Plan>)
    requires GoodStore(plans, dictionary) && forall r :: r in rows ==> GoodRow(r)
    requires Upload(rows, dictionary, plans).Ok?
    ensures GoodStore(Upload(rows, dictionary, plans).value, dictionary)
  {
    AcceptedExactlyWhen(rows, dictionary, plans);
    var added := PlansOf(rows, dictionary);
    forall i | 0 <= i < |rows|
      ensures GoodPlan(added[i], dictionary) && Some(Key(added[i])) == RowKey(rows[i], dictionary)
    {
      assert rows[i] in rows;
      CentsAreNonNegative(rows[i].sum);
      KnownNameIsCategory(dictionary, rows[i].categoryName);
    }
    AppendKeepsUnique(plans, added, rows, dictionary);
  }

  lemma AppendKeepsUnique(plans: seq<Plan>, added: seq<Plan>, rows: seq<PlanRow>, dictionary: seq<DictionaryEntry>)
    requires UniqueKeys(plans) && KeysDistinct(rows, dictionary) && NoneStored(rows, dictionary, plans)
    requires |added| == |rows| && forall i :: 0 <= i < |rows| ==> Some(Key(added[i])) == RowKey(rows[i], dictionary)
    ensures UniqueKeys(plans + added)
  {
    var all := plans + added;
    forall i, j | 0 <= i < j < |all|
      ensures Key(all[i]) != Key(all[j])
    {
      if i < |plans| <= j {
        assert !RowStored(rows[j - |plans|], dictionary, plans);
        assert plans[i] in plans;
        assert Key(added[j - |plans|]) == RowKey(rows[j - |plans|], dictionary).value;
      } else if |plans| <= i {
        assert RowKey(rows[i - |plans|], dictionary) != RowKey(rows[j - |plans|], dictionary);
      }
    }
  }

  // Whole sheets, one after another.

  /** Parse, check, insert: the new stored plans and the reported count. */
  function UploadSheet(grid: seq<Row>, dictionary: seq<DictionaryEntry>, plans: seq<Plan>)
    : Result<(seq<Plan>, nat), UploadFailure>
  {
    match ParseSheet(grid)
    case Err(e) => Err(InvalidFile(e))
    case Ok(rows) =>
      var after :- Upload(rows, dictionary, plans);
      Ok((after, |rows|))
  }

  function AfterSheet(grid: seq<Row>, dictionary: seq<DictionaryEntry>, plans: seq<Plan>): seq<Plan> {
    match UploadSheet(grid, dictionary, plans)
    case Ok((after, _)) => after
    case Err(_) => plans
  }

  function AfterSheets(grids: seq<seq<Row>>, dictionary: seq<DictionaryEntry>, plans: seq<Plan>): seq<Plan> {
    if grids == [] then plans
    else AfterSheet(grids[|grids| - 1], dictionary, AfterSheets(grids[..|grids| - 1], dictionary, plans))
  }

  lemma ParsedRowsAreGood(grid: seq<Row>)
    requires ParseSheet(grid).Ok?
    ensures forall r :: r in ParseSheet(grid).value ==> GoodRow(r)
  {
    hide ParseSheet, DataRows;
    AcceptsExactlyGoodSheets(grid);
    var rows := ParseSheet(grid).value;
    forall r | r in rows
      ensures GoodRow(r)
    {
      var k :| 0 <= k < |rows| && rows[k] == r;
      assert IsGood(grid[0], DataRows(grid[1..])[k].row, rows[k]);
    }
  }

  /** One upload keeps a good store good and every stored plan in place; on success it adds exactly the
      reported number of plans, on failure none. */
  lemma SheetKeepsStoreGood(grid: seq<Row>, dictionary: seq<DictionaryEntry>, plans: seq<Plan>)
    requires GoodStore(plans, dictionary)
    ensures var after := AfterSheet(grid, dictionary, plans);
      && GoodStore(after, dictionary) && plans <= after
      && |after| == |plans| + match UploadSheet(grid, dictionary, plans) case Ok((_, count)) => count case Err(_) => 0
  {
    hide ParseSheet, GoodStore, CheckRows;
    if ParseSheet(grid).Ok? {
      var rows := ParseSheet(grid).value;
      if Upload(rows, dictionary, plans).Ok? {
        ParsedRowsAreGood(grid);
        UploadKeepsStoreGood(rows, dictionary, plans);
        AcceptedExactlyWhen(rows, dictionary, plans);
      }
    }
  }

  /** Along every sequence of uploads, good or bad, from a good store: every stored plan has a first-of-month
      period, a non-negative sum and a dictionary category, no key is repeated, and no plan is ever lost. */
  lemma {:induction false} EveryRunKeepsStoreGood(grids: seq<seq<Row>>, k: nat, dictionary: seq<DictionaryEntry>,
                                                   plans: seq<Plan>)
    requires GoodStore(plans, dictionary) && k <= |grids|
    ensures GoodStore(AfterSheets(grids, dictionary, plans), dictionary)
    ensures AfterSheets(grids[..k], dictionary, plans) <= AfterSheets(grids, dictionary, plans)
    decreases |grids|
  {
    hide GoodStore, AfterSheet;
    if k < |grids| {
      var init := grids[..|grids| - 1];
      EveryRunKeepsStoreGood(init, k, dictionary, plans);
      assert init[..k] == grids[..k];
      SheetKeepsStoreGood(grids[|grids| - 1], dictionary, AfterSheets(init, dictionary, plans));
    } else {
      assert grids[..k] == grids;
      if grids != [] {
        var init := grids[..|grids| - 1];
        EveryRunKeepsStoreGood(init, |init|, dictionary, plans);
        SheetKeepsStoreGood(grids[|grids| - 1], dictionary, AfterSheets(init, dictionary, plans));
      }
    }
  }

  /** A sheet is refused for what the reader found, or else with exactly one issue for each row that fails its checks,
      in row order. */
  lemma RefusedFor(grid: seq<Row>, dictionary: seq<DictionaryEntry>, plans: seq<Plan>)
    requires UploadSheet(grid, dictionary, plans).Err?
    ensures match UploadSheet(grid, dictionary, plans).error
      case InvalidFile(e) => ParseSheet(grid) == Err(e)
      case InvalidPlans(issues) =>
        && ParseSheet(grid).Ok? && issues != [] && Ascending(issues)
        && (forall x :: x in issues <==> IsFailingRow(ParseSheet(grid).value, dictionary, plans, x))
      case _ => false
  {
    hide ParseSheet, CheckRows, IsFailingRow;
    if ParseSheet(grid).Ok? {
      OneIssuePerFailingRow(ParseSheet(grid).value, dictionary, plans);
    }
  }

  // What an accepted sheet stores, read off its cells.

  /** Exactly the amount when it has at most two decimals, otherwise a nearest number of cents. */
  predicate IsNearestCents(a: Decimal, cents: int) {
    if a.exponent >= -2 then cents == a.coefficient * Pow10(a.exponent + 2)
    else var p: int := Pow10(-2 - a.exponent); -p <= 2 * (a.coefficient - cents * p) < p
  }

  /** The plan holds the date its row's period cell reads as, the dictionary id of the text in its category cell, and
      the cents of the number its sum cell denotes. */
  ghost predicate StoresRow(header: Row, row: Row, dictionary: seq<DictionaryEntry>, p: Plan) {
    && ReadsAs(ColumnCell(header, row, PeriodColumn), p.period)
    && IdByName(dictionary, Strip(Shown(ColumnCell(header, row, CategoryColumn)))) == Some(p.categoryId)
    && exists a :: Denotes(Shown(ColumnCell(header, row, SumColumn)), a) && IsNearestCents(a, p.sum)
  }

  /** The new plans follow the old ones, one for each data row of the sheet, in order, with the row's fields. */
  ghost predicate StoresSheet(grid: seq<Row>, dictionary: seq<DictionaryEntry>, plans: seq<Plan>, after: seq<Plan>,
                              count: nat) {
    && grid != [] && plans <= after && count == |DataRows(grid[1..])| == |after| - |plans|
    && forall k :: 0 <= k < count ==> StoresRow(grid[0], DataRows(grid[1..])[k].row, dictionary, after[|plans| + k])
  }

  lemma GoodRowIsStored(header: Row, row: Row, dictionary: seq<DictionaryEntry>, value: PlanRow)
    requires IsGood(header, row, value) && RowKey(value, dictionary).Some?
    ensures StoresRow(header, row, dictionary, PlanOf(value, dictionary))
  {
    hide ColumnCell, Denotes, ReadsAs, Strip, Shown, IdByName;
    CentsAreNearest(value.sum);
    assert IsNearestCents(value.sum, ToCents(value.sum));
  }

  /** An accepted sheet stores, field by field, what its cells say. */
  lemma UploadedPlans(grid: seq<Row>, dictionary: seq<DictionaryEntry>, plans: seq<Plan>)
    requires UploadSheet(grid, dictionary, plans).Ok?
    ensures var (after, count) := UploadSheet(grid, dictionary, plans).value;
      StoresSheet(grid, dictionary, plans, after, count)
  {
    hide ParseSheet, DataRows, IsGood, StoresRow, PlanOf, IsGoodSheet, RowKey;
    var rows := ParseSheet(grid).value;
    var (after, count) := UploadSheet(grid, dictionary, plans).value;
    GoodSheetHasRows(grid);
    AcceptsExactlyGoodSheets(grid);
    AcceptedExactlyWhen(rows, dictionary, plans);
    forall k | 0 <= k < count
      ensures StoresRow(grid[0], DataRows(grid[1..])[k].row, dictionary, after[|plans| + k])
    {
      GoodRowIsStored(grid[0], DataRows(grid[1..])[k].row, dictionary, rows[k]);
    }
  }

  /** A row whose sum is typed with two decimals after a point or a comma is stored with that many cents. */
  lemma TypedSumReachesThePlan(header: Row, row: Row, dictionary: seq<DictionaryEntry>, p: Plan,
                               cents: nat, width: nat, mark: char)
    requires cents / 100 < Pow10(width) && (mark == '.' || mark == ',')
    requires StoresRow(header, row, dictionary, p)
    requires ColumnCell(header, row, SumColumn) == Text(Padded(cents / 100, width) + [mark] + Padded(cents % 100, 2))
    ensures p.sum == cents
  {
    hide ColumnCell, Denotes, ReadsAs, Strip, IdByName, NumberText.ParseAmount;
    var text := Padded(cents / 100, width) + [mark] + Padded(cents % 100, 2);
    var a :| Denotes(text, a) && IsNearestCents(a, p.sum);
    AmountMeaning(text, a);
    PrintedCentsParse(cents, width, mark);
    assert Pow10(0) == 1;
  }

  // Row numbers in issues.

  /** An upload issue about the k-th parsed row names row k + 2. That row really stands k + 2 rows plus the blank
      rows before it down the sheet, so the number is right exactly when no blank row precedes it. */
  lemma ReportedRowNumber(grid: seq<Row>, dictionary: seq<DictionaryEntry>, plans: seq<Plan>, x: UploadIssue)
    requires ParseSheet(grid).Ok?
    requires x in CheckRows(ParseSheet(grid).value, dictionary, plans).issues
    ensures grid != [] && |ParseSheet(grid).value| == |DataRows(grid[1..])|
    ensures 2 <= x.row < |DataRows(grid[1..])| + 2
    ensures var source := DataRows(grid[1..])[x.row - 2];
      && 2 <= source.number <= |grid| && grid[source.number - 1] == source.row
      && IsGood(grid[0], source.row, ParseSheet(grid).value[x.row - 2])
      && source.number == x.row + BlanksBefore(grid[1..], source.number)
      && (x.row == source.number <==> BlanksBefore(grid[1..], source.number) == 0)
  {
    hide ParseSheet, DataRows, IsGood, IsGoodSheet;
    GoodSheetHasRows(grid);
    AcceptsExactlyGoodSheets(grid);
    OneIssuePerFailingRow(ParseSheet(grid).value, dictionary, plans);
    TrueRowNumber(grid[1..], x.row - 2);
  }

  const HEADER: Row := [Text("period"), Text("category"), Text("sum")]
  const BLANK: Row := [Empty, Empty, Empty]
  const STRAY: Row := [DateCell(CalendarDate(2024, 1, 1)), Text("other"), Text(Padded(0, 1) + ['.'] + Padded(0, 2))]

  lemma PlainName(name: string)
    requires name != "" && forall c :: c in name ==> 'a' <= c <= 'z'
    ensures Lower(Strip(name)) == name
  {
    assert name[0] in name && name[|name| - 1] in name;
    StripPadding("", name, "");
    assert "" + name + "" == name;
    assert forall i :: 0 <= i < |name| ==> name[i] in name;
  }

  lemma HeaderIsPlain()
    ensures HeaderNames(HEADER) == ["period", "category", "sum"]
  {
    hide Strip, Lower;
    PlainName("period");
    PlainName("category");
    PlainName("sum");
  }

  lemma StrayCells()
    ensures forall c :: ColumnName(c) in HeaderNames(HEADER)
    ensures ColumnCell(HEADER, STRAY, PeriodColumn) == STRAY[0]
    ensures ColumnCell(HEADER, STRAY, CategoryColumn) == STRAY[1]
    ensures ColumnCell(HEADER, STRAY, SumColumn) == STRAY[2]
  {
    HeaderIsPlain();
    hide HeaderNames, PositionOf;
    var names := ["period", "category", "sum"];
    assert |names[0]| == 6 && |names[1]| == 8 && |names[2]| == 3;
    PositionIs(names, 0);
    PositionIs(names, 1);
    PositionIs(names, 2);
    assert names[0] in names && names[1] in names && names[2] in names;
  }

  lemma OtherIsPlain()
    ensures Strip("other") == "other" && !IsBlankCell(Text("other"))
  {
    StripPadding("", "other", "");
    assert "" + "other" + "" == "other";
    assert "other"[0] in "other";
  }

  lemma StraySum()
    ensures AmountOf(STRAY[2]).Ok? && !IsBlankCell(STRAY[2]) && Denotes(Shown(STRAY[2]), AmountOf(STRAY[2]).value)
    ensures AmountOf(STRAY[2]).value.coefficient >= 0
  {
    hide NumberText.ParseAmount, Padded, Denotes, ToCents;
    TypedSumIsStored(0, 1, '.');
    AmountMeaning(Shown(STRAY[2]), AmountOf(STRAY[2]).value);
    BlankMeaning(STRAY[2]);
  }

  lemma StrayRowIsGood()
    ensures exists sum :: IsGood(HEADER, STRAY, PlanRow(CalendarDate(2024, 1, 1), "other", sum))
    ensures forall v :: IsGood(HEADER, STRAY, v) ==> v.categoryName == "other"
  {
    hide ColumnCell, HeaderNames, Denotes, AmountOf, IsBlankCell, Strip, Padded;
    StrayCells();
    OtherIsPlain();
    StraySum();
    assert IsGood(HEADER, STRAY, PlanRow(CalendarDate(2024, 1, 1), "other", AmountOf(STRAY[2]).value));
  }

  lemma StrayRowIsThird()
    ensures DataRows([BLANK, STRAY]) == [Numbered(3, STRAY)]
  {
    assert [BLANK, STRAY][..1] == [BLANK] && [BLANK][..0] == [];
    assert STRAY[0] in STRAY;
    assert DataRows([BLANK]) == [];
  }

  lemma OnlyRowUnknown(rows: seq<PlanRow>, dictionary: seq<DictionaryEntry>, plans: seq<Plan>)
    requires |rows| == 1 && RowKey(rows[0], dictionary).None?
    ensures CheckRows(rows, dictionary, plans).issues == [UnknownCategory(2)]
  {
    assert rows[..0] == [];
  }

  /** A sheet on which the reported number is wrong: below a blank row, the unknown category of sheet row 3 is
      reported as row 2. */
  lemma ReportedRowCanBeWrong(dictionary: seq<DictionaryEntry>, plans: seq<Plan>)
    requires IdByName(dictionary, "other").None?
    ensures var grid := [HEADER, BLANK, STRAY];
      && ParseSheet(grid).Ok?
      && CheckRows(ParseSheet(grid).value, dictionary, plans).issues == [UnknownCategory(2)]
      && DataRows(grid[1..]) == [Numbered(3, STRAY)]
  {
    hide ParseSheet, IsGood, HeaderNames, DataRows, CheckRows;
    var grid := [HEADER, BLANK, STRAY];
    var rows := grid[1..];
    assert rows == [BLANK, STRAY];
    StrayRowIsThird();
    StrayCells();
    StrayRowIsGood();
    AcceptsExactlyGoodSheets(grid);
    assert IsGoodSheet(grid) by {
      forall x | x in DataRows(rows)
        ensures exists v :: IsGood(grid[0], x.row, v)
      {
        var sum :| IsGood(HEADER, STRAY, PlanRow(CalendarDate(2024, 1, 1), "other", sum));
        assert x.row == STRAY && grid[0] == HEADER;
      }
    }
    var values := ParseSheet(grid).value;
    assert IsGood(HEADER, STRAY, values[0]);
    OnlyRowUnknown(values, dictionary, plans);
  }

  lemma GoodSheetHasRows(grid: seq<Row>)
    requires ParseSheet(grid).Ok?
    ensures grid != []
  {
  }
}
