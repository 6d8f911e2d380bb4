/** One request's transaction: the session, the plan repository and the unit of work around an upload. */
module UnitOfWork {
  import opened Outcomes
  import Calendar
  import opened Ledger
  import PlansParser
  import opened InsertPlans

  /** The committed tables an upload reads and writes. */
  class Database {
    const dictionary: seq<DictionaryEntry>
    var plans: seq<Plan>

    constructor (dictionary: seq<DictionaryEntry>)
      ensures this.dictionary == dictionary && plans == []
    {
      this.dictionary := dictionary;
      plans := [];
    }
  }

  /** A database session: rows flushed in its open transaction, not yet committed. */
  class Session {
    const db: Database
    var flushed: seq<Plan>

    constructor (db: Database)
      ensures this.db == db && flushed == []
    {
      this.db := db;
      flushed := [];
    }

    /** What queries of this transaction see. */
    function Visible(): seq<Plan>
      reads this, db
    {
      db.plans + flushed
    }

    /** INSERT one by one under the unique constraint; a violation undoes the transaction. */
    method Flush(rows: seq<Plan>) returns (ok: bool)
      modifies this
      ensures ok <==> UniqueKeys(rows) && forall p :: p in rows ==> !KeyStored(old(Visible()), Key(p))
      ensures flushed == if ok then old(flushed) + rows else []
    {
      ghost var before := Visible();
      for i := 0 to |rows|
        invariant flushed == old(flushed) + rows[..i]
        invariant UniqueKeys(rows[..i])
        invariant forall p :: p in rows[..i] ==> !KeyStored(before, Key(p))
      {
        assert Visible() == before + rows[..i];
        if KeyStored(Visible(), Key(rows[i])) {
          Clash(before, rows, i);
          flushed := [];
          return false;
        }
        NoClash(before, rows, i);
        assert rows[..i + 1] == rows[..i] + [rows[i]];
        flushed := flushed + [rows[i]];
      }
      assert rows[..|rows|] == rows;
      return true;
    }

    method Commit()
      modifies this, db
      ensures db.plans == old(db.plans) + old(flushed) && flushed == []
    {
      db.plans := db.plans + flushed;
      flushed := [];
    }

    method Rollback()
      modifies this
      ensures flushed == []
    {
      flushed := [];
    }
  }

  lemma Clash(before: seq<Plan>, rows: seq<Plan>, i: nat)
    requires i < |rows| && KeyStored(before + rows[..i], Key(rows[i]))
    ensures !UniqueKeys(rows) || exists p :: p in rows && KeyStored(before, Key(p))
  {
    var q :| q in before + rows[..i] && Key(q) == Key(rows[i]);
    if q in before {
      assert rows[i] in rows;
    } else {
      var j :| 0 <= j < i && rows[..i][j] == q;
      assert Key(rows[j]) == Key(rows[i]);
    }
  }

  lemma NoClash(before: seq<Plan>, rows: seq<Plan>, i: nat)
    requires i < |rows| && !KeyStored(before + rows[..i], Key(rows[i])) && UniqueKeys(rows[..i])
    ensures UniqueKeys(rows[..i + 1]) && !KeyStored(before, Key(rows[i]))
  {
    assert forall q :: q in before || q in rows[..i] ==> q in before + rows[..i];
    forall j | 0 <= j < i
      ensures Key(rows[j]) != Key(rows[i])
    {
      assert rows[..i][j] in rows[..i];
    }
    assert forall j, k :: 0 <= j < k < i ==> Key(rows[..i][j]) != Key(rows[..i][k]);
  }

  lemma UniqueSnoc(rows: seq<Plan>, p: Plan)
    requires UniqueKeys(rows)
    ensures UniqueKeys(rows + [p]) <==> forall j :: 0 <= j < |rows| ==> Key(rows[j]) != Key(p)
  {
    var all := rows + [p];
    if UniqueKeys(all) {
      forall j | 0 <= j < |rows|
        ensures Key(rows[j]) != Key(p)
      {
        assert Key(all[j]) != Key(all[|rows|]);
      }
    }
  }

  class PlanRepository {
    const session: Session

    constructor (session: Session)
      ensures this.session == session
    {
      this.session := session;
    }

    /** Whether some visible row has both columns; among unique keys, exactly whether the unique constraint would
        refuse such a plan, whatever its sum. */
    method ExistsForPeriodCategory(period: Calendar.Date, categoryId: int) returns (found: bool)
      ensures found <==> exists p :: p in session.Visible() && p.period == period && p.categoryId == categoryId
      ensures UniqueKeys(session.Visible()) ==>
        forall sum :: found <==> !UniqueKeys(session.Visible() + [Plan(period, sum, categoryId)])
    {
      var rows := session.Visible();
      found := false;
      for i := 0 to |rows|
        invariant found <==> exists j :: 0 <= j < i && Key(rows[j]) == (period, categoryId)
      {
        if rows[i].period == period && rows[i].categoryId == categoryId {
          found := true;
        }
      }
      forall sum | UniqueKeys(rows)
        ensures found <==> !UniqueKeys(rows + [Plan(period, sum, categoryId)])
      {
        UniqueSnoc(rows, Plan(period, sum, categoryId));
      }
    }

    method BulkInsert(plans: seq<Plan>) returns (ok: bool)
      modifies session
      ensures ok <==> UniqueKeys(plans) && forall p :: p in plans ==> !KeyStored(old(session.Visible()), Key(p))
      ensures session.flushed == if ok then old(session.flushed) + plans else []
    {
      if plans == [] {
        return true;
      }
      ok := session.Flush(plans);
    }
  }

  class SqlUnitOfWork {
    const db: Database
    var session: Session?
    var plans: PlanRepository?

    constructor (db: Database)
      ensures this.db == db && session == null
    {
      this.db := db;
      session := null;
      plans := null;
    }

    /** Entered: a session on this database and a repository on that session. */
    predicate IsOpen()
      reads this
    {
      session != null && session.db == db && plans != null && plans.session == session
    }

    method Enter()
      modifies this
      ensures IsOpen() && fresh(session) && fresh(plans) && session.flushed == []
    {
      session := new Session(db);
      plans := new PlanRepository(session);
    }

    /** Leaving with an exception rolls back; leaving at all closes the session, which drops what was not committed. */
    method Exit(failed: bool)
      requires session != null
      modifies this, session
      ensures session == null && old(session).flushed == []
    {
      if failed {
        session.Rollback();
      }
      session.flushed := [];
      session := null;
    }

    method Commit()
      requires IsOpen()
      modifies session, db
      ensures db.plans == old(db.plans) + old(session.flushed) && session.flushed == []
    {
      session.Commit();
    }

    method Rollback()
      requires session != null
      modifies session
      ensures session.flushed == []
    {
      session.Rollback();
    }
  }

  /** The upload loop against the open transaction, asking the repository about each row. */
  method CheckRowsAgainst(uow: SqlUnitOfWork, rows: seq<PlansParser.PlanRow>)
    returns (issues: seq<UploadIssue>, toInsert: seq<Plan>)
    requires uow.IsOpen() && uow.session.flushed == []
    ensures Progress(issues, toInsert, CheckRows(rows, uow.db.dictionary, uow.db.plans).seen)
            == CheckRows(rows, uow.db.dictionary, uow.db.plans)
  {
    var dictionary := uow.db.dictionary;
    assert uow.session.Visible() == uow.db.plans;
    issues, toInsert := [], [];
    var seenKeys: set<(Calendar.Date, int)> := {};
    for i := 0 to |rows|
      invariant CheckRows(rows[..i], dictionary, uow.db.plans) == Progress(issues, toInsert, seenKeys)
    {
      var row := rows[i];
      assert rows[..i + 1][..i] == rows[..i];
      var categoryId := IdByName(dictionary, row.categoryName);
      if categoryId.None? {
        issues := issues + [UnknownCategory(i + 2)];
        continue;
      }
      var key := (row.period, categoryId.value);
      if key in seenKeys {
        issues := issues + [DuplicateInFile(i + 2)];
        continue;
      }
      seenKeys := seenKeys + {key};
      var isStored := uow.plans.ExistsForPeriodCategory(row.period, categoryId.value);
      if isStored {
        issues := issues + [AlreadyExists(i + 2)];
        continue;
      }
      toInsert := toInsert + [Plan(row.period, ToCents(row.sum), categoryId.value)];
    }
    assert rows[..|rows|] == rows;
  }

  lemma AcceptedRowsFit(rows: seq<PlansParser.PlanRow>, dictionary: seq<DictionaryEntry>, plans: seq<Plan>)
    requires CheckRows(rows, dictionary, plans).issues == []
    ensures var toInsert := CheckRows(rows, dictionary, plans).toInsert;
      && |toInsert| == |rows| && UniqueKeys(toInsert)
      && forall p :: p in toInsert ==> !KeyStored(plans, Key(p))
  {
    AcceptedExactlyWhen(rows, dictionary, plans);
    var toInsert := PlansOf(rows, dictionary);
    assert plans + CheckRows(rows, dictionary, plans).toInsert == plans + toInsert;
    CleanRunInsertsAll(rows, dictionary, plans);
    assert forall i :: 0 <= i < |rows| ==> Some(Key(toInsert[i])) == RowKey(rows[i], dictionary);
    forall p | p in toInsert
      ensures !KeyStored(plans, Key(p))
    {
      var i :| 0 <= i < |rows| && toInsert[i] == p;
      assert !RowStored(rows[i], dictionary, plans);
    }
  }

  /** The use case inside an open unit of work: on success the committed plans are exactly what the one-step
      upload gives and the count is right; on any failure nothing is committed and nothing is left flushed. */
  method Execute(uow: SqlUnitOfWork, grid: seq<PlansParser.Row>) returns (r: Result<nat, UploadFailure>)
    requires uow.IsOpen() && uow.session.flushed == []
    modifies uow.session, uow.db
    ensures uow.session.flushed == []
    ensures match UploadSheet(grid, uow.db.dictionary, old(uow.db.plans))
      case Ok((after, count)) => r == Ok(count) && uow.db.plans == after
      case Err(e) => r == Err(e) && uow.db.plans == old(uow.db.plans)
  {
    hide PlansParser.ParseSheet, CheckRows;
    var parsed := PlansParser.Parse(grid);
    if parsed.Err? {
      return Err(InvalidFile(parsed.error));
    }
    var rows := parsed.value;
    var issues, toInsert := CheckRowsAgainst(uow, rows);
    if issues != [] {
      return Err(InvalidPlans(issues));
    }
    AcceptedRowsFit(rows, uow.db.dictionary, uow.db.plans);
    assert uow.session.Visible() == uow.db.plans;
    var ok := uow.plans.BulkInsert(toInsert);
    assert ok;
    uow.Commit();
    return Ok(|toInsert|);
  }

  const MAX_UPLOAD_BYTES := 10 * 1024 * 1024

  /** The upload request for a file of some size holding a sheet: enter, check the size, run, leave. The database
      ends with the whole file or as it was. */
  method HandleUpload(db: Database, size: nat, grid: seq<PlansParser.Row>) returns (r: Result<nat, UploadFailure>)
    modifies db
    ensures db.plans == if 0 < size <= MAX_UPLOAD_BYTES then AfterSheet(grid, db.dictionary, old(db.plans))
                        else old(db.plans)
    ensures r == if size == 0 then Err(EmptyUpload)
                 else if size > MAX_UPLOAD_BYTES then Err(OversizedUpload)
                 else match UploadSheet(grid, db.dictionary, old(db.plans))
                   case Ok((_, count)) => Ok(count)
                   case Err(e) => Err(e)
    ensures r.Ok? ==> StoresSheet(grid, db.dictionary, old(db.plans), db.plans, r.value)
  {
    hide UploadSheet, StoresSheet;
    if UploadSheet(grid, db.dictionary, db.plans).Ok? {
      UploadedPlans(grid, db.dictionary, db.plans);
    }
    var uow := new SqlUnitOfWork(db);
    uow.Enter();
    if size == 0 {
      r := Err(EmptyUpload);
    } else if size > MAX_UPLOAD_BYTES {
      r := Err(OversizedUpload);
    } else {
      r := Execute(uow, grid);
    }
    uow.Exit(r.Err?);
  }
}
