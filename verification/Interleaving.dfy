/** Any number of uploads running at once over one plan table.

    Each upload is a transaction: it checks its rows one by one, each against some snapshot committed by then,
    flushes its inserts one by one, and commits, or fails and rolls back. Steps of different uploads interleave
    freely. The database lets a row land only if no committed row and no row of another open transaction has its
    key: against a committed (or its own) row the insert fails, against another open transaction's row it waits. */
module Interleaving {
  import opened Outcomes
  import Calendar
  import opened Ledger
  import opened PlansParser
  import opened InsertPlans

  datatype Reason =
    | Rejected(issues: seq<UploadIssue>)  // the loop found issues
    | KeyTaken                            // an insert hit the unique constraint
    | Aborted                             // deadlock victim, timeout, lost connection, cancelled request

  datatype Phase =
    | Checking(next: nat, progress: Progress)
    | Landing(toInsert: seq<Plan>)
    | Committed
    | Failed(reason: Reason)

  /** landed: the rows inserted by the upload's transaction while it is open. */
  datatype Transaction = Transaction(rows: seq<PlanRow>, phase: Phase, landed: seq<Plan>)

  /** history: every committed state of the table, oldest first; winners: the uploads that committed, in order. */
  datatype State = State(dictionary: seq<DictionaryEntry>, history: seq<seq<Plan>>, uploads: seq<Transaction>,
                         winners: seq<nat>)

  datatype Action =
    | Begin(rows: seq<PlanRow>)
    | Check(upload: nat, snapshot: nat)
    | Decide(upload: nat)
    | Land(upload: nat)
    | Commit(upload: nat)
    | Abort(upload: nat)

  function Initial(dictionary: seq<DictionaryEntry>, plans: seq<Plan>): State {
    State(dictionary, [plans], [], [])
  }

  /** The committed table. */
  function Table(s: State): seq<Plan>
    requires s.history != []
  {
    s.history[|s.history| - 1]
  }

  predicate HeldByOther(s: State, u: nat, key: (Calendar.Date, int)) {
    exists v :: 0 <= v < |s.uploads| && v != u && KeyStored(s.uploads[v].landed, key)
  }

  function WithUpload(s: State, u: nat, upload: Transaction): State
    requires u < |s.uploads|
  {
    s.(uploads := s.uploads[u := upload])
  }

  function Fail(s: State, u: nat, reason: Reason): State
    requires u < |s.uploads|
  {
    WithUpload(s, u, s.uploads[u].(phase := Failed(reason), landed := []))
  }

  /** One step; an action that is not possible in this state changes nothing, so any list of actions is a schedule. */
  function Step(s: State, a: Action): State
    requires s.history != []
  {
    match a
    case Begin(rows) => s.(uploads := s.uploads + [Transaction(rows, Checking(0, START), [])])
    case Check(u, k) =>
      if u < |s.uploads| && k < |s.history| && s.uploads[u].phase.Checking?
         && s.uploads[u].phase.next < |s.uploads[u].rows|
      then CheckStep(s, u, s.history[k]) else s
    case Decide(u) =>
      if u < |s.uploads| && s.uploads[u].phase.Checking? && s.uploads[u].phase.next == |s.uploads[u].rows|
      then
        var p := s.uploads[u].phase.progress;
        if p.issues != [] then Fail(s, u, Rejected(p.issues))
        else WithUpload(s, u, s.uploads[u].(phase := Landing(p.toInsert)))
      else s
    case Land(u) =>
      if u < |s.uploads| && s.uploads[u].phase.Landing? && |s.uploads[u].landed| < |s.uploads[u].phase.toInsert|
      then LandStep(s, u) else s
    case Commit(u) =>
      if u < |s.uploads| && s.uploads[u].phase.Landing? && |s.uploads[u].landed| == |s.uploads[u].phase.toInsert|
      then CommitStep(s, u) else s
    case Abort(u) =>
      if u < |s.uploads| && (s.uploads[u].phase.Checking? || s.uploads[u].phase.Landing?)
      then Fail(s, u, Aborted) else s
  }

  function CheckStep(s: State, u: nat, snapshot: seq<Plan>): State
    requires u < |s.uploads| && s.uploads[u].phase.Checking? && s.uploads[u].phase.next < |s.uploads[u].rows|
  {
    var up := s.uploads[u];
    var i := up.phase.next;
    var stored := RowStored(up.rows[i], s.dictionary, snapshot);
    var p := CheckRow(up.phase.progress, up.rows[i], i + 2, s.dictionary, stored);
    WithUpload(s, u, up.(phase := Checking(i + 1, p)))
  }

  function LandStep(s: State, u: nat): State
    requires s.history != [] && u < |s.uploads| && s.uploads[u].phase.Landing?
    requires |s.uploads[u].landed| < |s.uploads[u].phase.toInsert|
  {
    var up := s.uploads[u];
    var p := up.phase.toInsert[|up.landed|];
    if KeyStored(Table(s), Key(p)) || KeyStored(up.landed, Key(p)) then Fail(s, u, KeyTaken)
    else if HeldByOther(s, u, Key(p)) then s
    else WithUpload(s, u, up.(landed := up.landed + [p]))
  }

  function CommitStep(s: State, u: nat): State
    requires s.history != [] && u < |s.uploads|
  {
    var done := WithUpload(s, u, s.uploads[u].(phase := Committed, landed := []));
    done.(history := s.history + [Table(s) + s.uploads[u].landed], winners := s.winners + [u])
  }

  function Run(s: State, actions: seq<Action>): (r: State)
    requires s.history != []
    ensures r.history != []
  {
    if actions == [] then s else Step(Run(s, actions[..|actions| - 1]), actions[|actions| - 1])
  }

  // What stays true.

  predicate Accepts(rows: seq<PlanRow>, dictionary: seq<DictionaryEntry>, plans: seq<Plan>) {
    Upload(rows, dictionary, plans).Ok?
  }

  /** A loop over the rows so far, whatever snapshots its checks read: while it has no issue it has collected
      exactly those rows; once it has one, the file cannot be accepted on top of any plans that include
      what it read. */
  ghost predicate CheckedSoFar(up: Transaction, dictionary: seq<DictionaryEntry>, table: seq<Plan>) {
    up.phase.Checking? ==>
      var i, p := up.phase.next, up.phase.progress;
      && i <= |up.rows|
      && (forall key :: key in p.seen <==> KeyAmong(up.rows[..i], dictionary, key))
      && (p.issues == [] ==>
            && CategoriesKnown(up.rows[..i], dictionary) && KeysDistinct(up.rows[..i], dictionary)
            && p.toInsert == PlansOf(up.rows[..i], dictionary))
      && (p.issues != [] ==> !Accepts(up.rows, dictionary, table))
  }

  /** The phase of an upload and what it has landed fit together. */
  ghost predicate Consistent(up: Transaction, dictionary: seq<DictionaryEntry>, table: seq<Plan>) {
    && CheckedSoFar(up, dictionary, table)
    && (up.phase.Landing? ==>
          && CategoriesKnown(up.rows, dictionary) && KeysDistinct(up.rows, dictionary)
          && up.phase.toInsert == PlansOf(up.rows, dictionary) && up.landed <= up.phase.toInsert)
    && (!up.phase.Landing? ==> up.landed == [])
    && (up.phase.Failed? && !up.phase.reason.Aborted? ==> !Accepts(up.rows, dictionary, table))
  }

  predicate Apart(a: seq<Plan>, b: seq<Plan>) {
    forall p, q :: p in a && q in b ==> Key(p) != Key(q)
  }

  ghost predicate NoOverlap(s: State)
    requires s.history != []
  {
    && UniqueKeys(Table(s))
    && (forall u :: 0 <= u < |s.uploads| ==> Apart(s.uploads[u].landed, Table(s)))
    && (forall u, v :: 0 <= u < |s.uploads| && 0 <= v < |s.uploads| && u != v ==>
          Apart(s.uploads[u].landed, s.uploads[v].landed))
  }

  /** Committed tables only grow: each is the one before with one winner's whole file appended, as the
      one-step upload would have done it there and then. */
  predicate Serial(s: State, initial: seq<Plan>) {
    && |s.history| == |s.winners| + 1 && s.history[0] == initial
    && (forall k :: 0 <= k < |s.winners| ==>
          && s.winners[k] < |s.uploads| && s.uploads[s.winners[k]].phase == Committed
          && Upload(s.uploads[s.winners[k]].rows, s.dictionary, s.history[k]) == Ok(s.history[k + 1]))
  }

  ghost predicate Growing(s: State)
    requires s.history != []
  {
    forall k :: 0 <= k < |s.history| ==> s.history[k] <= Table(s)
  }

  ghost predicate CommittedOnce(s: State) {
    && (forall u :: 0 <= u < |s.uploads| && s.uploads[u].phase == Committed ==> u in s.winners)
    && (forall j, k :: 0 <= j < k < |s.winners| ==> s.winners[j] != s.winners[k])
  }

  ghost predicate Inv(s: State, initial: seq<Plan>) {
    && s.history != []
    && NoOverlap(s) && Serial(s, initial) && Growing(s) && CommittedOnce(s)
    && (forall u :: 0 <= u < |s.uploads| ==> Consistent(s.uploads[u], s.dictionary, Table(s)))
  }

  // Rejections and acceptances carry over to larger tables.

  lemma StoredStaysStored(plans: seq<Plan>, later: seq<Plan>, key: (Calendar.Date, int))
    requires plans <= later && KeyStored(plans, key)
    ensures KeyStored(later, key)
  {
    var p :| p in plans && Key(p) == key;
    assert p in later;
  }

  lemma RejectionIsFinal(rows: seq<PlanRow>, dictionary: seq<DictionaryEntry>, plans: seq<Plan>, later: seq<Plan>)
    requires plans <= later && !Accepts(rows, dictionary, plans)
    ensures !Accepts(rows, dictionary, later)
  {
    AcceptedExactlyWhen(rows, dictionary, plans);
    AcceptedExactlyWhen(rows, dictionary, later);
    if !NoneStored(rows, dictionary, plans) {
      var i :| 0 <= i < |rows| && RowStored(rows[i], dictionary, plans);
      StoredStaysStored(plans, later, RowKey(rows[i], dictionary).value);
      assert RowStored(rows[i], dictionary, later);
    }
  }

  lemma ConsistentOnLarger(up: Transaction, dictionary: seq<DictionaryEntry>, table: seq<Plan>, later: seq<Plan>)
    requires table <= later && Consistent(up, dictionary, table)
    ensures Consistent(up, dictionary, later)
  {
    hide Accepts;
    if !Accepts(up.rows, dictionary, table) {
      RejectionIsFinal(up.rows, dictionary, table, later);
    }
  }

  // One step at a time.

  lemma CheckKeepsConsistent(up: Transaction, dictionary: seq<DictionaryEntry>, table: seq<Plan>, snapshot: seq<Plan>)
    requires Consistent(up, dictionary, table) && up.phase.Checking? && up.phase.next < |up.rows|
    requires snapshot <= table
    ensures var i := up.phase.next;
      var p := CheckRow(up.phase.progress, up.rows[i], i + 2, dictionary, RowStored(up.rows[i], dictionary, snapshot));
      Consistent(up.(phase := Checking(i + 1, p)), dictionary, table)
  {
    hide Accepts;
    var i, p := up.phase.next, up.phase.progress;
    var row := up.rows[i];
    var key := RowKey(row, dictionary);
    var p' := CheckRow(p, row, i + 2, dictionary, RowStored(row, dictionary, snapshot));
    assert up.rows[..i + 1] == up.rows[..i] + [row];
    forall k
      ensures KeyAmong(up.rows[..i + 1], dictionary, k) <==> KeyAmong(up.rows[..i], dictionary, k) || key == Some(k)
    {
      KeyAmongSnoc(up.rows, i, dictionary, k);
    }
    if p.issues == [] {
      if p'.issues == [] {
        CleanRowExtends(up.rows, i, dictionary);
      } else {
        BadRowRejects(up.rows, i, dictionary, table, snapshot);
      }
    }
  }

  lemma KeyAmongSnoc(rows: seq<PlanRow>, i: nat, dictionary: seq<DictionaryEntry>, key: (Calendar.Date, int))
    requires i < |rows|
    ensures KeyAmong(rows[..i + 1], dictionary, key)
            <==> KeyAmong(rows[..i], dictionary, key) || RowKey(rows[i], dictionary) == Some(key)
  {
    if KeyAmong(rows[..i], dictionary, key) {
      var j :| 0 <= j < i && RowKey(rows[..i][j], dictionary) == Some(key);
      assert RowKey(rows[..i + 1][j], dictionary) == Some(key);
    }
    if RowKey(rows[i], dictionary) == Some(key) {
      assert rows[..i + 1][i] == rows[i];
    }
    if KeyAmong(rows[..i + 1], dictionary, key) {
      var j :| 0 <= j < i + 1 && RowKey(rows[..i + 1][j], dictionary) == Some(key);
      assert j < i ==> RowKey(rows[..i][j], dictionary) == Some(key);
    }
  }

  lemma CleanRowExtends(rows: seq<PlanRow>, i: nat, dictionary: seq<DictionaryEntry>)
    requires i < |rows| && CategoriesKnown(rows[..i], dictionary) && KeysDistinct(rows[..i], dictionary)
    requires RowKey(rows[i], dictionary).Some? && !KeyAmong(rows[..i], dictionary, RowKey(rows[i], dictionary).value)
    ensures CategoriesKnown(rows[..i + 1], dictionary) && KeysDistinct(rows[..i + 1], dictionary)
    ensures PlansOf(rows[..i + 1], dictionary) == PlansOf(rows[..i], dictionary) + [PlanOf(rows[i], dictionary)]
  {
    var more := rows[..i + 1];
    assert forall j :: 0 <= j < i ==> more[j] == rows[..i][j];
    forall j, k | 0 <= j < k < |more|
      ensures RowKey(more[j], dictionary) != RowKey(more[k], dictionary)
    {
      if k == i {
        assert RowKey(rows[..i][j], dictionary) == RowKey(more[j], dictionary);
      } else {
        assert RowKey(rows[..i][j], dictionary) != RowKey(rows[..i][k], dictionary);
      }
    }
  }

  lemma BadRowRejects(rows: seq<PlanRow>, i: nat, dictionary: seq<DictionaryEntry>, table: seq<Plan>,
                      snapshot: seq<Plan>)
    requires i < |rows| && snapshot <= table
    requires || RowKey(rows[i], dictionary).None?
             || KeyAmong(rows[..i], dictionary, RowKey(rows[i], dictionary).value)
             || RowStored(rows[i], dictionary, snapshot)
    ensures !Accepts(rows, dictionary, table)
  {
    AcceptedExactlyWhen(rows, dictionary, table);
    if RowKey(rows[i], dictionary).Some? {
      if RowStored(rows[i], dictionary, snapshot) {
        StoredStaysStored(snapshot, table, RowKey(rows[i], dictionary).value);
        assert RowStored(rows[i], dictionary, table);
      } else {
        var j :| 0 <= j < i && RowKey(rows[..i][j], dictionary) == RowKey(rows[i], dictionary);
        assert RowKey(rows[j], dictionary) == RowKey(rows[i], dictionary);
      }
    }
  }

  lemma TakenKeyRejects(up: Transaction, dictionary: seq<DictionaryEntry>, table: seq<Plan>)
    requires Consistent(up, dictionary, table) && up.phase.Landing? && |up.landed| < |up.phase.toInsert|
    requires KeyStored(table, Key(up.phase.toInsert[|up.landed|]))
    ensures !Accepts(up.rows, dictionary, table)
  {
    AcceptedExactlyWhen(up.rows, dictionary, table);
    var i := |up.landed|;
    assert Some(Key(up.phase.toInsert[i])) == RowKey(up.rows[i], dictionary);
    assert RowStored(up.rows[i], dictionary, table);
  }

  /** The rows of one file never clash with each other. */
  lemma OwnRowsNeverClash(up: Transaction, dictionary: seq<DictionaryEntry>, table: seq<Plan>)
    requires Consistent(up, dictionary, table) && up.phase.Landing? && |up.landed| < |up.phase.toInsert|
    ensures !KeyStored(up.landed, Key(up.phase.toInsert[|up.landed|]))
  {
    var i := |up.landed|;
    forall q | q in up.landed
      ensures Key(q) != Key(up.phase.toInsert[i])
    {
      var j :| 0 <= j < i && up.landed[j] == q;
      assert RowKey(up.rows[j], dictionary) != RowKey(up.rows[i], dictionary);
    }
  }

  /** What a transaction that has landed all its rows is about to commit is what the one-step upload
      would give on the table as it is now, however stale its checks were. */
  lemma CommitIsUpload(up: Transaction, dictionary: seq<DictionaryEntry>, table: seq<Plan>)
    requires Consistent(up, dictionary, table) && up.phase.Landing? && |up.landed| == |up.phase.toInsert|
    requires Apart(up.landed, table)
    ensures Upload(up.rows, dictionary, table) == Ok(table + up.landed)
  {
    assert up.landed == up.phase.toInsert;
    AcceptedExactlyWhen(up.rows, dictionary, table);
    forall i | 0 <= i < |up.rows|
      ensures !RowStored(up.rows[i], dictionary, table)
    {
      assert Some(Key(up.landed[i])) == RowKey(up.rows[i], dictionary) && up.landed[i] in up.landed;
    }
  }

  // Every step keeps the invariant.

  lemma InitialIsFine(dictionary: seq<DictionaryEntry>, plans: seq<Plan>)
    requires UniqueKeys(plans)
    ensures Inv(Initial(dictionary, plans), plans)
  {
  }

  /** Changing one unfinished upload, without letting it hold new rows, keeps everything. */
  lemma LocalChange(s: State, initial: seq<Plan>, u: nat, up: Transaction)
    requires Inv(s, initial) && u < |s.uploads|
    requires !s.uploads[u].phase.Committed? && !up.phase.Committed?
    requires Consistent(up, s.dictionary, Table(s))
    requires up.landed == [] || up.landed == s.uploads[u].landed
    ensures Inv(WithUpload(s, u, up), initial)
  {
    hide Consistent;
  }

  lemma BeginKeeps(s: State, initial: seq<Plan>, rows: seq<PlanRow>)
    requires Inv(s, initial)
    ensures Inv(Step(s, Begin(rows)), initial)
  {
    var up := Transaction(rows, Checking(0, START), []);
    assert rows[..0] == [];
    assert Consistent(up, s.dictionary, Table(s));
    hide Consistent;
    var s' := Step(s, Begin(rows));
    assert forall v :: 0 <= v < |s'.uploads| ==> s'.uploads[v] == if v < |s.uploads| then s.uploads[v] else up;
  }

  lemma CheckKeeps(s: State, initial: seq<Plan>, u: nat, k: nat)
    requires Inv(s, initial)
    ensures Inv(Step(s, Check(u, k)), initial)
  {
    hide Consistent;
    if Step(s, Check(u, k)) != s {
      assert u < |s.uploads| && k < |s.history|;
      CheckKeepsConsistent(s.uploads[u], s.dictionary, Table(s), s.history[k]);
      CheckLandsNothing(s, u, k, initial);
    }
  }

  lemma CheckLandsNothing(s: State, u: nat, k: nat, initial: seq<Plan>)
    requires Inv(s, initial) && u < |s.uploads| && k < |s.history|
    requires s.uploads[u].phase.Checking? && s.uploads[u].phase.next < |s.uploads[u].rows|
    requires Consistent(CheckStep(s, u, s.history[k]).uploads[u], s.dictionary, Table(s))
    ensures Inv(CheckStep(s, u, s.history[k]), initial)
  {
    LocalChange(s, initial, u, CheckStep(s, u, s.history[k]).uploads[u]);
  }

  lemma DecideKeeps(s: State, initial: seq<Plan>, u: nat)
    requires Inv(s, initial)
    ensures Inv(Step(s, Decide(u)), initial)
  {
    hide Accepts;
    var s' := Step(s, Decide(u));
    if s' != s {
      var up := s.uploads[u];
      assert Consistent(up, s.dictionary, Table(s));
      assert up.rows[..|up.rows|] == up.rows;
      assert Consistent(s'.uploads[u], s.dictionary, Table(s));
      LocalChange(s, initial, u, s'.uploads[u]);
    }
  }

  lemma AbortKeeps(s: State, initial: seq<Plan>, u: nat)
    requires Inv(s, initial)
    ensures Inv(Step(s, Abort(u)), initial)
  {
    hide Accepts;
    var s' := Step(s, Abort(u));
    if s' != s {
      assert Consistent(s'.uploads[u], s.dictionary, Table(s));
      LocalChange(s, initial, u, s'.uploads[u]);
    }
  }

  lemma LandKeeps(s: State, initial: seq<Plan>, u: nat)
    requires Inv(s, initial)
    ensures Inv(Step(s, Land(u)), initial)
  {
    hide Accepts;
    var s' := Step(s, Land(u));
    if s' != s {
      var up := s.uploads[u];
      assert Consistent(up, s.dictionary, Table(s));
      var p := up.phase.toInsert[|up.landed|];
      OwnRowsNeverClash(up, s.dictionary, Table(s));
      if KeyStored(Table(s), Key(p)) {
        TakenKeyRejects(up, s.dictionary, Table(s));
        LocalChange(s, initial, u, s'.uploads[u]);
      } else {
        LandingKeepsApart(s, initial, u, p);
      }
    }
  }

  lemma LandingKeepsApart(s: State, initial: seq<Plan>, u: nat, p: Plan)
    requires Inv(s, initial) && u < |s.uploads| && s.uploads[u].phase.Landing?
    requires |s.uploads[u].landed| < |s.uploads[u].phase.toInsert|
    requires p == s.uploads[u].phase.toInsert[|s.uploads[u].landed|]
    requires !KeyStored(Table(s), Key(p)) && !HeldByOther(s, u, Key(p))
    ensures Inv(WithUpload(s, u, s.uploads[u].(landed := s.uploads[u].landed + [p])), initial)
  {
    hide Accepts;
    var up := s.uploads[u];
    var up' := up.(landed := up.landed + [p]);
    assert Consistent(up, s.dictionary, Table(s));
    assert Consistent(up', s.dictionary, Table(s));
    assert Apart([p], Table(s));
    forall v | 0 <= v < |s.uploads| && v != u
      ensures Apart(up'.landed, s.uploads[v].landed) && Apart(s.uploads[v].landed, up'.landed)
    {
      assert Apart(up.landed, s.uploads[v].landed);
      assert !KeyStored(s.uploads[v].landed, Key(p));
    }
    hide Consistent, Serial, CommittedOnce;
    SerialElsewhere(s, initial, u, up');
  }

  lemma SerialElsewhere(s: State, initial: seq<Plan>, u: nat, up: Transaction)
    requires u < |s.uploads| && !s.uploads[u].phase.Committed? && !up.phase.Committed?
    requires Serial(s, initial) && CommittedOnce(s)
    ensures Serial(WithUpload(s, u, up), initial) && CommittedOnce(WithUpload(s, u, up))
  {
  }

  lemma CommitKeeps(s: State, initial: seq<Plan>, u: nat)
    requires Inv(s, initial)
    ensures Inv(Step(s, Commit(u)), initial)
  {
    hide Accepts, Consistent;
    var s' := Step(s, Commit(u));
    if s' != s {
      var up := s.uploads[u];
      var table, later := Table(s), Table(s) + up.landed;
      assert Table(s') == later;
      CommitKeepsUnique(s, initial, u);
      CommitIsUpload(up, s.dictionary, table);
      forall v | 0 <= v < |s'.uploads|
        ensures Consistent(s'.uploads[v], s.dictionary, later)
      {
        if v == u {
          CommittedIsConsistent(s'.uploads[u], s.dictionary, later);
        } else {
          ConsistentOnLarger(s.uploads[v], s.dictionary, table, later);
        }
      }
      CommitKeepsSerial(s, initial, u);
    }
  }

  lemma CommittedIsConsistent(up: Transaction, dictionary: seq<DictionaryEntry>, table: seq<Plan>)
    requires up.phase.Committed? && up.landed == []
    ensures Consistent(up, dictionary, table)
  {
  }

  lemma CommitKeepsUnique(s: State, initial: seq<Plan>, u: nat)
    requires Inv(s, initial) && u < |s.uploads| && s.uploads[u].phase.Landing?
    ensures NoOverlap(CommitStep(s, u)) && Growing(CommitStep(s, u))
  {
    var up := s.uploads[u];
    assert Consistent(up, s.dictionary, Table(s));
    hide Consistent, Serial;
    LandedAreUnique(up, s.dictionary, Table(s));
    var later := Table(s) + up.landed;
    forall i, j | 0 <= i < j < |later|
      ensures Key(later[i]) != Key(later[j])
    {
      if i < |Table(s)| <= j {
        assert Table(s)[i] in Table(s) && up.landed[j - |Table(s)|] in up.landed;
      }
    }
    forall v | 0 <= v < |s.uploads| && v != u
      ensures Apart(s.uploads[v].landed, later)
    {
      assert Apart(s.uploads[v].landed, up.landed);
    }
    var s' := CommitStep(s, u);
    assert Apart([], later);
    forall k | 0 <= k < |s'.history|
      ensures s'.history[k] <= later
    {
      assert k < |s.history| ==> s'.history[k] == s.history[k] <= Table(s);
    }
  }

  lemma LandedAreUnique(up: Transaction, dictionary: seq<DictionaryEntry>, table: seq<Plan>)
    requires Consistent(up, dictionary, table) && up.phase.Landing?
    ensures UniqueKeys(up.landed)
  {
    hide Accepts;
    forall i, j | 0 <= i < j < |up.landed|
      ensures Key(up.landed[i]) != Key(up.landed[j])
    {
      assert up.landed[i] == up.phase.toInsert[i] && up.landed[j] == up.phase.toInsert[j];
      assert RowKey(up.rows[i], dictionary) != RowKey(up.rows[j], dictionary);
    }
  }

  lemma CommitKeepsSerial(s: State, initial: seq<Plan>, u: nat)
    requires Inv(s, initial) && u < |s.uploads| && s.uploads[u].phase.Landing?
    requires Upload(s.uploads[u].rows, s.dictionary, Table(s)) == Ok(Table(s) + s.uploads[u].landed)
    ensures Serial(CommitStep(s, u), initial) && CommittedOnce(CommitStep(s, u))
  {
    hide Consistent, NoOverlap, Growing;
    var s' := CommitStep(s, u);
    assert u !in s.winners;
    forall k | 0 <= k < |s'.winners|
      ensures s'.winners[k] < |s'.uploads| && s'.uploads[s'.winners[k]].phase == Committed
      ensures Upload(s'.uploads[s'.winners[k]].rows, s'.dictionary, s'.history[k]) == Ok(s'.history[k + 1])
    {
      if k < |s.winners| {
        assert s'.winners[k] == s.winners[k] != u;
        assert s'.history[k] == s.history[k] && s'.history[k + 1] == s.history[k + 1];
      } else {
        assert s'.history[k] == Table(s);
      }
    }
  }

  lemma StepKeeps(s: State, initial: seq<Plan>, a: Action)
    requires Inv(s, initial)
    ensures Inv(Step(s, a), initial)
  {
    hide Inv, Step;
    match a
    case Begin(rows) => BeginKeeps(s, initial, rows);
    case Check(u, k) => CheckKeeps(s, initial, u, k);
    case Decide(u) => DecideKeeps(s, initial, u);
    case Land(u) => LandKeeps(s, initial, u);
    case Commit(u) => CommitKeeps(s, initial, u);
    case Abort(u) => AbortKeeps(s, initial, u);
  }

  lemma {:induction false} RunKeeps(s: State, initial: seq<Plan>, actions: seq<Action>)
    requires s.history != [] && Inv(s, initial)
    ensures Inv(Run(s, actions), initial)
  {
    hide Inv, Step;
    if actions != [] {
      RunKeeps(s, initial, actions[..|actions| - 1]);
      StepKeeps(Run(s, actions[..|actions| - 1]), initial, actions[|actions| - 1]);
    }
  }

  // The results, for every schedule of any number of uploads.

  /** Running files one after another, alone; a file that is not accepted changes nothing. */
  function OneByOne(files: seq<seq<PlanRow>>, dictionary: seq<DictionaryEntry>, plans: seq<Plan>): seq<Plan> {
    if files == [] then plans
    else
      var before := OneByOne(files[..|files| - 1], dictionary, plans);
      match Upload(files[|files| - 1], dictionary, before)
      case Ok(after) => after
      case Err(_) => before
  }

  /** The files of the first k winners, in commit order. */
  function WinningFiles(s: State, k: nat): seq<seq<PlanRow>>
    requires k <= |s.winners| && forall i :: 0 <= i < |s.winners| ==> s.winners[i] < |s.uploads|
  {
    seq(k, i requires 0 <= i < k => s.uploads[s.winners[i]].rows)
  }

  lemma {:induction false} HistoryIsOneByOne(s: State, initial: seq<Plan>, k: nat)
    requires Serial(s, initial) && k <= |s.winners|
    ensures s.history[k] == OneByOne(WinningFiles(s, k), s.dictionary, initial)
  {
    if k > 0 {
      HistoryIsOneByOne(s, initial, k - 1);
      assert WinningFiles(s, k)[..k - 1] == WinningFiles(s, k - 1);
    }
  }

  lemma {:induction false} DictionaryIsFixed(s: State, actions: seq<Action>)
    requires s.history != []
    ensures Run(s, actions).dictionary == s.dictionary
  {
    if actions != [] {
      DictionaryIsFixed(s, actions[..|actions| - 1]);
    }
  }

  /** Whatever the schedule and however stale the snapshots the checks read: the committed table never holds
      two plans with one period and category, and every state any reader can ever see is the initial table
      with the first few winning files applied whole, one by one in commit order. */
  lemma EveryScheduleIsSerial(dictionary: seq<DictionaryEntry>, plans: seq<Plan>, actions: seq<Action>, k: nat)
    requires UniqueKeys(plans)
    requires k < |Run(Initial(dictionary, plans), actions).history|
    ensures var s := Run(Initial(dictionary, plans), actions);
      && UniqueKeys(s.history[k])
      && Serial(s, plans)
      && k <= |s.winners|
      && s.history[k] == OneByOne(WinningFiles(s, k), dictionary, plans)
  {
    hide Step, Consistent;
    InitialIsFine(dictionary, plans);
    RunKeeps(Initial(dictionary, plans), plans, actions);
    var s := Run(Initial(dictionary, plans), actions);
    DictionaryIsFixed(Initial(dictionary, plans), actions);
    HistoryIsOneByOne(s, plans, k);
    assert s.history[k] <= Table(s);
    assert forall i :: 0 <= i < |s.history[k]| ==> s.history[k][i] == Table(s)[i];
  }

  /** A winner's rows are all in the table, exactly once, in one block; an upload that lost, or is still
      running, has contributed nothing. A loser that was not aborted from outside would also be turned down by a
      fresh upload of the same file on the table as it is now. */
  lemma AllOrNothing(dictionary: seq<DictionaryEntry>, plans: seq<Plan>, actions: seq<Action>, u: nat)
    requires UniqueKeys(plans)
    requires u < |Run(Initial(dictionary, plans), actions).uploads|
    ensures var s := Run(Initial(dictionary, plans), actions);
      && Serial(s, plans)
      && (s.uploads[u].phase.Committed? <==> u in s.winners)
      && (forall j, k :: 0 <= j < |s.winners| && 0 <= k < |s.winners| && s.winners[j] == s.winners[k] ==> j == k)
      && (forall k :: 0 <= k < |s.winners| && s.winners[k] == u ==>
            CategoriesKnown(s.uploads[u].rows, dictionary)
            && s.history[k + 1] == s.history[k] + PlansOf(s.uploads[u].rows, dictionary)
            && s.history[k + 1] <= Table(s))
      && (s.uploads[u].phase.Failed? && !s.uploads[u].phase.reason.Aborted? ==>
            !Accepts(s.uploads[u].rows, dictionary, Table(s)))
  {
    hide Step, Accepts;
    InitialIsFine(dictionary, plans);
    RunKeeps(Initial(dictionary, plans), plans, actions);
    var s := Run(Initial(dictionary, plans), actions);
    DictionaryIsFixed(Initial(dictionary, plans), actions);
    assert Consistent(s.uploads[u], s.dictionary, Table(s));
    forall k | 0 <= k < |s.winners| && s.winners[k] == u
      ensures CategoriesKnown(s.uploads[u].rows, dictionary)
      ensures s.history[k + 1] == s.history[k] + PlansOf(s.uploads[u].rows, dictionary)
      ensures s.history[k + 1] <= Table(s)
    {
      assert Upload(s.uploads[u].rows, s.dictionary, s.history[k]) == Ok(s.history[k + 1]);
      AcceptedExactlyWhen(s.uploads[u].rows, s.dictionary, s.history[k]);
    }
  }

  // The stored plans stay well formed.

  ghost predicate FromFiles(s: State, files: set<seq<PlanRow>>) {
    forall u :: 0 <= u < |s.uploads| ==> s.uploads[u].rows in files
  }

  ghost predicate BeginsFrom(actions: seq<Action>, files: set<seq<PlanRow>>) {
    forall i :: 0 <= i < |actions| && actions[i].Begin? ==> actions[i].rows in files
  }

  /** A running upload never changes which rows it is about. */
  lemma StepKeepsFiles(s: State, a: Action, files: set<seq<PlanRow>>)
    requires s.history != [] && FromFiles(s, files) && (a.Begin? ==> a.rows in files)
    ensures FromFiles(Step(s, a), files)
  {
  }

  lemma {:induction false} RunKeepsFiles(s: State, actions: seq<Action>, files: set<seq<PlanRow>>)
    requires s.history != [] && FromFiles(s, files) && BeginsFrom(actions, files)
    ensures FromFiles(Run(s, actions), files)
  {
    hide Step;
    if actions != [] {
      RunKeepsFiles(s, actions[..|actions| - 1], files);
      StepKeepsFiles(Run(s, actions[..|actions| - 1]), actions[|actions| - 1], files);
    }
  }

  lemma {:induction false} OneByOneKeepsGood(files: seq<seq<PlanRow>>, dictionary: seq<DictionaryEntry>,
                                             plans: seq<Plan>)
    requires GoodStore(plans, dictionary) && forall i :: 0 <= i < |files| ==> forall r :: r in files[i] ==> GoodRow(r)
    ensures GoodStore(OneByOne(files, dictionary, plans), dictionary)
  {
    hide GoodStore, GoodRow, Upload;
    if files != [] {
      var init, last := files[..|files| - 1], files[|files| - 1];
      OneByOneKeepsGood(init, dictionary, plans);
      var before := OneByOne(init, dictionary, plans);
      if Upload(last, dictionary, before).Ok? {
        UploadKeepsStoreGood(last, dictionary, before);
      }
    }
  }

  /** Every upload of the schedule starts from a sheet the reader accepted. */
  ghost predicate BeginsFromSheets(actions: seq<Action>, grids: seq<seq<Row>>) {
    forall i :: 0 <= i < |actions| && actions[i].Begin? ==>
      exists g :: 0 <= g < |grids| && ParseSheet(grids[g]) == Ok(actions[i].rows)
  }

  ghost function AcceptedFiles(grids: seq<seq<Row>>): set<seq<PlanRow>> {
    set g | 0 <= g < |grids| && ParseSheet(grids[g]).Ok? :: ParseSheet(grids[g]).value
  }

  /** From a good store, under every interleaving of uploads of sheets, every committed table is good: unique keys,
      first-of-month periods, non-negative sums, dictionary categories. */
  lemma EveryCommittedTableIsGood(dictionary: seq<DictionaryEntry>, plans: seq<Plan>, grids: seq<seq<Row>>,
                                  actions: seq<Action>, k: nat)
    requires GoodStore(plans, dictionary) && BeginsFromSheets(actions, grids)
    requires k < |Run(Initial(dictionary, plans), actions).history|
    ensures GoodStore(Run(Initial(dictionary, plans), actions).history[k], dictionary)
  {
    hide Step, ParseSheet, GoodRow, GoodPlan;
    var files := AcceptedFiles(grids);
    forall i | 0 <= i < |actions| && actions[i].Begin?
      ensures actions[i].rows in files
    {
      var g :| 0 <= g < |grids| && ParseSheet(grids[g]) == Ok(actions[i].rows);
      assert ParseSheet(grids[g]).value in files;
    }
    RunKeepsFiles(Initial(dictionary, plans), actions, files);
    EveryScheduleIsSerial(dictionary, plans, actions, k);
    var winning := WinningFiles(Run(Initial(dictionary, plans), actions), k);
    forall i | 0 <= i < |winning|
      ensures forall r :: r in winning[i] ==> GoodRow(r)
    {
      assert winning[i] in files;
      var g :| 0 <= g < |grids| && ParseSheet(grids[g]) == Ok(winning[i]);
      ParsedRowsAreGood(grids[g]);
    }
    OneByOneKeepsGood(winning, dictionary, plans);
  }
}
