/** What the interleaving lets happen: uploads finish, the unique constraint catches what stale checks miss, and no
    state is a dead end. */
module Completion {
  import opened Outcomes
  import Calendar
  import opened Ledger
  import opened PlansParser
  import opened InsertPlans
  import opened Interleaving

  function Repeat(a: Action, n: nat): seq<Action> {
    if n == 0 then [] else Repeat(a, n - 1) + [a]
  }

  lemma RepeatMore(a: Action, n: nat)
    requires n > 0
    ensures Repeat(a, n) == Repeat(a, n - 1) + [a]
  {
  }

  lemma RunSnoc(s: State, actions: seq<Action>, a: Action)
    requires s.history != []
    ensures Run(s, actions + [a]) == Step(Run(s, actions), a)
  {
    assert (actions + [a])[..|actions|] == actions;
  }

  lemma RunOne(s: State, a: Action)
    requires s.history != []
    ensures Run(s, [a]) == Step(s, a)
  {
    assert [a][..0] == [];
  }

  lemma {:induction false} RunAppend(s: State, first: seq<Action>, second: seq<Action>)
    requires s.history != []
    ensures Run(s, first + second) == Run(Run(s, first), second)
  {
    hide Step;
    if second == [] {
      assert first + second == first;
    } else {
      var init, last := second[..|second| - 1], second[|second| - 1];
      RunAppend(s, first, init);
      RunSnoc(s, first + init, last);
      assert first + second == first + init + [last];
    }
  }

  // One phase of one upload, in any state and beside any other uploads.

  lemma CheckRowsSnoc(rows: seq<PlanRow>, i: nat, dictionary: seq<DictionaryEntry>, plans: seq<Plan>)
    requires i < |rows|
    ensures CheckRows(rows[..i + 1], dictionary, plans)
            == CheckRow(CheckRows(rows[..i], dictionary, plans), rows[i], i + 2, dictionary,
                        RowStored(rows[i], dictionary, plans))
  {
    hide CheckRow, RowStored;
    assert rows[..i + 1][..i] == rows[..i];
  }

  lemma CheckOnce(s: State, u: nat, rows: seq<PlanRow>, i: nat, p: Progress, k: nat)
    requires s.history != [] && k < |s.history| && i < |rows|
    requires u < |s.uploads| && s.uploads[u] == Transaction(rows, Checking(i, p), [])
    ensures Step(s, Check(u, k)) == WithUpload(s, u, Transaction(rows, Checking(i + 1,
              CheckRow(p, rows[i], i + 2, s.dictionary, RowStored(rows[i], s.dictionary, s.history[k]))), []))
  {
    hide CheckRow, RowStored;
  }

  lemma WithTwice(s: State, u: nat, up: Transaction, up': Transaction)
    requires u < |s.uploads|
    ensures var t := WithUpload(s, u, up);
      && t.dictionary == s.dictionary && t.history == s.history && |t.uploads| == |s.uploads| && t.uploads[u] == up
      && WithUpload(t, u, up') == WithUpload(s, u, up')
  {
    assert s.uploads[u := up][u := up'] == s.uploads[u := up'];
  }

  /** Checking every row against one snapshot, however old, gives what the loop gives on that snapshot. */
  lemma {:induction false} ChecksDone(s: State, u: nat, rows: seq<PlanRow>, k: nat, n: nat)
    requires s.history != [] && k < |s.history| && n <= |rows|
    requires u < |s.uploads| && s.uploads[u] == Transaction(rows, Checking(0, START), [])
    ensures Run(s, Repeat(Check(u, k), n))
            == WithUpload(s, u, Transaction(rows, Checking(n, CheckRows(rows[..n], s.dictionary, s.history[k])), []))
  {
    hide Step, CheckRow, RowStored;
    if n == 0 {
      assert rows[..0] == [] && s.uploads[u := s.uploads[u]] == s.uploads;
    } else {
      hide Run, CheckRows, Repeat, WithUpload;
      ChecksDone(s, u, rows, k, n - 1);
      RepeatMore(Check(u, k), n);
      RunSnoc(s, Repeat(Check(u, k), n - 1), Check(u, k));
      CheckRowsSnoc(rows, n - 1, s.dictionary, s.history[k]);
      var p := CheckRows(rows[..n - 1], s.dictionary, s.history[k]);
      var p' := CheckRows(rows[..n], s.dictionary, s.history[k]);
      var before, after := Transaction(rows, Checking(n - 1, p), []), Transaction(rows, Checking(n, p'), []);
      WithTwice(s, u, before, after);
      CheckOnce(WithUpload(s, u, before), u, rows, n - 1, p, k);
    }
  }

  function Decided(rows: seq<PlanRow>, p: Progress): Transaction {
    Transaction(rows, if p.issues == [] then Landing(p.toInsert) else Failed(Rejected(p.issues)), [])
  }

  lemma ChecksThenDecide(s: State, u: nat, rows: seq<PlanRow>, k: nat)
    requires s.history != [] && k < |s.history|
    requires u < |s.uploads| && s.uploads[u] == Transaction(rows, Checking(0, START), [])
    ensures Run(s, Repeat(Check(u, k), |rows|) + [Decide(u)])
            == WithUpload(s, u, Decided(rows, CheckRows(rows, s.dictionary, s.history[k])))
  {
    hide Run, CheckRows;
    ChecksDone(s, u, rows, k, |rows|);
    assert rows[..|rows|] == rows;
    RunSnoc(s, Repeat(Check(u, k), |rows|), Decide(u));
  }

  predicate DistinctKeys(plans: seq<Plan>) {
    forall i, j :: 0 <= i < j < |plans| ==> Key(plans[i]) != Key(plans[j])
  }

  lemma LandOnce(s: State, u: nat, rows: seq<PlanRow>, added: seq<Plan>, n: nat)
    requires s.history != [] && n < |added| && DistinctKeys(added)
    requires u < |s.uploads| && s.uploads[u] == Transaction(rows, Landing(added), added[..n])
    requires !KeyStored(Table(s), Key(added[n])) && !HeldByOther(s, u, Key(added[n]))
    ensures Step(s, Land(u)) == WithUpload(s, u, Transaction(rows, Landing(added), added[..n + 1]))
  {
    assert !KeyStored(added[..n], Key(added[n]));
    assert added[..n + 1] == added[..n] + [added[n]];
  }

  predicate IsFree(s: State, u: nat, added: seq<Plan>)
    requires s.history != []
  {
    forall i :: 0 <= i < |added| ==> !KeyStored(Table(s), Key(added[i])) && !HeldByOther(s, u, Key(added[i]))
  }

  lemma {:induction false} LandsDone(s: State, u: nat, rows: seq<PlanRow>, added: seq<Plan>, n: nat)
    requires s.history != [] && n <= |added| && DistinctKeys(added) && IsFree(s, u, added)
    requires u < |s.uploads| && s.uploads[u] == Transaction(rows, Landing(added), [])
    ensures Run(s, Repeat(Land(u), n)) == WithUpload(s, u, Transaction(rows, Landing(added), added[..n]))
  {
    if n == 0 {
      assert added[..0] == [] && s.uploads[u := s.uploads[u]] == s.uploads;
    } else {
      hide Step, Run, Repeat, HeldByOther, KeyStored, WithUpload;
      LandsDone(s, u, rows, added, n - 1);
      RepeatMore(Land(u), n);
      RunSnoc(s, Repeat(Land(u), n - 1), Land(u));
      var before := Transaction(rows, Landing(added), added[..n - 1]);
      WithTwice(s, u, before, Transaction(rows, Landing(added), added[..n]));
      SameHolders(s, u, before, Key(added[n - 1]));
      LandOnce(WithUpload(s, u, before), u, rows, added, n - 1);
    }
  }

  lemma SameHolders(s: State, u: nat, up: Transaction, key: (Calendar.Date, int))
    requires u < |s.uploads|
    ensures HeldByOther(WithUpload(s, u, up), u, key) == HeldByOther(s, u, key)
  {
    var now := WithUpload(s, u, up);
    assert forall v :: 0 <= v < |s.uploads| && v != u ==> now.uploads[v] == s.uploads[v];
  }

  function CommittedState(s: State, u: nat, rows: seq<PlanRow>, after: seq<Plan>): State
    requires u < |s.uploads|
  {
    State(s.dictionary, s.history + [after], s.uploads[u := Transaction(rows, Committed, [])], s.winners + [u])
  }

  lemma LandsThenCommit(s: State, u: nat, rows: seq<PlanRow>, added: seq<Plan>)
    requires s.history != [] && DistinctKeys(added) && IsFree(s, u, added)
    requires u < |s.uploads| && s.uploads[u] == Transaction(rows, Landing(added), [])
    ensures Run(s, Repeat(Land(u), |added|) + [Commit(u)]) == CommittedState(s, u, rows, Table(s) + added)
  {
    hide Run;
    LandsDone(s, u, rows, added, |added|);
    assert added[..|added|] == added;
    RunSnoc(s, Repeat(Land(u), |added|), Commit(u));
  }

  /** The plans of an accepted file clash neither with the table nor with each other. */
  lemma AcceptedPlansFit(rows: seq<PlanRow>, dictionary: seq<DictionaryEntry>, plans: seq<Plan>)
    requires Accepts(rows, dictionary, plans)
    ensures var p := CheckRows(rows, dictionary, plans);
      && p.issues == [] && |p.toInsert| == |rows| && DistinctKeys(p.toInsert)
      && Upload(rows, dictionary, plans) == Ok(plans + p.toInsert)
      && forall i :: 0 <= i < |rows| ==>
           !KeyStored(plans, Key(p.toInsert[i])) && RowKey(rows[i], dictionary) == Some(Key(p.toInsert[i]))
  {
    AcceptedExactlyWhen(rows, dictionary, plans);
    CleanRunInsertsAll(rows, dictionary, plans);
    var added := CheckRows(rows, dictionary, plans).toInsert;
    forall i | 0 <= i < |rows|
      ensures !KeyStored(plans, Key(added[i])) && RowKey(rows[i], dictionary) == Some(Key(added[i]))
    {
      assert !RowStored(rows[i], dictionary, plans);
    }
  }

  // Uploads finish.

  /** No open transaction holds a key of the file. */
  predicate IsUnblocked(s: State, rows: seq<PlanRow>) {
    forall v :: 0 <= v < |s.uploads| ==> forall q :: q in s.uploads[v].landed ==> !KeyAmong(rows, s.dictionary, Key(q))
  }

  lemma UnblockedIsFree(s: State, u: nat, rows: seq<PlanRow>, added: seq<Plan>)
    requires s.history != [] && IsUnblocked(s, rows) && |added| == |rows|
    requires forall i :: 0 <= i < |rows| ==>
      !KeyStored(Table(s), Key(added[i])) && RowKey(rows[i], s.dictionary) == Some(Key(added[i]))
    ensures IsFree(s, u, added)
  {
    forall i | 0 <= i < |added|
      ensures !HeldByOther(s, u, Key(added[i]))
    {
      assert KeyAmong(rows, s.dictionary, Key(added[i]));
    }
  }

  /** One upload from beginning to end, its rows checked against snapshot k. */
  function Turn(rows: seq<PlanRow>, u: nat, k: nat): seq<Action> {
    [Begin(rows)] + (Repeat(Check(u, k), |rows|) + [Decide(u)]) + (Repeat(Land(u), |rows|) + [Commit(u)])
  }

  function Begun(s: State, rows: seq<PlanRow>): State {
    s.(uploads := s.uploads + [Transaction(rows, Checking(0, START), [])])
  }

  lemma Opening(s: State, rows: seq<PlanRow>, k: nat)
    requires s.history != [] && k < |s.history|
    ensures var u := |s.uploads|;
      Run(s, [Begin(rows)] + (Repeat(Check(u, k), |rows|) + [Decide(u)]))
      == s.(uploads := s.uploads + [Decided(rows, CheckRows(rows, s.dictionary, s.history[k]))])
  {
    hide Run, CheckRows, Repeat;
    var u := |s.uploads|;
    RunOne(s, Begin(rows));
    RunAppend(s, [Begin(rows)], Repeat(Check(u, k), |rows|) + [Decide(u)]);
    ChecksThenDecide(Begun(s, rows), u, rows, k);
  }

  lemma {:induction false} NothingLands(s: State, u: nat, n: nat)
    requires s.history != [] && u < |s.uploads| && s.uploads[u].phase.Failed?
    ensures Run(s, Repeat(Land(u), n)) == s
  {
    if n > 0 {
      NothingLands(s, u, n - 1);
      RunSnoc(s, Repeat(Land(u), n - 1), Land(u));
    }
  }

  /** In any state in which no open transaction holds a key of the file, whatever has happened before, an upload that is
      then run to its end commits exactly what the one-step upload gives on the committed table, or fails with exactly
      its issues and changes nothing else. */
  lemma TurnIsUpload(s: State, rows: seq<PlanRow>)
    requires s.history != [] && IsUnblocked(s, rows)
    ensures var u := |s.uploads|;
      var after := Run(s, Turn(rows, u, |s.history| - 1));
      match Upload(rows, s.dictionary, Table(s))
      case Ok(table) =>
        after == State(s.dictionary, s.history + [table], s.uploads + [Transaction(rows, Committed, [])],
                       s.winners + [u])
      case Err(e) =>
        && e.InvalidPlans?
        && after == s.(uploads := s.uploads + [Transaction(rows, Failed(Rejected(e.issues)), [])])
  {
    hide Run, CheckRows, Repeat, Step, IsUnblocked;
    var u, k := |s.uploads|, |s.history| - 1;
    var p := CheckRows(rows, s.dictionary, Table(s));
    var opening := [Begin(rows)] + (Repeat(Check(u, k), |rows|) + [Decide(u)]);
    var ending := Repeat(Land(u), |rows|) + [Commit(u)];
    RunAppend(s, opening, ending);
    Opening(s, rows, k);
    if p.issues == [] {
      EndingCommits(s, rows);
    } else {
      EndingRefused(s.(uploads := s.uploads + [Decided(rows, p)]), u, |rows|);
    }
  }

  lemma EndingCommits(s: State, rows: seq<PlanRow>)
    requires s.history != [] && IsUnblocked(s, rows) && CheckRows(rows, s.dictionary, Table(s)).issues == []
    ensures var u := |s.uploads|;
      var added := CheckRows(rows, s.dictionary, Table(s)).toInsert;
      Run(s.(uploads := s.uploads + [Transaction(rows, Landing(added), [])]), Repeat(Land(u), |rows|) + [Commit(u)])
      == State(s.dictionary, s.history + [Table(s) + added], s.uploads + [Transaction(rows, Committed, [])],
               s.winners + [u])
  {
    hide Run, CheckRows, Repeat, Step, IsUnblocked, IsFree, DistinctKeys, Upload, KeyStored, RowKey, Accepts;
    var u, added := |s.uploads|, CheckRows(rows, s.dictionary, Table(s)).toInsert;
    var landing := Transaction(rows, Landing(added), []);
    var decided := s.(uploads := s.uploads + [landing]);
    assert Accepts(rows, s.dictionary, Table(s)) by { NoIssueIsAccepted(rows, s.dictionary, Table(s)); }
    AcceptedPlansFit(rows, s.dictionary, Table(s));
    UnblockedStays(s, rows, landing);
    UnblockedIsFree(decided, u, rows, added);
    LandsThenCommit(decided, u, rows, added);
    var committed := Transaction(rows, Committed, []);
    assert (s.uploads + [landing])[u := committed] == s.uploads + [committed];
  }

  lemma NoIssueIsAccepted(rows: seq<PlanRow>, dictionary: seq<DictionaryEntry>, plans: seq<Plan>)
    requires CheckRows(rows, dictionary, plans).issues == []
    ensures Accepts(rows, dictionary, plans)
  {
    hide CheckRows;
  }

  lemma UnblockedStays(s: State, rows: seq<PlanRow>, up: Transaction)
    requires IsUnblocked(s, rows) && up.landed == []
    ensures IsUnblocked(s.(uploads := s.uploads + [up]), rows)
  {
  }

  lemma EndingRefused(s: State, u: nat, n: nat)
    requires s.history != [] && u < |s.uploads| && s.uploads[u].phase.Failed?
    ensures Run(s, Repeat(Land(u), n) + [Commit(u)]) == s
  {
    NothingLands(s, u, n);
    RunSnoc(s, Repeat(Land(u), n), Commit(u));
  }

  /** No upload holds rows in an open transaction. */
  predicate IsQuiet(s: State) {
    forall v :: 0 <= v < |s.uploads| ==> s.uploads[v].landed == []
  }

  /** Files uploaded one after another, each to its end. */
  function InTurn(s: State, files: seq<seq<PlanRow>>): (actions: seq<Action>)
    requires s.history != []
  {
    if files == [] then []
    else
      var earlier := InTurn(s, files[..|files| - 1]);
      var now := Run(s, earlier);
      earlier + Turn(files[|files| - 1], |now.uploads|, |now.history| - 1)
  }

  /** Any number of files, one after another from any quiet state, leave the table that uploading them in one step each
      leaves; every accepted one is committed. */
  lemma {:induction false} InTurnIsOneByOne(s: State, files: seq<seq<PlanRow>>)
    requires s.history != [] && IsQuiet(s)
    ensures var after := Run(s, InTurn(s, files));
      && IsQuiet(after) && after.dictionary == s.dictionary
      && Table(after) == OneByOne(files, s.dictionary, Table(s))
      && |after.uploads| == |s.uploads| + |files|
      && forall i :: 0 <= i < |files| ==>
           && after.uploads[|s.uploads| + i].rows == files[i]
           && (after.uploads[|s.uploads| + i].phase.Committed?
               <==> Accepts(files[i], s.dictionary, OneByOne(files[..i], s.dictionary, Table(s))))
  {
    hide Turn, Upload, Run, Accepts;
    if files == [] {
      assert Run(s, []) == s by { NothingRun(s); }
    } else {
      var init, last := files[..|files| - 1], files[|files| - 1];
      InTurnIsOneByOne(s, init);
      var now, after := Run(s, InTurn(s, init)), Run(s, InTurn(s, files));
      OneMoreTurn(s, files);
      forall i | 0 <= i < |files|
        ensures after.uploads[|s.uploads| + i].rows == files[i]
        ensures after.uploads[|s.uploads| + i].phase.Committed?
                <==> Accepts(files[i], s.dictionary, OneByOne(files[..i], s.dictionary, Table(s)))
      {
        if i < |init| {
          assert files[..i] == init[..i];
          assert after.uploads[|s.uploads| + i] == now.uploads[|s.uploads| + i];
        } else {
          assert files[..i] == init;
        }
      }
    }
  }

  lemma NothingRun(s: State)
    requires s.history != []
    ensures Run(s, []) == s
  {
  }

  lemma OneMoreTurn(s: State, files: seq<seq<PlanRow>>)
    requires s.history != [] && files != [] && IsQuiet(Run(s, InTurn(s, files[..|files| - 1])))
    ensures var last := files[|files| - 1];
      var now, after := Run(s, InTurn(s, files[..|files| - 1])), Run(s, InTurn(s, files));
      && IsQuiet(after) && after.dictionary == now.dictionary && |after.uploads| == |now.uploads| + 1
      && after.uploads[..|now.uploads|] == now.uploads && after.uploads[|now.uploads|].rows == last
      && (after.uploads[|now.uploads|].phase.Committed? <==> Accepts(last, now.dictionary, Table(now)))
      && Table(after) == match Upload(last, now.dictionary, Table(now))
                         case Ok(table) => table
                         case Err(_) => Table(now)
  {
    hide Turn, Upload, Run;
    var earlier := InTurn(s, files[..|files| - 1]);
    var now := Run(s, earlier);
    RunAppend(s, earlier, Turn(files[|files| - 1], |now.uploads|, |now.history| - 1));
    TurnIsUpload(now, files[|files| - 1]);
  }

  /** Undisturbed on a fresh table, an upload gives the one-step upload's answer. */
  lemma AloneIsUpload(dictionary: seq<DictionaryEntry>, plans: seq<Plan>, rows: seq<PlanRow>)
    ensures var s := Run(Initial(dictionary, plans), Turn(rows, 0, 0));
      match Upload(rows, dictionary, plans)
      case Ok(after) => Table(s) == after && s.uploads == [Transaction(rows, Committed, [])]
      case Err(e) => Table(s) == plans && e.InvalidPlans?
                     && s.uploads == [Transaction(rows, Failed(Rejected(e.issues)), [])]
  {
    hide Turn, Upload, Run;
    TurnIsUpload(Initial(dictionary, plans), rows);
  }

  // The race that the checks cannot see.

  /** Two uploads of one file begin; the first runs to its end; then the second checks every row against the table as it
      was before the first, decides, and inserts. */
  function StaleRace(rows: seq<PlanRow>, u: nat, k: nat): seq<Action> {
    [Begin(rows), Begin(rows)]
    + (Repeat(Check(u, k), |rows|) + [Decide(u)]) + (Repeat(Land(u), |rows|) + [Commit(u)])
    + (Repeat(Check(u + 1, k), |rows|) + [Decide(u + 1)]) + [Land(u + 1)]
  }

  lemma BeginBoth(s: State, rows: seq<PlanRow>)
    requires s.history != []
    ensures Run(s, [Begin(rows), Begin(rows)]) == Begun(Begun(s, rows), rows)
  {
    RunOne(s, Begin(rows));
    RunSnoc(s, [Begin(rows)], Begin(rows));
    assert [Begin(rows)] + [Begin(rows)] == [Begin(rows), Begin(rows)];
  }

  lemma FirstKeyTaken(s: State, u: nat, rows: seq<PlanRow>, added: seq<Plan>)
    requires s.history != [] && added != [] && KeyStored(Table(s), Key(added[0]))
    requires u < |s.uploads| && s.uploads[u] == Transaction(rows, Landing(added), [])
    ensures Step(s, Land(u)) == WithUpload(s, u, Transaction(rows, Failed(KeyTaken), []))
  {
  }

  lemma FirstOfTwo(s: State, rows: seq<PlanRow>)
    requires s.history != [] && IsUnblocked(s, rows) && Accepts(rows, s.dictionary, Table(s))
    ensures var u, k := |s.uploads|, |s.history| - 1;
      Run(s, [Begin(rows), Begin(rows)]
             + (Repeat(Check(u, k), |rows|) + [Decide(u)]) + (Repeat(Land(u), |rows|) + [Commit(u)]))
      == State(s.dictionary, s.history + [Upload(rows, s.dictionary, Table(s)).value],
               s.uploads + [Transaction(rows, Committed, []), Transaction(rows, Checking(0, START), [])],
               s.winners + [u])
  {
    hide Run, CheckRows, Repeat, Step;
    var u, k := |s.uploads|, |s.history| - 1;
    var p := CheckRows(rows, s.dictionary, Table(s));
    var checks, ending := Repeat(Check(u, k), |rows|) + [Decide(u)], Repeat(Land(u), |rows|) + [Commit(u)];
    AcceptedPlansFit(rows, s.dictionary, Table(s));
    BeginBoth(s, rows);
    var s1 := Begun(Begun(s, rows), rows);
    RunAppend(s, [Begin(rows), Begin(rows)], checks);
    ChecksThenDecide(s1, u, rows, k);
    var s2 := WithUpload(s1, u, Decided(rows, p));
    assert IsUnblocked(s2, rows);
    UnblockedIsFree(s2, u, rows, p.toInsert);
    RunAppend(s, [Begin(rows), Begin(rows)] + checks, ending);
    LandsThenCommit(s2, u, rows, p.toInsert);
  }

  /** Stale checks pass the second upload of a file although the first has just committed it; the unique constraint
      then fails it at its first row. The first upload's commit stands, and nothing of the second remains. */
  lemma StaleLoserMeetsConstraint(s: State, rows: seq<PlanRow>)
    requires s.history != [] && IsUnblocked(s, rows) && rows != [] && Accepts(rows, s.dictionary, Table(s))
    ensures var u := |s.uploads|;
      Run(s, StaleRace(rows, u, |s.history| - 1))
      == State(s.dictionary, s.history + [Upload(rows, s.dictionary, Table(s)).value],
               s.uploads + [Transaction(rows, Committed, []), Transaction(rows, Failed(KeyTaken), [])], s.winners + [u])
  {
    hide Run, CheckRows, Repeat, Step, Upload;
    var u, k := |s.uploads|, |s.history| - 1;
    var p := CheckRows(rows, s.dictionary, Table(s));
    var first := [Begin(rows), Begin(rows)]
                 + (Repeat(Check(u, k), |rows|) + [Decide(u)]) + (Repeat(Land(u), |rows|) + [Commit(u)]);
    var checks := Repeat(Check(u + 1, k), |rows|) + [Decide(u + 1)];
    FirstOfTwo(s, rows);
    AcceptedPlansFit(rows, s.dictionary, Table(s));
    var s3 := Run(s, first);
    assert s3.history[k] == Table(s);
    RunAppend(s, first, checks);
    ChecksThenDecide(s3, u + 1, rows, k);
    var s4 := WithUpload(s3, u + 1, Decided(rows, p));
    RunSnoc(s, first + checks, Land(u + 1));
    assert p.toInsert[0] in Table(s4);
    FirstKeyTaken(s4, u + 1, rows, p.toInsert);
  }

  /** While another transaction holds the key of the next row, inserting waits: nothing changes. */
  lemma HeldKeyWaits(s: State, u: nat)
    requires s.history != [] && u < |s.uploads| && s.uploads[u].phase.Landing?
    requires |s.uploads[u].landed| < |s.uploads[u].phase.toInsert|
    requires var key := Key(s.uploads[u].phase.toInsert[|s.uploads[u].landed|]);
      !KeyStored(Table(s), key) && !KeyStored(s.uploads[u].landed, key) && HeldByOther(s, u, key)
    ensures Step(s, Land(u)) == s
  {
  }

  // No dead ends.

  predicate IsRunning(up: Transaction) {
    up.phase.Checking? || up.phase.Landing?
  }

  function AbortAll(n: nat): seq<Action> {
    if n == 0 then [] else AbortAll(n - 1) + [Abort(n - 1)]
  }

  function AfterAbort(up: Transaction): Transaction {
    if IsRunning(up) then Transaction(up.rows, Failed(Aborted), []) else up
  }

  lemma AbortOnce(s: State, u: nat)
    requires s.history != [] && u < |s.uploads|
    ensures Step(s, Abort(u)) == WithUpload(s, u, AfterAbort(s.uploads[u]))
  {
  }

  function AfterAborts(ups: seq<Transaction>, n: nat): (r: seq<Transaction>)
    requires n <= |ups|
    ensures |r| == |ups| && forall v :: 0 <= v < |ups| ==> r[v] == if v < n then AfterAbort(ups[v]) else ups[v]
  {
    if n == 0 then ups else AfterAborts(ups, n - 1)[n - 1 := AfterAbort(ups[n - 1])]
  }

  lemma {:induction false} AbortsEndRunning(s: State, n: nat)
    requires s.history != [] && n <= |s.uploads|
    ensures Run(s, AbortAll(n)) == s.(uploads := AfterAborts(s.uploads, n))
  {
    hide Step, AfterAbort;
    if n > 0 {
      AbortsEndRunning(s, n - 1);
      RunSnoc(s, AbortAll(n - 1), Abort(n - 1));
      hide Run;
      AbortOnce(s.(uploads := AfterAborts(s.uploads, n - 1)), n - 1);
    }
  }

  /** From every reached state, aborting what still runs releases all rows held, changes nothing committed, and lets any
      files be uploaded one after another. */
  lemma NoDeadEnd(dictionary: seq<DictionaryEntry>, plans: seq<Plan>, actions: seq<Action>, files: seq<seq<PlanRow>>)
    requires UniqueKeys(plans)
    ensures var s := Run(Initial(dictionary, plans), actions);
      var quiet := Run(s, AbortAll(|s.uploads|));
      && IsQuiet(quiet) && quiet.history == s.history && quiet.winners == s.winners
      && Table(Run(quiet, InTurn(quiet, files))) == OneByOne(files, dictionary, Table(s))
  {
    hide Step, Consistent, InTurn, OneByOne;
    InitialIsFine(dictionary, plans);
    RunKeeps(Initial(dictionary, plans), plans, actions);
    DictionaryIsFixed(Initial(dictionary, plans), actions);
    var s := Run(Initial(dictionary, plans), actions);
    hide Run, AbortAll;
    var quiet := Run(s, AbortAll(|s.uploads|));
    AbortsEndRunning(s, |s.uploads|);
    forall v | 0 <= v < |s.uploads|
      ensures quiet.uploads[v].landed == []
    {
      EndedHoldsNothing(s.uploads[v], s.dictionary, Table(s));
    }
    InTurnIsOneByOne(quiet, files);
  }

  lemma EndedHoldsNothing(up: Transaction, dictionary: seq<DictionaryEntry>, table: seq<Plan>)
    requires Consistent(up, dictionary, table)
    ensures AfterAbort(up).landed == []
  {
  }
}
