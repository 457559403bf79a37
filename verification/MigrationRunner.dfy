/** The migration runner (internal/database/migrator.go, runMigrations) under interruption.

    Every database operation of a run either completes or is the one at which the run stops, for
    whatever reason: a crash, a lost connection or a failing statement. Transactions are atomic:
    an interrupted one leaves nothing behind. The bootstrap migration is idempotent, as the
    source requires of it, and runs outside a transaction. */
module MigrationRunner {
  import SqlSplitter
  import SqlRoundTrip

  datatype Migration = Migration(version: string, sql: string)

  /** `recorded` are the rows of schema_migrations; `applied` the committed migrations, by their
      position in the list, in commit order. */
  datatype DB = DB(tableReady: bool, recorded: set<string>, applied: seq<nat>)

  const EMPTY := DB(false, {}, [])

  datatype Ended = Ended(db: DB, ok: bool)

  /** Begin, the statements, the record, commit. */
  function Cost(m: Migration): nat {
    |SqlSplitter.Split(m.sql)| + 3
  }

  /** From position i on, with the versions read at the start of the run, and `budget` database
      operations left before the interruption. */
  function RunFrom(migs: seq<Migration>, db: DB, seen: set<string>, i: nat, budget: nat): Ended
    requires i <= |migs|
    decreases |migs| - i
  {
    if i == |migs| then Ended(db, true)
    else if migs[i].version in seen then RunFrom(migs, db, seen, i + 1, budget)
    else if budget < Cost(migs[i]) then Ended(db, false)
    else RunFrom(migs, db.(recorded := db.recorded + {migs[i].version}, applied := db.applied + [i]),
                 seen, i + 1, budget - Cost(migs[i]))
  }

  function Run(migs: seq<Migration>, db: DB, budget: nat): Ended {
    if migs == [] then Ended(db, false)
    else
      var n := |SqlSplitter.Split(migs[0].sql)|;
      if budget < n then Ended(db, false)
      else
        var ready := db.(tableReady := true);
        if budget < n + 1 then Ended(ready, false)
        else
          var recorded := ready.(recorded := ready.recorded + {migs[0].version});
          if budget < n + 2 then Ended(recorded, false)
          else RunFrom(migs, recorded, recorded.recorded, 1, budget - n - 2)
  }

  /** How many statements are executed: blank ones are passed over. */
  function NonBlank(statements: seq<string>): nat {
    if statements == [] then 0
    else
      var n := |statements| - 1;
      NonBlank(statements[..n]) + (if SqlSplitter.Trim(statements[n]) == "" then 0 else 1)
  }

  lemma {:induction false} NonBlankPrefix(statements: seq<string>, k: nat)
    requires k <= |statements|
    ensures NonBlank(statements[..k]) <= NonBlank(statements)
  {
    if k == |statements| {
      assert statements[..k] == statements;
    } else {
      var init := statements[..|statements| - 1];
      NonBlankPrefix(init, k);
      assert init[..k] == statements[..k];
    }
  }

  lemma {:induction false} AllNonBlank(statements: seq<string>)
    requires forall k :: 0 <= k < |statements| ==> SqlSplitter.Trim(statements[k]) != ""
    ensures NonBlank(statements) == |statements|
  {
    if statements == [] {
    } else {
      AllNonBlank(statements[..|statements| - 1]);
    }
  }

  /** The splitter returns no blank statement, so none is passed over. */
  lemma SplitAllExecuted(sql: string)
    ensures NonBlank(SqlSplitter.Split(sql)) == |SqlSplitter.Split(sql)|
  {
    SqlRoundTrip.SplitStatements(sql);
    var ts := SqlSplitter.Split(sql);
    forall k | 0 <= k < |ts|
      ensures SqlSplitter.Trim(ts[k]) != ""
    {
      SqlSplitter.TrimUnique("", ts[k], "");
      assert "" + ts[k] + "" == ts[k];
    }
    AllNonBlank(ts);
  }

  class Runner {
    var db: DB
    var budget: nat

    constructor (db: DB, budget: nat)
      ensures this.db == db && this.budget == budget
    {
      this.db, this.budget := db, budget;
    }

    /** One database operation; false when the run is interrupted here. */
    method Operation() returns (ok: bool)
      modifies this`budget
      ensures ok <==> old(budget) > 0
      ensures budget == if ok then old(budget) - 1 else 0
    {
      ok := budget > 0;
      if ok {
        budget := budget - 1;
      }
    }

    method ExecuteStatements(statements: seq<string>) returns (ok: bool)
      modifies this`budget
      ensures ok <==> old(budget) >= NonBlank(statements)
      ensures ok ==> budget == old(budget) - NonBlank(statements)
    {
      for k := 0 to |statements|
        invariant budget == old(budget) - NonBlank(statements[..k])
      {
        NonBlankPrefix(statements, k + 1);
        assert statements[..k + 1][..k] == statements[..k];
        if SqlSplitter.Trim(statements[k]) == "" {
          continue;
        }
        ok := Operation();
        if !ok {
          return;
        }
      }
      assert statements[..|statements|] == statements;
      ok := true;
    }

    /** Begin, the statements, the record, commit. */
    method Transaction(m: Migration) returns (ok: bool)
      modifies this`budget
      ensures ok <==> old(budget) >= Cost(m)
      ensures ok ==> budget == old(budget) - Cost(m)
    {
      ok := Operation();
      if !ok {
        return;
      }
      var statements := SqlSplitter.SplitSQLStatements(m.sql);
      SplitAllExecuted(m.sql);
      ok := ExecuteStatements(statements);
      if !ok {
        return;
      }
      ok := Operation();
      if !ok {
        return;
      }
      ok := Operation();
    }

    method RunMigrations(migs: seq<Migration>) returns (ok: bool)
      modifies this
      ensures Ended(db, ok) == Run(migs, old(db), old(budget))
    {
      if |migs| == 0 {
        return false;
      }
      var statements := SqlSplitter.SplitSQLStatements(migs[0].sql);
      SplitAllExecuted(migs[0].sql);
      ok := ExecuteStatements(statements);
      if !ok {
        return;
      }
      db := db.(tableReady := true);
      ok := Operation();
      if !ok {
        return;
      }
      db := db.(recorded := db.recorded + {migs[0].version});
      ok := Operation();
      if !ok {
        return;
      }
      var seen := db.recorded;
      ghost var spec := RunFrom(migs, db, seen, 1, budget);
      for i := 1 to |migs|
        invariant spec == RunFrom(migs, db, seen, i, budget)
      {
        if migs[i].version in seen {
          continue;
        }
        ok := Transaction(migs[i]);
        if !ok {
          return;
        }
        db := db.(recorded := db.recorded + {migs[i].version}, applied := db.applied + [i]);
      }
      ok := true;
    }
  }

  /** The database after a series of runs, each interrupted after the given number of operations. */
  function RunAll(migs: seq<Migration>, budgets: seq<nat>): DB {
    if budgets == [] then EMPTY
    else Run(migs, RunAll(migs, budgets[..|budgets| - 1]), budgets[|budgets| - 1]).db
  }

  // ---------- What holds for every list ----------

  /** No earlier entry has the same version. */
  ghost predicate FirstOfVersion(migs: seq<Migration>, j: nat)
    requires j < |migs|
  {
    forall i :: 0 <= i < j ==> migs[i].version != migs[j].version
  }

  ghost predicate RecordedThrough(migs: seq<Migration>, recorded: set<string>, k: nat)
    requires k < |migs|
  {
    forall j :: 0 <= j <= k ==> migs[j].version in recorded
  }

  /** Migrations are applied in list order, hence each at most once; whatever precedes an applied one
      is recorded, as it is itself; every record is the bootstrap's or an applied migration's; and the
      first entry of a recorded version is the bootstrap or has been applied. */
  ghost predicate Sound(migs: seq<Migration>, db: DB)
    requires migs != []
  {
    && (forall a, b :: 0 <= a < b < |db.applied| ==> db.applied[a] < db.applied[b])
    && (forall k :: k in db.applied ==>
         0 < k < |migs| && RecordedThrough(migs, db.recorded, k))
    && (forall v :: v in db.recorded ==> Accounted(migs, db, v))
    && (forall j :: 0 < j < |migs| && FirstOfVersion(migs, j) && migs[j].version in db.recorded ==> j in db.applied)
  }

  ghost predicate Accounted(migs: seq<Migration>, db: DB, v: string)
    requires migs != []
  {
    v == migs[0].version || exists k :: k in db.applied && k < |migs| && migs[k].version == v
  }

  /** The loop at position i: everything before it is recorded, and applied if it was not seen. */
  ghost predicate InLoop(migs: seq<Migration>, db: DB, seen: set<string>, i: nat)
    requires migs != []
  {
    && Sound(migs, db) && 1 <= i <= |migs| && seen <= db.recorded
    && RecordedThrough(migs, db.recorded, i - 1)
    && (forall j :: 1 <= j < i && migs[j].version !in seen ==> j in db.applied)
    && (forall k :: k in db.applied && k >= i ==> RecordedThrough(migs, seen, k))
  }

  function Commit(migs: seq<Migration>, db: DB, i: nat): DB
    requires i < |migs|
  {
    db.(recorded := db.recorded + {migs[i].version}, applied := db.applied + [i])
  }

  lemma AppliedBefore(migs: seq<Migration>, db: DB, seen: set<string>, i: nat, k: nat)
    requires migs != [] && i < |migs| && InLoop(migs, db, seen, i) && migs[i].version !in seen && k in db.applied
    ensures k < i
  {
    assert k >= i ==> RecordedThrough(migs, seen, k);
  }

  lemma CommitAccounts(migs: seq<Migration>, db: DB, i: nat, v: string)
    requires migs != [] && i < |migs| && (v in db.recorded ==> Accounted(migs, db, v))
    ensures v in Commit(migs, db, i).recorded ==> Accounted(migs, Commit(migs, db, i), v)
  {
    var next := Commit(migs, db, i);
    assert forall k :: k in next.applied <==> k in db.applied || k == i;
  }

  lemma CommitAppliesFirst(migs: seq<Migration>, db: DB, seen: set<string>, i: nat, j: nat)
    requires migs != [] && i < |migs| && InLoop(migs, db, seen, i)
    requires 0 < j < |migs| && FirstOfVersion(migs, j) && migs[j].version in Commit(migs, db, i).recorded
    ensures j in Commit(migs, db, i).applied
  {
    if migs[j].version in db.recorded {
      assert j in db.applied;
    } else {
      assert j >= i;
      assert j <= i;
    }
  }

  lemma CommitRecords(migs: seq<Migration>, db: DB, seen: set<string>, i: nat, k: nat)
    requires migs != [] && i < |migs| && InLoop(migs, db, seen, i) && k in Commit(migs, db, i).applied
    ensures 0 < k < |migs| && RecordedThrough(migs, Commit(migs, db, i).recorded, k)
  {
    if k in db.applied {
      assert RecordedThrough(migs, db.recorded, k);
    }
  }

  lemma CommitKeepsSound(migs: seq<Migration>, db: DB, seen: set<string>, i: nat)
    requires migs != [] && i < |migs| && InLoop(migs, db, seen, i) && migs[i].version !in seen
    ensures Sound(migs, Commit(migs, db, i))
  {
    var next := Commit(migs, db, i);
    forall a | 0 <= a < |db.applied|
      ensures db.applied[a] < i
    {
      AppliedBefore(migs, db, seen, i, db.applied[a]);
    }
    forall v | v in next.recorded
      ensures Accounted(migs, next, v)
    {
      CommitAccounts(migs, db, i, v);
    }
    forall k | k in next.applied
      ensures 0 < k < |migs| && RecordedThrough(migs, next.recorded, k)
    {
      CommitRecords(migs, db, seen, i, k);
    }
    forall j | 0 < j < |migs| && FirstOfVersion(migs, j) && migs[j].version in next.recorded
      ensures j in next.applied
    {
      CommitAppliesFirst(migs, db, seen, i, j);
    }
  }

  lemma CommitKeepsLoop(migs: seq<Migration>, db: DB, seen: set<string>, i: nat)
    requires migs != [] && i < |migs| && InLoop(migs, db, seen, i) && migs[i].version !in seen
    ensures InLoop(migs, Commit(migs, db, i), seen, i + 1)
  {
    var next := Commit(migs, db, i);
    CommitKeepsSound(migs, db, seen, i);
    assert forall k :: k in next.applied <==> k in db.applied || k == i;
  }

  lemma SkipKeepsLoop(migs: seq<Migration>, db: DB, seen: set<string>, i: nat)
    requires migs != [] && i < |migs| && InLoop(migs, db, seen, i) && migs[i].version in seen
    ensures InLoop(migs, db, seen, i + 1)
  {}

  lemma {:induction false} RunFromSound(migs: seq<Migration>, db: DB, seen: set<string>, i: nat, budget: nat)
    requires migs != [] && i <= |migs| && InLoop(migs, db, seen, i)
    ensures RunIsSound(migs, RunFrom(migs, db, seen, i, budget))
    decreases |migs| - i
  {
    if i == |migs| {
    } else if migs[i].version in seen {
      SkipKeepsLoop(migs, db, seen, i);
      RunFromSound(migs, db, seen, i + 1, budget);
    } else if budget >= Cost(migs[i]) {
      CommitKeepsLoop(migs, db, seen, i);
      RunFromSound(migs, Commit(migs, db, i), seen, i + 1, budget - Cost(migs[i]));
    }
  }

  /** The database is sound, and a completed run leaves every version recorded. */
  ghost predicate RunIsSound(migs: seq<Migration>, r: Ended)
    requires migs != []
  {
    Sound(migs, r.db) && (r.ok ==> RecordedThrough(migs, r.db.recorded, |migs| - 1))
  }

  /** The database when the loop over the remaining migrations starts. */
  function Booted(migs: seq<Migration>, db: DB): DB
    requires migs != []
  {
    DB(true, db.recorded + {migs[0].version}, db.applied)
  }

  lemma BootKeepsSound(migs: seq<Migration>, db: DB)
    requires migs != [] && Sound(migs, db)
    ensures Sound(migs, Booted(migs, db))
  {
    var booted := Booted(migs, db);
    forall v | v in booted.recorded
      ensures Accounted(migs, booted, v)
    {
      if v != migs[0].version {
        assert Accounted(migs, db, v);
      }
    }
  }

  lemma BootInLoop(migs: seq<Migration>, db: DB)
    requires migs != [] && Sound(migs, db)
    ensures InLoop(migs, Booted(migs, db), Booted(migs, db).recorded, 1)
  {
    BootKeepsSound(migs, db);
  }

  lemma ReadyKeepsSound(migs: seq<Migration>, db: DB)
    requires migs != [] && Sound(migs, db)
    ensures Sound(migs, db.(tableReady := true))
  {
    assert forall v :: v in db.recorded ==> Accounted(migs, db, v) && Accounted(migs, db.(tableReady := true), v);
  }

  /** A run that gets past the bootstrap is the loop. */
  lemma RunUnfolds(migs: seq<Migration>, db: DB, budget: nat, left: nat)
    requires migs != [] && budget == |SqlSplitter.Split(migs[0].sql)| + 2 + left
    ensures Run(migs, db, budget) == RunFrom(migs, Booted(migs, db), Booted(migs, db).recorded, 1, left)
  {}

  /** One that does not stops in the bootstrap: in its statements, which leave no trace before the last,
      before its record, or before the records are read. */
  lemma RunStopsEarly(migs: seq<Migration>, db: DB, budget: nat)
    requires migs != [] && budget < |SqlSplitter.Split(migs[0].sql)| + 2
    ensures
      var r, n := Run(migs, db, budget), |SqlSplitter.Split(migs[0].sql)|;
      && !r.ok
      && r.db == if budget < n then db else if budget == n then db.(tableReady := true) else Booted(migs, db)
  {}

  /** Without any migration a run fails and changes nothing. */
  lemma NoMigrations(db: DB, budget: nat)
    ensures Run([], db, budget) == Ended(db, false)
  {}

  /** Blank statements, and only they, are passed over. */
  lemma BlankPassedOver(statements: seq<string>, s: string)
    ensures NonBlank(statements + [s]) == NonBlank(statements) + if SqlSplitter.Blank(s) then 0 else 1
  {
    var l, r := SqlSplitter.TrimParts(s);
    assert (statements + [s])[..|statements|] == statements;
    if SqlSplitter.Blank(s) {
      SqlSplitter.TrimUnique(s, "", "");
      assert s + "" + "" == s;
    }
  }

  lemma RunSound(migs: seq<Migration>, db: DB, budget: nat)
    requires migs != [] && Sound(migs, db)
    ensures RunIsSound(migs, Run(migs, db, budget))
  {
    var n := |SqlSplitter.Split(migs[0].sql)| + 2;
    BootInLoop(migs, db);
    if budget >= n {
      RunUnfolds(migs, db, budget, budget - n);
      RunFromSound(migs, Booted(migs, db), Booted(migs, db).recorded, 1, budget - n);
    } else {
      ReadyKeepsSound(migs, db);
      RunStopsEarly(migs, db, budget);
    }
  }

  /** For every list, duplicate versions or not, and every series of runs interrupted anywhere:
      migrations are applied in list order and never twice, records and applied migrations agree,
      and a run that completes leaves every version of the list recorded. */
  lemma {:induction false} AppliedOnceInOrder(migs: seq<Migration>, budgets: seq<nat>)
    requires migs != []
    ensures Sound(migs, RunAll(migs, budgets))
    ensures budgets != [] && Run(migs, RunAll(migs, budgets[..|budgets| - 1]), budgets[|budgets| - 1]).ok ==>
      RecordedThrough(migs, RunAll(migs, budgets).recorded, |migs| - 1)
  {
    if budgets == [] {
    } else {
      AppliedOnceInOrder(migs, budgets[..|budgets| - 1]);
      RunSound(migs, RunAll(migs, budgets[..|budgets| - 1]), budgets[|budgets| - 1]);
    }
  }

  // ---------- Lists with distinct versions ----------

  ghost predicate Distinct(migs: seq<Migration>) {
    forall i, j :: 0 <= i < j < |migs| ==> migs[i].version != migs[j].version
  }

  function Versions(migs: seq<Migration>, k: nat): set<string>
    requires k <= |migs|
  {
    set i | 0 <= i < k :: migs[i].version
  }

  /** The first k migrations are recorded, and exactly they are applied, each once, in order. */
  ghost predicate UpTo(migs: seq<Migration>, db: DB, k: nat)
    requires k <= |migs|
  {
    && db.recorded == Versions(migs, k)
    && db.applied == (if k == 0 then [] else seq(k - 1, j => j + 1))
    && (k > 0 ==> db.tableReady)
  }

  lemma VersionsStep(migs: seq<Migration>, k: nat)
    requires k < |migs|
    ensures Versions(migs, k + 1) == Versions(migs, k) + {migs[k].version}
    ensures Distinct(migs) ==> migs[k].version !in Versions(migs, k)
  {}

  lemma {:induction false} RunFromSkips(migs: seq<Migration>, db: DB, seen: set<string>, i: nat, k: nat, budget: nat)
    requires i <= k <= |migs| && Versions(migs, k) <= seen
    ensures RunFrom(migs, db, seen, i, budget) == RunFrom(migs, db, seen, k, budget)
    decreases k - i
  {
    if i == k {
    } else {
      assert migs[i].version in Versions(migs, k);
      RunFromSkips(migs, db, seen, i + 1, k, budget);
    }
  }

  lemma {:induction false} RunFromExtends(
      migs: seq<Migration>, db: DB, seen: set<string>, i: nat, budget: nat) returns (k: nat)
    requires Distinct(migs) && 1 <= i <= |migs| && UpTo(migs, db, i)
    requires forall j :: i <= j < |migs| ==> migs[j].version !in seen
    ensures i <= k <= |migs| && UpTo(migs, RunFrom(migs, db, seen, i, budget).db, k)
    ensures RunFrom(migs, db, seen, i, budget).ok <==> k == |migs|
    decreases |migs| - i
  {
    if i == |migs| || budget < Cost(migs[i]) {
      k := i;
    } else {
      VersionsStep(migs, i);
      var next := db.(recorded := db.recorded + {migs[i].version}, applied := db.applied + [i]);
      assert next.applied == seq(i, j => j + 1);
      k := RunFromExtends(migs, next, seen, i + 1, budget - Cost(migs[i]));
    }
  }

  lemma BootKeepsPrefix(migs: seq<Migration>, db: DB, k: nat) returns (j: nat)
    requires migs != [] && k <= |migs| && UpTo(migs, db, k)
    ensures k <= j <= |migs| && j >= 1 && UpTo(migs, Booted(migs, db), j)
  {
    VersionsStep(migs, 0);
    j := if k == 0 then 1 else k;
    assert Versions(migs, j) == Booted(migs, db).recorded;
  }

  lemma NotYetRecorded(migs: seq<Migration>, j: nat, i: nat)
    requires Distinct(migs) && j <= i < |migs|
    ensures migs[i].version !in Versions(migs, j)
  {}

  lemma PrefixExtends(migs: seq<Migration>, db: DB, k: nat, budget: nat) returns (k': nat)
    requires Distinct(migs) && migs != [] && k <= |migs| && UpTo(migs, db, k)
    ensures k <= k' <= |migs| && UpTo(migs, Run(migs, db, budget).db, k')
    ensures Run(migs, db, budget).ok ==> k' == |migs|
  {
    var n := |SqlSplitter.Split(migs[0].sql)| + 2;
    var booted := Booted(migs, db);
    var j := BootKeepsPrefix(migs, db, k);
    if budget < n {
      RunStopsEarly(migs, db, budget);
      k' := if Run(migs, db, budget).db == booted then j else k;
    } else {
      RunUnfolds(migs, db, budget, budget - n);
      RunFromSkips(migs, booted, booted.recorded, 1, j, budget - n);
      forall i | j <= i < |migs|
        ensures migs[i].version !in booted.recorded
      {
        NotYetRecorded(migs, j, i);
      }
      k' := RunFromExtends(migs, booted, booted.recorded, j, budget - n);
    }
  }

  lemma {:induction false} RunFromGrows(migs: seq<Migration>, db: DB, seen: set<string>, i: nat, budget: nat)
    requires i <= |migs|
    ensures
      var db' := RunFrom(migs, db, seen, i, budget).db;
      db.recorded <= db'.recorded && db.applied <= db'.applied
    decreases |migs| - i
  {
    if i == |migs| {
    } else if migs[i].version in seen {
      RunFromGrows(migs, db, seen, i + 1, budget);
    } else if budget >= Cost(migs[i]) {
      RunFromGrows(migs, Commit(migs, db, i), seen, i + 1, budget - Cost(migs[i]));
    }
  }

  lemma RunGrows(migs: seq<Migration>, db: DB, budget: nat)
    requires migs != []
    ensures
      var db' := Run(migs, db, budget).db;
      db.recorded <= db'.recorded && db.applied <= db'.applied
  {
    var n := |SqlSplitter.Split(migs[0].sql)| + 2;
    if budget < n {
      RunStopsEarly(migs, db, budget);
    } else {
      RunUnfolds(migs, db, budget, budget - n);
      RunFromGrows(migs, Booted(migs, db), Booted(migs, db).recorded, 1, budget - n);
    }
  }

  /** One run of any list, stopped anywhere, keeps the state sound, drops no record and only appends to
      what has been applied; with distinct versions it extends the prefix that is exactly recorded and
      applied, to the whole list if it succeeds. */
  lemma RunExtends(migs: seq<Migration>, db: DB, k: nat, budget: nat) returns (k': nat)
    requires migs != [] && Sound(migs, db) && k <= |migs| && (Distinct(migs) ==> UpTo(migs, db, k))
    ensures
      var r := Run(migs, db, budget);
      && Sound(migs, r.db) && db.recorded <= r.db.recorded && db.applied <= r.db.applied
      && k <= k' <= |migs|
      && (Distinct(migs) ==> UpTo(migs, r.db, k') && (r.ok ==> k' == |migs|))
  {
    RunSound(migs, db, budget);
    RunGrows(migs, db, budget);
    k' := k;
    if Distinct(migs) {
      k' := PrefixExtends(migs, db, k, budget);
    }
  }

  lemma {:induction false} PrefixRecovery(migs: seq<Migration>, budgets: seq<nat>) returns (k: nat)
    requires Distinct(migs) && migs != []
    ensures k <= |migs| && UpTo(migs, RunAll(migs, budgets), k)
    ensures budgets != [] && Run(migs, RunAll(migs, budgets[..|budgets| - 1]), budgets[|budgets| - 1]).ok ==>
      k == |migs|
  {
    if budgets == [] {
      k := 0;
    } else {
      var j := PrefixRecovery(migs, budgets[..|budgets| - 1]);
      k := PrefixExtends(migs, RunAll(migs, budgets[..|budgets| - 1]), j, budgets[|budgets| - 1]);
    }
  }

  /** Crash recovery: after any series of runs of any list, each interrupted at any operation, the sound
      state of `AppliedOnceInOrder`; with distinct versions, moreover, the recorded versions are those of
      a prefix of the list and exactly that prefix has been applied, each migration once and in order. */
  lemma CrashRecovery(migs: seq<Migration>, budgets: seq<nat>) returns (k: nat)
    requires migs != []
    ensures k <= |migs| && Sound(migs, RunAll(migs, budgets))
    ensures Distinct(migs) ==> UpTo(migs, RunAll(migs, budgets), k)
  {
    AppliedOnceInOrder(migs, budgets);
    k := 0;
    if Distinct(migs) {
      k := PrefixRecovery(migs, budgets);
    }
  }

  /** After completion a further run, interrupted or not, changes nothing. */
  lemma CompleteIsStable(migs: seq<Migration>, db: DB, budget: nat)
    requires migs != [] && UpTo(migs, db, |migs|)
    ensures Run(migs, db, budget).db == db
  {
    var n := |SqlSplitter.Split(migs[0].sql)|;
    assert migs[0].version in Versions(migs, |migs|);
    assert db.recorded + {migs[0].version} == db.recorded;
    if budget >= n + 2 {
      RunFromSkips(migs, db, db.recorded, 1, |migs|, budget - n - 2);
    }
  }

  function TotalCost(migs: seq<Migration>, i: nat): nat
    requires i <= |migs|
    decreases |migs| - i
  {
    if i == |migs| then 0 else Cost(migs[i]) + TotalCost(migs, i + 1)
  }

  lemma {:induction false} EnoughBudget(migs: seq<Migration>, db: DB, seen: set<string>, i: nat, budget: nat)
    requires i <= |migs| && budget >= TotalCost(migs, i)
    ensures RunFrom(migs, db, seen, i, budget).ok
    decreases |migs| - i
  {
    if i == |migs| {
    } else {
      if migs[i].version in seen {
        EnoughBudget(migs, db, seen, i + 1, budget);
      } else {
        EnoughBudget(migs, db.(recorded := db.recorded + {migs[i].version}, applied := db.applied + [i]),
                     seen, i + 1, budget - Cost(migs[i]));
      }
    }
  }

  lemma RunCompletes(migs: seq<Migration>, db: DB, budget: nat)
    requires migs != [] && budget >= |SqlSplitter.Split(migs[0].sql)| + 2 + TotalCost(migs, 1)
    ensures Run(migs, db, budget).ok
  {
    var left := budget - |SqlSplitter.Split(migs[0].sql)| - 2;
    RunUnfolds(migs, db, budget, left);
    EnoughBudget(migs, Booted(migs, db), Booted(migs, db).recorded, 1, left);
  }

  /** After any interruptions of any list, one uninterrupted run leaves every version recorded and the
      first entry of each version applied; with distinct versions that is the whole list. */
  lemma EventuallyComplete(migs: seq<Migration>, budgets: seq<nat>, budget: nat)
    requires migs != [] && budget >= |SqlSplitter.Split(migs[0].sql)| + 2 + TotalCost(migs, 1)
    ensures
      var db := RunAll(migs, budgets + [budget]);
      && RecordedThrough(migs, db.recorded, |migs| - 1)
      && (forall j :: 0 < j < |migs| && FirstOfVersion(migs, j) ==> j in db.applied)
      && (Distinct(migs) ==> UpTo(migs, db, |migs|))
  {
    var all := budgets + [budget];
    assert all[..|all| - 1] == budgets && all[|all| - 1] == budget;
    RunCompletes(migs, RunAll(migs, budgets), budget);
    AppliedOnceInOrder(migs, all);
    if Distinct(migs) {
      var k := PrefixRecovery(migs, all);
    }
  }

  // ---------- Why versions must be distinct ----------

  lemma {:induction false} RecordedNeverApplied(
      migs: seq<Migration>, db: DB, seen: set<string>, i: nat, budget: nat, j: nat)
    requires i <= |migs| && j < |migs| && migs[j].version in seen && j !in db.applied
    ensures j !in RunFrom(migs, db, seen, i, budget).db.applied
    ensures db.recorded <= RunFrom(migs, db, seen, i, budget).db.recorded
    decreases |migs| - i
  {
    if i == |migs| {
    } else {
      if migs[i].version in seen {
        RecordedNeverApplied(migs, db, seen, i + 1, budget, j);
      } else if budget >= Cost(migs[i]) {
        RecordedNeverApplied(migs, db.(recorded := db.recorded + {migs[i].version}, applied := db.applied + [i]),
                             seen, i + 1, budget - Cost(migs[i]), j);
      }
    }
  }

  lemma {:induction false} SkippedForever(migs: seq<Migration>, first: nat, later: seq<nat>, j: nat)
    requires migs != [] && 0 < j < |migs|
    requires migs[j].version in RunAll(migs, [first]).recorded && j !in RunAll(migs, [first]).applied
    ensures migs[j].version in RunAll(migs, [first] + later).recorded
    ensures j !in RunAll(migs, [first] + later).applied
  {
    var all := [first] + later;
    if later == [] {
      assert all == [first];
    } else {
      assert all[..|all| - 1] == [first] + later[..|later| - 1];
      SkippedForever(migs, first, later[..|later| - 1], j);
      var db, budget := RunAll(migs, all[..|all| - 1]), all[|all| - 1];
      var n := |SqlSplitter.Split(migs[0].sql)|;
      var db1 := db.(tableReady := true, recorded := db.recorded + {migs[0].version});
      if budget >= n + 2 {
        RecordedNeverApplied(migs, db1, db1.recorded, 1, budget - n - 2, j);
      }
    }
  }

  /** The operations a run from an empty database needs to commit position i and no more. */
  function Upto(migs: seq<Migration>, start: nat, i: nat): nat
    requires start <= i < |migs|
    decreases i - start
  {
    (if migs[start].version == migs[0].version then 0 else Cost(migs[start])) +
    (if start == i then 0 else Upto(migs, start + 1, i))
  }

  lemma {:induction false} StopsAfter(migs: seq<Migration>, db: DB, start: nat, i: nat, j: nat)
    requires 1 <= start <= i < j < |migs| && migs[i].version == migs[j].version
    requires j !in db.applied && migs[0].version in db.recorded
    ensures
      var db' := RunFrom(migs, db, {migs[0].version}, start, Upto(migs, start, i)).db;
      j !in db'.applied && migs[i].version in db'.recorded
    decreases i - start
  {
    var seen, budget := {migs[0].version}, Upto(migs, start, i);
    var next := db.(recorded := db.recorded + {migs[start].version}, applied := db.applied + [start]);
    if start < i {
      if migs[start].version in seen {
        StopsAfter(migs, db, start + 1, i, j);
      } else {
        StopsAfter(migs, next, start + 1, i, j);
      }
    } else if migs[i].version in seen {
      RecordedNeverApplied(migs, db, seen, start, budget, j);
    } else {
      NoBudget(migs, next, seen, i + 1);
    }
  }

  lemma {:induction false} NoBudget(migs: seq<Migration>, db: DB, seen: set<string>, i: nat)
    requires i <= |migs|
    ensures RunFrom(migs, db, seen, i, 0).db == db
    decreases |migs| - i
  {
    if i == |migs| || migs[i].version !in seen {
    } else {
      NoBudget(migs, db, seen, i + 1);
    }
  }

  /** Distinct versions are needed: for every list in which a later migration repeats a version,
      some interruption of the first run makes every later series of runs, however complete, skip
      that migration for good. */
  lemma DuplicateVersionLost(migs: seq<Migration>, i: nat, j: nat) returns (first: nat)
    requires i < j < |migs| && migs[i].version == migs[j].version
    ensures forall later: seq<nat> :: j !in RunAll(migs, [first] + later).applied
  {
    var n := |SqlSplitter.Split(migs[0].sql)|;
    first := n + 2 + (if i == 0 then 0 else Upto(migs, 1, i));
    var db1 := DB(true, {migs[0].version}, []);
    assert [first][..0] == [];
    assert EMPTY.recorded + {migs[0].version} == {migs[0].version};
    assert RunAll(migs, [first]) == RunFrom(migs, db1, {migs[0].version}, 1, first - n - 2).db;
    if i == 0 {
      RecordedNeverApplied(migs, db1, {migs[0].version}, 1, 0, j);
    } else {
      StopsAfter(migs, db1, 1, i, j);
    }
    forall later: seq<nat>
      ensures j !in RunAll(migs, [first] + later).applied
    {
      SkippedForever(migs, first, later, j);
    }
  }

  function FullBudget(migs: seq<Migration>): nat
    requires migs != []
  {
    |SqlSplitter.Split(migs[0].sql)| + 2 + TotalCost(migs, 1)
  }

  /** However earlier runs were interrupted, an uninterrupted one leaves migration j applied. */
  ghost predicate AlwaysApplied(migs: seq<Migration>, j: nat)
    requires migs != []
  {
    forall budgets: seq<nat> :: j in RunAll(migs, budgets + [FullBudget(migs)]).applied
  }

  /** Recovery of one migration, exactly, in every list: it is applied in the end whatever was
      interrupted if and only if no earlier entry has its version. */
  lemma AlwaysAppliedIff(migs: seq<Migration>, j: nat)
    requires 0 < j < |migs|
    ensures AlwaysApplied(migs, j) <==> FirstOfVersion(migs, j)
  {
    if FirstOfVersion(migs, j) {
      forall budgets: seq<nat>
        ensures j in RunAll(migs, budgets + [FullBudget(migs)]).applied
      {
        EventuallyComplete(migs, budgets, FullBudget(migs));
      }
    } else {
      var i :| 0 <= i < j && migs[i].version == migs[j].version;
      var first := DuplicateVersionLost(migs, i, j);
      assert j !in RunAll(migs, [first] + [FullBudget(migs)]).applied;
    }
  }

  /** Recovery of a whole list, exactly: it works for all interruptions if and only if the versions are
      distinct. */
  lemma RecoversIffDistinct(migs: seq<Migration>)
    requires migs != []
    ensures (forall j: nat :: 0 < j < |migs| ==> AlwaysApplied(migs, j)) <==> Distinct(migs)
  {
    forall j: nat | 0 < j < |migs|
      ensures AlwaysApplied(migs, j) <==> FirstOfVersion(migs, j)
    {
      AlwaysAppliedIff(migs, j);
    }
    if !Distinct(migs) {
      var i, j :| 0 <= i < j < |migs| && migs[i].version == migs[j].version;
      assert !FirstOfVersion(migs, j);
    }
  }

  // ---------- What a run costs ----------

  /** The operations of the pending migrations from position i on: for each the statements that are not
      blank, and a begin, a record and a commit. */
  function PendingOperations(migs: seq<Migration>, seen: set<string>, i: nat): nat
    requires i <= |migs|
    decreases |migs| - i
  {
    if i == |migs| then 0
    else
      (if migs[i].version in seen then 0 else 1 + NonBlank(SqlSplitter.Split(migs[i].sql)) + 1 + 1) +
      PendingOperations(migs, seen, i + 1)
  }

  lemma {:induction false} LoopCompletesIff(migs: seq<Migration>, db: DB, seen: set<string>, i: nat, budget: nat)
    requires i <= |migs|
    ensures RunFrom(migs, db, seen, i, budget).ok <==> budget >= PendingOperations(migs, seen, i)
    decreases |migs| - i
  {
    if i == |migs| {
    } else {
      SplitAllExecuted(migs[i].sql);
      if migs[i].version in seen {
        LoopCompletesIff(migs, db, seen, i + 1, budget);
      } else if budget >= Cost(migs[i]) {
        LoopCompletesIff(migs, Commit(migs, db, i), seen, i + 1, budget - Cost(migs[i]));
      }
    }
  }

  /** A run completes exactly when it is interrupted neither in the bootstrap's statements, its record and
      the reading of the records, nor in the transactions of the migrations not recorded yet. */
  lemma RunCompletesIff(migs: seq<Migration>, db: DB, budget: nat)
    requires migs != []
    ensures Run(migs, db, budget).ok <==>
      budget >= NonBlank(SqlSplitter.Split(migs[0].sql)) + 1 + 1 +
        PendingOperations(migs, db.recorded + {migs[0].version}, 1)
  {
    SplitAllExecuted(migs[0].sql);
    var n := |SqlSplitter.Split(migs[0].sql)| + 2;
    if budget < n {
      RunStopsEarly(migs, db, budget);
    } else {
      RunUnfolds(migs, db, budget, budget - n);
      LoopCompletesIff(migs, Booted(migs, db), Booted(migs, db).recorded, 1, budget - n);
    }
  }

  // ---------- The shipped file names ----------

  predicate HasSuffix(s: string, suffix: string) {
    |s| >= |suffix| && s[|s| - |suffix|..] == suffix
  }

  function UpToUnderscore(s: string): string {
    if s == "" || s[0] == '_' then "" else [s[0]] + UpToUnderscore(s[1..])
  }

  /** The version in a file name: what precedes the first underscore, without a closing ".sql". */
  function Version(name: string): string {
    UpToUnderscore(if HasSuffix(name, ".sql") then name[..|name| - 4] else name)
  }

  lemma {:induction false} UpToUnderscoreOf(v: string, rest: string)
    requires '_' !in v
    ensures UpToUnderscore(v + "_" + rest) == v
  {
    if v == "" {
    } else {
      assert (v + "_" + rest)[1..] == v[1..] + "_" + rest;
      UpToUnderscoreOf(v[1..], rest);
    }
  }

  /** The rest of the name is not looked at: an up and a down script have one version. */
  lemma VersionOf(v: string, rest: string)
    requires '_' !in v
    ensures Version(v + "_" + rest) == v
  {
    var name := v + "_" + rest;
    if HasSuffix(name, ".sql") {
      assert name[|v|] == '_' && forall k :: |name| - 4 <= k < |name| ==> name[k] == ".sql"[k - (|name| - 4)];
      assert |rest| >= 4;
      assert name[..|name| - 4] == v + "_" + rest[..|rest| - 4];
      UpToUnderscoreOf(v, rest[..|rest| - 4]);
    } else {
      UpToUnderscoreOf(v, rest);
    }
  }

  /** The bootstrap with version b, and a down and an up script of one name with version v. */
  function Shipped(b: string, v: string, name: string, boot: string, down: string, up: string): seq<Migration> {
    [Migration(Version(b + "_schema_migrations.sql"), boot),
     Migration(Version(v + "_" + name + ".down.sql"), down),
     Migration(Version(v + "_" + name + ".up.sql"), up)]
  }

  lemma ShippedVersions(b: string, v: string, name: string, boot: string, down: string, up: string)
    requires '_' !in b && '_' !in v
    ensures
      var migs := Shipped(b, v, name, boot, down, up);
      migs[0].version == b && migs[1].version == v && migs[2].version == v
  {
    var boots := "_schema_migrations.sql";
    VersionOf(b, boots[1..]);
    assert b + boots == b + "_" + boots[1..];
    VersionOf(v, name + ".down.sql");
    assert v + "_" + name + ".down.sql" == v + "_" + (name + ".down.sql");
    VersionOf(v, name + ".up.sql");
    assert v + "_" + name + ".up.sql" == v + "_" + (name + ".up.sql");
  }

  lemma ShippedRuns(migs: seq<Migration>, b: string, v: string)
    requires |migs| == 3 && b != v && migs[0].version == b && migs[1].version == v && migs[2].version == v
    ensures RunAll(migs, [FullBudget(migs)]).applied == [1, 2]
    ensures
      var db := RunAll(migs, [|SqlSplitter.Split(migs[0].sql)| + 2 + Cost(migs[1])]);
      db.applied == [1] && v in db.recorded
  {
    var n, c1, c2 := |SqlSplitter.Split(migs[0].sql)| + 2, Cost(migs[1]), Cost(migs[2]);
    var booted, seen := Booted(migs, EMPTY), {b};
    assert booted.recorded == seen;
    var one := Commit(migs, booted, 1);
    assert [n + c1][..0] == [] && [FullBudget(migs)][..0] == [];
    RunUnfolds(migs, EMPTY, n + c1, c1);
    assert RunFrom(migs, booted, seen, 1, c1) == RunFrom(migs, one, seen, 2, 0) == Ended(one, false);
    assert TotalCost(migs, 1) == c1 + TotalCost(migs, 2) && TotalCost(migs, 2) == c2 + TotalCost(migs, 3);
    RunUnfolds(migs, EMPTY, FullBudget(migs), c1 + c2);
    assert RunFrom(migs, booted, seen, 1, c1 + c2) == RunFrom(migs, one, seen, 2, c2);
    assert RunFrom(migs, one, seen, 2, c2) == RunFrom(migs, Commit(migs, one, 2), seen, 3, 0);
  }

  /** A list shaped like the shipped one is not distinct. Uninterrupted, both scripts run, the down one
      first; but when the first run stops between them, the up script is never applied. */
  lemma ShippedUpScriptLost(b: string, v: string, name: string, boot: string, down: string, up: string)
    returns (first: nat)
    requires '_' !in b && '_' !in v && b != v
    ensures
      var migs := Shipped(b, v, name, boot, down, up);
      && !Distinct(migs)
      && RunAll(migs, [FullBudget(migs)]).applied == [1, 2]
      && RunAll(migs, [first]).applied == [1]
      && forall later: seq<nat> :: 2 !in RunAll(migs, [first] + later).applied
  {
    var migs := Shipped(b, v, name, boot, down, up);
    ShippedVersions(b, v, name, boot, down, up);
    assert migs[1].version == migs[2].version;
    ShippedRuns(migs, b, v);
    first := |SqlSplitter.Split(boot)| + 2 + Cost(migs[1]);
    forall later: seq<nat>
      ensures 2 !in RunAll(migs, [first] + later).applied
    {
      SkippedForever(migs, first, later, 2);
    }
  }
}
