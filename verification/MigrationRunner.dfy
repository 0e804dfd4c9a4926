/** The migration runner of scripts/run-migration.ts as a machine whose steps are the
    statements that any number of runners send to one database. */
module MigrationRunner {
  import opened Results
  import opened Sequences
  import opened MigrationCatalog

  const LOCK_CONFLICT_ATTEMPTS: nat := 5

  type RunnerId = nat

  datatype Mode = All | Target(file: string)

  /** log is the history of committed migration SQL, oldest first. */
  datatype Database = Database(rows: seq<AppliedMigration>, log: seq<string>, lock: Option<RunnerId>)

  datatype Stage =
    | Waiting
    | Reading
    | Backfilling(snapshot: seq<AppliedMigration>, next: nat)
    | Choosing
    | Applying(queue: seq<string>, attempt: nat)

  datatype Runner = Runner(mode: Mode, stage: Stage)

  datatype System = System(db: Database, runners: map<RunnerId, Runner>)

  /** How an attempt ends, a duplicate version key aside; Unanswered commits, but the answer to
      COMMIT is lost, which to the runner is an error other than a lock conflict. */
  datatype Attempt = Commits | LockConflict | Fails | Unanswered

  /** DropSession is a lost connection that the client silently replaces: the advisory lock
      is gone, and the runner goes on without it. */
  datatype Action =
    | Launch(r: RunnerId, mode: Mode)
    | Next(r: RunnerId, attempt: Attempt)
    | Crash(r: RunnerId)
    | DropSession(r: RunnerId)

  // ---------------------------------------------------------------- steps

  function Pending(files: seq<string>, rows: seq<AppliedMigration>): seq<string> {
    if files == [] then []
    else (if IsApplied(files[0], rows) then [] else [files[0]]) + Pending(files[1..], rows)
  }

  predicate VersionFree(rows: seq<AppliedMigration>, version: string) {
    forall i :: 0 <= i < |rows| ==> rows[i].version != version
  }

  /** UPDATE ... SET checksum WHERE version = version AND checksum IS NULL */
  function SetChecksum(rows: seq<AppliedMigration>, version: string, checksum: string): seq<AppliedMigration> {
    seq(|rows|, i requires 0 <= i < |rows| =>
      if rows[i].version == version && rows[i].checksum.None? then rows[i].(checksum := Some(checksum)) else rows[i])
  }

  function Backfill(filename: string, snapshot: seq<AppliedMigration>, rows: seq<AppliedMigration>,
                    sum: string -> string): seq<AppliedMigration> {
    var row := FindApplied(filename, snapshot);
    if row.None? || (row.value.checksum.Some? && row.value.checksum.value != "") then rows
    else SetChecksum(rows, row.value.version, sum(filename))
  }

  /** The migration and its tracking row, in one transaction. */
  function Commit(db: Database, filename: string, sum: string -> string): Option<Database> {
    if VersionFree(db.rows, MigrationId(filename)) then
      Some(db.(rows := db.rows + [RowFor(filename, sum(filename))], log := db.log + [filename]))
    else None
  }

  function Unlock(db: Database, r: RunnerId): Database {
    if db.lock == Some(r) then db.(lock := None) else db
  }

  function Stop(s: System, r: RunnerId): System {
    System(Unlock(s.db, r), s.runners - {r})
  }

  function Continue(s: System, db: Database, r: RunnerId, stage: Stage): System
    requires r in s.runners
  {
    System(db, s.runners[r := s.runners[r].(stage := stage)])
  }

  /** The database after a commit, or as it was when the version key is taken. */
  function AfterCommit(db: Database, filename: string, sum: string -> string): Database {
    var after := Commit(db, filename, sum);
    if after.Some? then after.value else db
  }

  function Choose(files: seq<string>, mode: Mode, rows: seq<AppliedMigration>): seq<string> {
    var pending := Pending(files, rows);
    match mode
    case All => pending
    case Target(t) => if t in pending then [t] else []
  }

  function NextStatement(files: seq<string>, sum: string -> string, s: System, r: RunnerId, attempt: Attempt): System
    requires r in s.runners
  {
    match s.runners[r].stage
    case Waiting =>
      if s.db.lock.None? then Continue(s, s.db.(lock := Some(r)), r, Reading) else s
    case Reading => Continue(s, s.db, r, Backfilling(s.db.rows, 0))
    case Backfilling(snapshot, next) =>
      if next < |files| then
        Continue(s, s.db.(rows := Backfill(files[next], snapshot, s.db.rows, sum)), r, Backfilling(snapshot, next + 1))
      else Continue(s, s.db, r, Choosing)
    case Choosing => Continue(s, s.db, r, Applying(Choose(files, s.runners[r].mode, s.db.rows), 1))
    case Applying(queue, n) =>
      if queue == [] then Stop(s, r)
      else match attempt
        case Fails => Stop(s, r)
        case Unanswered => Stop(s.(db := AfterCommit(s.db, queue[0], sum)), r)
        case LockConflict =>
          if n == LOCK_CONFLICT_ATTEMPTS then Stop(s, r) else Continue(s, s.db, r, Applying(queue, n + 1))
        case Commits =>
          var db := Commit(s.db, queue[0], sum);
          if db.None? then Stop(s, r) else Continue(s, db.value, r, Applying(queue[1..], 1))
  }

  function Do(files: seq<string>, sum: string -> string, s: System, a: Action): System {
    match a
    case Launch(r, mode) =>
      if r in s.runners || (mode.Target? && mode.file !in files) then s
      else s.(runners := s.runners[r := Runner(mode, Waiting)])
    case Next(r, attempt) => if r in s.runners then NextStatement(files, sum, s, r, attempt) else s
    case Crash(r) => if r in s.runners then Stop(s, r) else s
    case DropSession(r) =>
      if r !in s.runners then s
      else if s.runners[r].stage.Waiting? then Stop(s, r)
      else s.(db := Unlock(s.db, r))
  }

  function Run(files: seq<string>, sum: string -> string, s: System, actions: seq<Action>): System {
    if actions == [] then s
    else Do(files, sum, Run(files, sum, s, actions[..|actions| - 1]), actions[|actions| - 1])
  }

  lemma RunOne(files: seq<string>, sum: string -> string, s: System, actions: seq<Action>, a: Action)
    ensures Run(files, sum, s, actions + [a]) == Do(files, sum, Run(files, sum, s, actions), a)
  {
    assert (actions + [a])[..|actions|] == actions;
  }

  lemma {:induction false} RunConcat(files: seq<string>, sum: string -> string, s: System, a: seq<Action>,
                                     b: seq<Action>)
    ensures Run(files, sum, s, a + b) == Run(files, sum, Run(files, sum, s, a), b)
  {
    if b == [] {
      assert a + b == a;
    } else {
      assert (a + b)[..|a + b| - 1] == a + b[..|b| - 1];
      RunConcat(files, sum, s, a, b[..|b| - 1]);
    }
  }

  function NoRunners(rows: seq<AppliedMigration>): System {
    System(Database(rows, [], None), map[])
  }

  // ---------------------------------------------------------------- at most once

  /** A row keeps its name and version, and a checksum once it has one. */
  ghost predicate KeepsRow(before: AppliedMigration, after: AppliedMigration) {
    && after.name == before.name && after.version == before.version
    && (before.checksum.Some? ==> after.checksum == before.checksum)
  }

  /** The table is the rows it had at first, then one row per committed migration, in order. */
  ghost predicate TracksLog(rows0: seq<AppliedMigration>, db: Database, sum: string -> string) {
    && |db.rows| == |rows0| + |db.log|
    && (forall i :: 0 <= i < |rows0| ==> KeepsRow(rows0[i], db.rows[i]))
    && (forall i :: 0 <= i < |db.log| ==> db.rows[|rows0| + i] == RowFor(db.log[i], sum(db.log[i])))
  }

  ghost predicate AllToDo(files: seq<string>, rows0: seq<AppliedMigration>, fs: seq<string>) {
    forall f :: f in fs ==> f in files && !IsApplied(f, rows0)
  }

  ghost predicate StageOk(files: seq<string>, rows0: seq<AppliedMigration>, stage: Stage) {
    stage.Applying? ==>
      AllToDo(files, rows0, stage.queue) && 1 <= stage.attempt <= LOCK_CONFLICT_ATTEMPTS
  }

  ghost predicate Sound(files: seq<string>, sum: string -> string, rows0: seq<AppliedMigration>, s: System) {
    && TracksLog(rows0, s.db, sum)
    && Distinct(s.db.log)
    && AllToDo(files, rows0, s.db.log)
    && forall r :: r in s.runners ==> StageOk(files, rows0, s.runners[r].stage)
  }

  lemma SetChecksumKeepsLog(rows0: seq<AppliedMigration>, db: Database, sum: string -> string, version: string,
                            checksum: string)
    requires TracksLog(rows0, db, sum)
    ensures TracksLog(rows0, db.(rows := SetChecksum(db.rows, version, checksum)), sum)
  {
  }

  /** What is applied now was applied at first or is in the log. */
  lemma AppliedIsOldOrLogged(files: seq<string>, sum: string -> string, rows0: seq<AppliedMigration>, db: Database,
                             f: string)
    requires UniqueVersions(files) && f in files
    requires TracksLog(rows0, db, sum) && AllToDo(files, rows0, db.log)
    ensures IsApplied(f, db.rows) <==> IsApplied(f, rows0) || f in db.log
  {
    RowsOfLog(files, sum, rows0, db, f);
    if IsApplied(f, rows0) {
      var i :| 0 <= i < |rows0| && RecordedBy(f, rows0[i]);
      assert RecordedBy(f, db.rows[i]);
    } else if f in db.log {
      var i :| 0 <= i < |db.log| && db.log[i] == f;
      assert RecordedBy(f, db.rows[|rows0| + i]);
    } else if IsApplied(f, db.rows) {
      var i :| 0 <= i < |db.rows| && RecordedBy(f, db.rows[i]);
      if i < |rows0| {
        assert RecordedBy(f, rows0[i]);
      }
    }
  }

  /** Of the rows added since the start, a file is recorded by its own only. */
  lemma RowsOfLog(files: seq<string>, sum: string -> string, rows0: seq<AppliedMigration>, db: Database, f: string)
    requires UniqueVersions(files) && f in files
    requires TracksLog(rows0, db, sum) && AllToDo(files, rows0, db.log)
    ensures forall i :: |rows0| <= i < |db.rows| ==> (RecordedBy(f, db.rows[i]) <==> f == db.log[i - |rows0|])
  {
    forall i | |rows0| <= i < |db.rows|
      ensures RecordedBy(f, db.rows[i]) <==> f == db.log[i - |rows0|]
    {
      var g := db.log[i - |rows0|];
      assert g in db.log;
      assert db.rows[|rows0| + (i - |rows0|)] == RowFor(g, sum(g));
      LookupIsUnambiguous(files, g, f, RowFor(g, sum(g)));
    }
  }

  lemma {:induction false} PendingIsUnapplied(files: seq<string>, rows: seq<AppliedMigration>)
    ensures forall f :: f in Pending(files, rows) <==> f in files && !IsApplied(f, rows)
  {
    if files != [] {
      PendingIsUnapplied(files[1..], rows);
    }
  }

  lemma ChooseIsToDo(files: seq<string>, sum: string -> string, rows0: seq<AppliedMigration>, db: Database, mode: Mode)
    requires UniqueVersions(files)
    requires TracksLog(rows0, db, sum) && AllToDo(files, rows0, db.log)
    ensures AllToDo(files, rows0, Choose(files, mode, db.rows))
    ensures forall f :: f in Choose(files, mode, db.rows) ==> f !in db.log
  {
    PendingIsUnapplied(files, db.rows);
    forall f | f in Choose(files, mode, db.rows)
      ensures f in files && !IsApplied(f, rows0) && f !in db.log
    {
      AppliedIsOldOrLogged(files, sum, rows0, db, f);
    }
  }

  lemma CommitKeepsTracking(files: seq<string>, sum: string -> string, rows0: seq<AppliedMigration>, db: Database,
                            f: string)
    requires TracksLog(rows0, db, sum) && Distinct(db.log) && AllToDo(files, rows0, db.log)
    requires f in files && !IsApplied(f, rows0) && Commit(db, f, sum).Some?
    ensures var after := Commit(db, f, sum).value;
            TracksLog(rows0, after, sum) && Distinct(after.log) && AllToDo(files, rows0, after.log)
  {
    forall i | 0 <= i < |db.log|
      ensures db.log[i] != f
    {
      assert db.rows[|rows0| + i].version == MigrationId(db.log[i]);
    }
  }

  lemma ContinueKeepsSound(files: seq<string>, sum: string -> string, rows0: seq<AppliedMigration>, s: System,
                           db: Database, r: RunnerId, stage: Stage)
    requires Sound(files, sum, rows0, s) && r in s.runners
    requires TracksLog(rows0, db, sum) && Distinct(db.log) && AllToDo(files, rows0, db.log)
    requires StageOk(files, rows0, stage)
    ensures Sound(files, sum, rows0, Continue(s, db, r, stage))
  {
  }

  lemma StopKeepsSound(files: seq<string>, sum: string -> string, rows0: seq<AppliedMigration>, s: System,
                       db: Database, r: RunnerId)
    requires Sound(files, sum, rows0, s)
    requires TracksLog(rows0, db, sum) && Distinct(db.log) && AllToDo(files, rows0, db.log)
    ensures Sound(files, sum, rows0, Stop(s.(db := db), r))
  {
  }

  lemma AttemptKeepsSound(files: seq<string>, sum: string -> string, rows0: seq<AppliedMigration>, s: System,
                          r: RunnerId, attempt: Attempt)
    requires Sound(files, sum, rows0, s) && r in s.runners && s.runners[r].stage.Applying?
    ensures Sound(files, sum, rows0, NextStatement(files, sum, s, r, attempt))
  {
    var queue, n := s.runners[r].stage.queue, s.runners[r].stage.attempt;
    assert StageOk(files, rows0, s.runners[r].stage);
    StopKeepsSound(files, sum, rows0, s, s.db, r);
    if queue != [] {
      var db := AfterCommit(s.db, queue[0], sum);
      if Commit(s.db, queue[0], sum).Some? {
        CommitKeepsTracking(files, sum, rows0, s.db, queue[0]);
      }
      match attempt
      case Fails =>
      case LockConflict =>
        if n < LOCK_CONFLICT_ATTEMPTS {
          ContinueKeepsSound(files, sum, rows0, s, s.db, r, Applying(queue, n + 1));
        }
      case Unanswered => StopKeepsSound(files, sum, rows0, s, db, r);
      case Commits => ContinueKeepsSound(files, sum, rows0, s, db, r, Applying(queue[1..], 1));
    }
  }

  lemma BackfillKeepsSound(files: seq<string>, sum: string -> string, rows0: seq<AppliedMigration>, s: System,
                           r: RunnerId, attempt: Attempt)
    requires Sound(files, sum, rows0, s) && r in s.runners && s.runners[r].stage.Backfilling?
    ensures Sound(files, sum, rows0, NextStatement(files, sum, s, r, attempt))
  {
    var snapshot, next := s.runners[r].stage.snapshot, s.runners[r].stage.next;
    if next < |files| {
      var row := FindApplied(files[next], snapshot);
      if row.Some? {
        SetChecksumKeepsLog(rows0, s.db, sum, row.value.version, sum(files[next]));
      }
      var db := s.db.(rows := Backfill(files[next], snapshot, s.db.rows, sum));
      ContinueKeepsSound(files, sum, rows0, s, db, r, Backfilling(snapshot, next + 1));
    }
  }

  lemma DoKeepsSound(files: seq<string>, sum: string -> string, rows0: seq<AppliedMigration>, s: System, a: Action)
    requires UniqueVersions(files) && Sound(files, sum, rows0, s)
    ensures Sound(files, sum, rows0, Do(files, sum, s, a))
  {
    if a.Next? && a.r in s.runners {
      match s.runners[a.r].stage
      case Backfilling(_, _) => BackfillKeepsSound(files, sum, rows0, s, a.r, a.attempt);
      case Choosing =>
        ChooseIsToDo(files, sum, rows0, s.db, s.runners[a.r].mode);
        var queue := Choose(files, s.runners[a.r].mode, s.db.rows);
        ContinueKeepsSound(files, sum, rows0, s, s.db, a.r, Applying(queue, 1));
      case Applying(_, _) => AttemptKeepsSound(files, sum, rows0, s, a.r, a.attempt);
      case _ =>
    }
  }

  lemma {:induction false} RunIsSound(files: seq<string>, sum: string -> string, rows0: seq<AppliedMigration>,
                                      actions: seq<Action>)
    requires UniqueVersions(files)
    ensures Sound(files, sum, rows0, Run(files, sum, NoRunners(rows0), actions))
  {
    if actions != [] {
      var before := actions[..|actions| - 1];
      RunIsSound(files, sum, rows0, before);
      DoKeepsSound(files, sum, rows0, Run(files, sum, NoRunners(rows0), before), actions[|actions| - 1]);
    }
  }

  lemma {:induction false} DistinctCounts(fs: seq<string>, f: string)
    requires Distinct(fs)
    ensures multiset(fs)[f] == if f in fs then 1 else 0
  {
    if fs != [] {
      assert fs == [fs[0]] + fs[1..];
      DistinctCounts(fs[1..], f);
    }
  }

  /** Over any run - any number of runners, retries, crashes and even silently lost locks -
      the SQL of a migration is committed once if its tracking row has been added since the
      start and not at all otherwise; and a recorded checksum never changes. */
  lemma CommittedExactlyWhenTracked(files: seq<string>, sum: string -> string, rows0: seq<AppliedMigration>,
                                    actions: seq<Action>)
    requires UniqueVersions(files)
    ensures var db := Run(files, sum, NoRunners(rows0), actions).db;
            && (forall f :: f in files ==>
                  multiset(db.log)[f] == if IsApplied(f, db.rows) && !IsApplied(f, rows0) then 1 else 0)
            && (forall f :: f in db.log ==> f in files)
            && TracksLog(rows0, db, sum)
  {
    RunIsSound(files, sum, rows0, actions);
    var db := Run(files, sum, NoRunners(rows0), actions).db;
    forall f | f in files
      ensures multiset(db.log)[f] == if IsApplied(f, db.rows) && !IsApplied(f, rows0) then 1 else 0
    {
      DistinctCounts(db.log, f);
      AppliedIsOldOrLogged(files, sum, rows0, db, f);
    }
  }

  /** A file that a runner has applied is reported as changed exactly if it is no longer what it
      was when it was applied. */
  lemma EditsAreReported(files: seq<string>, sum: string -> string, rows0: seq<AppliedMigration>, actions: seq<Action>,
                         now: string -> string, f: string)
    requires UniqueVersions(files)
    requires f in Run(files, sum, NoRunners(rows0), actions).db.log
    ensures f in FindChanged(files, now, Run(files, sum, NoRunners(rows0), actions).db.rows) <==> now(f) != sum(f)
  {
    RunIsSound(files, sum, rows0, actions);
    var db := Run(files, sum, NoRunners(rows0), actions).db;
    ChangedIsDifferent(files, now, db.rows);
    LoggedRowIsFound(files, sum, rows0, db, f);
  }

  lemma LoggedRowIsFound(files: seq<string>, sum: string -> string, rows0: seq<AppliedMigration>, db: Database,
                         f: string)
    requires UniqueVersions(files) && f in db.log
    requires TracksLog(rows0, db, sum) && AllToDo(files, rows0, db.log)
    ensures FindApplied(f, db.rows) == Some(RowFor(f, sum(f)))
  {
    AppliedIsOldOrLogged(files, sum, rows0, db, f);
    RowsOfLog(files, sum, rows0, db, f);
    var row := FindApplied(f, db.rows).value;
    var i :| 0 <= i < |db.rows| && db.rows[i] == row;
    if i < |rows0| {
      assert RecordedBy(f, rows0[i]);
      assert false;
    }
    assert db.rows[|rows0| + (i - |rows0|)] == RowFor(f, sum(f));
  }

  // ---------------------------------------------------------------- order

  ghost predicate OnlyAll(actions: seq<Action>) {
    forall i :: 0 <= i < |actions| && actions[i].Launch? ==> actions[i].mode.All?
  }

  /** A queue is an end of what was to do that starts no later than the log stops. */
  ghost predicate QueueFits(todo: seq<string>, logged: nat, queue: seq<string>) {
    |queue| <= |todo| <= |queue| + logged && queue == todo[|todo| - |queue|..]
  }

  ghost predicate StageFits(todo: seq<string>, logged: nat, stage: Stage) {
    stage.Applying? ==> QueueFits(todo, logged, stage.queue)
  }

  ghost predicate InOrder(todo: seq<string>, s: System) {
    && s.db.log <= todo
    && (forall r :: r in s.runners ==> s.runners[r].mode.All?)
    && (forall r :: r in s.runners ==> StageFits(todo, |s.db.log|, s.runners[r].stage))
  }

  /** The applied files of rows' are those of rows and the files that are done. */
  ghost predicate AppliedSince(files: seq<string>, rows: seq<AppliedMigration>, rows': seq<AppliedMigration>,
                               done: seq<string>) {
    forall f :: f in files ==> (IsApplied(f, rows') <==> IsApplied(f, rows) || f in done)
  }

  /** What is pending when these files are applied. */
  ghost function Unapplied(files: seq<string>, applied: string -> bool): seq<string> {
    if files == [] then [] else (if applied(files[0]) then [] else [files[0]]) + Unapplied(files[1..], applied)
  }

  lemma {:induction false} PendingAreUnapplied(files: seq<string>, rows: seq<AppliedMigration>)
    ensures Pending(files, rows) == Unapplied(files, f => IsApplied(f, rows))
  {
    if files != [] {
      PendingAreUnapplied(files[1..], rows);
    }
  }

  /** applied' are the applied files and those that are done. */
  ghost predicate GrowsBy(files: seq<string>, applied: string -> bool, applied': string -> bool, done: seq<string>) {
    forall f :: f in files ==> (applied'(f) <==> applied(f) || f in done)
  }

  /** After done, what was pending is pending without it. */
  ghost predicate Skips(files: seq<string>, applied: string -> bool, applied': string -> bool, done: seq<string>) {
    done <= Unapplied(files, applied) && Unapplied(files, applied') == Unapplied(files, applied)[|done|..]
  }

  lemma SkipApplied(f: string, rest: seq<string>, applied: string -> bool, applied': string -> bool, done: seq<string>)
    requires applied(f) && applied'(f) && Skips(rest, applied, applied', done)
    ensures Skips([f] + rest, applied, applied', done)
  {
    assert ([f] + rest)[1..] == rest;
  }

  lemma SkipNone(f: string, rest: seq<string>, applied: string -> bool, applied': string -> bool)
    requires !applied(f) && !applied'(f) && Skips(rest, applied, applied', [])
    ensures Skips([f] + rest, applied, applied', [])
  {
    assert ([f] + rest)[1..] == rest;
    var todo := Unapplied(rest, applied);
    assert todo[0..] == todo && ([f] + todo)[0..] == [f] + todo;
  }

  lemma SkipDone(f: string, rest: seq<string>, applied: string -> bool, applied': string -> bool, done: seq<string>)
    requires !applied(f) && applied'(f) && Skips(rest, applied, applied', done)
    ensures Skips([f] + rest, applied, applied', [f] + done)
  {
    assert ([f] + rest)[1..] == rest;
    var todo := Unapplied(rest, applied);
    assert ([f] + todo)[|done| + 1..] == todo[|done|..];
  }

  lemma RestGrowsBy(f: string, rest: seq<string>, applied: string -> bool, applied': string -> bool, done: seq<string>)
    requires f !in rest && GrowsBy([f] + rest, applied, applied', [f] + done)
    ensures GrowsBy(rest, applied, applied', done) && applied'(f)
  {
    assert ([f] + rest)[0] == f && ([f] + done)[0] == f;
    forall g | g in rest
      ensures applied'(g) <==> applied(g) || g in done
    {
      assert g in [f] + rest;
    }
  }

  lemma {:induction false} UnappliedSkipsDone(files: seq<string>, applied: string -> bool, applied': string -> bool,
                                              done: seq<string>)
    requires Distinct(files) && GrowsBy(files, applied, applied', done)
    requires done <= Unapplied(files, applied)
    ensures Skips(files, applied, applied', done)
  {
    if files == [] {
      assert done == [];
    } else {
      var f, rest := files[0], files[1..];
      RestIsDistinct(files);
      assert files == [f] + rest && f in files;
      if applied(f) {
        UnappliedSkipsDone(rest, applied, applied', done);
        SkipApplied(f, rest, applied, applied', done);
      } else if done == [] {
        UnappliedSkipsDone(rest, applied, applied', []);
        SkipNone(f, rest, applied, applied');
      } else {
        var more := done[1..];
        assert done == [f] + more;
        RestGrowsBy(f, rest, applied, applied', more);
        UnappliedSkipsDone(rest, applied, applied', more);
        SkipDone(f, rest, applied, applied', more);
      }
    }
  }

  lemma PendingSkipsLogged(files: seq<string>, rows: seq<AppliedMigration>, rows': seq<AppliedMigration>,
                           done: seq<string>)
    requires Distinct(files) && AppliedSince(files, rows, rows', done)
    requires done <= Pending(files, rows)
    ensures Pending(files, rows') == Pending(files, rows)[|done|..]
  {
    PendingAreUnapplied(files, rows);
    PendingAreUnapplied(files, rows');
    UnappliedSkipsDone(files, f => IsApplied(f, rows), f => IsApplied(f, rows'), done);
  }

  lemma UniqueVersionsAreDistinct(files: seq<string>)
    requires UniqueVersions(files)
    ensures Distinct(files)
  {
  }

  lemma ChoiceIsInOrder(files: seq<string>, sum: string -> string, rows0: seq<AppliedMigration>, s: System)
    requires UniqueVersions(files) && Sound(files, sum, rows0, s)
    requires InOrder(Pending(files, rows0), s)
    ensures Pending(files, s.db.rows) == Pending(files, rows0)[|s.db.log|..]
  {
    UniqueVersionsAreDistinct(files);
    assert AppliedSince(files, rows0, s.db.rows, s.db.log) by {
      AllAppliedSince(files, sum, rows0, s.db);
    }
    PendingSkipsLogged(files, rows0, s.db.rows, s.db.log);
  }

  lemma AllAppliedSince(files: seq<string>, sum: string -> string, rows0: seq<AppliedMigration>, db: Database)
    requires UniqueVersions(files)
    requires TracksLog(rows0, db, sum) && AllToDo(files, rows0, db.log)
    ensures AppliedSince(files, rows0, db.rows, db.log)
  {
    forall f | f in files
      ensures IsApplied(f, db.rows) <==> IsApplied(f, rows0) || f in db.log
    {
      AppliedIsOldOrLogged(files, sum, rows0, db, f);
    }
  }

  /** A file of the log has its version key taken. */
  lemma LoggedKeyIsTaken(rows0: seq<AppliedMigration>, db: Database, sum: string -> string, k: nat)
    requires TracksLog(rows0, db, sum) && k < |db.log|
    ensures !VersionFree(db.rows, MigrationId(db.log[k]))
  {
    assert db.rows[|rows0| + k].version == MigrationId(db.log[k]);
  }

  /** A runner that is behind the log finds its version key taken. */
  lemma CommitIsNext(files: seq<string>, sum: string -> string, rows0: seq<AppliedMigration>, db: Database,
                     queue: seq<string>)
    requires TracksLog(rows0, db, sum) && db.log <= Pending(files, rows0)
    requires queue != [] && QueueFits(Pending(files, rows0), |db.log|, queue)
    requires Commit(db, queue[0], sum).Some?
    ensures |Pending(files, rows0)| - |queue| == |db.log|
    ensures db.log + [queue[0]] <= Pending(files, rows0)
    ensures QueueFits(Pending(files, rows0), |db.log| + 1, queue[1..])
  {
    var todo := Pending(files, rows0);
    var k := |todo| - |queue|;
    assert queue[0] == todo[k];
    if k < |db.log| {
      LoggedKeyIsTaken(rows0, db, sum, k);
    }
    assert k == |db.log|;
    assert queue[1..] == todo[k + 1..];
  }

  lemma ContinueKeepsOrder(todo: seq<string>, s: System, db: Database, r: RunnerId, stage: Stage)
    requires InOrder(todo, s) && r in s.runners
    requires |s.db.log| <= |db.log| && db.log <= todo
    requires StageFits(todo, |db.log|, stage)
    ensures InOrder(todo, Continue(s, db, r, stage))
  {
    var after := Continue(s, db, r, stage);
    forall q | q in after.runners
      ensures StageFits(todo, |db.log|, after.runners[q].stage)
    {
      if q != r {
        assert StageFits(todo, |s.db.log|, s.runners[q].stage);
      }
    }
  }

  lemma StopKeepsOrder(todo: seq<string>, s: System, r: RunnerId)
    requires InOrder(todo, s)
    ensures InOrder(todo, Stop(s, r))
  {
  }

  lemma CommitKeepsOrder(files: seq<string>, sum: string -> string, rows0: seq<AppliedMigration>, s: System,
                         r: RunnerId, queue: seq<string>)
    requires TracksLog(rows0, s.db, sum) && InOrder(Pending(files, rows0), s)
    requires r in s.runners && s.runners[r].stage.Applying? && s.runners[r].stage.queue == queue != []
    requires Commit(s.db, queue[0], sum).Some?
    ensures var db := Commit(s.db, queue[0], sum).value;
            && InOrder(Pending(files, rows0), Continue(s, db, r, Applying(queue[1..], 1)))
            && InOrder(Pending(files, rows0), Stop(s.(db := db), r))
  {
    var todo, db := Pending(files, rows0), Commit(s.db, queue[0], sum).value;
    assert StageFits(todo, |s.db.log|, s.runners[r].stage);
    CommitIsNext(files, sum, rows0, s.db, queue);
    ContinueKeepsOrder(todo, s, db, r, Applying(queue[1..], 1));
    StopKeepsOrder(todo, Continue(s, db, r, Applying(queue[1..], 1)), r);
    assert Stop(s.(db := db), r) == Stop(Continue(s, db, r, Applying(queue[1..], 1)), r);
  }

  lemma RetryKeepsOrder(todo: seq<string>, s: System, r: RunnerId, queue: seq<string>, n: nat)
    requires InOrder(todo, s) && r in s.runners && s.runners[r].stage == Applying(queue, n)
    ensures InOrder(todo, Continue(s, s.db, r, Applying(queue, n + 1)))
  {
    assert StageFits(todo, |s.db.log|, s.runners[r].stage);
    ContinueKeepsOrder(todo, s, s.db, r, Applying(queue, n + 1));
  }

  lemma AttemptKeepsOrder(files: seq<string>, sum: string -> string, rows0: seq<AppliedMigration>, s: System,
                          r: RunnerId, attempt: Attempt)
    requires TracksLog(rows0, s.db, sum) && r in s.runners && s.runners[r].stage.Applying?
    requires InOrder(Pending(files, rows0), s)
    ensures InOrder(Pending(files, rows0), NextStatement(files, sum, s, r, attempt))
  {
    var todo := Pending(files, rows0);
    var queue, n := s.runners[r].stage.queue, s.runners[r].stage.attempt;
    StopKeepsOrder(todo, s, r);
    if queue != [] {
      match attempt
      case Fails =>
      case LockConflict => RetryKeepsOrder(todo, s, r, queue, n);
      case _ =>
        if Commit(s.db, queue[0], sum).Some? {
          CommitKeepsOrder(files, sum, rows0, s, r, queue);
        }
    }
  }

  /** Up to the choice of what to apply, nothing is committed. */
  lemma EarlyStatement(files: seq<string>, sum: string -> string, s: System, r: RunnerId, attempt: Attempt)
    requires r in s.runners && !s.runners[r].stage.Applying? && !s.runners[r].stage.Choosing?
    ensures var after := NextStatement(files, sum, s, r, attempt);
            after == s || (r in after.runners && after == Continue(s, after.db, r, after.runners[r].stage)
                           && after.db.log == s.db.log && !after.runners[r].stage.Applying?)
  {
  }

  lemma ChoosingKeepsOrder(files: seq<string>, sum: string -> string, rows0: seq<AppliedMigration>, s: System,
                           r: RunnerId)
    requires UniqueVersions(files) && Sound(files, sum, rows0, s) && r in s.runners
    requires InOrder(Pending(files, rows0), s)
    ensures InOrder(Pending(files, rows0), Continue(s, s.db, r, Applying(Choose(files, All, s.db.rows), 1)))
  {
    ChoiceIsInOrder(files, sum, rows0, s);
    ContinueKeepsOrder(Pending(files, rows0), s, s.db, r, Applying(Choose(files, All, s.db.rows), 1));
  }

  lemma StatementKeepsOrder(files: seq<string>, sum: string -> string, rows0: seq<AppliedMigration>, s: System,
                            r: RunnerId, attempt: Attempt)
    requires UniqueVersions(files) && Sound(files, sum, rows0, s) && r in s.runners
    requires InOrder(Pending(files, rows0), s)
    ensures InOrder(Pending(files, rows0), NextStatement(files, sum, s, r, attempt))
  {
    match s.runners[r].stage
    case Applying(_, _) => AttemptKeepsOrder(files, sum, rows0, s, r, attempt);
    case Choosing => ChoosingKeepsOrder(files, sum, rows0, s, r);
    case _ =>
      var after := NextStatement(files, sum, s, r, attempt);
      EarlyStatement(files, sum, s, r, attempt);
      if after != s {
        ContinueKeepsOrder(Pending(files, rows0), s, after.db, r, after.runners[r].stage);
      }
  }

  lemma DoKeepsOrder(files: seq<string>, sum: string -> string, rows0: seq<AppliedMigration>, s: System, a: Action)
    requires UniqueVersions(files) && Sound(files, sum, rows0, s)
    requires a.Launch? ==> a.mode.All?
    requires InOrder(Pending(files, rows0), s)
    ensures InOrder(Pending(files, rows0), Do(files, sum, s, a))
  {
    if a.Next? && a.r in s.runners {
      StatementKeepsOrder(files, sum, rows0, s, a.r, a.attempt);
    }
  }

  lemma {:induction false} RunIsInOrder(files: seq<string>, sum: string -> string, rows0: seq<AppliedMigration>,
                                        actions: seq<Action>)
    requires UniqueVersions(files) && OnlyAll(actions)
    ensures InOrder(Pending(files, rows0), Run(files, sum, NoRunners(rows0), actions))
  {
    if actions != [] {
      var before := actions[..|actions| - 1];
      RunIsInOrder(files, sum, rows0, before);
      RunIsSound(files, sum, rows0, before);
      DoKeepsOrder(files, sum, rows0, Run(files, sum, NoRunners(rows0), before), actions[|actions| - 1]);
    }
  }

  ghost predicate AppliedIsPrefix(files: seq<string>, rows: seq<AppliedMigration>, n: nat) {
    n <= |files| && forall i :: 0 <= i < |files| ==> (IsApplied(files[i], rows) <==> i < n)
  }

  lemma {:induction false} PendingOfPrefix(files: seq<string>, rows: seq<AppliedMigration>, n: nat)
    requires AppliedIsPrefix(files, rows, n)
    ensures Pending(files, rows) == files[n..]
  {
    if files != [] {
      assert forall i :: 0 <= i < |files[1..]| ==> files[1..][i] == files[i + 1];
      PendingOfPrefix(files[1..], rows, if n == 0 then 0 else n - 1);
    }
  }

  /** With --all runs only, migrations commit in catalogue order without gaps, so that an
      applied set that is a prefix of the catalogue stays one. */
  lemma AppliedStaysPrefix(files: seq<string>, sum: string -> string, rows0: seq<AppliedMigration>, n: nat,
                           actions: seq<Action>)
    requires UniqueVersions(files) && OnlyAll(actions) && AppliedIsPrefix(files, rows0, n)
    ensures var db := Run(files, sum, NoRunners(rows0), actions).db;
            && db.log <= Pending(files, rows0)
            && AppliedIsPrefix(files, db.rows, n + |db.log|)
  {
    RunIsInOrder(files, sum, rows0, actions);
    RunIsSound(files, sum, rows0, actions);
    PendingOfPrefix(files, rows0, n);
    UniqueVersionsAreDistinct(files);
    var db := Run(files, sum, NoRunners(rows0), actions).db;
    forall i | 0 <= i < |files|
      ensures IsApplied(files[i], db.rows) <==> i < n + |db.log|
    {
      AppliedIsOldOrLogged(files, sum, rows0, db, files[i]);
      if n <= i < n + |db.log| {
        assert db.log[i - n] == files[n..][i - n];
      }
      if files[i] in db.log {
        var j :| 0 <= j < |db.log| && db.log[j] == files[i];
        assert files[n + j] == files[i];
      }
    }
  }

  // ---------------------------------------------------------------- what the lock is for

  ghost predicate NoDrops(actions: seq<Action>) {
    forall i :: 0 <= i < |actions| ==> !actions[i].DropSession?
  }

  /** Whoever is past waiting holds the lock, and nothing in its queue is committed. */
  ghost predicate Exclusive(s: System) {
    && (s.db.lock.Some? ==> s.db.lock.value in s.runners)
    && (forall r :: r in s.runners && !s.runners[r].stage.Waiting? ==> s.db.lock == Some(r))
    && forall r :: r in s.runners && s.runners[r].stage.Applying? ==>
         var queue := s.runners[r].stage.queue;
         Distinct(queue) && forall f :: f in queue ==> f !in s.db.log
  }

  lemma {:induction false} PendingIsDistinct(files: seq<string>, rows: seq<AppliedMigration>)
    requires Distinct(files)
    ensures Distinct(Pending(files, rows))
  {
    if files != [] {
      PendingIsDistinct(files[1..], rows);
      PendingIsUnapplied(files[1..], rows);
    }
  }

  /** The runner with the lock goes on, and all others wait. */
  lemma AdvanceKeepsExclusive(s: System, db: Database, r: RunnerId, stage: Stage)
    requires Exclusive(s) && r in s.runners && db.lock == Some(r)
    requires s.db.lock == Some(r) || (s.db.lock.None? && s.runners[r].stage.Waiting?)
    requires stage.Applying? ==> Distinct(stage.queue) && forall f :: f in stage.queue ==> f !in db.log
    ensures Exclusive(Continue(s, db, r, stage))
  {
    assert forall q :: q in s.runners && q != r ==> s.runners[q].stage.Waiting?;
  }

  lemma StopKeepsExclusive(s: System, db: Database, r: RunnerId)
    requires Exclusive(s) && r in s.runners && db.lock == s.db.lock
    requires s.runners[r].stage.Waiting? ==> db == s.db
    ensures Exclusive(Stop(s.(db := db), r))
  {
    assert forall q :: q in s.runners && q != r && !s.runners[q].stage.Waiting? ==> s.db.lock == Some(q);
  }

  lemma AttemptKeepsExclusive(files: seq<string>, sum: string -> string, s: System, r: RunnerId, attempt: Attempt)
    requires Exclusive(s) && r in s.runners && s.runners[r].stage.Applying?
    ensures Exclusive(NextStatement(files, sum, s, r, attempt))
  {
    var queue, n := s.runners[r].stage.queue, s.runners[r].stage.attempt;
    StopKeepsExclusive(s, s.db, r);
    if queue != [] {
      StopKeepsExclusive(s, AfterCommit(s.db, queue[0], sum), r);
      AdvanceKeepsExclusive(s, s.db, r, Applying(queue, n + 1));
      if Commit(s.db, queue[0], sum).Some? {
        assert forall f :: f in queue[1..] ==> f in queue && f != queue[0];
        AdvanceKeepsExclusive(s, Commit(s.db, queue[0], sum).value, r, Applying(queue[1..], 1));
      }
    }
  }

  lemma DoKeepsExclusive(files: seq<string>, sum: string -> string, rows0: seq<AppliedMigration>, s: System, a: Action)
    requires UniqueVersions(files) && Sound(files, sum, rows0, s) && Exclusive(s)
    requires !a.DropSession?
    ensures Exclusive(Do(files, sum, s, a))
  {
    if a.Next? && a.r in s.runners {
      match s.runners[a.r].stage
      case Applying(_, _) => AttemptKeepsExclusive(files, sum, s, a.r, a.attempt);
      case Choosing =>
        ChooseIsToDo(files, sum, rows0, s.db, s.runners[a.r].mode);
        UniqueVersionsAreDistinct(files);
        PendingIsDistinct(files, s.db.rows);
      case _ =>
    } else if a.Crash? && a.r in s.runners {
      StopKeepsExclusive(s, s.db, a.r);
    }
  }

  /** The version key of the next attempt of any runner is not taken. */
  ghost predicate NoKeyIsTaken(s: System) {
    forall r :: r in s.runners && s.runners[r].stage.Applying? ==> NextKeyIsFree(s.db, s.runners[r].stage.queue)
  }

  ghost predicate NextKeyIsFree(db: Database, queue: seq<string>) {
    queue != [] ==> VersionFree(db.rows, MigrationId(queue[0]))
  }

  lemma ExclusiveKeysAreFree(files: seq<string>, sum: string -> string, rows0: seq<AppliedMigration>, s: System)
    requires UniqueVersions(files) && Sound(files, sum, rows0, s) && Exclusive(s)
    ensures NoKeyIsTaken(s)
  {
    forall r | r in s.runners && s.runners[r].stage.Applying?
      ensures NextKeyIsFree(s.db, s.runners[r].stage.queue)
    {
      var queue := s.runners[r].stage.queue;
      if queue != [] {
        assert StageOk(files, rows0, s.runners[r].stage);
        UnloggedVersionIsFree(files, sum, rows0, s.db, queue[0]);
      }
    }
  }

  /** While no session is lost, the lock makes the snapshot of a runner exact: an attempt
      never meets a version key that another runner has taken. */
  lemma {:induction false} LockPreventsDuplicateKeys(files: seq<string>, sum: string -> string,
                                                     rows0: seq<AppliedMigration>, actions: seq<Action>)
    requires UniqueVersions(files) && NoDrops(actions)
    ensures Exclusive(Run(files, sum, NoRunners(rows0), actions))
    ensures NoKeyIsTaken(Run(files, sum, NoRunners(rows0), actions))
  {
    RunIsSound(files, sum, rows0, actions);
    if actions != [] {
      var before := actions[..|actions| - 1];
      LockPreventsDuplicateKeys(files, sum, rows0, before);
      RunIsSound(files, sum, rows0, before);
      DoKeepsExclusive(files, sum, rows0, Run(files, sum, NoRunners(rows0), before), actions[|actions| - 1]);
    }
    ExclusiveKeysAreFree(files, sum, rows0, Run(files, sum, NoRunners(rows0), actions));
  }

  lemma UnloggedVersionIsFree(files: seq<string>, sum: string -> string, rows0: seq<AppliedMigration>, db: Database,
                              f: string)
    requires UniqueVersions(files) && f in files && !IsApplied(f, rows0) && f !in db.log
    requires TracksLog(rows0, db, sum) && AllToDo(files, rows0, db.log)
    ensures VersionFree(db.rows, MigrationId(f))
  {
    forall i | 0 <= i < |db.rows|
      ensures db.rows[i].version != MigrationId(f)
    {
      if i < |rows0| {
        assert !RecordedBy(f, rows0[i]);
      } else {
        var g := db.log[i - |rows0|];
        assert db.rows[|rows0| + (i - |rows0|)].version == MigrationId(g);
        assert g in db.log;
        IdIsNotAVersion(f, g);
      }
    }
  }

  // ---------------------------------------------------------------- lost sessions and crashes

  /** From the lock to the choice, in a catalogue of one file and an empty table. */
  lemma ReachesChoice(f: string, sum: string -> string, actions: seq<Action>, r: RunnerId, s: System)
    requires s == Run([f], sum, NoRunners([]), actions)
    requires s.db.lock.None? && s.db.rows == [] && r in s.runners && s.runners[r] == Runner(All, Waiting)
    ensures var more := [Next(r, Commits)] + [Next(r, Commits)] + [Next(r, Commits)] + [Next(r, Commits)]
                        + [Next(r, Commits)];
            Run([f], sum, NoRunners([]), actions + more) ==
              System(s.db.(lock := Some(r)), s.runners[r := Runner(All, Applying([f], 1))])
  {
    var next := [Next(r, Commits)];
    var start := NoRunners([]);
    RunOne([f], sum, start, actions, Next(r, Commits));
    RunOne([f], sum, start, actions + next, Next(r, Commits));
    RunOne([f], sum, start, actions + next + next, Next(r, Commits));
    RunOne([f], sum, start, actions + next + next + next, Next(r, Commits));
    RunOne([f], sum, start, actions + next + next + next + next, Next(r, Commits));
    assert actions + (next + next + next + next + next) == actions + next + next + next + next + next;
    assert !IsApplied(f, []) && [f][1..] == [];
    assert Pending([f], []) == [f];
  }

  /** One lost session is enough for two runners to be past the lock with the same file: when the
      first commits, the other finds the key taken. */
  lemma LostSessionLetsTwoIn(f: string, sum: string -> string) returns (actions: seq<Action>)
    ensures var s := Run([f], sum, NoRunners([]), actions);
            && s.db.log == [f] && !NoKeyIsTaken(s) && 2 in s.runners
            && s.runners[2].stage == Applying([f], 1)
            && Do([f], sum, s, Next(2, Commits)).db.log == [f]
  {
    var start := NoRunners([]);
    var next1, next2 := [Next(1, Commits)], [Next(2, Commits)];
    var one := [Launch(1, All)];
    assert [] + one == one;
    RunOne([f], sum, start, [], Launch(1, All));
    RunOne([f], sum, start, one, Launch(2, All));
    var two := one + [Launch(2, All)];
    ReachesChoice(f, sum, two, 1, Run([f], sum, start, two));
    var three := two + (next1 + next1 + next1 + next1 + next1);
    RunOne([f], sum, start, three, DropSession(1));
    var four := three + [DropSession(1)];
    ReachesChoice(f, sum, four, 2, Run([f], sum, start, four));
    var five := four + (next2 + next2 + next2 + next2 + next2);
    RunOne([f], sum, start, five, Next(1, Commits));
    actions := five + next1;
    var s := Run([f], sum, start, actions);
    assert s.db.rows == [RowFor(f, sum(f))] && s.db.rows[0].version == MigrationId(f);
    assert !NextKeyIsFree(s.db, s.runners[2].stage.queue);
  }

  ghost predicate HolderRuns(s: System) {
    s.db.lock.Some? ==> s.db.lock.value in s.runners
  }

  lemma StepKeepsHolder(files: seq<string>, sum: string -> string, s: System, a: Action)
    requires HolderRuns(s)
    ensures HolderRuns(Do(files, sum, s, a))
  {
  }

  lemma {:induction false} LockHasRunner(files: seq<string>, sum: string -> string, rows0: seq<AppliedMigration>,
                                         actions: seq<Action>)
    ensures HolderRuns(Run(files, sum, NoRunners(rows0), actions))
  {
    if actions != [] {
      LockHasRunner(files, sum, rows0, actions[..|actions| - 1]);
      StepKeepsHolder(files, sum, Run(files, sum, NoRunners(rows0), actions[..|actions| - 1]), actions[|actions| - 1]);
    }
  }

  /** Crashes free the lock: whatever has happened, once all runners have crashed a new one finds
      the lock free and the table and the history as they were. */
  lemma {:induction false} CrashesFreeTheLock(files: seq<string>, sum: string -> string,
                                              rows0: seq<AppliedMigration>, actions: seq<Action>)
    returns (more: seq<Action>)
    ensures var s := Run(files, sum, NoRunners(rows0), actions);
            && actions <= more && (forall k :: |actions| <= k < |more| ==> more[k].Crash?)
            && Run(files, sum, NoRunners(rows0), more) == System(s.db.(lock := None), map[])
    decreases |Run(files, sum, NoRunners(rows0), actions).runners|
  {
    var s := Run(files, sum, NoRunners(rows0), actions);
    LockHasRunner(files, sum, rows0, actions);
    if s.runners == map[] {
      more := actions;
    } else {
      var r :| r in s.runners;
      RunOne(files, sum, NoRunners(rows0), actions, Crash(r));
      assert |s.runners - {r}| < |s.runners| by {
        assert (s.runners - {r}).Keys == s.runners.Keys - {r};
        assert |s.runners| == |s.runners.Keys| && |s.runners - {r}| == |(s.runners - {r}).Keys|;
      }
      more := CrashesFreeTheLock(files, sum, rows0, actions + [Crash(r)]);
    }
  }
}
