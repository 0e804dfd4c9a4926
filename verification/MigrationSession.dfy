/** The loops of one runner, statement after statement, over the database it is connected to.
    Each method also gives the steps it took, as a run of the machine of MigrationRunner, so
    that what holds of every run holds of these loops. */
module MigrationSession {
  import opened Results
  import opened MigrationCatalog
  import opened MigrationRunner

  /** The machine with this database and runner r alone. */
  ghost function Alone(db: Database, r: RunnerId, mode: Mode, stage: Stage): System {
    System(db, map[r := Runner(mode, stage)])
  }

  ghost function Ended(db: Database, r: RunnerId): System {
    System(Unlock(db, r), map[])
  }

  lemma AttemptStep(files: seq<string>, sum: string -> string, db: Database, r: RunnerId, mode: Mode, filename: string,
                    rest: seq<string>, n: nat, answer: Attempt)
    ensures Do(files, sum, Alone(db, r, mode, Applying([filename] + rest, n)), Next(r, answer)) ==
            match answer
            case Fails => Ended(db, r)
            case Unanswered => Ended(AfterCommit(db, filename, sum), r)
            case LockConflict =>
              if n == LOCK_CONFLICT_ATTEMPTS then Ended(db, r)
              else Alone(db, r, mode, Applying([filename] + rest, n + 1))
            case Commits =>
              if Commit(db, filename, sum).None? then Ended(db, r)
              else Alone(Commit(db, filename, sum).value, r, mode, Applying(rest, 1))
  {
    assert ([filename] + rest)[1..] == rest;
  }

  /** How the attempts from n on end. */
  function LastAttempt(answer: nat -> Attempt, n: nat): Attempt
    decreases LOCK_CONFLICT_ATTEMPTS - n
  {
    if answer(n).LockConflict? && n < LOCK_CONFLICT_ATTEMPTS then LastAttempt(answer, n + 1) else answer(n)
  }

  /** That is the first attempt that meets no lock conflict, or else the last there is. */
  lemma {:induction false} LastAttemptIs(answer: nat -> Attempt, n: nat)
    requires n <= 5
    ensures exists m: nat :: n <= m <= 5 && LastAttempt(answer, n) == answer(m)
                             && (forall k :: n <= k < m ==> answer(k).LockConflict?)
                             && (answer(m).LockConflict? ==> m == 5)
    decreases 5 - n
  {
    if answer(n).LockConflict? && n < LOCK_CONFLICT_ATTEMPTS {
      LastAttemptIs(answer, n + 1);
    }
  }

  /** A file whose COMMIT took effect without an answer, which Apply reports as rolled back, is
      applied, and the next run does not apply it again. */
  lemma LostAnswerIsApplied(files: seq<string>, db: Database, filename: string, sum: string -> string)
    requires VersionFree(db.rows, MigrationId(filename))
    ensures var after := AfterCommit(db, filename, sum);
            && after.log == db.log + [filename]
            && IsApplied(filename, after.rows) && filename !in Pending(files, after.rows)
  {
    var rows := AfterCommit(db, filename, sum).rows;
    assert RecordedBy(filename, rows[|db.rows|]);
    PendingIsUnapplied(files, rows);
  }

  lemma Launching(files: seq<string>, sum: string -> string, db: Database, r: RunnerId, mode: Mode)
    ensures Run(files, sum, System(db, map[]), [Launch(r, mode)]) ==
            if mode.All? || mode.file in files then Alone(db, r, mode, Waiting) else System(db, map[])
  {
    RunOne(files, sum, System(db, map[]), [], Launch(r, mode));
    assert [] + [Launch(r, mode)] == [Launch(r, mode)];
  }

  /** The lock is taken and the table read. */
  lemma UpToBackfill(files: seq<string>, sum: string -> string, db: Database, r: RunnerId, mode: Mode)
    requires db.lock.None? && (mode.All? || mode.file in files)
    ensures Run(files, sum, System(db, map[]), [Launch(r, mode)] + [Next(r, Commits)] + [Next(r, Commits)]) ==
            Alone(db.(lock := Some(r)), r, mode, Backfilling(db.rows, 0))
  {
    var start := System(db, map[]);
    Launching(files, sum, db, r, mode);
    RunOne(files, sum, start, [Launch(r, mode)], Next(r, Commits));
    RunOne(files, sum, start, [Launch(r, mode)] + [Next(r, Commits)], Next(r, Commits));
  }

  lemma BackfillStep(files: seq<string>, sum: string -> string, db: Database, r: RunnerId, mode: Mode,
                     snapshot: seq<AppliedMigration>, k: nat)
    requires k < |files|
    ensures Do(files, sum, Alone(db, r, mode, Backfilling(snapshot, k)), Next(r, Commits)) ==
            Alone(db.(rows := Backfill(files[k], snapshot, db.rows, sum)), r, mode, Backfilling(snapshot, k + 1))
  {
  }

  // ---------------------------------------------------------------- checksums that were missing

  /** The file finds a row of this version that has no checksum. */
  predicate Fills(file: string, snapshot: seq<AppliedMigration>, version: string) {
    var row := FindApplied(file, snapshot);
    row.Some? && row.value.checksum in {None, Some("")} && row.value.version == version
  }

  ghost predicate FirstToFill(files: seq<string>, snapshot: seq<AppliedMigration>, version: string, k: nat) {
    k < |files| && Fills(files[k], snapshot, version) && forall j :: 0 <= j < k ==> !Fills(files[j], snapshot, version)
  }

  /** A row whose checksum is null gets that of the first file to find its version, and no other
      row changes. */
  ghost predicate BackfilledRow(files: seq<string>, sum: string -> string, snapshot: seq<AppliedMigration>,
                                before: AppliedMigration, after: AppliedMigration) {
    && (before.checksum.None? ==> forall k: nat :: FirstToFill(files, snapshot, before.version, k) ==>
            after == before.(checksum := Some(sum(files[k]))))
    && ((forall k: nat :: k < |files| ==> !Fills(files[k], snapshot, before.version)) ==> after == before)
    && (before.checksum.Some? ==> after == before)
  }

  ghost predicate Backfilled(files: seq<string>, sum: string -> string, before: seq<AppliedMigration>,
                             after: seq<AppliedMigration>) {
    |after| == |before| && forall i :: 0 <= i < |after| ==> BackfilledRow(files, sum, before, before[i], after[i])
  }

  function SetOne(row: AppliedMigration, version: string, checksum: string): AppliedMigration {
    if row.version == version && row.checksum.None? then row.(checksum := Some(checksum)) else row
  }

  lemma {:induction false} FirstFiller(files: seq<string>, snapshot: seq<AppliedMigration>, version: string)
    returns (k: Option<nat>)
    ensures if k.Some? then FirstToFill(files, snapshot, version, k.value)
            else forall j: nat :: j < |files| ==> !Fills(files[j], snapshot, version)
  {
    if files == [] {
      k := None;
    } else if Fills(files[0], snapshot, version) {
      k := Some(0);
    } else {
      k := FirstFiller(files[1..], snapshot, version);
      k := if k.None? then None else Some(k.value + 1);
    }
  }

  lemma BackfillRow(files: seq<string>, file: string, sum: string -> string, snapshot: seq<AppliedMigration>,
                    before: AppliedMigration, after: AppliedMigration)
    requires BackfilledRow(files, sum, snapshot, before, after)
    ensures var next := if Fills(file, snapshot, before.version) then SetOne(after, before.version, sum(file))
                        else after;
            BackfilledRow(files + [file], sum, snapshot, before, next) && KeepsRow(before, after)
  {
    var all := files + [file];
    assert forall k :: 0 <= k < |files| ==> all[k] == files[k];
    assert all[|files|] == file;
    var first := FirstFiller(files, snapshot, before.version);
    if first.Some? {
      assert FirstToFill(all, snapshot, before.version, first.value);
    }
  }

  lemma BackfillNext(files: seq<string>, k: nat, sum: string -> string, before: seq<AppliedMigration>,
                     rows: seq<AppliedMigration>)
    requires k < |files| && Backfilled(files[..k], sum, before, rows)
    ensures Backfilled(files[..k + 1], sum, before, Backfill(files[k], before, rows, sum))
  {
    assert files[..k + 1] == files[..k] + [files[k]];
    forall i | 0 <= i < |rows|
      ensures BackfilledRow(files[..k + 1], sum, before, before[i], Backfill(files[k], before, rows, sum)[i])
    {
      BackfillRow(files[..k], files[k], sum, before, before[i], rows[i]);
    }
  }

  lemma BackfillKeepsRows(files: seq<string>, sum: string -> string, before: seq<AppliedMigration>,
                          after: seq<AppliedMigration>)
    requires Backfilled(files, sum, before, after)
    ensures forall i :: 0 <= i < |after| ==> KeepsRow(before[i], after[i])
  {
    forall i | 0 <= i < |after|
      ensures KeepsRow(before[i], after[i])
    {
      BackfillRow(files, "", sum, before, before[i], after[i]);
    }
  }

  // ---------------------------------------------------------------- how far a run gets

  /** How the attempts to apply a file end. */
  function Outcome(answer: (string, nat) -> Attempt, file: string): Attempt {
    LastAttempt((n: nat) => answer(file, n), 1)
  }

  ghost predicate KeyFree(rows: seq<AppliedMigration>, queue: seq<string>, k: nat)
    requires k < |queue|
  {
    && VersionFree(rows, MigrationId(queue[k]))
    && forall j :: 0 <= j < k ==> MigrationId(queue[j]) != MigrationId(queue[k])
  }

  ghost predicate Goes(rows: seq<AppliedMigration>, queue: seq<string>, answer: (string, nat) -> Attempt, k: nat)
    requires k < |queue|
  {
    KeyFree(rows, queue, k) && Outcome(answer, queue[k]).Commits?
  }

  /** All files before stop are applied, and that at stop is not, or there is none. */
  ghost predicate StopsAt(rows: seq<AppliedMigration>, queue: seq<string>, answer: (string, nat) -> Attempt,
                           stop: nat) {
    && stop <= |queue|
    && (forall k: nat :: k < stop ==> Goes(rows, queue, answer, k))
    && (stop < |queue| ==> !Goes(rows, queue, answer, stop))
  }

  /** The files committed: those before stop, and that at stop if the answer to its COMMIT was lost. */
  ghost function CommittedOf(rows: seq<AppliedMigration>, queue: seq<string>, answer: (string, nat) -> Attempt,
                             stop: nat): seq<string>
    requires stop <= |queue|
  {
    if stop < |queue| && KeyFree(rows, queue, stop) && Outcome(answer, queue[stop]).Unanswered? then queue[..stop + 1]
    else queue[..stop]
  }

  function RowsFor(files: seq<string>, sum: string -> string): seq<AppliedMigration> {
    seq(|files|, i requires 0 <= i < |files| => RowFor(files[i], sum(files[i])))
  }

  lemma FreeAfter(rows: seq<AppliedMigration>, queue: seq<string>, k: nat, sum: string -> string)
    requires k < |queue|
    ensures VersionFree(rows + RowsFor(queue[..k], sum), MigrationId(queue[k])) <==> KeyFree(rows, queue, k)
  {
    var added := RowsFor(queue[..k], sum);
    var all := rows + added;
    assert forall i :: 0 <= i < |rows| ==> all[i] == rows[i];
    assert forall j :: 0 <= j < k ==> all[|rows| + j] == added[j] && added[j].version == MigrationId(queue[j]);
  }

  lemma RowsForNext(rows: seq<AppliedMigration>, queue: seq<string>, k: nat, sum: string -> string)
    requires k < |queue|
    ensures rows + RowsFor(queue[..k], sum) + [RowFor(queue[k], sum(queue[k]))] == rows + RowsFor(queue[..k + 1], sum)
  {
    assert RowsFor(queue[..k + 1], sum) == RowsFor(queue[..k], sum) + [RowFor(queue[k], sum(queue[k]))];
  }

  /** What ApplyAll has written after k files. */
  ghost predicate AppliedUpTo(before: Database, after: Database, queue: seq<string>, sum: string -> string, k: nat) {
    k <= |queue| && after == Database(before.rows + RowsFor(queue[..k], sum), before.log + queue[..k], before.lock)
  }

  lemma NothingApplied(before: Database, queue: seq<string>, sum: string -> string)
    ensures AppliedUpTo(before, before, queue, sum, 0)
  {
    assert queue[..0] == [] && RowsFor([], sum) == [];
    assert before.rows + [] == before.rows && before.log + [] == before.log;
  }

  lemma OneApplied(before: Database, now: Database, queue: seq<string>, sum: string -> string, k: nat)
    requires k < |queue| && AppliedUpTo(before, now, queue, sum, k)
    ensures VersionFree(now.rows, MigrationId(queue[k])) <==> KeyFree(before.rows, queue, k)
    ensures KeyFree(before.rows, queue, k) ==>
              AppliedUpTo(before, AfterCommit(now, queue[k], sum), queue, sum, k + 1)
    ensures !KeyFree(before.rows, queue, k) ==> AfterCommit(now, queue[k], sum) == now
  {
    FreeAfter(before.rows, queue, k, sum);
    RowsForNext(before.rows, queue, k, sum);
    assert before.log + queue[..k + 1] == before.log + queue[..k] + [queue[k]];
  }

  lemma SameStop(before: seq<AppliedMigration>, after: seq<AppliedMigration>, queue: seq<string>,
                 answer: (string, nat) -> Attempt, stop: nat)
    requires |before| == |after| && forall i :: 0 <= i < |before| ==> KeepsRow(before[i], after[i])
    ensures StopsAt(before, queue, answer, stop) <==> StopsAt(after, queue, answer, stop)
    ensures stop <= |queue| ==> CommittedOf(before, queue, answer, stop) == CommittedOf(after, queue, answer, stop)
  {
    assert forall version :: VersionFree(before, version) <==> VersionFree(after, version);
    assert forall k: nat :: k < |queue| ==> (KeyFree(before, queue, k) <==> KeyFree(after, queue, k));
    assert forall k: nat :: k < |queue| ==> (Goes(before, queue, answer, k) <==> Goes(after, queue, answer, k));
  }

  /** There is one such place. */
  lemma StopIsUnique(rows: seq<AppliedMigration>, queue: seq<string>, answer: (string, nat) -> Attempt, a: nat, b: nat)
    requires StopsAt(rows, queue, answer, a) && StopsAt(rows, queue, answer, b)
    ensures a == b
  {
  }

  /** Checksums are filled in, and then what was chosen is committed in order, up to where the run
      stops; the lock is free again. */
  ghost predicate Migrated(before: Database, after: Database, files: seq<string>, sum: string -> string, mode: Mode,
                           answer: (string, nat) -> Attempt) {
    exists stop: nat :: MigratedTo(before, after, files, sum, mode, answer, stop)
  }

  ghost predicate MigratedTo(before: Database, after: Database, files: seq<string>, sum: string -> string, mode: Mode,
                             answer: (string, nat) -> Attempt, stop: nat) {
    var queue := Choose(files, mode, before.rows);
    && StopsAt(before.rows, queue, answer, stop)
    && var done := CommittedOf(before.rows, queue, answer, stop);
       && after.log == before.log + done
       && after.lock.None?
       && |after.rows| == |before.rows| + |done|
       && Backfilled(files, sum, before.rows, after.rows[..|before.rows|])
       && after.rows[|before.rows|..] == RowsFor(done, sum)
  }

  lemma MigratedAll(before: Database, filled: Database, files: seq<string>, sum: string -> string, mode: Mode,
                    answer: (string, nat) -> Attempt, stop: nat, after: Database)
    requires Backfilled(files, sum, before.rows, filled.rows) && filled.log == before.log
    requires StopsAt(filled.rows, Choose(files, mode, before.rows), answer, stop)
    requires var done := CommittedOf(filled.rows, Choose(files, mode, before.rows), answer, stop);
             after == Database(filled.rows + RowsFor(done, sum), filled.log + done, None)
    ensures MigratedTo(before, after, files, sum, mode, answer, stop)
    ensures var queue := Choose(files, mode, before.rows);
            StopsAt(before.rows, queue, answer, |queue|) <==> stop == |queue|
  {
    var queue := Choose(files, mode, before.rows);
    var done := CommittedOf(filled.rows, queue, answer, stop);
    BackfillKeepsRows(files, sum, before.rows, filled.rows);
    SameStop(before.rows, filled.rows, queue, answer, stop);
    if StopsAt(before.rows, queue, answer, |queue|) {
      StopIsUnique(before.rows, queue, answer, stop, |queue|);
    }
    assert after.rows[..|before.rows|] == filled.rows;
    assert after.rows[|before.rows|..] == RowsFor(done, sum);
  }

  // ---------------------------------------------------------------- the session

  class Session {
    var db: Database
    const files: seq<string>
    const sum: string -> string
    const id: RunnerId

    constructor (db: Database, files: seq<string>, sum: string -> string, id: RunnerId)
      ensures this.db == db && this.files == files && this.sum == sum && this.id == id
    {
      this.db, this.files, this.sum, this.id := db, files, sum, id;
    }

    /** apply: up to five attempts, of which only lock conflicts are repeated. What it reports as
        rolled back is, exactly unless the answer to its COMMIT was lost. */
    method Apply(filename: string, answer: nat -> Attempt, ghost mode: Mode, ghost rest: seq<string>)
      returns (ok: bool, ghost actions: seq<Action>)
      modifies this
      ensures ok <==> VersionFree(old(db.rows), MigrationId(filename)) && LastAttempt(answer, 1).Commits?
      ensures db == if LastAttempt(answer, 1).Commits? || LastAttempt(answer, 1).Unanswered?
                    then AfterCommit(old(db), filename, sum) else old(db)
      ensures !ok ==> (db == old(db) <==>
                !(LastAttempt(answer, 1).Unanswered? && VersionFree(old(db.rows), MigrationId(filename))))
      ensures LastAttempt(answer, 1).Unanswered? && VersionFree(old(db.rows), MigrationId(filename)) ==>
                !ok && IsApplied(filename, db.rows) && filename !in Pending(files, db.rows)
      ensures Run(files, sum, Alone(old(db), id, mode, Applying([filename] + rest, 1)), actions) ==
              if ok then Alone(db, id, mode, Applying(rest, 1)) else Ended(db, id)
    {
      ghost var start := Alone(db, id, mode, Applying([filename] + rest, 1));
      var attempt: nat := 1;
      actions := [];
      while true
        invariant 1 <= attempt <= LOCK_CONFLICT_ATTEMPTS && db == old(db)
        invariant LastAttempt(answer, 1) == LastAttempt(answer, attempt)
        invariant Run(files, sum, start, actions) == Alone(db, id, mode, Applying([filename] + rest, attempt))
        decreases LOCK_CONFLICT_ATTEMPTS - attempt
      {
        RunOne(files, sum, start, actions, Next(id, answer(attempt)));
        AttemptStep(files, sum, db, id, mode, filename, rest, attempt, answer(attempt));
        actions := actions + [Next(id, answer(attempt))];
        match answer(attempt)
        case Commits =>
          var committed := Commit(db, filename, sum);
          if committed.None? {
            return false, actions;
          }
          db := committed.value;
          return true, actions;
        case LockConflict =>
          if attempt == LOCK_CONFLICT_ATTEMPTS {
            return false, actions;
          }
          attempt := attempt + 1;
        case Unanswered =>
          if VersionFree(db.rows, MigrationId(filename)) {
            LostAnswerIsApplied(files, db, filename, sum);
          }
          db := AfterCommit(db, filename, sum);
          return false, actions;
        case Fails =>
          return false, actions;
      }
    }

    method BackfillChecksums(ghost mode: Mode) returns (ghost actions: seq<Action>)
      modifies this
      ensures db == old(db).(rows := db.rows)
      ensures Backfilled(files, sum, old(db.rows), db.rows)
      ensures Run(files, sum, Alone(old(db), id, mode, Backfilling(old(db.rows), 0)), actions) ==
              Alone(db, id, mode, Choosing)
    {
      var applied := db.rows;
      ghost var start := Alone(db, id, mode, Backfilling(applied, 0));
      actions := [];
      var k := 0;
      while k < |files|
        invariant 0 <= k <= |files|
        invariant db == old(db).(rows := db.rows)
        invariant Backfilled(files[..k], sum, applied, db.rows)
        invariant Run(files, sum, start, actions) == Alone(db, id, mode, Backfilling(applied, k))
      {
        RunOne(files, sum, start, actions, Next(id, Commits));
        BackfillStep(files, sum, db, id, mode, applied, k);
        BackfillNext(files, k, sum, applied, db.rows);
        actions := actions + [Next(id, Commits)];
        var row := FindApplied(files[k], applied);
        if row.Some? && (row.value.checksum.None? || row.value.checksum.value == "") {
          db := db.(rows := SetChecksum(db.rows, row.value.version, sum(files[k])));
        }
        k := k + 1;
      }
      assert files[..k] == files;
      RunOne(files, sum, start, actions, Next(id, Commits));
      actions := actions + [Next(id, Commits)];
    }

    method ApplyAll(queue: seq<string>, answer: (string, nat) -> Attempt, ghost mode: Mode)
      returns (ok: bool, ghost stop: nat, ghost actions: seq<Action>)
      modifies this
      ensures StopsAt(old(db.rows), queue, answer, stop) && (ok <==> stop == |queue|)
      ensures var done := CommittedOf(old(db.rows), queue, answer, stop);
              db == Database(old(db.rows) + RowsFor(done, sum), old(db.log) + done, old(db.lock))
      ensures Run(files, sum, Alone(old(db), id, mode, Applying(queue, 1)), actions) == System(Unlock(db, id), map[])
    {
      ghost var start := Alone(db, id, mode, Applying(queue, 1));
      ghost var before := db;
      actions := [];
      stop := 0;
      var k := 0;
      NothingApplied(db, queue, sum);
      while k < |queue|
        invariant 0 <= k <= |queue| && stop == k
        invariant forall j: nat :: j < k ==> Goes(before.rows, queue, answer, j)
        invariant AppliedUpTo(before, db, queue, sum, k)
        invariant Run(files, sum, start, actions) == Alone(db, id, mode, Applying(queue[k..], 1))
      {
        assert queue[k..] == [queue[k]] + queue[k + 1..];
        OneApplied(before, db, queue, sum, k);
        var committed; ghost var steps;
        committed, steps := Apply(queue[k], (n: nat) => answer(queue[k], n), mode, queue[k + 1..]);
        RunConcat(files, sum, start, actions, steps);
        actions := actions + steps;
        if !committed {
          return false, k, actions;
        }
        k, stop := k + 1, k + 1;
      }
      RunOne(files, sum, start, actions, Next(id, Commits));
      actions := actions + [Next(id, Commits)];
      ok := true;
    }

    /** The lock, the checksums and the choice. */
    method Prepare(mode: Mode) returns (queue: seq<string>, ghost actions: seq<Action>)
      requires db.lock.None? && (mode.All? || mode.file in files)
      modifies this
      ensures queue == Choose(files, mode, old(db.rows)) && Backfilled(files, sum, old(db.rows), db.rows)
      ensures db == Database(db.rows, old(db.log), Some(id))
      ensures Run(files, sum, System(old(db), map[]), actions) == Alone(db, id, mode, Applying(queue, 1))
    {
      ghost var start := System(db, map[]);
      UpToBackfill(files, sum, db, id, mode);
      actions := [Launch(id, mode)] + [Next(id, Commits)] + [Next(id, Commits)];
      db := db.(lock := Some(id));
      ghost var before := db.rows;
      ghost var steps := BackfillChecksums(mode);
      RunConcat(files, sum, start, actions, steps);
      actions := actions + steps;
      BackfillKeepsRows(files, sum, before, db.rows);
      SamePending(files, before, db.rows);
      queue := Choose(files, mode, db.rows);
      RunOne(files, sum, start, actions, Next(id, Commits));
      actions := actions + [Next(id, Commits)];
    }

    /** migrate, from taking the lock to closing the session. */
    method Migrate(mode: Mode, answer: (string, nat) -> Attempt) returns (ok: bool, ghost actions: seq<Action>)
      requires db.lock.None?
      modifies this
      ensures Run(files, sum, System(old(db), map[]), actions) == System(db, map[])
      ensures mode.Target? && mode.file !in files ==> !ok && db == old(db)
      ensures ok <==> && StopsAt(old(db.rows), Choose(files, mode, old(db.rows)), answer,
                                 |Choose(files, mode, old(db.rows))|)
                      && (mode.Target? ==> mode.file in Pending(files, old(db.rows)))
      ensures mode.All? || mode.file in files ==> Migrated(old(db), db, files, sum, mode, answer)
    {
      PendingIsUnapplied(files, db.rows);
      if mode.Target? && mode.file !in files {
        Launching(files, sum, db, id, mode);
        return false, [Launch(id, mode)];
      }
      var queue; ghost var steps;
      queue, actions := Prepare(mode);
      ghost var filled := db;
      ghost var stop;
      ok, stop, steps := ApplyAll(queue, answer, mode);
      RunConcat(files, sum, System(old(db), map[]), actions, steps);
      actions := actions + steps;
      if mode.Target? && queue == [] {
        ok := false;
      }
      db := Unlock(db, id);
      MigratedAll(old(db), filled, files, sum, mode, answer, stop, db);
    }
  }

  lemma {:induction false} SamePending(files: seq<string>, before: seq<AppliedMigration>, after: seq<AppliedMigration>)
    requires |before| == |after| && forall i :: 0 <= i < |before| ==> KeepsRow(before[i], after[i])
    ensures Pending(files, before) == Pending(files, after)
  {
    if files != [] {
      SamePending(files[1..], before, after);
      assert forall i :: 0 <= i < |before| ==> (RecordedBy(files[0], before[i]) <==> RecordedBy(files[0], after[i]));
    }
  }

  /** A pending file finds its version key free, whatever was applied before it. */
  lemma PendingIsFree(files: seq<string>, rows: seq<AppliedMigration>, k: nat)
    requires UniqueVersions(files) && k < |Pending(files, rows)|
    ensures KeyFree(rows, Pending(files, rows), k)
  {
    var queue := Pending(files, rows);
    PendingIsUnapplied(files, rows);
    UniqueVersionsAreDistinct(files);
    PendingIsDistinct(files, rows);
    assert queue[k] in queue;
    forall i | 0 <= i < |rows|
      ensures rows[i].version != MigrationId(queue[k])
    {
      assert !RecordedBy(queue[k], rows[i]);
    }
    forall j | 0 <= j < k
      ensures MigrationId(queue[j]) != MigrationId(queue[k])
    {
      assert queue[j] in queue;
      IdIsNotAVersion(queue[j], queue[k]);
    }
  }

  /** The files of the queue in order, up to the first whose attempts do not end in a commit, and
      that one if only the answer was lost. */
  ghost predicate IsAsFar(queue: seq<string>, answer: (string, nat) -> Attempt, log: seq<string>) {
    && log <= queue
    && (forall k :: 0 <= k < |log| - 1 ==> Outcome(answer, log[k]).Commits?)
    && (log != [] ==> Outcome(answer, log[|log| - 1]) in {Commits, Unanswered})
    && (|log| < |queue| ==> || Outcome(answer, queue[|log|]) in {LockConflict, Fails}
                            || (log != [] && Outcome(answer, log[|log| - 1]).Unanswered?))
  }

  ghost predicate KeysFree(rows: seq<AppliedMigration>, queue: seq<string>) {
    forall k: nat :: k < |queue| ==> KeyFree(rows, queue, k)
  }

  lemma GoesAsFar(rows: seq<AppliedMigration>, queue: seq<string>, answer: (string, nat) -> Attempt, stop: nat)
    requires KeysFree(rows, queue) && StopsAt(rows, queue, answer, stop)
    ensures IsAsFar(queue, answer, CommittedOf(rows, queue, answer, stop))
  {
    var log := CommittedOf(rows, queue, answer, stop);
    assert forall k: nat :: k < stop ==> Goes(rows, queue, answer, k) && Outcome(answer, queue[k]).Commits?;
    assert forall k :: 0 <= k < |log| ==> log[k] == queue[k];
  }

  lemma AllGo(rows: seq<AppliedMigration>, queue: seq<string>, answer: (string, nat) -> Attempt)
    requires KeysFree(rows, queue)
    ensures StopsAt(rows, queue, answer, |queue|) <==> forall f :: f in queue ==> Outcome(answer, f).Commits?
  {
    assert forall k: nat :: k < |queue| ==> (Goes(rows, queue, answer, k) <==> Outcome(answer, queue[k]).Commits?);
  }

  lemma PendingAreFree(files: seq<string>, rows: seq<AppliedMigration>)
    requires UniqueVersions(files)
    ensures KeysFree(rows, Pending(files, rows))
  {
    forall k: nat | k < |Pending(files, rows)|
      ensures KeyFree(rows, Pending(files, rows), k)
    {
      PendingIsFree(files, rows, k);
    }
  }

  /** From any table, one run of Migrate commits the pending files in order, each once, as far as
      the database lets it. */
  method MigrateFrom(rows: seq<AppliedMigration>, files: seq<string>, sum: string -> string,
                     answer: (string, nat) -> Attempt)
    returns (ok: bool, log: seq<string>, after: seq<AppliedMigration>)
    requires UniqueVersions(files)
    ensures ok <==> forall f :: f in Pending(files, rows) ==> Outcome(answer, f).Commits?
    ensures IsAsFar(Pending(files, rows), answer, log) && (ok ==> log == Pending(files, rows))
    ensures forall f :: f in files ==> (IsApplied(f, after) <==> IsApplied(f, rows) || f in log)
  {
    var session := new Session(Database(rows, [], None), files, sum, 0);
    ghost var actions;
    ok, actions := session.Migrate(All, answer);
    log, after := session.db.log, session.db.rows;
    AppliedFrom(rows, files, sum, session.db, actions);
    ghost var stop: nat :| MigratedTo(Database(rows, [], None), session.db, files, sum, All, answer, stop);
    assert log == CommittedOf(rows, Pending(files, rows), answer, stop);
    PendingAreFree(files, rows);
    GoesAsFar(rows, Pending(files, rows), answer, stop);
    AllGo(rows, Pending(files, rows), answer);
    if ok {
      StopIsUnique(rows, Pending(files, rows), answer, stop, |Pending(files, rows)|);
    }
  }

  lemma AppliedFrom(rows: seq<AppliedMigration>, files: seq<string>, sum: string -> string, db: Database,
                    actions: seq<Action>)
    requires UniqueVersions(files) && Run(files, sum, NoRunners(rows), actions) == System(db, map[])
    ensures forall f :: f in files ==> (IsApplied(f, db.rows) <==> IsApplied(f, rows) || f in db.log)
  {
    forall f | f in files
      ensures IsApplied(f, db.rows) <==> IsApplied(f, rows) || f in db.log
    {
      RunIsSound(files, sum, rows, actions);
      AppliedIsOldOrLogged(files, sum, rows, db, f);
    }
  }
}
