# Verified models of OghmaNotes

Models, in Dafny 4.11, of the parts of OghmaNotes in which something has to stay right over many
steps: scans that are split, crash and resume, migrations run by several processes, a PDF written
by hand, transactions whose effects wait, rate limits shared by instances, and a few smaller
algorithms. `dafny verify dfyconfig.toml` verifies the project.

What is imperative in the source is a class or a method with loops here, proved against a function
or a machine of steps on values; what the source promises is then proved of that function or
machine, for every input and every run.

- `ArchiveScan`, `ScanRecovery`, `ScanCatalogue`: the resumable scan of the exam archive.
  Splitting a search by prefix can lose rows. What makes a passing scan complete is that pending
  searches stay disjoint and that rows are counted; which rows a split loses is stated exactly.
  Resuming is modelled as disk and process with a crash between any two steps, from all of which
  the scan can be finished. `ScanCatalogue` ties the papers of an answer to its rows. Both see
  papers as values with the fields a scan touches; `PaperLibrary` sees them as the objects the
  library updates.
- `MigrationCatalog`, `MigrationRunner`, `MigrationSession`: names and lookups, any number of
  runners as one machine, and the loops of one runner, each of whose executions is shown to be a
  run of the machine. `DropSession` is the client silently replacing a lost connection: the advisory
  lock is gone and the runner does not notice. Two runners can then be past the lock, and still
  nothing is applied twice.
- `PdfText`, `PdfTemplate`, `PdfWriter`, `PdfReader`, `PdfRoundTrip`, `PdfSize`: `tinyPdf` and an
  independent reader that follows startxref, table entries, lengths and references (ISO 32000-1
  sections 7.3.4.2, 7.3.8, 7.5.4 and 7.5.5). A table entry has ten digits; `PdfSize` bounds the
  file by the text. `Decimal`, `Results` and `Sequences` serve several modules.
- `TransactionScope`: programs as trees, an interpreter, reference meanings inside and outside a
  scope, a monitor of traces, and the client with its effect arrays.
- `RateLimiter`, `RateLimitStores`, `RateLimitRules`: the sorted set under any interleaving of
  instances, and both stores run one call at a time.
- `QuestionHeadings`, `CsvPrinter`, `PaperLibrary`, `ArchiveBridge`, `KeyCache`,
  `SampleSelection`, `MultipartCopy`, `TelemetrySender`: the smaller cores, each of one file.

Where a property one might expect is false of the code, the code is kept, a lemma gives an input
for which it fails, and the property is proved under its exact condition:

- Scan splits do not partition a search (`ArchiveScan.StemIsDropped`,
  `ArchiveScan.AdvanceMissesExactly`).
- Page strings do not always tell where a line ended (`PdfText.TwoTextsOnePage`,
  `PdfText.RunOnIsAmbiguous`, `PdfText.LinesComeBackExactly`).
- A comment in `redisCheck` says that a rejected request must not count; until its ZREM arrives it
  does (`RateLimiter.AwaitingRejectionCounts`, `RateLimiter.VerdictCounts`).
- Rollback effects are to compensate external writes if a later step aborts; they also run when
  COMMIT took effect and its answer was lost (`TransactionScope.LostAnswerUndoes`,
  `TransactionScope.CompensationIsWrongExactly`).
- A migration is then reported as rolled back although it is applied
  (`MigrationSession.LostAnswerIsApplied`, `MigrationSession.Session.Apply`).
- Header names of a CSV are not quoted (`CsvPrinter.SomeTablesAreLost`,
  `CsvPrinter.TableReadsBack`); both callers of `toCsv` pass records with fixed plain names, and
  those always come back (`CsvPrinter.RecordsComeBack`).
- A comment in `deriveKey` says that eviction drops the least recently used key; after a rotation
  of the secret it need not (`KeyCache.EvictedAfterRotation`). It does through a run if and only if no
  call overwrites an entry that is not the newest (`KeyCache.RecentThroughout`); what is evicted
  otherwise is stated too (`KeyCache.EveryRunIsRecent`).
- The limit of 20 events a minute is one of fixed windows, not of every minute
  (`TelemetrySender.FortyAtOnce`). Which windows keep the limit whatever is called, and which sends
  do, is stated exactly (`TelemetrySender.OpeningDecides`, `TelemetrySender.KeepsSlidingLimit`).

## Model

| member | source | states |
|---|---|---|
| ArchiveScan.Matching | scripts/exam-papers/archive.ts:222-254 | the rows a search of a slice has to find, each as often as the archive holds it |
| ArchiveScan.SplitSearchKeepsDisjoint | scripts/exam-papers/archive.ts:115-138 | the slices of a split are pairwise disjoint and inside the slice that was split; a row of that slice is in none of them if and only if the prefix was extended and the code stops at it or goes on with neither letter nor digit |
| ArchiveScan.SplitSpendsBudget | scripts/exam-papers/archive.ts:115-138 | a split costs exactly one unit of a bound made of year span and prefix length, so that splitting ends |
| ArchiveScan.RefusedIfTooNarrow | scripts/exam-papers/archive.ts:115-134 | a slice cannot be split if and only if it is of one year at most and its prefix does not end in % or has more than 12 characters |
| ArchiveScan.AdvanceSpendsBudget | scripts/exam-papers/archive.ts:222-264 | every turn of the loop that does not throw is one request and leaves a smaller bound |
| ArchiveScan.LimitedGoesOn | scripts/exam-papers/archive.ts:240-254 | a turn ends the scan if and only if its answer is limited and its slice is too narrow in that sense |
| ArchiveScan.ValidReplyIsWhole | scripts/exam-papers/archive.ts:60-63 | an answer that passes the length check holds every matching row once |
| ArchiveScan.AdvanceKeepsTidy | scripts/exam-papers/archive.ts:222-255 | after every valid answer, limited or not, the pending slices are disjoint and inside the root, every row collected is collected as often as the archive holds it and is found by no pending slice, and the expected count is that of the root |
| ArchiveScan.CountCheckIsCoverage | scripts/exam-papers/archive.ts:266-275 | the count check passes if and only if the rows collected are exactly the matching rows |
| ArchiveScan.AdvanceMissesExactly | scripts/exam-papers/archive.ts:240-254 | a row becomes unreachable in a turn if and only if that turn extends a prefix and drops it |
| ArchiveScan.CountCheckSeesEveryMiss | scripts/exam-papers/archive.ts:266-273 | with the worklist empty, the count check passes if and only if no row was missed |
| ArchiveScan.ScanArchive | scripts/exam-papers/archive.ts:217-279 | the loop ends for every archive and every pattern of limited answers, within a stated number of requests; a complete scan holds the matching rows exactly, a count mismatch a proper part of them, the other outcomes are an answer whose rows are not as many as it says, and a limited answer to a slice of one year at most whose prefix does not end in % or has more than 12 characters |
| ArchiveScan.InitialStateIsTidy | scripts/exam-papers/archive.ts:208-215 | a scan starts in a state with the properties every checkpoint keeps |
| ArchiveScan.StemIsDropped | scripts/exam-papers/archive.ts:134-137 | splitting CT3% loses the code CT3, whatever the archive answers |
| ScanRecovery.MergeAllRefreshes | scripts/exam-papers/archive.ts:245-253 | merging an answer keeps the old papers in place, refreshes url and title from the last find of their id, adds one paper for every other id found, and keeps ids unique |
| ScanRecovery.MergeIsIdempotent | scripts/exam-papers/archive.ts:245-258 | merging the same answer a second time changes nothing |
| ScanRecovery.MergeFound | scripts/exam-papers/archive.ts:220-253 | the loop with its byId map merges as specified |
| ScanRecovery.TurnAgain | scripts/exam-papers/archive.ts:255-260 | if the archive answers alike, repeating the turn of a checkpoint gives the same result whether or not the catalogue on disk is already one answer ahead |
| ScanRecovery.DoKeepsStep | scripts/exam-papers/archive.ts:182-260 | against an archive that answers the same search alike, every step of a process, and a crash between any two, keeps disk and process in step with the uninterrupted scan |
| ScanRecovery.InterruptionsChangeNothing | scripts/exam-papers/archive.ts:182-260 | against an archive that answers the same search alike, an interrupted and resumed scan ends with the very rows, expected count, request count and catalogue of the uninterrupted scan, in the same order |
| ScanRecovery.EveryScanCanFinish | scripts/exam-papers/archive.ts:182-278 | wherever an interrupted scan has got to, if the uninterrupted one finishes, further steps with the same answers bring this one to the same end, with checkpoint and catalogue on disk |
| ScanRecovery.RunKeepsTidy | scripts/exam-papers/archive.ts:182-260 | with any faithful answers, also different ones after a crash, checkpoint and process have the properties of a scan that never crashed and catalogue ids are unique |
| ScanRecovery.InterruptedScanIsCovered | scripts/exam-papers/archive.ts:182-275 | an interrupted and resumed scan passes the count check if and only if it holds every matching row once |
| ScanCatalogue.MergeAddsIds | scripts/exam-papers/archive.ts:245-253 | a merge keeps the papers that were there, in place and with their stored files, and adds the ids found and no others |
| ScanCatalogue.RunKeepsCatalogue | scripts/exam-papers/archive.ts:182-260 | whatever the archive answers and wherever a process crashes, the catalogue has all that the rows of the checkpoint link and nothing that no row of the scope links, and is never behind the checkpoint |
| ScanCatalogue.PassingScanIsWhole | scripts/exam-papers/archive.ts:182-275 | whatever the archive answers "limited" to, also differently after a crash: a scan that passes the count check ends with exactly the rows of its scope and exactly the ids of the old catalogue and of the papers these rows link |
| ScanCatalogue.PassingScansAgree | scripts/exam-papers/archive.ts:182-275 | any two scans that pass, interrupted or not and whatever was answered in each, end with the same rows, expected count and catalogue ids |
| MigrationCatalog.FindApplied | scripts/migration-catalog.ts:56-71 | a row is found if and only if one records the file, and it is one of those |
| MigrationCatalog.FoundIsFirst | scripts/migration-catalog.ts:63-70 | and it is the first of those |
| MigrationCatalog.SuffixIs | scripts/migration-catalog.ts:97-101 | a file is listed if and only if its name is something followed by .sql |
| MigrationCatalog.VersionIs | scripts/migration-catalog.ts:4-4 | a name has a version if and only if it is digits, an underscore, anything on one line, and .sql; the version is those digits |
| MigrationCatalog.AssertUniqueVersions | scripts/migration-catalog.ts:40-54 | the listing is accepted if and only if all names are valid and no two share a prefix; a refusal names the files at fault |
| MigrationCatalog.IdIsNotAVersion | scripts/migration-catalog.ts:17-23 | an identity is never a numeric prefix, and determines the file |
| MigrationCatalog.LookupIsUnambiguous | scripts/migration-catalog.ts:56-71 | with unique prefixes, a row with the name and the identity or prefix of a file is found by that file and no other |
| MigrationCatalog.AmbiguousRowsAreMixed | scripts/migration-catalog.ts:56-71 | two files of a catalogue find the same row if and only if it pairs the name of one with the identity or prefix of the other |
| MigrationCatalog.SortKeepsFiles | scripts/migration-catalog.ts:33-38 | sorting keeps every file as often as it was listed |
| MigrationCatalog.SortSorts | scripts/migration-catalog.ts:33-38 | after sorting no file stands behind one that it precedes by number and then by the locale |
| MigrationCatalog.SortsByNumber | scripts/migration-catalog.ts:33-38 | files stand in the order of their numbers, whatever the locale says; it decides between files of one number only |
| MigrationCatalog.SortedOrderIsUnique | scripts/migration-catalog.ts:33-38 | a catalogue has one sorted order |
| MigrationCatalog.ReadMigrationFiles | scripts/migration-catalog.ts:97-103 | the .sql files of a listing are returned sorted if and only if all names are valid and no two share a prefix |
| MigrationCatalog.ListingOrderDoesNotMatter | scripts/migration-catalog.ts:97-103 | in whatever order a directory is listed, either every runner refuses it or all get the same .sql files in the same order |
| MigrationCatalog.ChangedIsDifferent | scripts/migration-catalog.ts:85-95 | the files reported as changed are exactly those recorded with another checksum |
| MigrationRunner.AppliedIsOldOrLogged | scripts/run-migration.ts:263-278 | a file counts as applied if and only if it did at the start or its SQL was committed since |
| MigrationRunner.RunIsSound | scripts/run-migration.ts:186-278 | over any run the table is its rows at the start, with checksums only ever filled in, and one row per committed migration in order of commit; nothing is committed twice |
| MigrationRunner.CommittedExactlyWhenTracked | scripts/run-migration.ts:199-232 | over any number of runners, retries, crashes and lost sessions, the SQL of a file is committed once if its tracking row was added and never otherwise |
| MigrationRunner.EditsAreReported | scripts/run-migration.ts:141-146 | a file that a runner applied is reported as changed if and only if its checksum is no longer what it was then |
| MigrationRunner.CommitIsNext | scripts/run-migration.ts:205-214 | a runner that is behind the others finds its version key taken, so that a commit always is the next file to do |
| MigrationRunner.RunIsInOrder | scripts/run-migration.ts:263-278 | with --all runs only, what is committed is a prefix of what was pending at the start |
| MigrationRunner.AppliedStaysPrefix | scripts/run-migration.ts:263-278 | with --all runs only, an applied set that is a prefix of the catalogue stays one |
| MigrationRunner.LockPreventsDuplicateKeys | scripts/run-migration.ts:243-261 | while no session is lost at most one runner is past the lock, and no attempt meets a taken version key |
| MigrationRunner.LostSessionLetsTwoIn | scripts/run-migration.ts:243-261 | one lost session is enough for two runners to be past the lock with the same file: the second finds the key taken, and the file is committed once |
| MigrationRunner.CrashesFreeTheLock | scripts/run-migration.ts:243-244 | whatever has happened, once all runners have crashed the lock is free and table and history are as they were |
| MigrationSession.Session.Apply | scripts/run-migration.ts:199-231 | an application reports success if and only if the key is free and its last attempt commits; SQL and row are committed together or not at all; what is reported as rolled back is so if and only if the answer to COMMIT was not lost, and else is applied and not pending; and its steps are a run of the machine |
| MigrationSession.LastAttemptIs | scripts/run-migration.ts:201-222 | the last attempt is the first that meets no lock conflict, or else the fifth |
| MigrationSession.LostAnswerIsApplied | scripts/run-migration.ts:223-229 | a file whose COMMIT took effect without an answer is applied, and is not pending in the next run |
| MigrationSession.Session.BackfillChecksums | scripts/run-migration.ts:128-139 | a row whose checksum is null gets that of the first file to find its version, and no other row or field changes; the steps are a run of the machine |
| MigrationSession.Session.ApplyAll | scripts/run-migration.ts:278-278 | it succeeds if and only if every file has a free key and its last attempt commits; SQL and rows of exactly the files before the first that does not, and of that one if only the answer was lost, are added, in order; the steps are a run of the machine |
| MigrationSession.Session.Migrate | scripts/run-migration.ts:234-279 | one invocation succeeds if and only if every file it chose has a free key and its last attempt commits, and a target is pending; it commits exactly the chosen files up to the first that does not, that one included if only the answer was lost, fills in checksums, gives the lock back, and is a run of the machine |
| MigrationSession.SamePending | scripts/run-migration.ts:257-263 | filling in checksums does not change what is pending |
| MigrationSession.PendingIsFree | scripts/run-migration.ts:205-263 | a pending file of a catalogue finds its version key free, whatever was applied before it |
| MigrationSession.MigrateFrom | scripts/run-migration.ts:234-279 | from any table one --all invocation succeeds if and only if the last attempt for every pending file commits; it commits the pending files in order up to the first for which it does not, that one included if only the answer was lost, and exactly these become applied |
| TransactionScope.ScopedBody | src/database/pgsql.ts:45-61 | inside a scope every program of nested calls, savepoints, registrations, throws and catches does what its reference meaning says: writes of failed savepoints are taken back, effects are not |
| TransactionScope.OutermostCommits | src/database/pgsql.ts:50-78 | if the outermost transaction commits, every commit effect registered below it runs once, in order, after the commit, also when some fail, no rollback effect runs, and the call fails if an effect did |
| TransactionScope.OutermostAborts | src/database/pgsql.ts:64-69 | if the body throws or COMMIT is refused, its rollback effects run once in reverse, no commit effect runs and nothing is stored |
| TransactionScope.OutermostUnanswered | src/database/pgsql.ts:64-69 | if COMMIT takes effect and its answer is lost, the writes are stored, yet the rollback effects run and no commit effect does |
| TransactionScope.CompensationIsWrongExactly | src/database/pgsql.ts:33-36 | rollback effects run over writes that are stored if and only if the body completed and the answer to COMMIT was lost |
| TransactionScope.LostAnswerUndoes | src/database/pgsql.ts:33-69 | a program for which they do |
| TransactionScope.CaughtFailureKeepsEffects | src/database/pgsql.ts:33-43 | effects registered by a caught inner failure follow the outermost outcome |
| TransactionScope.EveryRunIsAccepted | src/database/pgsql.ts:33-78 | the trace of every program is accepted by a monitor that knows no programs: a deferred effect runs only after the outcome it waits for, commit effects after a commit and rollback effects otherwise, each once and in the order due, with nothing in between |
| TransactionScope.UnscopedBody | src/database/pgsql.ts:33-78 | outside a scope every program does what its reference meaning says: whether it throws, what happens in which order, what is stored, and what is written through the handle of an enclosing begin; a transaction stays stored though an enclosing begin is rolled back |
| TransactionScope.UnscopedEffectsRunAtOnce | src/database/pgsql.ts:39-43 | every commit effect registered outside a scope runs at once, each once and in program order, and no other effect does |
| TransactionScope.FailedEffectThrows | src/database/pgsql.ts:39-43 | if one of them fails the program throws, unless it catches, and reaches no other |
| TransactionScope.Client.RunCommitEffects | src/database/pgsql.ts:70-76 | the drain after a commit runs every effect in order and reports failures |
| TransactionScope.Client.RunRollbackEffects | src/database/pgsql.ts:65-67 | the drain after an abort runs every effect in reverse |
| TransactionScope.Client.Settle | src/database/pgsql.ts:59-78 | after the body of an outermost transaction the state is that of its outcome |
| TransactionScope.Client.WithDatabaseTransaction | src/database/pgsql.ts:50-78 | the imperative scope does what the interpreter says, nested calls included |
| TransactionScope.Client.BeginProxied | src/database/pgsql.ts:118-132 | begin inside a scope is a savepoint of its transaction, and outside a transaction of its own |
| TransactionScope.Client.Execute | src/database/pgsql.ts:33-78 | the client with its effect arrays runs every program as the interpreter does |
| RateLimiter.VerdictCounts | src/lib/rate-limiter.ts:32-51 | a call is admitted if and only if the admitted calls of its window and the rejections awaiting ZREM are fewer than the limit |
| RateLimiter.CheckKeepsExact | src/lib/rate-limiter.ts:36-54 | a MULTI block leaves in the sorted set the admitted calls and the rejections awaiting ZREM, and nothing else |
| RateLimiter.CheckKeepsLimit | src/lib/rate-limiter.ts:49-54 | a MULTI block leaves no window of the rule, wherever it lies, with more than limit admitted calls |
| RateLimiter.EveryRunIsExact | src/lib/rate-limiter.ts:27-71 | over every interleaving of MULTI blocks, late ZREMs and expiry the set is exact and no window is overfull |
| RateLimiter.AwaitingIsUnremoved | src/lib/rate-limiter.ts:49-54 | over every run a rejection counts as awaiting if and only if its ZREM has not come since |
| RateLimiter.ExpiryDropsNothingThatCounts | src/lib/rate-limiter.ts:43-43 | the key expires only when nothing in the set would count in any later window |
| RateLimiter.AwaitingRejectionCounts | src/lib/rate-limiter.ts:51-54 | a rejection whose ZREM is late gets a later call rejected although nothing admitted is left in its window |
| RateLimitStores.RemainingIsExact | src/lib/rate-limiter.ts:70-70 | after an admitted request exactly so many more as remain, made at once, are admitted |
| RateLimitStores.RetryAfterIsEnough | src/lib/rate-limiter.ts:56-67 | after a rejection the next request alone is admitted if and only if the oldest admitted one has left the window; retryAfter is the least number of whole seconds that is long enough |
| RateLimitStores.SlideDecides | src/lib/rate-limiter.ts:73-104 | deciding from the times kept is deciding from all admitted requests |
| RateLimitStores.SlideWindow | src/lib/rate-limiter.ts:78-103 | the body of memCheck slides a window as specified |
| RateLimitStores.MemoryStore.Check | src/lib/rate-limiter.ts:73-104 | memCheck answers what counting the admitted requests of the last window answers, for allowed, remaining and retryAfter |
| RateLimitStores.MemoryStore.Cleanup | src/lib/rate-limiter.ts:106-120 | a cleanup tick at any time changes no later decision for any key, and leaves no time older than the longest window and no empty entry |
| RateLimitStores.Exchange | src/lib/rate-limiter.ts:34-70 | the commands of redisCheck, run without interruption, slide the sorted set as specified and read the verdict off it |
| RateLimitStores.RedisKey.Check | src/lib/rate-limiter.ts:27-71 | redisCheck run one at a time answers what counting the admitted requests of the last window answers |
| RateLimitStores.RedisKey.Expire | src/lib/rate-limiter.ts:43-43 | the time to live drops nothing that could still count |
| PdfText.BreaksBecomeNewlines | scripts/dev/seed-study-map.ts:307-307 | lines with any of the three line breaks between them are read as these lines |
| PdfText.OthersAreBlank | scripts/dev/seed-study-map.ts:307-307 | characters that are neither printable ASCII nor a newline become blanks, one for one |
| PdfText.MarkerIs | scripts/dev/seed-study-map.ts:309-309 | a line is a page marker if and only if it is [Page n] with a number that does not start in 0, and blanks |
| PdfText.SplitLinesJoin | scripts/dev/seed-study-map.ts:312-312 | splitting a text into lines and joining them gives the text |
| PdfText.JoinLinesSplit | scripts/dev/seed-study-map.ts:312-312 | joining lines and splitting the text gives the lines |
| PdfText.SectionsConcatenate | scripts/dev/seed-study-map.ts:308-309 | the sections put together are the text |
| PdfText.SectionsStartAtMarkers | scripts/dev/seed-study-map.ts:308-309 | sections are cut at every page marker after the first line and nowhere else |
| PdfText.InkIsKept | scripts/dev/seed-study-map.ts:308-311 | the kept sections hold every line of the text with something on it, each as often as it is there and in order; none of them is blank, unless the whole text is, which is one empty page |
| PdfText.KeptAre | scripts/dev/seed-study-map.ts:308-310 | the kept sections are the sections with a character other than a blank, all of them, whole and in order |
| PdfText.PiecesJoin | scripts/dev/seed-study-map.ts:312-312 | the pieces of a line joined are the line, and all but the last are full |
| PdfText.PageJoin | scripts/dev/seed-study-map.ts:311-313 | the strings of a page joined are the lines of its section joined |
| PdfText.PagesArePrintable | scripts/dev/seed-study-map.ts:307-313 | every page string is printable ASCII, so that characters are bytes |
| PdfText.LinesComeBackExactly | scripts/dev/seed-study-map.ts:311-313 | the strings of a page give its lines back if and only if no line that fills its last string is followed by a line that is not empty |
| PdfText.RunOnIsAmbiguous | scripts/dev/seed-study-map.ts:311-313 | where that fails no reader can do better: two different sections have the same page |
| PdfText.TwoTextsOnePage | scripts/dev/seed-study-map.ts:306-313 | two texts with different sections and the same pages, hence the same file |
| PdfTemplate.ReadsBack | scripts/dev/seed-study-map.ts:315-341 | text with numerals in it, printed, is read back |
| PdfWriter.AppendPages | scripts/dev/seed-study-map.ts:320-328 | the loop over the pages pushes the objects of the document |
| PdfWriter.WriteObjects | scripts/dev/seed-study-map.ts:329-334 | the loop over the objects appends them and notes the offset at which each begins |
| PdfWriter.WriteEntries | scripts/dev/seed-study-map.ts:336-341 | the entries of the table are those of the offsets |
| PdfWriter.WriteFile | scripts/dev/seed-study-map.ts:329-342 | the whole file, from objects, offsets, table and trailer |
| PdfWriter.TinyPdf | scripts/dev/seed-study-map.ts:306-343 | the file that tinyPdf writes for a text |
| PdfRoundTrip.ReadsString | scripts/dev/seed-study-map.ts:314-314 | unescaping undoes escaping, whatever follows (section 7.3.4.2) |
| PdfRoundTrip.ObjectPlace | scripts/dev/seed-study-map.ts:331-334 | at the offset noted for object n stands n 0 obj and its contents |
| PdfRoundTrip.ObjectIsFound | scripts/dev/seed-study-map.ts:331-341 | following entry n of the table lands on object n (section 7.5.4) |
| PdfRoundTrip.XrefIsRead | scripts/dev/seed-study-map.ts:335-341 | following startxref lands on the table, which is read whole with the trailer (section 7.5.5) |
| PdfRoundTrip.ContentReads | scripts/dev/seed-study-map.ts:323-327 | /Length is the byte count of the stream: endstream follows after that many bytes (section 7.3.8) |
| PdfRoundTrip.HeightFits | scripts/dev/seed-study-map.ts:322-326 | a page is 842 high, or as high as its lines need: the first string is 52 below the top and the last at least 70 above the bottom |
| PdfRoundTrip.PageReads | scripts/dev/seed-study-map.ts:324-327 | /Parent, /F1 and /Contents of a page name the right objects |
| PdfRoundTrip.KidsRead | scripts/dev/seed-study-map.ts:315-319 | /Pages, /Kids and /Count of the page tree are right |
| PdfRoundTrip.DocumentIsRead | scripts/dev/seed-study-map.ts:315-328 | following all references from the catalogue gives the strings of all pages |
| PdfRoundTrip.TinyPdfRoundTrip | scripts/dev/seed-study-map.ts:306-343 | for every text, reading the file gives the page strings back if and only if every offset has at most ten digits |
| PdfRoundTrip.SectionsComeBack | scripts/dev/seed-study-map.ts:306-343 | for every text whose table fits, joining the page strings read from the file gives the lines of all kept sections if and only if no line runs on |
| PdfSize.PagesAreSmall | scripts/dev/seed-study-map.ts:306-313 | the pages of a text cost at most a constant per character |
| PdfSize.SmallTextFits | scripts/dev/seed-study-map.ts:329-341 | every offset in the file of a text of up to ten million characters has at most ten digits |
| PdfSize.SmallFileFits | scripts/dev/seed-study-map.ts:329-341 | so has every offset in a file of up to ten thousand million bytes |
| PdfSize.TextComesBack | scripts/dev/seed-study-map.ts:306-343 | for every text of up to ten million characters, and every larger one whose file is no larger than ten thousand million bytes, reading the file gives back the strings of all pages, and these, joined, are the lines of all kept sections if and only if no line runs on |
| QuestionHeadings.Follow | scripts/exam-papers/pdf.ts:284-288 | the candidates taken lie from the start on |
| QuestionHeadings.FollowIsChain | scripts/exam-papers/pdf.ts:284-288 | the greedy run counts up by one in document order |
| QuestionHeadings.FollowIsLongest | scripts/exam-papers/pdf.ts:284-288 | no chain from the same start and number is longer than the greedy one |
| QuestionHeadings.RunIsLongest | scripts/exam-papers/pdf.ts:277-290 | the run from a 1 is a longest chain 1, 2, 3, ... from there |
| QuestionHeadings.EarlierRunIsNoShorter | scripts/exam-papers/pdf.ts:277-297 | an earlier 1 never gives a shorter run than a later one |
| QuestionHeadings.RunsMerge | scripts/exam-papers/pdf.ts:299-307 | two runs that share a heading are the same from there on |
| QuestionHeadings.GreedyRun | scripts/exam-papers/pdf.ts:283-289 | the loop that grows a run gives the greedy run |
| QuestionHeadings.PlausibleRuns | scripts/exam-papers/pdf.ts:277-293 | the runs of more than one heading, all of them, by their starts |
| QuestionHeadings.LongestRun | scripts/exam-papers/pdf.ts:294-297 | the reduce keeps the run from the first 1 |
| QuestionHeadings.RivalLength | scripts/exam-papers/pdf.ts:299-307 | the length of the longest run at least half as long that shares no heading with the best one |
| QuestionHeadings.FindNumericHeadings | scripts/exam-papers/pdf.ts:259-310 | the headings are the run from the first 1 and a longest chain of the whole document, or none when no chain has two; the rival length is that of the longest competing run |
| QuestionHeadings.BuildQuestion | scripts/exam-papers/pdf.ts:312-324 | a question is the lines up to the next heading less trailing page furniture, and at least the heading line |
| QuestionHeadings.BuildQuestions | scripts/exam-papers/pdf.ts:97-103 | every question is the lines from its heading to the next, less trailing page furniture |
| QuestionHeadings.LinesGoToOneQuestion | scripts/exam-papers/pdf.ts:97-103 | no line is in two questions, and from the first heading on only page furniture is in none |
| QuestionHeadings.ParsePaper | scripts/exam-papers/pdf.ts:96-103 | from lines that may be headings to questions: explicit headings if there are any, else the best numbered run; the questions are built from them and each line goes to one at most |
| CsvPrinter.CellReadsAs | scripts/perf/audit-pages.ts:741-748 | a printed cell is read back whatever it holds and whatever ends it; a missing value as the empty text |
| CsvPrinter.PlainTextsStay | scripts/perf/audit-pages.ts:743-748 | a text is printed as it is if and only if it has no quote, comma or line feed |
| CsvPrinter.LinesRead | scripts/perf/audit-pages.ts:720-726 | the printed rows are read back as the texts of their cells |
| CsvPrinter.NotItsOwnQuoting | scripts/perf/audit-pages.ts:717-719 | no header name in front of a separator is its own quoted form |
| CsvPrinter.HeaderReadsBackIfPlain | scripts/perf/audit-pages.ts:717-719 | a header that is read back has names without quotes, commas and line feeds only |
| CsvPrinter.TableReadsBack | scripts/perf/audit-pages.ts:715-727 | reading a printed table gives header and cells back if and only if there is a column and no header name has a quote, a comma or a line feed |
| CsvPrinter.RecordsComeBack | scripts/perf/audit-pages.ts:230-231 | records with properties named by letters and digits, as both callers pass, come back whatever their values |
| CsvPrinter.SomeTablesAreLost | scripts/perf/audit-pages.ts:715-727 | objects with a comma in a property name, and objects without properties, do not come back |
| PaperLibrary.PdfStarts | scripts/exam-papers/library.ts:359-364 | a PDF is what starts with %PDF- |
| PaperLibrary.Library.VerifyLocal | scripts/exam-papers/library.ts:400-414 | a paper is verified if and only if its file is a PDF with the recorded hash |
| PaperLibrary.Library.StorePdf | scripts/exam-papers/library.ts:366-398 | a file is written once, the same contents are accepted again; other contents are refused and then nothing changes; in a library of PDFs, which it stays, what is stored verifies and what verified still does |
| PaperLibrary.Library.SaveCatalogue | scripts/exam-papers/library.ts:753-799 | the duplicate check passes if and only if ids are unique |
| PaperLibrary.Library.ExistingIs | scripts/exam-papers/library.ts:447-455 | the paper that a file belongs to is the one of its id or, only if there is none, the only one of its filename |
| PaperLibrary.Library.ImportOne | scripts/exam-papers/library.ts:427-478 | a file goes to the paper of its id, else to the only one of its filename, else to a new one; exactly when it is skipped |
| PaperLibrary.Library.ImportPapers | scripts/exam-papers/library.ts:416-481 | stored files stay, no paper is lost, ids stay unique, what verified still does, new papers verify; every file not reported as skipped is in the library, and every file that is has a reason: no paper in its name, no PDF, a disk that cannot be written, its contents stored already, or other contents stored for its paper |
| PaperLibrary.Library.DownloadOne | scripts/exam-papers/archive.ts:288-305 | a download fails if and only if the answer is no PDF response or cannot be stored, so never in the duplicate check; then nothing changes, and otherwise the answer is stored |
| PaperLibrary.Library.DownloadSelected | scripts/exam-papers/archive.ts:280-310 | stored files stay and what verified still does; a run fails if and only if it comes to a paper with a link that does not verify and whose answer is no PDF response or cannot be stored; all selected papers before that one, or all if there is none, verify or have no link |
| PaperLibrary.Library.Selected | scripts/exam-papers/library.ts:310-325 | the papers selected are all those that are wanted, each once |
| PaperLibrary.Library.MergeScan | scripts/exam-papers/archive.ts:245-253 | every paper found is listed with the url and title it was last found with, the others keep theirs, nothing added claims to be stored, and ids stay unique |
| PaperLibrary.Library.Perform | scripts/exam-papers/library.ts:219-230 | after any one command the duplicate check of saving passes; a scan lists what it found, an import takes every file in or has a reason not to, a download fetches all that is wanted or comes to a paper it cannot fetch |
| PaperLibrary.Library.PerformAll | scripts/exam-papers/library.ts:366-481 | over any sequence of scans, imports and downloads no stored byte changes, no paper is lost, ids stay unique, every save passes, and what verified still does |
| PaperLibrary.NewLibrary | scripts/exam-papers/library.ts:366-481 | from an empty library, after any sequence, every paper with a path and a hash verifies |
| ArchiveBridge.OldestWaiting | scripts/exam-papers/bridge.ts:161-161 | the job found is undelivered and no undelivered one is older |
| ArchiveBridge.DoKeepsTable | scripts/exam-papers/bridge.ts:131-191 | every step keeps: a job is in the table as long as its timer is set and its response unwritten, an open response has its job there, and no exception escapes |
| ArchiveBridge.DoKeepsOrder | scripts/exam-papers/bridge.ts:156-170 | every step keeps: jobs are handed out in the order they came, so that none is handed out twice |
| ArchiveBridge.DoKeepsAnswers | scripts/exam-papers/bridge.ts:171-190 | every step keeps: an answer is the body of the one post taken for that job, which was handed out before |
| ArchiveBridge.EveryRunIsSound | scripts/exam-papers/bridge.ts:131-191 | all of this after every step of every interleaving of requests, polls, results, timeouts and disconnects |
| ArchiveBridge.AnswerIsFinal | scripts/exam-papers/bridge.ts:139-148 | what a requester was sent is never replaced, and one that left is sent nothing |
| ArchiveBridge.PollTakesOldest | scripts/exam-papers/bridge.ts:161-168 | a poll is given the oldest undelivered job, and nothing only if there is none |
| ArchiveBridge.JobsLeave | scripts/exam-papers/bridge.ts:139-187 | a job leaves the table, and its timer is cleared, when it is answered, when it times out and when its requester goes |
| ArchiveBridge.JobsNeverReturn | scripts/exam-papers/bridge.ts:131-191 | a job that left the table is in no later table and handed to no later poll |
| ArchiveBridge.WaitingHasATimer | scripts/exam-papers/bridge.ts:139-148 | a requester without an answer that is still there has its timer set, which sends the 504 |
| ArchiveBridge.EveryRequestCanBeAnswered | scripts/exam-papers/bridge.ts:131-191 | after any run a new request is handed out by polls alone, and what is then posted for it is what the requester gets |
| ArchiveBridge.LatePostIsRefused | scripts/exam-papers/bridge.ts:183-189 | of several posts for one job the first to end is taken, and a post that ends after an answer or timeout is refused and changes nothing else |
| ArchiveBridge.Bridge.Request | scripts/exam-papers/bridge.ts:137-154 | the handler does the step of the machine |
| ArchiveBridge.Bridge.Next | scripts/exam-papers/bridge.ts:161-169 | the handler does the step of the machine, and hands out the job as it was requested |
| ArchiveBridge.Bridge.StartResult | scripts/exam-papers/bridge.ts:176-182 | up to its body, a result is read only for a delivered job |
| ArchiveBridge.Bridge.EndResult | scripts/exam-papers/bridge.ts:183-189 | from its body on, the handler does the step of the machine |
| ArchiveBridge.Bridge.Timeout | scripts/exam-papers/bridge.ts:139-148 | the timer never writes to a response that was written |
| ArchiveBridge.Bridge.Close | scripts/exam-papers/bridge.ts:150-153 | the listener does the step of the machine |
| KeyCache.UseKeepsValid | src/lib/crypto.ts:19-35 | a call keeps the cache at 1000 entries or fewer, each user once, each key that of its secret and user |
| KeyCache.Cache.DeriveKey | src/lib/crypto.ts:19-35 | whatever was cached under whatever secret, the key is that of the current secret and the user; without a secret the call throws and changes nothing |
| KeyCache.ByLastUseIsDistinct | src/lib/crypto.ts:22-27 | recency lists every caller once |
| KeyCache.ByLastUseIsOrdered | src/lib/crypto.ts:22-27 | and puts a caller before those who called after its last call |
| KeyCache.RecentAfter | src/lib/crypto.ts:23-33 | what one more call does to the users who asked last |
| KeyCache.UseKeepsRecent | src/lib/crypto.ts:22-33 | a call leaves the cache with the users who asked last in recency order if and only if it does not find an old secret's entry that is not the newest |
| KeyCache.OneSecretIsLeastRecentlyUsed | src/lib/crypto.ts:13-35 | with one secret the cache is, after any run, the last 1000 users or fewer in recency order, and evicts the least recently used |
| KeyCache.EveryRunIsRecent | src/lib/crypto.ts:13-35 | after any run, under whatever secrets, the cache is the last 1000 users or fewer in recency order, if the calls that overwrote an entry of an old secret, not the newest, are not counted as use |
| KeyCache.RecentThroughout | src/lib/crypto.ts:13-35 | through a run over any rotations the cache is that of the users who asked last, in recency order, if and only if no call finds, under an old secret, an entry that is not the newest |
| KeyCache.RotationEvictsNewest | src/lib/crypto.ts:22-33 | in a full cache the user at the head, calling under a new secret, is evicted by the next new user |
| KeyCache.EvictedAfterRotation | src/lib/crypto.ts:19-35 | a run in which the user who asked last but one is evicted |
| SampleSelection.StartIs | scripts/generate-marker-bench-urls.ts:259-260 | a stratum starts at its share of the objects, rounded down |
| SampleSelection.StrataMeet | scripts/generate-marker-bench-urls.ts:259-261 | the strata lie end to end from first to last object, and their sizes differ by at most one |
| SampleSelection.StratumOf | scripts/generate-marker-bench-urls.ts:259-261 | every object is in a stratum |
| SampleSelection.PositionsGrow | scripts/generate-marker-bench-urls.ts:276-276 | balanced positions strictly increase |
| SampleSelection.PositionEnds | scripts/generate-marker-bench-urls.ts:276-276 | the first is the first object and the last the last |
| SampleSelection.PositionIsNearest | scripts/generate-marker-bench-urls.ts:276-276 | no position is further than half an object from its share |
| SampleSelection.Lowest | scripts/generate-marker-bench-urls.ts:262-265 | the pick of a stratum is the first of the lowest score |
| SampleSelection.StratifiedSelection | scripts/generate-marker-bench-urls.ts:255-268 | limit distinct objects, one of each stratum, the lowest score in it |
| SampleSelection.BalancedSelection | scripts/generate-marker-bench-urls.ts:270-282 | limit distinct objects at even positions, first and last among them: the filter for used positions never drops one |
| SampleSelection.Select | scripts/generate-marker-bench-urls.ts:251-282 | whatever the strategy, as many objects as asked for or all there are, each once, and chosen as that strategy says |
| MultipartCopy.Store.CompleteUpload | scripts/cloudflare/migrate-storage-to-r2.ts:213-220 | the object becomes the listed parts in the order of the list |
| MultipartCopy.SendParts | scripts/cloudflare/migrate-storage-to-r2.ts:169-200 | whatever the chunks, the parts sent and the buffer are the bytes read, the parts at least partSize long and numbered from 1 |
| MultipartCopy.CutIsWellCut | scripts/cloudflare/migrate-storage-to-r2.ts:202-211 | with the rest sent, the parts are the source, all but the last are at least partSize long and the last is not empty |
| MultipartCopy.Transfer | scripts/cloudflare/migrate-storage-to-r2.ts:168-220 | the object is there, whole, if and only if the request that makes it took effect, and is reported if and only if that request was answered |
| MultipartCopy.CopyObject | scripts/cloudflare/migrate-storage-to-r2.ts:142-235 | for every chunking and every failure: the copy is reported if and only if the source can be read and every request is answered; the object is the whole source if the put or the completion of the upload took effect and else is as it was, so that a failure before leaves no new object; a source that never fills a part takes the single put; an upload stays behind if and only if the answer to its creation was lost, or its abort failed and its completion did not take effect |
| TelemetrySender.DoKeepsSound | src/lib/telemetry.ts:137-192 | every call keeps: at most 200 sends in client mode, at most 20 per window, windows at least 60 s apart, the same error at least 60 s apart |
| TelemetrySender.EveryRunIsSound | src/lib/telemetry.ts:137-192 | so does every run of calls with a clock that does not go back |
| TelemetrySender.FortyAMinute | src/lib/telemetry.ts:153-158 | any 41 sends in a row take more than 60 s |
| TelemetrySender.SessionLimits | src/lib/telemetry.ts:148-167 | in client mode at most 200 sends ever happen, and two sends of the same error name and route are at least 60 s apart |
| TelemetrySender.SendsExactly | src/lib/telemetry.ts:137-175 | a call sends if and only if it is configured, its event is known and of at most 1024 bytes, every earlier send has ended, fewer than 20 were sent in the window that is open, and, in client mode, fewer than 200 in all and the same error not within the last 60 s |
| TelemetrySender.NeverTwoInFlight | src/lib/telemetry.ts:147-190 | while a send is in flight nothing but its end changes anything |
| TelemetrySender.FortyAtOnce | src/lib/telemetry.ts:153-167 | in a session that begins at any time, 40 sends within two milliseconds can happen, because a refused error opened a window |
| TelemetrySender.KeepsSlidingLimit | src/lib/telemetry.ts:153-158 | a send leaves at most 20 sends in the minute that ends with it if and only if the count of its window and the sends of earlier windows in that minute were fewer than 20 |
| TelemetrySender.OpeningDecides | src/lib/telemetry.ts:148-158 | when a window opens, its sends keep every minute at 20 or fewer, whatever calls come in the minute from then on, if and only if the sends of the minute before leave room for all the window may see: 20, or what is left of the 200 |
| TelemetrySender.Sender.Call | src/lib/telemetry.ts:137-175 | a call up to its fetch changes the closure as specified, and fetches only when none is in flight |
| TelemetrySender.Sender.Finish | src/lib/telemetry.ts:188-191 | the end of a fetch changes the closure as specified |

## Left out

- ArchiveScan.Matching: years are integers; the script keeps them as strings, and `String(mid)` of a year below 1000 would lose zeros that the checkpoint's format asks for.
- ArchiveScan.ScanArchive: fetching the year range of a new scan, the checks on the scope and on the checkpoint's JSON, and the `complete` flag and `scannedAt` date of the catalogue.
- ScanRecovery.InterruptionsChangeNothing: a run with `--fresh` in between, which discards the checkpoint; that the request count and the order of rows and papers are the same presumes that the archive answers the same search alike (`ScanCatalogue.PassingScansAgree` does not presume it).
- ScanRecovery.TurnAgain: answers that differ when a search is repeated; `ScanRecovery.RunKeepsTidy` and `ScanCatalogue` treat those.
- ScanRecovery.DoKeepsStep: the same.
- ScanCatalogue.PassingScanIsWhole: which of several links of one id gave a paper its url and title.
- ScanRecovery.MergeFound: parsing of links; a link that does not parse ends the run like any other throw.
- MigrationCatalog.SortSorts: the locale's comparison is any strict total order, and prefixes are compared as whole numbers, not as doubles.
- MigrationRunner.RunIsSound: `--dry-run`, `--status`, the order in which rows are selected, and errors of the checksum update; the delays between attempts have no time.
- MigrationSession.Session.Migrate: creating the tracking table, and waiting for the lock, which the machine has and one session alone does not need.
- `rollbackBreakingChanges`: matches of regular expressions only.
- TransactionScope.Client.Execute: bodies that run parts at the same time, a COMMIT that is unanswered because it is still running, effects that open transactions themselves, and SQL errors that abort a transaction of PostgreSQL although the body catches them.
- TransactionScope.Client.WithDatabaseTransaction: creation of the client and its options.
- RateLimiter.EveryRunIsExact: clocks of instances that disagree, so that timestamps decrease in transaction order; the time to live of Redis runs on the same clock.
- RateLimitStores.RetryAfterIsEnough: a limit of 0, for which no wait is enough.
- RateLimitStores.MemoryStore.Check: the choice of store and the fail-closed rules in `checkRateLimit`; the fallback limits each process by itself.
- PdfText.PagesArePrintable: a text is a sequence of characters; one outside the basic plane is two code units in JavaScript and becomes two blanks there.
- PdfSize.TextComesBack: texts of more than ten million characters whose file is larger than ten thousand million bytes; the exact condition is in `PdfRoundTrip.TinyPdfRoundTrip`.
- PdfRoundTrip.TinyPdfRoundTrip: the reader knows the dictionaries that tinyPdf writes and the three escapes it uses, not PDF at large.
- QuestionHeadings.FindNumericHeadings: the expressions that find candidates and explicit headings, marks and warnings are not modelled; the lines they find are given.
- CsvPrinter.TableReadsBack: `String` and `JSON.stringify` of values, and property names that look like indexes, which `Object.keys` lists first.
- PaperLibrary.Library.StorePdf: paths, filenames and hashes are functions; writing is atomic and either succeeds or not; `safePath` refuses no path that a canonical filename gives.
- PaperLibrary.Library.PerformAll: files put into the library by other means that are no PDFs, and a process that ends between storing a file and saving the catalogue, after which the file stays and the paper does not name it.
- PaperLibrary.Library.ImportPapers: walking the directory, and symbolic links.
- PaperLibrary.Library.DownloadSelected: the counts that are only logged, and the delay between downloads.
- Extraction to JSON, text and Markdown, filters and rules of the library.
- ArchiveBridge.EveryRunIsSound: checks of host, origin and job, the other routes, and requests that never get registered; ids are unique, and writing to a response whose client has gone is dropped.
- KeyCache.Cache.DeriveKey: PBKDF2 and AES-GCM.
- SampleSelection.Select: listing, filtering and sorting of objects; ratios are exact where the script rounds doubles, and the hash of a key is any number.
- MultipartCopy.CopyObject: other writers to the bucket, retries inside the client, ETags, and the limits that a store puts on part sizes and counts.
- TelemetrySender.DoKeepsSound: parsing of events and endpoints, the abort after two seconds, and the answer's status.
- Network, database, object store, Redis and queue clients; authentication, email, logging, locale data and user interface.
