# backupmgr decision logic, in Dafny

This project models and verifies the decision logic of `backupmgr`, a backup
scheduler that drives backends such as tarsnap:

- **Scheduling** (`backup.py`): when a backup is next due, given its timespec
  of weekday, WEEKLY and MONTHLY tokens and the time it last ran. This covers
  `Backup.should_run`, `perform` (a short-circuit AND over the backends),
  `get_all_archives` (with its ownership check), and the run-state bookkeeping
  of `BackupSet`.
- **Retention** (`pruning_engine.py`): the greedy newest-first pass. It keeps
  fresh archives and daily, weekly and monthly representatives under quotas,
  and returns everything else as prunable.
- **Bucketing** (`time_utilities.py`): the start of an instant's day, of its
  Monday-based week and of its month.
- **Archive specifiers** (`archive_specifiers.py`): the ordinal and timestamp
  predicates, the `evaluate` rules, and the dispatch of the abstract base
  class over the set of concrete types.
- **Configuration** (`configuration.py`, an older revision with its own token
  constants):
  - `prefix_match`, `validate_timespec` and `validate_paths`;
  - `ConfiguredBackup.should_run`;
  - the checks `parse_backup` applies;
  - the duplicate-name check;
  - the run-state map of `Config`.
- **Backend registry** (`backend_types.py`): name-to-class registration that
  rejects collisions, lookup, registration at class definition, and the base
  backend's constructor and `str`.

Time is a whole number of seconds since the epoch. The calendar is the
proleptic Gregorian one. Weekdays are numbered from Monday = 0, so day number
`n` has weekday `(n + 3) % 7`. Scheduling works in a local zone given as a
fixed offset `zone` (wall clock = instant + zone). Pruning buckets are taken in
UTC, as archive datetimes are UTC. The clock is never read: every operation
that reads it in the source takes `now` as a parameter.

Modules: `Wrappers`, `Calendar`, `TimeUtilities`, `Schedule` and `Backups`
(backup.py), `Pruning` and `PruningProperties`, `ArchiveSpecifiers`,
`BackendTypes`, and `ConfigValidation` and `Configuration` (configuration.py).

## Model

| member | source | states |
|---|---|---|
| TimeUtilities.Day | backupmgr/time_utilities.py:13-14 | the day bucket is a whole number of days and lies in `(t - 1 day, t]` |
| TimeUtilities.DayIsMidnight | backupmgr/time_utilities.py:13-14 | the day bucket has `t`'s civil date with hour, minute and second zero |
| TimeUtilities.Week | backupmgr/time_utilities.py:16-19 | the week bucket is a midnight at most `t` and less than 7 days before it |
| TimeUtilities.WeekIsMondayMidnight | backupmgr/time_utilities.py:16-19 | the week bucket falls on a Monday at 00:00:00 |
| TimeUtilities.WeekIsFloor | backupmgr/time_utilities.py:16-19 | the week bucket is midnight of `t`'s date minus its weekday |
| TimeUtilities.MonthIsFirstOfMonth | backupmgr/time_utilities.py:21-22 | the month bucket is 00:00 on day 1 of `t`'s year and month, at most `t`, and `t` is within that month |
| TimeUtilities.DayIdempotent | backupmgr/time_utilities.py:13-14 | `day(day(t)) == day(t)` |
| TimeUtilities.WeekIdempotent | backupmgr/time_utilities.py:16-19 | `week(week(t)) == week(t)` |
| TimeUtilities.MonthIdempotent | backupmgr/time_utilities.py:21-22 | `month(month(t)) == month(t)` |
| TimeUtilities.BucketsOrdered | backupmgr/time_utilities.py:13-22 | the week and month buckets are no later than the day bucket |
| TimeUtilities.BucketsNest | backupmgr/time_utilities.py:13-22 | instants with the same day bucket have the same week and month buckets |
| Schedule.NextFirstOfMonth | backupmgr/backup.py:37-42 | day 1 of the month after (y, m) is day 1 of (y, m) plus the length of month m |
| Schedule.MonthlyCandidate | backupmgr/backup.py:37-42 | MONTHLY's candidate; its meaning is stated by `MonthlyCandidateSpec` |
| Schedule.WeekdayCandidate | backupmgr/backup.py:45-54 | a weekday's candidate; its meaning is stated by `WeekdayCandidateSpec` |
| Schedule.Candidate | backupmgr/backup.py:35-57 | one timespec entry's candidate; its meaning is stated by `CandidateBounds`, `WeeklyIsNextMonday` and the two lemmas above |
| Schedule.NextDueRun | backupmgr/backup.py:34-58 | none for an empty timespec (`min` raises); otherwise one entry's candidate and no later than any entry's candidate |
| Schedule.WeekdayCandidateSpec | backupmgr/backup.py:45-54 | the candidate of weekday W is local midnight of the first date with weekday W strictly after `since`'s date; it lies in `(since, since + 7 days]` |
| Schedule.WeekdayOnOrAfterSpec | backupmgr/backup.py:49-54 | the first day with weekday W from a day on is less than a week ahead, and no day before it has weekday W |
| Schedule.WeeklyIsNextMonday | backupmgr/backup.py:43-44 | WEEKLY's candidate equals MONDAY's: the first Monday midnight after `since`'s date |
| Schedule.MonthlyCandidateSpec | backupmgr/backup.py:37-42 | MONTHLY's candidate is local midnight on day 1 of the next month, lies in `(since, since + 31 days]`, and no first-of-month midnight after `since` is earlier |
| Schedule.CandidateBounds | backupmgr/backup.py:35-57 | every token's candidate is strictly after `since` and at most 31 days later |
| Schedule.NextDueRunBounds | backupmgr/backup.py:58 | a non-empty timespec is due strictly after `since` and at most 31 days later |
| Schedule.NextDueRunIsLeastCandidate | backupmgr/backup.py:58 | an entry whose candidate is least gives the due time |
| Schedule.NextDueRunOfSet | backupmgr/backup.py:58 | the due time depends only on the set of tokens, not on order or repetition |
| Schedule.MondayRanToday | backupmgr/test/test_backup.py:19-23 | `[MONDAY]` run at Monday 2014-11-17 is next due 2014-11-24 |
| Schedule.MonthlyRanLast | backupmgr/test/test_backup.py:74-78 | `[MONTHLY]` run on 2014-11-30 is next due 2014-12-01 |
| Schedule.MonthlyRollsOver | backupmgr/backup.py:37-42 | `[MONTHLY]` run on 2014-12-01 is next due 2015-01-01 |
| Schedule.WeekdaysFromNovember1 | backupmgr/test/test_backup.py:84-88 | from 2014-11-01, WEEKLY's candidate is 2014-11-03 and FRIDAY's is 2014-11-07 |
| Schedule.ComplexRanFirst | backupmgr/test/test_backup.py:84-88 | `[MONTHLY, WEEKLY, FRIDAY]` run on 2014-11-01 is next due 2014-11-03 |
| Backups.Backup.constructor | backupmgr/backup.py:66-71 | the backup holds the given name, paths, backup name, timespec and backends |
| Backups.Backup.ShouldRun | backupmgr/backup.py:73-75 | due iff the next due time after the last run is strictly before `now` (none for an empty timespec); due implies `lastRun < now`; always due more than 31 days after the last run |
| Backups.NotDueAtOwnRunTime | backupmgr/backup.py:73-75 | `should_run(t, t)` is false |
| Backups.FirstFailure | backupmgr/backup.py:79-80 | the index of the first backend whose run fails: every earlier run succeeds |
| Backups.Backup.Perform | backupmgr/backup.py:77-81 | the result is true iff every backend succeeds; the backends invoked are all of them on success, and otherwise those up to and including the first failure |
| Backups.Backup.Owns | backupmgr/backup.py:87-89 | true iff every requested backend is one of the backup's own |
| Backups.Listing | backupmgr/backup.py:91-101 | the listing of the requested backends; its meaning is stated by `ListingSpec` |
| Backups.ListingSpec | backupmgr/backup.py:91-101 | the listing fails iff a token map is given and misses a requested backend; otherwise it gives one pair per requested backend, in order, listed with its token |
| Backups.Backup.ListArchives | backupmgr/backup.py:91-101 | the listing loop builds exactly the listing |
| Backups.Backup.GetAllArchives | backupmgr/backup.py:83-101 | fails on a backend the backup does not own; otherwise lists the requested backends, all owned ones by default |
| Backups.LastRun | backupmgr/backup.py:127 | the recorded run time, or 0 when the name is absent |
| Backups.DueAmong | backupmgr/backup.py:137-140 | none exactly when some backup's timespec is empty; otherwise holds every due backup and only due ones, and no more entries than the input |
| Backups.DueAmongInOrder | backupmgr/backup.py:137-140 | the due list is the sub-sequence of the configured backups at exactly the due positions, in configured order |
| Backups.DueAmongNoneExtends | backupmgr/backup.py:137-140 | once a prefix contains an empty timespec, every extension fails too |
| Backups.BackupSet.constructor | backupmgr/backup.py:112-118 | the set holds the given state, backups, modification times and `now` |
| Backups.BackupSet.StateAfterBackups | backupmgr/backup.py:120-124 | the new state has the old keys plus the given names; the given names map to `now`; every other entry is unchanged |
| Backups.BackupSet.LastRunOfBackup | backupmgr/backup.py:126-128 | the recorded run time, or the epoch |
| Backups.BackupSet.BackupsDue | backupmgr/backup.py:130-140 | every configured backup when the configuration is newer than the state; otherwise the due ones, in configured order (by `DueAmongInOrder`) |
| Backups.NeverRunIsDue | backupmgr/backup.py:126-128 | a backup with no state entry is due once the clock is past 31 days after the epoch |
| Backups.JustRunNotDue | backupmgr/backup.py:120-124 | backups just recorded at `now` are not due at `now` |
| Pruning.SortNewestFirstSorted | backupmgr/pruning_engine.py:22 | the sorted list is newest first |
| Pruning.SortNewestFirstPermutes | backupmgr/pruning_engine.py:22 | the sorted list is a permutation of the input |
| Pruning.SortNewestFirst | backupmgr/pruning_engine.py:22 | the newest-first sort; its meaning is stated by `SortNewestFirstSorted` and `SortNewestFirstPermutes` |
| Pruning.IsFresh | backupmgr/pruning_engine.py:29-31 | `since.days < 1`; its meaning is stated by `ClaimFresh` and `PruningProperties.FreshNeverPrunable` |
| Pruning.Classify | backupmgr/pruning_engine.py:31-43 | the tier of one archive given the claimed buckets; its meaning is stated by `ClaimFresh`, `ClaimDaily`, `ClaimWeekly`, `ClaimMonthly` and `ClaimNone` |
| Pruning.PrunableOf | backupmgr/pruning_engine.py:45-52 | the archives of a sorted list that the pass does not keep; its meaning is stated by `PruningProperties.PrunableExactly` and `PruningProperties.PrunableCount` |
| Pruning.ClaimFresh | backupmgr/pruning_engine.py:31-34 | an archive under a day old is kept as fresh, and no bucket is claimed for it |
| Pruning.ClaimDaily | backupmgr/pruning_engine.py:35-37 | below the daily quota and in an unclaimed day, an archive becomes that day's representative |
| Pruning.ClaimWeekly | backupmgr/pruning_engine.py:38-40 | failing the daily gate, below the weekly quota and in an unclaimed week, it becomes that week's representative |
| Pruning.ClaimMonthly | backupmgr/pruning_engine.py:41-43 | failing both earlier gates, below the monthly quota and in an unclaimed month, it becomes that month's representative |
| Pruning.ClaimNone | backupmgr/pruning_engine.py:35-43 | failing every gate, the archive is prunable and nothing changes |
| Pruning.PruningEngine.constructor | backupmgr/pruning_engine.py:13-14 | the engine holds the given quotas |
| Pruning.PruningEngine.ClassifyOne | backupmgr/pruning_engine.py:25-43 | one loop step updates the fresh list and the three bucket maps exactly as the pass's classification of the archive says |
| Pruning.PruningEngine.SavedPositions | backupmgr/pruning_engine.py:24-50 | the saved set holds exactly the positions the pass keeps: fresh or representative |
| Pruning.PruningEngine.Unsaved | backupmgr/pruning_engine.py:52 | the filter keeps, in order, exactly the archives at unsaved positions |
| Pruning.PruningEngine.PrunableArchives | backupmgr/pruning_engine.py:16-52 | the result is the list of prunable archives of the newest-first sort of the input |
| Pruning.PruningEngine.PruneArchives | backupmgr/pruning_engine.py:54-56 | a trace of the calls: the archives handed to `destroy`, in call order, are the input, each once |
| PruningProperties.ClaimedAre | backupmgr/pruning_engine.py:35-43 | a bucket is claimed in a tier exactly when an earlier archive of that tier lies in it |
| PruningProperties.QuotaRespected | backupmgr/pruning_engine.py:35-43 | each tier's kept count never exceeds its quota, and is zero when the quota is not positive |
| PruningProperties.KeptCountsTier | backupmgr/pruning_engine.py:35-43 | a tier's kept count is the number of archives the pass gives that tier |
| PruningProperties.OneBucketEach | backupmgr/pruning_engine.py:35-43 | a tier has as many claimed buckets as kept representatives |
| PruningProperties.AtMostQuota | backupmgr/pruning_engine.py:35-43 | at most the quota of archives are kept in each tier |
| PruningProperties.DistinctBuckets | backupmgr/pruning_engine.py:35-43 | two representatives of the same tier lie in different buckets |
| PruningProperties.DailyIsFirstOfItsDay | backupmgr/pruning_engine.py:24-37 | every archive before a daily representative in the same day is fresh |
| PruningProperties.DailyIsNewestOfItsDay | backupmgr/pruning_engine.py:22-37 | in a newest-first list, the daily representative is the newest non-fresh archive of its day |
| PruningProperties.EarlierTiersDeclined | backupmgr/pruning_engine.py:35-43 | an archive filed under a later tier was not fresh, and each earlier tier was full or already held its bucket |
| PruningProperties.PrunableExactly | backupmgr/pruning_engine.py:45-52 | the prunable list holds exactly the archives whose tier is prunable |
| PruningProperties.FreshNeverPrunable | backupmgr/pruning_engine.py:29-34 | no archive under a day old, future-dated ones included, is prunable |
| PruningProperties.NoQuotasPrunesAllStale | backupmgr/pruning_engine.py:35-43 | with every quota at zero, exactly the non-fresh archives are prunable, in order |
| PruningProperties.PrunableCount | backupmgr/pruning_engine.py:45-52 | the prunable list is a sub-list of the input, and its length is the input's minus the number kept |
| PruningProperties.PrunableNewestFirst | backupmgr/pruning_engine.py:52 | the prunable list of a newest-first list is newest first |
| ArchiveSpecifiers.ParseIntRoundTrip | backupmgr/archive_specifiers.py:34 | `int()` of an integer's decimal rendering is that integer |
| ArchiveSpecifiers.AcceptsOrdinal | backupmgr/archive_specifiers.py:32-37 | the ordinal predicate; its meaning is stated by `IntegersSplitAtThreshold`, `NoStringIsBoth` and `DottedIsTimestamp` |
| ArchiveSpecifiers.AcceptsTimestamp | backupmgr/archive_specifiers.py:47-53 | the timestamp predicate; its meaning is stated by `IntegersSplitAtThreshold`, `NoStringIsBoth` and `DottedIsTimestamp` |
| ArchiveSpecifiers.IntegerIsNumber | backupmgr/archive_specifiers.py:49 | an integer string parses as the same number under `float()`, and has no dot |
| ArchiveSpecifiers.NoStringIsBoth | backupmgr/archive_specifiers.py:32-53 | no string satisfies both predicates |
| ArchiveSpecifiers.IntegersSplitAtThreshold | backupmgr/archive_specifiers.py:32-53 | an integer string is an ordinal iff below 1000000000, and a timestamp iff above it |
| ArchiveSpecifiers.FiveIsOnlyAnOrdinal | backupmgr/archive_specifiers.py:32-53 | "5" is accepted only as an ordinal |
| ArchiveSpecifiers.ThresholdIsNeither | backupmgr/archive_specifiers.py:32-53 | "1000000000" is accepted by neither predicate |
| ArchiveSpecifiers.DottedIsTimestamp | backupmgr/archive_specifiers.py:47-53 | any `digits.digits` string is a timestamp and not an ordinal |
| ArchiveSpecifiers.DottedTimestampIsOnlyATimestamp | backupmgr/archive_specifiers.py:47-53 | "1416279400.0" is accepted only as a timestamp |
| ArchiveSpecifiers.AcceptedConstructs | backupmgr/archive_specifiers.py:39-56 | an accepted string constructs the type, holding its parsed value |
| ArchiveSpecifiers.Construct | backupmgr/archive_specifiers.py:39-56 | the two constructors; their meaning is stated by `AcceptedConstructs` and the two `ConstructionIsUnchecked` lemmas |
| ArchiveSpecifiers.Evaluate | backupmgr/archive_specifiers.py:42-59 | the two `evaluate` methods; their meaning is stated by `OrdinalLooksAtPositionOnly` and `TimestampLooksAtTimeOnly` |
| ArchiveSpecifiers.Resolved | backupmgr/archive_specifiers.py:16-20 | the search over the concrete types; its meaning is stated by `ResolvedPicks` and `ResolvedOutcome` |
| ArchiveSpecifiers.OrdinalConstructionIsUnchecked | backupmgr/archive_specifiers.py:13-14 | calling the ordinal type directly takes integers its predicate rejects |
| ArchiveSpecifiers.TimestampConstructionIsUnchecked | backupmgr/archive_specifiers.py:13-14 | calling the timestamp type directly takes integers its predicate rejects |
| ArchiveSpecifiers.OrdinalLooksAtPositionOnly | backupmgr/archive_specifiers.py:42-43 | an ordinal matches exactly its position, whatever the archive |
| ArchiveSpecifiers.TimestampLooksAtTimeOnly | backupmgr/archive_specifiers.py:58-59 | a timestamp matches exactly the archives with its timestamp, whatever the position |
| ArchiveSpecifiers.ResolvedPicks | backupmgr/archive_specifiers.py:16-18 | whichever accepting registered type the search reaches decides the result |
| ArchiveSpecifiers.ResolvedOutcome | backupmgr/archive_specifiers.py:12-20 | with both types registered: an ordinal iff the ordinal predicate accepts, a timestamp iff the timestamp predicate does, a ValueError iff neither does |
| ArchiveSpecifiers.SpecifierRegistry.constructor | backupmgr/archive_specifiers.py:4 | the concrete set starts empty |
| ArchiveSpecifiers.SpecifierRegistry.Define | backupmgr/archive_specifiers.py:7-10 | a concrete class is added to the set; an abstract one is not |
| ArchiveSpecifiers.SpecifierRegistry.Call | backupmgr/archive_specifiers.py:12-20 | a registered concrete class constructs directly; otherwise the first accepting type (in any order) constructs, or the call fails |
| ArchiveSpecifiers.DefineSpecifierClasses | backupmgr/archive_specifiers.py:26-59 | defining the three classes registers exactly the two concrete ones |
| BackendTypes.BackendRegistry.constructor | backupmgr/backend_types.py:11 | the table starts empty |
| BackendTypes.BackendRegistry.BackendType | backupmgr/backend_types.py:18-19 | the registered class when the name is present, and none otherwise |
| BackendTypes.BackendRegistry.Register | backupmgr/backend_types.py:13-16 | a taken name fails and changes nothing; a free one maps to the class |
| BackendTypes.BackendRegistry.Unregister | backupmgr/test/test_backend_types.py:22 | the name is removed from the table |
| BackendTypes.BackendRegistry.DefineClass | backupmgr/backend_types.py:22-27 | registers the class under its names in order, stopping at the first collision |
| BackendTypes.DefineSucceedsIff | backupmgr/backend_types.py:22-27 | defining succeeds iff the names are pairwise distinct and none is registered |
| BackendTypes.DefineRegistersAll | backupmgr/backend_types.py:22-27 | on success every name maps to the class, old entries are kept, and nothing else is added |
| BackendTypes.DefineFailureKeepsTable | backupmgr/backend_types.py:13-27 | on failure a colliding name is reported, old entries are kept, and only entries for the class are added |
| BackendTypes.BackupBackend.constructor | backupmgr/backend_types.py:34-35 | the backend holds its class and name |
| BackendTypes.BackupBackend.ToString | backupmgr/backend_types.py:39-40 | `str(backend)`; its meaning is stated by `StrScenario` |
| BackendTypes.NewBackend | backupmgr/backend_types.py:34-37 | "name" is removed from the caller's dictionary; a missing key is a KeyError, a null name a configuration error, otherwise a backend of that name |
| BackendTypes.RegistrationScenario | backupmgr/test/test_backend_types.py:16-23 | defining a class with NAMES `("mytype",)` makes it the lookup result; unregistering makes the lookup none |
| BackendTypes.StrScenario | backupmgr/test/test_backend_types.py:25-29 | `str(MyBackend({"name": "foo"}))` is "MyBackend: foo" |
| ConfigValidation.PrefixMatchMeaning | backupmgr/configuration.py:42-43 | for `n >= 0`: equal first-`n` prefixes, with a shorter string compared whole |
| ConfigValidation.ShortStringComparedWhole | backupmgr/configuration.py:42-43 | a string no longer than `n` matches exactly the strings that begin with it (up to `n` characters) |
| ConfigValidation.PrefixMatch | backupmgr/configuration.py:42-43 | `prefix_match`; its meaning is stated by `PrefixMatchMeaning` and `ShortStringComparedWhole` |
| ConfigValidation.ItemToken | backupmgr/configuration.py:60-76 | one item's token; its meaning is stated by `ItemTokenMeaning` and `NoWeekdayInitial` |
| ConfigValidation.TimespecOf | backupmgr/configuration.py:45-78 | `validate_timespec`'s result; its meaning is stated by `TimespecFailsIff`, `TimespecIgnoresCase`, `DailyIsEveryWeekday` and `ListTimespecItems` |
| ConfigValidation.ValidateTimespec | backupmgr/configuration.py:45-78 | the result is the timespec the normaliser defines for the value |
| ConfigValidation.CollectTokens | backupmgr/configuration.py:59-76 | the loop collects the token of every lowercased item |
| ConfigValidation.TimespecIgnoresCase | backupmgr/configuration.py:46-54 | a string gives the same timespec as its lowercased form |
| ConfigValidation.DailyIsEveryWeekday | backupmgr/configuration.py:51-52 | "daily" in any case becomes the seven weekdays, Monday to Sunday |
| ConfigValidation.TimespecFailsIff | backupmgr/configuration.py:56-57 | the normaliser fails, with InvalidConfigError, exactly on values that are neither a string nor a list of strings |
| ConfigValidation.ListTimespecItems | backupmgr/configuration.py:59-78 | a list's timespec holds exactly the tokens of its lowercased items |
| ConfigValidation.ItemTokenMeaning | backupmgr/configuration.py:60-76 | an item becomes weekday W iff its first two letters are W's, `None` iff they are no weekday's, and never WEEKLY or MONTHLY |
| ConfigValidation.NoWeekdayInitial | backupmgr/configuration.py:60-76 | an item whose first letter begins no weekday's name becomes `None` |
| ConfigValidation.WeeklyInsideAList | backupmgr/configuration.py:59-78 | inside a list, "weekly" becomes WEDNESDAY |
| ConfigValidation.MonthlyInsideAList | backupmgr/configuration.py:59-78 | inside a list, "monthly" becomes MONDAY |
| ConfigValidation.DailyInsideAList | backupmgr/configuration.py:59-78 | inside a list, "daily" becomes `None` |
| ConfigValidation.ValidatePaths | backupmgr/configuration.py:80-96 | succeeds iff the value is a string-to-string map whose paths are absolute, whose names are valid and whose names are pairwise distinct, and then returns it unchanged; each failure names a real defect |
| Configuration.ShouldRunAsWritten | backupmgr/configuration.py:110-119 | `should_run` as written; its meaning is stated by `MonthlyNeverFiresAsWritten`, `MonthlyOnlyNeverDueAgain`, `LastRunIgnored` and `KeywordSchedules` |
| Configuration.ShouldRun | backupmgr/configuration.py:110-119 | `should_run` with MONTHLY firing on day 1; its meaning is stated by `MonthlyDueOnTheFirst`, `LastRunIgnored` and `KeywordSchedules` |
| Configuration.MonthlyNeverFiresAsWritten | backupmgr/configuration.py:110-119 | as written, the decision is the same as with the MONTHLY branch removed |
| Configuration.MonthlyOnlyNeverDueAgain | backupmgr/configuration.py:110-119 | as written, a MONTHLY-only backup that has run is never due |
| Configuration.MonthlyDueOnTheFirst | backupmgr/configuration.py:113-114 | corrected, a MONTHLY-only backup that has run is due exactly on day 1 of a local month |
| Configuration.MonthlyFirstOfMonth | backupmgr/configuration.py:113-114 | at local midnight on the first of any month, the corrected decision runs a MONTHLY-only backup and the decision as written does not |
| Configuration.MonthlyCounterexample | backupmgr/configuration.py:113 | "monthly", last run at second 1, at local midnight of 2014-12-01: due when corrected, not due as written |
| Configuration.LastRunIgnored | backupmgr/configuration.py:110-119 | apart from the epoch, the time of the last run does not affect the decision, as written or corrected |
| Configuration.KeywordSchedules | backupmgr/configuration.py:110-119 | "daily" is always due, and "weekly" is due exactly on local Mondays, as written and corrected |
| Configuration.FindBackends | backupmgr/configuration.py:194-199 | succeeds iff every name is configured, giving each name's backend in order; otherwise fails naming the first unknown name |
| Configuration.ParseBackup | backupmgr/configuration.py:179-201 | succeeds iff every check passes, building the backup from the entry; otherwise fails with the error of the first failing check, in the source's order |
| Configuration.BackendsFound | backupmgr/configuration.py:192-201 | once the earlier checks pass, the outcome is decided by the backend references |
| Configuration.RepeatedIff | backupmgr/configuration.py:209-211 | a name is counted more than once iff two positions hold it |
| Configuration.CheckUniqueNames | backupmgr/configuration.py:209-211 | fails iff two backups share a name, naming that name |
| Configuration.ParseAll | backupmgr/configuration.py:205-207 | parses every entry in order, or fails with the first invalid entry's error |
| Configuration.LoadBackups | backupmgr/configuration.py:203-211 | succeeds iff the value is a list of valid entries with distinct names, parsing each; otherwise not-a-list, the first invalid entry's error, or a duplicated name |
| Configuration.DuplicateShown | backupmgr/configuration.py:209-211 | a repeated parsed name is a repeated entry name |
| Configuration.UniqueShown | backupmgr/configuration.py:209-211 | distinct parsed names are distinct entry names |
| Configuration.Logged | backupmgr/configuration.py:213-215 | the given backups' names map to `now`; every other entry is unchanged and no other key is added |
| Configuration.DueAmong | backupmgr/configuration.py:224 | keeps every backup whose `should_run`, as written, holds, and nothing else |
| Configuration.DueAmongInOrder | backupmgr/configuration.py:224 | the due list is the sub-sequence of the configured backups at exactly the due positions, in configured order |
| Configuration.Config.constructor | backupmgr/configuration.py:153-159 | the configuration holds the loaded backups, the state read or defaulted, and the zone |
| Configuration.Config.LogRun | backupmgr/configuration.py:213-215 | the state becomes the logged state; each given backup's last run is `now`; the backups are unchanged |
| Configuration.Config.LastRunOfBackup | backupmgr/configuration.py:219-221 | the recorded time, or the epoch |
| Configuration.Config.BackupsDue | backupmgr/configuration.py:223-224 | every configured backup whose `should_run`, as written, holds is returned, and only those, in configured order (by `DueAmongInOrder`) |
| Configuration.NeverRunIsDue | backupmgr/configuration.py:219-224 | a configured backup with no recorded run is due |
| Configuration.MonthlyBackupNeverDue | backupmgr/configuration.py:113-114 | as written, a MONTHLY-only backup with a recorded run is never among the backups due |
| Configuration.LogRunLeavesOthers | backupmgr/configuration.py:213-215 | logging leaves the last run of every other backup unchanged |

## Left out

- Clock reads. `datetime.now()`, `time.time()`, `time.mktime` and `local_timestamp()` are replaced by a `now` parameter. The pruning pass uses one `now` for every archive. `log_run` stamps every backup with the same `now`.
- Time zones. The local zone is a fixed offset. DST changes and the tz database are not modelled. Timestamps are whole seconds.
- File I/O: reading the configuration file and the state file, and writing the state file back in `log_run`. A state file that cannot be read gives the empty state, which is a constructor argument here.
- `parse_backend_type` and the check that `backends` is a list (configuration.py:161-177). The configured backends are a given map from name to backend.
- Backup names are compared as JSON values. Python's `True == 1` and its `TypeError` on a list or object name are not modelled.
- ConfigValidation.Lower: lowercases ASCII letters only, while the source lowercases Unicode strings.
- JSON numbers are integers, and floats in configuration values are not modelled.
- ConfigValidation.ValidatePaths and Configuration.CheckUniqueNames: which error is reported when several entries are defective depends on dictionary order. The model lets any of them be reported, and each reported error names a real defect.
- ArchiveSpecifiers.ParseInt and ArchiveSpecifiers.ParseNumber: the strings are an optional sign and digits, and for `float()` at most one '.', with at least one digit in total (so `1.` and `.5` are accepted). Python's whitespace, underscores, exponents, `inf` and `nan` are not modelled. Timestamps are exact rationals, not floats.
- ArchiveSpecifiers.SpecifierRegistry: the metaclass is an explicit set of concrete types. The fuzzy-date specifier is not part of this model.
- `Backup.perform`'s backend calls and `existing_archives_for_name` are foreign calls. They are parameters that give each call's outcome.
- `ConfiguredBackup.perform` (configuration.py:121-128) is not part of this model: it formats the backup name with the host name and the clock and hands it to each backend, which are calls into code outside the model.
- Logging, `application.py` (command dispatch and exit codes), the tarsnap backend, the e-mail and logging handlers, and packaging are not part of this model.
- BackendTypes.BackendRegistry.Unregister: the tests call `unregister_backend_type`, but backend_types.py does not define it. It is modelled as removing the name from the table.
- Schedule.NextDueRun: timespec entries are typed tokens (a weekday, WEEKLY or MONTHLY). An unrecognised entry, which would fail `assert tgt is not None` in backup.py:56, cannot arise in the model.
- Backups.Backup.GetAllArchives: the source's `assert` on a missing token-map entry is modelled as an error result.

## Findings

| source | as written | input that shows it | evidently intended | confidence | as-written member | corrected member |
|---|---|---|---|---|---|---|
| backupmgr/configuration.py:113 | MONTHLY fires when `datetime.now().day == 0`, but days of the month start at 1, so it never fires | timespec "monthly", last run at second 1, now = local midnight of 2014-12-01: not due (and never due again) | due on day 1 of each local month | not executed | Configuration.MonthlyCounterexample | Configuration.MonthlyDueOnTheFirst |
