/**
 * The configuration reader of the older revision: `ConfiguredBackup` and its
 * `should_run`, the checks `parse_backup` applies to each backup entry, the
 * duplicate-name check, and the run-state map of `Config`.
 *
 * The clock is the parameter `now` (integer seconds since the epoch) and the
 * local zone a fixed offset `zone`; reading the configuration and state
 * files, and writing the state file back, are not part of the model.
 */
module Configuration {
  import opened Wrappers
  import opened Calendar
  import opened ConfigValidation
  import opened BackendTypes
  import Backups

  /** A parsed backup entry. `name` and `backupName` are whatever JSON values
      the entry holds (a name is never null). */
  datatype ConfiguredBackup = ConfiguredBackup(
    name: Json,
    paths: map<string, string>,
    backupName: Json,
    timespec: Timespec,
    backends: seq<BackupBackend>)

  /* ConfiguredBackup.should_run */

  /** The weekday numbers of the weekday tokens of a timespec (`days`). */
  function DaysOf(ts: Timespec): (days: set<int>)
    ensures forall w :: w in days <==> 0 <= w < 7 && Holds(ts, Some(Weekday(w)))
  {
    set w: int | 0 <= w < 7 && Holds(ts, Some(Weekday(w)))
  }

  /** The local day of the month of `now`. */
  function LocalDayOfMonth(now: int, zone: UtcOffset): (d: int)
    ensures 1 <= d <= 31
  {
    ToCivil(now + zone).date.day
  }

  /** `should_run` as written: the MONTHLY branch tests `day == 0`. A last
      run equal to the epoch (`fromtimestamp(0)`) is always due. */
  predicate ShouldRunAsWritten(ts: Timespec, lastRun: int, now: int, zone: UtcOffset) {
    lastRun == 0 ||
    (Holds(ts, Some(Monthly)) && LocalDayOfMonth(now, zone) == 0) ||
    (Holds(ts, Some(Weekly)) && WeekdayOf(now + zone) == Monday) ||
    WeekdayOf(now + zone) in DaysOf(ts)
  }

  /** `should_run` with the MONTHLY branch firing on the first of the month. */
  predicate ShouldRun(ts: Timespec, lastRun: int, now: int, zone: UtcOffset) {
    lastRun == 0 ||
    (Holds(ts, Some(Monthly)) && LocalDayOfMonth(now, zone) == 1) ||
    (Holds(ts, Some(Weekly)) && WeekdayOf(now + zone) == Monday) ||
    WeekdayOf(now + zone) in DaysOf(ts)
  }

  /** As written, the MONTHLY branch never contributes: the decision is the
      same as for the timespec without MONTHLY. */
  lemma MonthlyNeverFiresAsWritten(ts: Timespec, lastRun: int, now: int, zone: UtcOffset)
    ensures ShouldRunAsWritten(ts, lastRun, now, zone) <==>
      lastRun == 0 ||
      (Holds(ts, Some(Weekly)) && WeekdayOf(now + zone) == Monday) ||
      Holds(ts, Some(Weekday(WeekdayOf(now + zone))))
  {
  }

  /** As written, a MONTHLY-only backup that has run once is never due again. */
  lemma MonthlyOnlyNeverDueAgain(lastRun: int, now: int, zone: UtcOffset)
    requires lastRun != 0
    ensures !ShouldRunAsWritten(TokenList([Monthly]), lastRun, now, zone)
  {
  }

  /** Corrected, a MONTHLY-only backup that has run is due exactly on the
      first day of a local month. */
  lemma MonthlyDueOnTheFirst(lastRun: int, now: int, zone: UtcOffset)
    requires lastRun != 0
    ensures ShouldRun(TokenList([Monthly]), lastRun, now, zone) <==> LocalDayOfMonth(now, zone) == 1
  {
  }

  /** At local midnight on the first of any month, the corrected decision runs
      a MONTHLY-only backup and the decision as written does not. */
  lemma MonthlyFirstOfMonth(y: int, m: int, lastRun: int, zone: UtcOffset)
    requires ValidDate(Date(y, m, 1)) && lastRun != 0
    ensures ShouldRun(TokenList([Monthly]), lastRun, At(y, m, 1) - zone, zone)
    ensures !ShouldRunAsWritten(TokenList([Monthly]), lastRun, At(y, m, 1) - zone, zone)
  {
    CivilRoundTrip(DateTime(Date(y, m, 1), 0, 0, 0));
  }

  /** The counterexample: "monthly", last run at second 1, evaluated at local
      midnight on 2014-12-01. */
  lemma MonthlyCounterexample(zone: UtcOffset)
    ensures ShouldRun(TokenList([Monthly]), 1, At(2014, 12, 1) - zone, zone)
    ensures !ShouldRunAsWritten(TokenList([Monthly]), 1, At(2014, 12, 1) - zone, zone)
  {
    MonthlyFirstOfMonth(2014, 12, 1, zone);
  }

  /** Apart from the epoch, the time of the last run plays no part: a backup
      ran today is due again today when its day matches. */
  lemma LastRunIgnored(ts: Timespec, a: int, b: int, now: int, zone: UtcOffset)
    requires a != 0 && b != 0
    ensures ShouldRunAsWritten(ts, a, now, zone) == ShouldRunAsWritten(ts, b, now, zone)
    ensures ShouldRun(ts, a, now, zone) == ShouldRun(ts, b, now, zone)
  {
  }

  /** "daily" runs every day; "weekly" runs on local Mondays, both as written
      and corrected. */
  lemma KeywordSchedules(s: string, lastRun: int, now: int, zone: UtcOffset)
    requires lastRun != 0
    ensures Lower(s) == "daily" ==> ShouldRunAsWritten(TimespecOf(JString(s)).value, lastRun, now, zone)
    ensures Lower(s) == "daily" ==> ShouldRun(TimespecOf(JString(s)).value, lastRun, now, zone)
    ensures Lower(s) == "weekly" ==>
      (ShouldRunAsWritten(TimespecOf(JString(s)).value, lastRun, now, zone) <==> WeekdayOf(now + zone) == Monday)
    ensures Lower(s) == "weekly" ==>
      (ShouldRun(TimespecOf(JString(s)).value, lastRun, now, zone) <==> WeekdayOf(now + zone) == Monday)
  {
    if Lower(s) == "daily" {
      DailyIsEveryWeekday(s);
    }
  }

  /* parse_backup */

  predicate StringList(j: Json) {
    j.JList? && AllStrings(j.items)
  }

  function StringsOf(items: seq<Json>): (r: seq<string>)
    requires AllStrings(items)
    ensures |r| == |items| && forall i :: 0 <= i < |r| ==> items[i] == JString(r[i])
  {
    seq(|items|, i requires 0 <= i < |items| => items[i].s)
  }

  /** The list comprehension of `find_backend` calls: the configured backend
      of each name, in order, or an error naming the first unknown one. */
  function FindBackends(names: seq<string>, configured: map<string, BackupBackend>): (r: Result<seq<BackupBackend>, ConfigError>)
    ensures r.Success? <==> forall i :: 0 <= i < |names| ==> names[i] in configured
    ensures r.Success? ==>
              |r.value| == |names| &&
              forall i :: 0 <= i < |names| ==> r.value[i] == configured[names[i]]
    ensures r.Failure? ==>
              exists i :: 0 <= i < |names| && r.error == UnknownBackend(names[i]) &&
                          names[i] !in configured && forall j :: 0 <= j < i ==> names[j] in configured
  {
    if |names| == 0 then Success([])
    else if names[0] !in configured then Failure(UnknownBackend(names[0]))
    else
      match FindBackends(names[1..], configured)
      case Failure(e) =>
        assert forall j :: 1 <= j < |names| ==> names[j] == names[1..][j - 1];
        Failure(e)
      case Success(rest) =>
        assert forall j :: 1 <= j < |names| ==> names[j] == names[1..][j - 1];
        Success([configured[names[0]]] + rest)
  }

  /** Every check of `parse_backup` passes on `d`. */
  predicate BackupValid(d: Json, configured: map<string, BackupBackend>) {
    d.JObject? &&
    Get(d.fields, "paths").JObject? && PathsValid(Get(d.fields, "paths").fields) &&
    TimespecOf(Get(d.fields, "timespec")).Success? &&
    Get(d.fields, "name") != JNull &&
    StringList(Get(d.fields, "backends")) &&
    forall n :: n in StringsOf(Get(d.fields, "backends").items) ==> n in configured
  }

  /** The backup `parse_backup` builds from a valid entry. */
  function Parsed(d: Json, configured: map<string, BackupBackend>): (b: ConfiguredBackup)
    requires BackupValid(d, configured)
    ensures b.name == Get(d.fields, "name")
  {
    var paths := Get(d.fields, "paths").fields;
    ConfiguredBackup(
      Get(d.fields, "name"),
      map p | p in paths :: paths[p].s,
      Get(d.fields, "backup_name"),
      TimespecOf(Get(d.fields, "timespec")).value,
      FindBackends(StringsOf(Get(d.fields, "backends").items), configured).value)
  }

  /** The error `parse_backup` raises on an invalid entry, checks taken in
      the source's order: the entry's type, its paths, its timespec, its
      name, its backend list, and then each backend reference in turn. */
  ghost predicate ParseErrorShown(d: Json, configured: map<string, BackupBackend>, e: ConfigError) {
    if !d.JObject? then e == BackupNotADictionary
    else if !(Get(d.fields, "paths").JObject? && PathsValid(Get(d.fields, "paths").fields)) then
      PathsErrorShown(Get(d.fields, "paths"), e)
    else if TimespecOf(Get(d.fields, "timespec")).Failure? then e == InvalidTimespec
    else if Get(d.fields, "name") == JNull then e == MissingBackupName
    else if !StringList(Get(d.fields, "backends")) then e == BackendsNotStrings
    else
      var found := FindBackends(StringsOf(Get(d.fields, "backends").items), configured);
      found.Failure? && e == found.error
  }

  /** `parse_backup(backup_dict)` against the configured backends. */
  method ParseBackup(d: Json, configured: map<string, BackupBackend>) returns (r: Result<ConfiguredBackup, ConfigError>)
    ensures r.Success? <==> BackupValid(d, configured)
    ensures r.Success? ==> r.value == Parsed(d, configured)
    ensures r.Failure? ==> ParseErrorShown(d, configured, r.error)
  {
    if !d.JObject? {
      return Failure(BackupNotADictionary);
    }
    var name := Get(d.fields, "name");
    var paths := ValidatePaths(Get(d.fields, "paths"));
    if paths.Failure? {
      return Failure(paths.error);
    }
    var backupName := Get(d.fields, "backup_name");
    var timespec := ValidateTimespec(Get(d.fields, "timespec"));
    if timespec.Failure? {
      return Failure(timespec.error);
    }
    var backends := Get(d.fields, "backends");
    if name == JNull {
      return Failure(MissingBackupName);
    }
    if !backends.JList? || exists i :: 0 <= i < |backends.items| && !backends.items[i].JString? {
      return Failure(BackendsNotStrings);
    }
    var found := FindBackends(StringsOf(backends.items), configured);
    BackendsFound(d, configured, paths.value, timespec.value);
    if found.Failure? {
      return Failure(found.error);
    }
    return Success(ConfiguredBackup(name, paths.value, backupName, timespec.value, found.value));
  }

  /** Once the earlier checks pass, the outcome rests on the backend references. */
  lemma BackendsFound(d: Json, configured: map<string, BackupBackend>, paths: map<string, string>, ts: Timespec)
    requires d.JObject? && Get(d.fields, "paths").JObject? && PathsValid(Get(d.fields, "paths").fields)
    requires paths.Keys == Get(d.fields, "paths").fields.Keys
    requires forall p :: p in paths ==> Get(d.fields, "paths").fields[p] == JString(paths[p])
    requires TimespecOf(Get(d.fields, "timespec")) == Success(ts)
    requires Get(d.fields, "name") != JNull && StringList(Get(d.fields, "backends"))
    ensures var found := FindBackends(StringsOf(Get(d.fields, "backends").items), configured);
      (found.Success? <==> BackupValid(d, configured)) &&
      (found.Success? ==>
         Parsed(d, configured) ==
         ConfiguredBackup(Get(d.fields, "name"), paths, Get(d.fields, "backup_name"), ts, found.value)) &&
      (found.Failure? ==> ParseErrorShown(d, configured, found.error))
  {
    var fields := Get(d.fields, "paths").fields;
    assert paths == map p | p in fields :: fields[p].s;
  }

  /* The duplicate-name check */

  function NamesOf(backups: seq<ConfiguredBackup>): (r: seq<Json>)
    ensures |r| == |backups| && forall i :: 0 <= i < |r| ==> r[i] == backups[i].name
  {
    seq(|backups|, i requires 0 <= i < |backups| => backups[i].name)
  }

  predicate UniqueNames(backups: seq<ConfiguredBackup>) {
    forall i, j :: 0 <= i < j < |backups| ==> backups[i].name != backups[j].name
  }

  /** A value occurs more than once in a list exactly when two positions hold it. */
  lemma {:induction false} RepeatedIff(s: seq<Json>, x: Json)
    ensures multiset(s)[x] > 1 <==> exists i, j :: 0 <= i < j < |s| && s[i] == x && s[j] == x
  {
    if |s| > 0 {
      var init := s[..|s| - 1];
      assert s == init + [s[|s| - 1]];
      RepeatedIff(init, x);
      if s[|s| - 1] == x && multiset(init)[x] == 1 {
        assert x in init;
        var i :| 0 <= i < |init| && init[i] == x;
        assert s[i] == x && s[|s| - 1] == x;
      }
      if exists i, j :: 0 <= i < j < |s| && s[i] == x && s[j] == x {
        var i, j :| 0 <= i < j < |s| && s[i] == x && s[j] == x;
        if j < |s| - 1 {
          assert init[i] == x && init[j] == x;
        } else {
          assert init[i] == x;
          assert x in multiset(init);
        }
      }
    }
  }

  /** The `collections.Counter` pass: count the names, then visit the
      counted names in the counter's (unspecified) order and fail on the first
      one counted more than once. */
  method CheckUniqueNames(backups: seq<ConfiguredBackup>) returns (err: Option<ConfigError>)
    ensures err.None? <==> UniqueNames(backups)
    ensures err.Some? ==> exists i, j :: 0 <= i < j < |backups| && backups[i].name == backups[j].name &&
                                         err.value == DuplicateBackup(backups[i].name)
  {
    var counts := multiset(NamesOf(backups));
    var remaining := set n | n in counts;
    while remaining != {}
      invariant remaining <= set n | n in counts
      invariant forall n :: n in counts && n !in remaining ==> counts[n] <= 1
      decreases remaining
    {
      var name :| name in remaining;
      if counts[name] > 1 {
        RepeatedIff(NamesOf(backups), name);
        return Some(DuplicateBackup(name));
      }
      remaining := remaining - {name};
    }
    forall i, j | 0 <= i < j < |backups|
      ensures backups[i].name != backups[j].name
    {
      var x := backups[i].name;
      RepeatedIff(NamesOf(backups), x);
      assert NamesOf(backups)[i] == x;
      assert x in counts;
    }
    return None;
  }

  function NameOf(d: Json): Json {
    if d.JObject? then Get(d.fields, "name") else JNull
  }

  /** Every entry of a list of backup entries is valid, and no two share a name. */
  predicate BackupsValid(items: seq<Json>, configured: map<string, BackupBackend>) {
    (forall i :: 0 <= i < |items| ==> BackupValid(items[i], configured)) &&
    forall i, j :: 0 <= i < j < |items| ==> NameOf(items[i]) != NameOf(items[j])
  }

  /** The error for a list of backup entries: the first invalid entry's, or
      a name that two entries share. */
  ghost predicate BackupsErrorShown(items: seq<Json>, configured: map<string, BackupBackend>, e: ConfigError) {
    (exists i :: 0 <= i < |items| && !BackupValid(items[i], configured) &&
       ParseErrorShown(items[i], configured, e) &&
       forall k :: 0 <= k < i ==> BackupValid(items[k], configured)) ||
    ((forall i :: 0 <= i < |items| ==> BackupValid(items[i], configured)) &&
     exists i, j :: 0 <= i < j < |items| && NameOf(items[i]) == NameOf(items[j]) &&
                    e == DuplicateBackup(NameOf(items[i])))
  }

  /** The backup part of `Config.__init__`, given `config_dict.get("backups")`:
      it must be a list; each entry is parsed in order, the first failure
      propagating; then names are checked for duplicates. */
  method LoadBackups(entries: Json, configured: map<string, BackupBackend>)
    returns (r: Result<seq<ConfiguredBackup>, ConfigError>)
    ensures !entries.JList? ==> r == Failure(BackupsNotAList)
    ensures r.Success? <==> entries.JList? && BackupsValid(entries.items, configured)
    ensures r.Success? ==>
              |r.value| == |entries.items| &&
              forall i :: 0 <= i < |r.value| ==> r.value[i] == Parsed(entries.items[i], configured)
    ensures r.Failure? && entries.JList? ==> BackupsErrorShown(entries.items, configured, r.error)
  {
    if !entries.JList? {
      return Failure(BackupsNotAList);
    }
    var items := entries.items;
    r := ParseAll(items, configured);
    if r.Success? {
      var err := CheckUniqueNames(r.value);
      if err.Some? {
        DuplicateShown(items, configured, r.value, err.value);
        r := Failure(err.value);
      } else {
        UniqueShown(items, configured, r.value);
      }
    }
  }

  lemma DuplicateShown(items: seq<Json>, configured: map<string, BackupBackend>,
                       backups: seq<ConfiguredBackup>, e: ConfigError)
    requires |backups| == |items|
    requires forall i :: 0 <= i < |items| ==> BackupValid(items[i], configured) && backups[i] == Parsed(items[i], configured)
    requires exists i, j :: 0 <= i < j < |backups| && backups[i].name == backups[j].name && e == DuplicateBackup(backups[i].name)
    ensures !BackupsValid(items, configured) && BackupsErrorShown(items, configured, e)
  {
    var i, j :| 0 <= i < j < |backups| && backups[i].name == backups[j].name && e == DuplicateBackup(backups[i].name);
    assert NameOf(items[i]) == NameOf(items[j]);
  }

  lemma UniqueShown(items: seq<Json>, configured: map<string, BackupBackend>, backups: seq<ConfiguredBackup>)
    requires |backups| == |items|
    requires forall i :: 0 <= i < |items| ==> BackupValid(items[i], configured) && backups[i] == Parsed(items[i], configured)
    requires UniqueNames(backups)
    ensures BackupsValid(items, configured)
  {
    forall i, j | 0 <= i < j < |items|
      ensures NameOf(items[i]) != NameOf(items[j])
    {
      assert backups[i].name != backups[j].name;
    }
  }

  /** The list comprehension of `parse_backup` calls: the entries parsed in
      order, the first failure propagating. */
  method ParseAll(items: seq<Json>, configured: map<string, BackupBackend>)
    returns (r: Result<seq<ConfiguredBackup>, ConfigError>)
    ensures r.Success? <==> forall i :: 0 <= i < |items| ==> BackupValid(items[i], configured)
    ensures r.Success? ==>
              |r.value| == |items| &&
              forall i :: 0 <= i < |items| ==> r.value[i] == Parsed(items[i], configured)
    ensures r.Failure? ==>
              exists i :: 0 <= i < |items| && !BackupValid(items[i], configured) &&
                          ParseErrorShown(items[i], configured, r.error) &&
                          forall k :: 0 <= k < i ==> BackupValid(items[k], configured)
  {
    var backups: seq<ConfiguredBackup> := [];
    var i := 0;
    while i < |items|
      invariant 0 <= i <= |items| && |backups| == i
      invariant forall k :: 0 <= k < i ==> BackupValid(items[k], configured) && backups[k] == Parsed(items[k], configured)
    {
      var b := ParseBackup(items[i], configured);
      if b.Failure? {
        return Failure(b.error);
      }
      backups := backups + [b.value];
      i := i + 1;
    }
    return Success(backups);
  }

  /* The run state */

  /** The state after the given backups are logged at `now`. */
  function Logged(state: map<Json, int>, backups: seq<ConfiguredBackup>, now: int): (r: map<Json, int>)
    ensures forall b :: b in backups ==> b.name in r && r[b.name] == now
    ensures forall n :: (forall b :: b in backups ==> b.name != n) ==>
      (n in r <==> n in state) && (n in state ==> r[n] == state[n])
  {
    if |backups| == 0 then state
    else Logged(state, backups[..|backups| - 1], now)[backups[|backups| - 1].name := now]
  }

  /** The backups among `backups` that are due, in order, by `should_run`
      as written. */
  function DueAmong(backups: seq<ConfiguredBackup>, state: map<Json, int>, now: int, zone: UtcOffset): (r: seq<ConfiguredBackup>)
    ensures forall i :: 0 <= i < |r| ==>
              r[i] in backups && ShouldRunAsWritten(r[i].timespec, Backups.LastRun(state, r[i].name), now, zone)
    ensures forall i :: 0 <= i < |backups| && ShouldRunAsWritten(backups[i].timespec, Backups.LastRun(state, backups[i].name), now, zone) ==>
              backups[i] in r
    ensures |r| <= |backups|
  {
    if |backups| == 0 then []
    else
      var last := backups[|backups| - 1];
      assert backups == backups[..|backups| - 1] + [last];
      var acc := DueAmong(backups[..|backups| - 1], state, now, zone);
      if ShouldRunAsWritten(last.timespec, Backups.LastRun(state, last.name), now, zone) then acc + [last] else acc
  }

  /** The due backups come out in configured order: the result is the
      sub-sequence of `backups` at exactly the positions whose backup is due. */
  lemma {:induction false} DueAmongInOrder(backups: seq<ConfiguredBackup>, state: map<Json, int>, now: int, zone: UtcOffset)
    returns (p: seq<int>)
    ensures Backups.SubsequenceAt(DueAmong(backups, state, now, zone), backups, p)
    ensures forall i :: 0 <= i < |backups| ==>
      (i in p <==> ShouldRunAsWritten(backups[i].timespec, Backups.LastRun(state, backups[i].name), now, zone))
  {
    if |backups| == 0 {
      return [];
    }
    var n := |backups| - 1;
    var prefix := backups[..n];
    assert backups == prefix + [backups[n]];
    var q := DueAmongInOrder(prefix, state, now, zone);
    var due := ShouldRunAsWritten(backups[n].timespec, Backups.LastRun(state, backups[n].name), now, zone);
    var before := DueAmong(prefix, state, now, zone);
    assert DueAmong(backups, state, now, zone) == if due then before + [backups[n]] else before;
    p := Backups.SubsequenceStep(before, prefix, q, backups[n], due);
    forall i | 0 <= i < |backups|
      ensures i in p <==> ShouldRunAsWritten(backups[i].timespec, Backups.LastRun(state, backups[i].name), now, zone)
    {
      if i < n {
        assert backups[i] == prefix[i];
      }
    }
  }

  class Config {
    var state: map<Json, int>
    var configuredBackups: seq<ConfiguredBackup>
    const zone: UtcOffset

    /** A configuration whose backups were loaded and whose state was read
        (or defaulted to the empty map). */
    constructor(backups: seq<ConfiguredBackup>, initialState: map<Json, int>, localZone: UtcOffset)
      ensures configuredBackups == backups && state == initialState && zone == localZone
    {
      configuredBackups := backups;
      state := initialState;
      zone := localZone;
    }

    /** `log_run(backups)`: record `now` as the last run of each given backup. */
    method LogRun(backups: seq<ConfiguredBackup>, now: int)
      modifies this
      ensures state == Logged(old(state), backups, now)
      ensures configuredBackups == old(configuredBackups)
      ensures forall b :: b in backups ==> LastRunOfBackup(b) == now
    {
      var i := 0;
      while i < |backups|
        invariant 0 <= i <= |backups|
        invariant state == Logged(old(state), backups[..i], now)
        invariant configuredBackups == old(configuredBackups)
      {
        assert backups[..i + 1][..i] == backups[..i];
        state := state[backups[i].name := now];
        i := i + 1;
      }
      assert backups[..i] == backups;
    }

    /** `last_run_of_backup(backup)`: the recorded time, or the epoch. */
    function LastRunOfBackup(backup: ConfiguredBackup): (t: int)
      reads this
      ensures backup.name in state ==> t == state[backup.name]
      ensures backup.name !in state ==> t == 0
    {
      Backups.LastRun(state, backup.name)
    }

    /** `backups_due()`: the configured backups whose `should_run`, as written,
        holds. */
    function BackupsDue(now: int): (r: seq<ConfiguredBackup>)
      reads this
      ensures forall i :: 0 <= i < |r| ==>
                r[i] in configuredBackups && ShouldRunAsWritten(r[i].timespec, LastRunOfBackup(r[i]), now, zone)
      ensures forall i :: 0 <= i < |configuredBackups| &&
                          ShouldRunAsWritten(configuredBackups[i].timespec, LastRunOfBackup(configuredBackups[i]), now, zone) ==>
                configuredBackups[i] in r
    {
      DueAmong(configuredBackups, state, now, zone)
    }
  }

  /** A backup with no recorded run is due, whatever its timespec. */
  lemma NeverRunIsDue(c: Config, i: int, now: int)
    requires 0 <= i < |c.configuredBackups| && c.configuredBackups[i].name !in c.state
    ensures c.configuredBackups[i] in c.BackupsDue(now)
  {
  }

  /** As written, a MONTHLY-only backup that has run is never among the
      backups due, on the first of a month or any other day. */
  lemma MonthlyBackupNeverDue(c: Config, i: int, now: int)
    requires 0 <= i < |c.configuredBackups| && c.configuredBackups[i].timespec == TokenList([Monthly])
    requires c.LastRunOfBackup(c.configuredBackups[i]) != 0
    ensures c.configuredBackups[i] !in c.BackupsDue(now)
  {
    var b := c.configuredBackups[i];
    MonthlyOnlyNeverDueAgain(c.LastRunOfBackup(b), now, c.zone);
  }

  /** Logging other backups leaves a backup's last run as it was. */
  lemma LogRunLeavesOthers(state: map<Json, int>, backups: seq<ConfiguredBackup>, now: int, name: Json)
    requires forall b :: b in backups ==> b.name != name
    ensures Backups.LastRun(Logged(state, backups, now), name) == Backups.LastRun(state, name)
  {
  }
}
