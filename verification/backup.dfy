/**
 * The `Backup` and `BackupSet` objects of `backup.py`: whether one backup is
 * due, running it through its backends, listing its archives, and deciding
 * which configured backups are due and the run-state map after running them.
 *
 * The backends' own work (`perform`, `existing_archives_for_name`) is outside
 * the model: each appears as a function parameter giving its outcome.
 */
module Backups {
  import opened Wrappers
  import opened Calendar
  import opened BackendTypes
  import opened Schedule

  /** Why `get_all_archives` raises. */
  datatype ArchiveError =
    | NotOwned               // a requested backend is not one of the backup's
    | NotPrimed(backend: BackupBackend)   // a primed token map lacks a requested backend

  /** The index of the first backend whose run fails, or the number of backends
      when all succeed. */
  function FirstFailure(backends: seq<BackupBackend>, run: BackupBackend -> bool): (k: nat)
    ensures k <= |backends|
    ensures forall j :: 0 <= j < k ==> run(backends[j])
    ensures k < |backends| ==> !run(backends[k])
  {
    if |backends| == 0 then 0
    else if !run(backends[0]) then 0
    else 1 + FirstFailure(backends[1..], run)
  }

  /** The listing pairs `get_all_archives` builds for `wanted`, in order, or the
      first backend missing from a primed token map. */
  function Listing(wanted: seq<BackupBackend>, tokens: Option<map<BackupBackend, ListToken>>,
                   name: string, list: (BackupBackend, string, Option<ListToken>) -> seq<Archive>)
    : Result<seq<(BackupBackend, seq<Archive>)>, ArchiveError>
  {
    if |wanted| == 0 then Success([])
    else if tokens.Some? && wanted[0] !in tokens.value then Failure(NotPrimed(wanted[0]))
    else After([(wanted[0], list(wanted[0], name, TokenFor(tokens, wanted[0])))], Listing(wanted[1..], tokens, name, list))
  }

  /** The listing succeeds exactly when there is no token map or it covers every
      requested backend; it then pairs each requested backend, in order, with its
      archives, listed with its primed token. Otherwise it names an uncovered one. */
  lemma {:induction false} ListingSpec(wanted: seq<BackupBackend>, tokens: Option<map<BackupBackend, ListToken>>,
                                       name: string, list: (BackupBackend, string, Option<ListToken>) -> seq<Archive>)
    ensures var r := Listing(wanted, tokens, name, list);
      (r.Success? <==> tokens.None? || forall b :: b in wanted ==> b in tokens.value) &&
      (r.Success? ==> (|r.value| == |wanted| &&
        forall i :: 0 <= i < |wanted| ==> r.value[i] == (wanted[i], list(wanted[i], name, TokenFor(tokens, wanted[i]))))) &&
      (r.Failure? ==> exists b :: b in wanted && tokens.Some? && b !in tokens.value && r.error == NotPrimed(b))
  {
    if |wanted| > 0 {
      ListingSpec(wanted[1..], tokens, name, list);
      assert forall b :: b in wanted[1..] ==> b in wanted;
      assert forall i :: 1 <= i < |wanted| ==> wanted[i] == wanted[1..][i - 1];
    }
  }

  /** `pairs` followed by a listing's pairs; a failed listing stays failed. */
  function After(pairs: seq<(BackupBackend, seq<Archive>)>, r: Result<seq<(BackupBackend, seq<Archive>)>, ArchiveError>)
    : Result<seq<(BackupBackend, seq<Archive>)>, ArchiveError>
  {
    if r.Success? then Success(pairs + r.value) else r
  }

  /** One step of the listing: the pair for `wanted[i]`, then the rest. */
  lemma ListingStep(wanted: seq<BackupBackend>, i: int, tokens: Option<map<BackupBackend, ListToken>>,
                    name: string, list: (BackupBackend, string, Option<ListToken>) -> seq<Archive>)
    requires 0 <= i < |wanted|
    ensures tokens.Some? && wanted[i] !in tokens.value ==>
      Listing(wanted[i..], tokens, name, list) == Failure(NotPrimed(wanted[i]))
    ensures tokens.None? || wanted[i] in tokens.value ==>
      Listing(wanted[i..], tokens, name, list) ==
      After([(wanted[i], list(wanted[i], name, TokenFor(tokens, wanted[i])))], Listing(wanted[i + 1..], tokens, name, list))
  {
    assert wanted[i..][1..] == wanted[i + 1..];
  }

  lemma AfterAfter(p: seq<(BackupBackend, seq<Archive>)>, q: seq<(BackupBackend, seq<Archive>)>,
                   r: Result<seq<(BackupBackend, seq<Archive>)>, ArchiveError>)
    ensures After(p, After(q, r)) == After(p + q, r)
  {
    if r.Success? {
      assert p + (q + r.value) == (p + q) + r.value;
    }
  }

  /** The primed list token passed for backend `b`: none without a map. */
  function TokenFor(tokens: Option<map<BackupBackend, ListToken>>, b: BackupBackend): Option<ListToken> {
    if tokens.Some? && b in tokens.value then Some(tokens.value[b]) else None
  }

  class Backup {
    const name: string
    const paths: map<string, string>
    const backupName: string
    const timespec: seq<Token>
    const backends: seq<BackupBackend>

    constructor (name: string, paths: map<string, string>, backupName: string,
                 timespec: seq<Token>, backends: seq<BackupBackend>)
      ensures this.name == name && this.paths == paths && this.backupName == backupName
      ensures this.timespec == timespec && this.backends == backends
    {
      this.name := name;
      this.paths := paths;
      this.backupName := backupName;
      this.timespec := timespec;
      this.backends := backends;
    }

    /** `should_run(last_run, now)`: the next due time after `lastRun` has passed
        (strictly). An empty timespec makes `next_due_run` raise: `None`. */
    function ShouldRun(lastRun: int, now: int, zone: UtcOffset): (r: Option<bool>)
      ensures r.Some? <==> |timespec| > 0
      ensures r.Some? ==> (r.value <==> NextDueRun(timespec, lastRun, zone).value < now)
      ensures r == Some(true) ==> lastRun < now
      ensures |timespec| > 0 && lastRun + MaxGap < now ==> r == Some(true)
    {
      if |timespec| == 0 then None
      else
        NextDueRunBounds(timespec, lastRun, zone);
        Some(NextDueRun(timespec, lastRun, zone).value < now)
    }

    /** `perform(now)`: run each backend in order while every earlier one
        succeeded. `run(b)` is the outcome `b.perform(paths, name, now)` reports.
        Returns whether all succeeded and the backends actually invoked. */
    method Perform(run: BackupBackend -> bool) returns (success: bool, invoked: seq<BackupBackend>)
      ensures success <==> forall j :: 0 <= j < |backends| ==> run(backends[j])
      ensures success ==> invoked == backends
      ensures !success ==> invoked == backends[..FirstFailure(backends, run) + 1]
    {
      success := true;
      invoked := [];
      var i := 0;
      while i < |backends|
        invariant 0 <= i <= |backends|
        invariant success <==> forall j :: 0 <= j < i ==> run(backends[j])
        invariant success ==> invoked == backends[..i] && FirstFailure(backends, run) >= i
        invariant !success ==> FirstFailure(backends, run) < i
        invariant !success ==> invoked == backends[..FirstFailure(backends, run) + 1]
      {
        if success {
          invoked := invoked + [backends[i]];
          success := run(backends[i]);
        }
        i := i + 1;
      }
    }

    /** `get_all_archives(backends, backend_to_primed_list_token_map)`: every
        requested backend (default: all of this backup's) must be owned; then one
        `(backend, archives)` pair per requested backend, in request order.
        `list(b, name, token)` is what `b.existing_archives_for_name` returns. */
    method GetAllArchives(requested: Option<seq<BackupBackend>>, tokens: Option<map<BackupBackend, ListToken>>,
                          list: (BackupBackend, string, Option<ListToken>) -> seq<Archive>)
      returns (r: Result<seq<(BackupBackend, seq<Archive>)>, ArchiveError>)
      ensures var wanted := requested.GetOr(backends);
        (exists b :: b in wanted && b !in backends) ==> r == Failure(NotOwned)
      ensures var wanted := requested.GetOr(backends);
        (forall b :: b in wanted ==> b in backends) ==> r == Listing(wanted, tokens, name, list)
    {
      var wanted := if requested.Some? then requested.value else backends;
      var owned := Owns(wanted);
      if !owned {
        return Failure(NotOwned);
      }
      r := ListArchives(wanted, tokens, list);
    }

    /** The ownership check of `get_all_archives`. */
    method Owns(wanted: seq<BackupBackend>) returns (owned: bool)
      ensures owned <==> forall b :: b in wanted ==> b in backends
    {
      var i := 0;
      while i < |wanted|
        invariant 0 <= i <= |wanted|
        invariant forall j :: 0 <= j < i ==> wanted[j] in backends
      {
        if wanted[i] !in backends {
          return false;
        }
        i := i + 1;
      }
      return true;
    }

    /** The listing loop of `get_all_archives`. */
    method ListArchives(wanted: seq<BackupBackend>, tokens: Option<map<BackupBackend, ListToken>>,
                        list: (BackupBackend, string, Option<ListToken>) -> seq<Archive>)
      returns (r: Result<seq<(BackupBackend, seq<Archive>)>, ArchiveError>)
      ensures r == Listing(wanted, tokens, name, list)
    {
      var pairs: seq<(BackupBackend, seq<Archive>)> := [];
      var i := 0;
      assert wanted[i..] == wanted;
      assert After(pairs, Listing(wanted, tokens, name, list)) == Listing(wanted, tokens, name, list) by {
        if Listing(wanted, tokens, name, list).Success? {
          assert pairs + Listing(wanted, tokens, name, list).value == Listing(wanted, tokens, name, list).value;
        }
      }
      while i < |wanted|
        invariant 0 <= i <= |wanted|
        invariant Listing(wanted, tokens, name, list) == After(pairs, Listing(wanted[i..], tokens, name, list))
      {
        var token: Option<ListToken> := None;
        if tokens.Some? {
          if wanted[i] !in tokens.value {
            ListingStep(wanted, i, tokens, name, list);
            return Failure(NotPrimed(wanted[i]));
          }
          token := Some(tokens.value[wanted[i]]);
        }
        var pair := (wanted[i], list(wanted[i], name, token));
        ListingStep(wanted, i, tokens, name, list);
        AfterAfter(pairs, [pair], Listing(wanted[i + 1..], tokens, name, list));
        pairs := pairs + [pair];
        i := i + 1;
      }
      assert wanted[i..] == [];
      assert pairs + [] == pairs;
      r := Success(pairs);
    }
  }

  /** The names of the given backups. */
  function Names(backups: seq<Backup>): set<string> {
    set b | b in backups :: b.name
  }

  /** `state.get(name, 0)`: the recorded last run, or the epoch. */
  function LastRun<K>(state: map<K, int>, name: K): (t: int)
    ensures name in state ==> t == state[name]
    ensures name !in state ==> t == 0
  {
    if name in state then state[name] else 0
  }

  /** The backups among `backups` that are due, in order, given the run state;
      `None` when some backup's timespec is empty (`next_due_run` raises). */
  function DueAmong(backups: seq<Backup>, state: map<string, int>, now: int, zone: UtcOffset): (r: Option<seq<Backup>>)
    ensures r.Some? <==> forall b :: b in backups ==> |b.timespec| > 0
    ensures r.Some? ==> forall b :: b in r.value ==>
      b in backups && b.ShouldRun(LastRun(state, b.name), now, zone) == Some(true)
    ensures r.Some? ==> forall b :: b in backups && b.ShouldRun(LastRun(state, b.name), now, zone) == Some(true) ==>
      b in r.value
    ensures r.Some? ==> |r.value| <= |backups|
  {
    if |backups| == 0 then Some([])
    else
      var prefix := backups[..|backups| - 1];
      var last := backups[|backups| - 1];
      assert backups == prefix + [last];
      var acc := DueAmong(prefix, state, now, zone);
      var due := last.ShouldRun(LastRun(state, last.name), now, zone);
      if acc.None? || due.None? then None
      else if due.value then Some(acc.value + [last])
      else acc
  }

  class BackupSet {
    const state: map<string, int>
    const configuredBackups: seq<Backup>
    const configMtime: int
    const stateMtime: int
    const now: int
    const zone: UtcOffset

    constructor (state: map<string, int>, configuredBackups: seq<Backup>, configMtime: int,
                 stateMtime: int, now: int, zone: UtcOffset)
      ensures this.state == state && this.configuredBackups == configuredBackups
      ensures this.configMtime == configMtime && this.stateMtime == stateMtime
      ensures this.now == now && this.zone == zone
    {
      this.state := state;
      this.configuredBackups := configuredBackups;
      this.configMtime := configMtime;
      this.stateMtime := stateMtime;
      this.now := now;
      this.zone := zone;
    }

    /** `state_after_backups(backups)`: a copy of the state in which every given
        backup's name maps to `now`; the state itself is left alone. */
    method StateAfterBackups(backups: seq<Backup>) returns (newState: map<string, int>)
      ensures newState.Keys == state.Keys + Names(backups)
      ensures forall n :: n in Names(backups) ==> newState[n] == now
      ensures forall n :: n in state && n !in Names(backups) ==> newState[n] == state[n]
    {
      newState := state;
      var i := 0;
      while i < |backups|
        invariant 0 <= i <= |backups|
        invariant newState.Keys == state.Keys + Names(backups[..i])
        invariant forall n :: n in Names(backups[..i]) ==> newState[n] == now
        invariant forall n :: n in state && n !in Names(backups[..i]) ==> newState[n] == state[n]
      {
        assert backups[..i + 1] == backups[..i] + [backups[i]];
        assert Names(backups[..i + 1]) == Names(backups[..i]) + {backups[i].name};
        newState := newState[backups[i].name := now];
        i := i + 1;
      }
      assert backups[..i] == backups;
    }

    /** `last_run_of_backup(backup)`: the recorded run time, the epoch when absent. */
    function LastRunOfBackup(backup: Backup): (t: int)
      ensures backup.name in state ==> t == state[backup.name]
      ensures backup.name !in state ==> t == 0
    {
      LastRun(state, backup.name)
    }

    /** `backups_due()`: every configured backup when the configuration is newer
        than the state; otherwise those whose `should_run` holds, in order. */
    method BackupsDue() returns (r: Option<seq<Backup>>)
      ensures configMtime > stateMtime ==> r == Some(configuredBackups)
      ensures configMtime <= stateMtime ==> r == DueAmong(configuredBackups, state, now, zone)
    {
      if configMtime > stateMtime {
        return Some(configuredBackups);
      }
      var due: seq<Backup> := [];
      var i := 0;
      while i < |configuredBackups|
        invariant 0 <= i <= |configuredBackups|
        invariant DueAmong(configuredBackups[..i], state, now, zone) == Some(due)
      {
        var backup := configuredBackups[i];
        assert configuredBackups[..i + 1][..i] == configuredBackups[..i];
        var should := backup.ShouldRun(LastRunOfBackup(backup), now, zone);
        if should.None? {
          DueAmongNoneExtends(configuredBackups, i + 1, state, now, zone);
          return None;
        }
        if should.value {
          due := due + [backup];
        }
        i := i + 1;
      }
      assert configuredBackups[..i] == configuredBackups;
      r := Some(due);
    }
  }

  /** `r` is the sub-sequence of `s` taken at the ascending positions `p`. */
  predicate SubsequenceAt<T(==)>(r: seq<T>, s: seq<T>, p: seq<int>) {
    |p| == |r| &&
    (forall k :: 0 <= k < |p| ==> 0 <= p[k] < |s| && r[k] == s[p[k]]) &&
    (forall k, l :: 0 <= k < l < |p| ==> p[k] < p[l])
  }

  /** Extending `s` by `x`, and the sub-sequence by `x` when it is kept: the
      positions grow by the new last position exactly when `x` is kept. */
  lemma SubsequenceStep<T>(r: seq<T>, s: seq<T>, q: seq<int>, x: T, keep: bool) returns (p: seq<int>)
    requires SubsequenceAt(r, s, q)
    ensures SubsequenceAt(if keep then r + [x] else r, s + [x], p)
    ensures forall i :: i in p <==> i in q || (keep && i == |s|)
  {
    p := if keep then q + [|s|] else q;
  }

  /** The due backups come out in configured order: the result is the
      sub-sequence of `backups` at exactly the positions whose backup is due. */
  lemma {:induction false} DueAmongInOrder(backups: seq<Backup>, state: map<string, int>, now: int, zone: UtcOffset)
    returns (p: seq<int>)
    requires DueAmong(backups, state, now, zone).Some?
    ensures SubsequenceAt(DueAmong(backups, state, now, zone).value, backups, p)
    ensures forall i :: 0 <= i < |backups| ==>
      (i in p <==> backups[i].ShouldRun(LastRun(state, backups[i].name), now, zone) == Some(true))
  {
    if |backups| == 0 {
      return [];
    }
    var n := |backups| - 1;
    var prefix := backups[..n];
    assert backups == prefix + [backups[n]];
    var q := DueAmongInOrder(prefix, state, now, zone);
    var due := backups[n].ShouldRun(LastRun(state, backups[n].name), now, zone) == Some(true);
    var before := DueAmong(prefix, state, now, zone).value;
    assert DueAmong(backups, state, now, zone).value == if due then before + [backups[n]] else before;
    p := SubsequenceStep(before, prefix, q, backups[n], due);
    forall i | 0 <= i < |backups|
      ensures i in p <==> backups[i].ShouldRun(LastRun(state, backups[i].name), now, zone) == Some(true)
    {
      if i < n {
        assert backups[i] == prefix[i];
      }
    }
  }

  /** Once a prefix has a backup with an empty timespec, so has every extension. */
  lemma DueAmongNoneExtends(backups: seq<Backup>, k: int, state: map<string, int>, now: int, zone: UtcOffset)
    requires 0 <= k <= |backups|
    requires DueAmong(backups[..k], state, now, zone).None?
    ensures DueAmong(backups, state, now, zone).None?
  {
    var b :| b in backups[..k] && |b.timespec| == 0;
    assert b in backups;
  }

  /** A backup is never due at the instant it last ran. */
  lemma NotDueAtOwnRunTime(backup: Backup, t: int, zone: UtcOffset)
    requires |backup.timespec| > 0
    ensures backup.ShouldRun(t, t, zone) == Some(false)
  {
    NextDueRunBounds(backup.timespec, t, zone);
  }

  /** A backup that has never run is due once the clock is past 1970-02-01. */
  lemma NeverRunIsDue(backup: Backup, state: map<string, int>, now: int, zone: UtcOffset)
    requires |backup.timespec| > 0 && backup.name !in state && now > MaxGap
    ensures backup.ShouldRun(LastRun(state, backup.name), now, zone) == Some(true)
  {
  }

  /** Recording the runs and asking again at the same instant: none of the backups
      just run is due. */
  lemma JustRunNotDue(backups: seq<Backup>, state: map<string, int>, newState: map<string, int>,
                      now: int, zone: UtcOffset)
    requires forall b :: b in backups ==> |b.timespec| > 0
    requires forall b :: b in backups ==> b.name in newState && newState[b.name] == now
    ensures forall b :: b in backups ==> b.ShouldRun(LastRun(newState, b.name), now, zone) == Some(false)
  {
    forall b | b in backups
      ensures b.ShouldRun(LastRun(newState, b.name), now, zone) == Some(false)
    {
      NotDueAtOwnRunTime(b, now, zone);
    }
  }
}
