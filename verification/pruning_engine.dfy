/**
 * The retention engine: one pass over the archives, newest first, keeping the
 * fresh ones (under a day old) and, within quotas, one representative per day,
 * week and month bucket; everything else is prunable.
 *
 * Archive times are UTC instants, so the buckets are UTC days, weeks and months.
 * An archive is identified by its position in the sorted list (the source keeps
 * archive objects in a set, compared by identity).
 */
module Pruning {
  import opened Calendar
  import opened TimeUtilities
  import opened BackendTypes

  /** The pruning configuration's quotas. */
  datatype PruningConfig = PruningConfig(dailyCount: int, weeklyCount: int, monthlyCount: int)

  /** What the pass decides for one archive. */
  datatype Tier = Fresh | Daily | Weekly | Monthly | Prunable

  /** The day, week and month buckets already holding a representative, with
      the number of representatives kept in each tier (the lengths of the
      source's three dictionaries). */
  datatype Claimed = Claimed(days: set<int>, weeks: set<int>, months: set<int>,
                             dailyKept: nat, weeklyKept: nat, monthlyKept: nat)

  /** Newer first: `a` sorts no later than `b`. */
  predicate NewerOrSame(a: Archive, b: Archive) {
    a.timestamp >= b.timestamp
  }

  predicate NewestFirst(s: seq<Archive>) {
    forall i, j :: 0 <= i < j < |s| ==> NewerOrSame(s[i], s[j])
  }

  /** Insert `a` into a newest-first list after every archive at least as new. */
  function Insert(a: Archive, s: seq<Archive>): seq<Archive> {
    if |s| == 0 then [a]
    else if NewerOrSame(s[0], a) then [s[0]] + Insert(a, s[1..])
    else [a] + s
  }

  /** `sorted(archives, newest first)`, stable: insertion of each archive in turn. */
  function SortNewestFirst(archives: seq<Archive>): seq<Archive> {
    if |archives| == 0 then []
    else Insert(archives[|archives| - 1], SortNewestFirst(archives[..|archives| - 1]))
  }

  /** Insertion adds exactly one copy of `a`. */
  lemma {:induction false} InsertMultiset(a: Archive, s: seq<Archive>)
    ensures multiset(Insert(a, s)) == multiset(s) + multiset{a}
  {
    if |s| > 0 && NewerOrSame(s[0], a) {
      InsertMultiset(a, s[1..]);
      assert s == [s[0]] + s[1..];
    }
  }

  /** Insertion into a newest-first list keeps it newest first. */
  lemma {:induction false} InsertSorted(a: Archive, s: seq<Archive>)
    requires NewestFirst(s)
    ensures NewestFirst(Insert(a, s))
  {
    if |s| > 0 && NewerOrSame(s[0], a) {
      var rest := s[1..];
      var r := Insert(a, rest);
      InsertSorted(a, rest);
      InsertMultiset(a, rest);
      forall j | 0 <= j < |r|
        ensures NewerOrSame(s[0], r[j])
      {
        assert r[j] in multiset(r);
        if r[j] != a {
          assert r[j] in multiset(rest);
          var k :| 0 <= k < |rest| && rest[k] == r[j];
          assert s[k + 1] == r[j];
        }
      }
      assert Insert(a, s) == [s[0]] + r;
    }
  }

  /** The sorted list is newest first. */
  lemma {:induction false} SortNewestFirstSorted(archives: seq<Archive>)
    ensures NewestFirst(SortNewestFirst(archives))
  {
    if |archives| > 0 {
      var prefix := archives[..|archives| - 1];
      SortNewestFirstSorted(prefix);
      InsertSorted(archives[|archives| - 1], SortNewestFirst(prefix));
    }
  }

  /** The sorted list holds exactly the given archives. */
  lemma {:induction false} SortNewestFirstPermutes(archives: seq<Archive>)
    ensures multiset(SortNewestFirst(archives)) == multiset(archives)
  {
    if |archives| > 0 {
      var prefix := archives[..|archives| - 1];
      SortNewestFirstPermutes(prefix);
      InsertMultiset(archives[|archives| - 1], SortNewestFirst(prefix));
      assert archives == prefix + [archives[|archives| - 1]];
    }
  }

  /** `since.days < 1` for `since = now - archive.datetime`: under 24 hours old,
      including an archive dated in the future. */
  predicate IsFresh(a: Archive, now: int) {
    now - a.timestamp < SecondsPerDay
  }

  /** The tier of archive `a` given the buckets claimed by the newer archives. */
  function Classify(c: Claimed, a: Archive, now: int, config: PruningConfig): Tier {
    if IsFresh(a, now) then Fresh
    else if c.dailyKept < config.dailyCount && Day(a.timestamp) !in c.days then Daily
    else if c.weeklyKept < config.weeklyCount && Week(a.timestamp) !in c.weeks then Weekly
    else if c.monthlyKept < config.monthlyCount && Month(a.timestamp) !in c.months then Monthly
    else Prunable
  }

  /** The buckets claimed once `a` is kept with tier `t`. */
  function Claim(c: Claimed, a: Archive, t: Tier): Claimed {
    match t
    case Daily => c.(days := c.days + {Day(a.timestamp)}, dailyKept := c.dailyKept + 1)
    case Weekly => c.(weeks := c.weeks + {Week(a.timestamp)}, weeklyKept := c.weeklyKept + 1)
    case Monthly => c.(months := c.months + {Month(a.timestamp)}, monthlyKept := c.monthlyKept + 1)
    case _ => c
  }

  /** The buckets claimed once the pass has classified `s[..i]`. */
  function ClaimedBy(s: seq<Archive>, i: int, now: int, config: PruningConfig): Claimed
    requires 0 <= i <= |s|
  {
    if i == 0 then Claimed({}, {}, {}, 0, 0, 0)
    else
      var c := ClaimedBy(s, i - 1, now, config);
      Claim(c, s[i - 1], Classify(c, s[i - 1], now, config))
  }

  /** The tier the pass gives to `s[i]`. */
  function TierOf(s: seq<Archive>, i: int, now: int, config: PruningConfig): Tier
    requires 0 <= i < |s|
  {
    Classify(ClaimedBy(s, i, now, config), s[i], now, config)
  }

  /** Whether the pass keeps each archive of `s`: its tier is not `Prunable`. */
  function KeptFlags(s: seq<Archive>, now: int, config: PruningConfig): (kept: seq<bool>)
    ensures |kept| == |s|
  {
    seq(|s|, j requires 0 <= j < |s| => TierOf(s, j, now, config) != Prunable)
  }

  /** The archives of `s[..i]` not flagged in `kept`, in order. */
  function Unkept(s: seq<Archive>, kept: seq<bool>, i: int): seq<Archive>
    requires 0 <= i <= |s| == |kept|
  {
    if i == 0 then []
    else Unkept(s, kept, i - 1) + (if kept[i - 1] then [] else [s[i - 1]])
  }

  /** The positions below `i` flagged in `kept`. */
  function KeptPositions(kept: seq<bool>, i: int): set<nat>
    requires 0 <= i <= |kept|
  {
    if i == 0 then {}
    else KeptPositions(kept, i - 1) + (if kept[i - 1] then {i - 1} else {})
  }

  /** The archives of `s` the pass leaves prunable, in order. */
  function PrunableOf(s: seq<Archive>, now: int, config: PruningConfig): seq<Archive> {
    Unkept(s, KeptFlags(s, now, config), |s|)
  }

  /** The positions below `i` that the pass keeps. */
  function KeptBelow(s: seq<Archive>, i: int, now: int, config: PruningConfig): set<nat>
    requires 0 <= i <= |s|
  {
    KeptPositions(KeptFlags(s, now, config), i)
  }

  /** Position `j` is among the flagged positions below `i` exactly when it is
      below `i` and flagged. */
  lemma {:induction false} KeptPositionsHas(kept: seq<bool>, i: int, j: int)
    requires 0 <= i <= |kept|
    ensures j in KeptPositions(kept, i) <==> 0 <= j < i && kept[j]
  {
    if i > 0 {
      KeptPositionsHas(kept, i - 1, j);
    }
  }

  /** `d.values()` of a bucket -> position dictionary. */
  function ValuesOf(m: map<int, nat>): set<nat> {
    set k | k in m :: m[k]
  }

  lemma ValuesAdd(m: map<int, nat>, k: int, v: nat)
    requires k !in m
    ensures m[k := v].Keys == m.Keys + {k}
    ensures ValuesOf(m[k := v]) == ValuesOf(m) + {v}
  {
    var m' := m[k := v];
    assert m'[k] == v;
    forall x | x in ValuesOf(m)
      ensures x in ValuesOf(m')
    {
      var key :| key in m && m[key] == x;
      assert m'[key] == x;
    }
    forall x | x in ValuesOf(m')
      ensures x in ValuesOf(m) + {v}
    {
      var key :| key in m' && m'[key] == x;
      if key != k {
        assert m[key] == x;
      }
    }
  }

  /** The dictionaries of `prunable_archives` hold the claimed buckets as keys
      and their lengths are the kept counts. */
  ghost predicate ClaimsHeld(c: Claimed, daily: map<int, nat>, weekly: map<int, nat>, monthly: map<int, nat>) {
    c == Claimed(daily.Keys, weekly.Keys, monthly.Keys, |daily|, |weekly|, |monthly|)
  }

  /** The fresh positions together with the dictionaries' values are the kept positions. */
  ghost predicate KeptHeld(kept: set<nat>, freshOnes: set<nat>,
                           daily: map<int, nat>, weekly: map<int, nat>, monthly: map<int, nat>) {
    freshOnes + ValuesOf(daily) + ValuesOf(weekly) + ValuesOf(monthly) == kept
  }

  /** Filing position `i` under a dictionary whose keys lack `key` adds `key`
      to its keys, one to its length and `i` to its values. */
  lemma FileUnder(m: map<int, nat>, key: int, i: nat)
    requires key !in m
    ensures m[key := i].Keys == m.Keys + {key}
    ensures |m[key := i]| == |m| + 1
    ensures ValuesOf(m[key := i]) == ValuesOf(m) + {i}
  {
    ValuesAdd(m, key, i);
  }

  /** The kept positions below `i + 1` add `i` to those below `i` exactly when
      `s[i]` is not prunable. */
  lemma KeptStep(s: seq<Archive>, i: int, now: int, config: PruningConfig)
    requires 0 <= i < |s|
    ensures KeptBelow(s, i + 1, now, config) ==
      KeptBelow(s, i, now, config) + (if TierOf(s, i, now, config) != Prunable then {i} else {})
  {
    var kept := KeptFlags(s, now, config);
    assert kept[i] == (TierOf(s, i, now, config) != Prunable);
  }

  /* One lemma for each branch of the loop body: given the branch's condition
     on the dictionaries, the tier `Classify` gives archive `a` (at position
     `i`), and the claims and kept positions after it. */

  /** A fresh archive is kept and claims nothing. */
  lemma ClaimFresh(c: Claimed, a: Archive, i: nat, now: int, config: PruningConfig, kept: set<nat>,
      freshOnes: set<nat>, daily: map<int, nat>, weekly: map<int, nat>, monthly: map<int, nat>)
    requires ClaimsHeld(c, daily, weekly, monthly)
    requires KeptHeld(kept, freshOnes, daily, weekly, monthly)
    requires IsFresh(a, now)
    ensures Classify(c, a, now, config) == Fresh
    ensures ClaimsHeld(Claim(c, a, Fresh), daily, weekly, monthly)
    ensures KeptHeld(kept + {i}, freshOnes + {i}, daily, weekly, monthly)
  {
  }

  /** The first tier with room and a free bucket keeps the archive. */
  lemma ClaimDaily(c: Claimed, a: Archive, i: nat, now: int, config: PruningConfig, kept: set<nat>,
      freshOnes: set<nat>, daily: map<int, nat>, weekly: map<int, nat>, monthly: map<int, nat>)
    requires ClaimsHeld(c, daily, weekly, monthly)
    requires KeptHeld(kept, freshOnes, daily, weekly, monthly)
    requires !IsFresh(a, now)
    requires |daily| < config.dailyCount && Day(a.timestamp) !in daily
    ensures Classify(c, a, now, config) == Daily
    ensures ClaimsHeld(Claim(c, a, Daily), daily[Day(a.timestamp) := i], weekly, monthly)
    ensures KeptHeld(kept + {i}, freshOnes, daily[Day(a.timestamp) := i], weekly, monthly)
  {
    FileUnder(daily, Day(a.timestamp), i);
  }

  /** The first tier with room and a free bucket keeps the archive. */
  lemma ClaimWeekly(c: Claimed, a: Archive, i: nat, now: int, config: PruningConfig, kept: set<nat>,
      freshOnes: set<nat>, daily: map<int, nat>, weekly: map<int, nat>, monthly: map<int, nat>)
    requires ClaimsHeld(c, daily, weekly, monthly)
    requires KeptHeld(kept, freshOnes, daily, weekly, monthly)
    requires !IsFresh(a, now)
    requires !(|daily| < config.dailyCount && Day(a.timestamp) !in daily)
    requires |weekly| < config.weeklyCount && Week(a.timestamp) !in weekly
    ensures Classify(c, a, now, config) == Weekly
    ensures ClaimsHeld(Claim(c, a, Weekly), daily, weekly[Week(a.timestamp) := i], monthly)
    ensures KeptHeld(kept + {i}, freshOnes, daily, weekly[Week(a.timestamp) := i], monthly)
  {
    FileUnder(weekly, Week(a.timestamp), i);
  }

  /** The first tier with room and a free bucket keeps the archive. */
  lemma ClaimMonthly(c: Claimed, a: Archive, i: nat, now: int, config: PruningConfig, kept: set<nat>,
      freshOnes: set<nat>, daily: map<int, nat>, weekly: map<int, nat>, monthly: map<int, nat>)
    requires ClaimsHeld(c, daily, weekly, monthly)
    requires KeptHeld(kept, freshOnes, daily, weekly, monthly)
    requires !IsFresh(a, now)
    requires !(|daily| < config.dailyCount && Day(a.timestamp) !in daily)
    requires !(|weekly| < config.weeklyCount && Week(a.timestamp) !in weekly)
    requires |monthly| < config.monthlyCount && Month(a.timestamp) !in monthly
    ensures Classify(c, a, now, config) == Monthly
    ensures ClaimsHeld(Claim(c, a, Monthly), daily, weekly, monthly[Month(a.timestamp) := i])
    ensures KeptHeld(kept + {i}, freshOnes, daily, weekly, monthly[Month(a.timestamp) := i])
  {
    FileUnder(monthly, Month(a.timestamp), i);
  }

  /** An archive no tier takes is prunable and claims nothing. */
  lemma ClaimNone(c: Claimed, a: Archive, i: nat, now: int, config: PruningConfig, kept: set<nat>,
      freshOnes: set<nat>, daily: map<int, nat>, weekly: map<int, nat>, monthly: map<int, nat>)
    requires ClaimsHeld(c, daily, weekly, monthly)
    requires KeptHeld(kept, freshOnes, daily, weekly, monthly)
    requires !IsFresh(a, now)
    requires !(|daily| < config.dailyCount && Day(a.timestamp) !in daily)
    requires !(|weekly| < config.weeklyCount && Week(a.timestamp) !in weekly)
    requires !(|monthly| < config.monthlyCount && Month(a.timestamp) !in monthly)
    ensures Classify(c, a, now, config) == Prunable
    ensures ClaimsHeld(Claim(c, a, Prunable), daily, weekly, monthly)
    ensures KeptHeld(kept, freshOnes, daily, weekly, monthly)
  {
  }

  class PruningEngine {
    const config: PruningConfig

    constructor (config: PruningConfig)
      ensures this.config == config
    {
      this.config := config;
    }

    /** One iteration of the classification loop: file `archive`, at position
        `i`, as fresh or under the first dictionary with room and without its
        bucket. `c` and `kept` are the claims and kept positions so far. */
    method ClassifyOne(archive: Archive, i: nat, now: int, ghost c: Claimed, ghost kept: set<nat>,
                       freshOnes: set<nat>, daily: map<int, nat>, weekly: map<int, nat>, monthly: map<int, nat>)
      returns (freshOnes': set<nat>, daily': map<int, nat>, weekly': map<int, nat>, monthly': map<int, nat>)
      requires ClaimsHeld(c, daily, weekly, monthly)
      requires KeptHeld(kept, freshOnes, daily, weekly, monthly)
      ensures ClaimsHeld(Claim(c, archive, Classify(c, archive, now, config)), daily', weekly', monthly')
      ensures KeptHeld(kept + (if Classify(c, archive, now, config) != Prunable then {i} else {}),
                       freshOnes', daily', weekly', monthly')
    {
      freshOnes', daily', weekly', monthly' := freshOnes, daily, weekly, monthly;
      var archiveDay := Day(archive.timestamp);
      var archiveWeek := Week(archive.timestamp);
      var archiveMonth := Month(archive.timestamp);
      if now - archive.timestamp < SecondsPerDay {
        ClaimFresh(c, archive, i, now, config, kept, freshOnes, daily, weekly, monthly);
        freshOnes' := freshOnes + {i};
      } else if |daily| < config.dailyCount && archiveDay !in daily {
        ClaimDaily(c, archive, i, now, config, kept, freshOnes, daily, weekly, monthly);
        daily' := daily[archiveDay := i];
      } else if |weekly| < config.weeklyCount && archiveWeek !in weekly {
        ClaimWeekly(c, archive, i, now, config, kept, freshOnes, daily, weekly, monthly);
        weekly' := weekly[archiveWeek := i];
      } else if |monthly| < config.monthlyCount && archiveMonth !in monthly {
        ClaimMonthly(c, archive, i, now, config, kept, freshOnes, daily, weekly, monthly);
        monthly' := monthly[archiveMonth := i];
      } else {
        ClaimNone(c, archive, i, now, config, kept, freshOnes, daily, weekly, monthly);
      }
    }

    /** The classification loop of `prunable_archives`: the positions of the
        sorted archives kept as fresh or as a daily, weekly or monthly
        representative. */
    method SavedPositions(sorted: seq<Archive>, now: int) returns (saved: set<nat>)
      ensures saved == KeptBelow(sorted, |sorted|, now, config)
      ensures forall j :: j in saved <==> 0 <= j < |sorted| && TierOf(sorted, j, now, config) != Prunable
    {
      ghost var kept := KeptFlags(sorted, now, config);
      var freshOnes: set<nat> := {};
      var dailySaved: map<int, nat> := map[];
      var weeklySaved: map<int, nat> := map[];
      var monthlySaved: map<int, nat> := map[];
      var i: nat := 0;
      while i < |sorted|
        invariant i <= |sorted|
        invariant ClaimsHeld(ClaimedBy(sorted, i, now, config), dailySaved, weeklySaved, monthlySaved)
        invariant KeptHeld(KeptBelow(sorted, i, now, config), freshOnes, dailySaved, weeklySaved, monthlySaved)
      {
        KeptStep(sorted, i, now, config);
        freshOnes, dailySaved, weeklySaved, monthlySaved :=
          ClassifyOne(sorted[i], i, now, ClaimedBy(sorted, i, now, config), KeptBelow(sorted, i, now, config),
                      freshOnes, dailySaved, weeklySaved, monthlySaved);
        i := i + 1;
      }
      saved := freshOnes + ValuesOf(dailySaved) + ValuesOf(weeklySaved) + ValuesOf(monthlySaved);
      forall j
        ensures j in saved <==> 0 <= j < |sorted| && TierOf(sorted, j, now, config) != Prunable
      {
        KeptPositionsHas(kept, |sorted|, j);
        if 0 <= j < |sorted| {
          assert kept[j] == (TierOf(sorted, j, now, config) != Prunable);
        }
      }
    }

    /** `prunable_archives(archives)` at clock reading `now`: sort newest first,
        classify each archive in turn, and return, in sorted order, those neither
        fresh nor kept as a daily, weekly or monthly representative. */
    method PrunableArchives(archives: seq<Archive>, now: int) returns (prunable: seq<Archive>)
      ensures prunable == PrunableOf(SortNewestFirst(archives), now, config)
    {
      var sorted := SortNewestFirst(archives);
      var saved := SavedPositions(sorted, now);
      ghost var kept := KeptFlags(sorted, now, config);
      forall j
        ensures j in saved <==> 0 <= j < |sorted| && kept[j]
      {
        KeptPositionsHas(kept, |sorted|, j);
      }
      prunable := Unsaved(sorted, saved, kept);
    }

    /** The closing list comprehension of `prunable_archives`: the archives of
        `sorted`, in order, whose positions are not in `saved`. */
    method Unsaved(sorted: seq<Archive>, saved: set<nat>, ghost kept: seq<bool>) returns (prunable: seq<Archive>)
      requires |kept| == |sorted|
      requires forall j :: j in saved <==> 0 <= j < |sorted| && kept[j]
      ensures prunable == Unkept(sorted, kept, |sorted|)
    {
      prunable := [];
      var i := 0;
      while i < |sorted|
        invariant 0 <= i <= |sorted|
        invariant prunable == Unkept(sorted, kept, i)
      {
        if i !in saved {
          prunable := prunable + [sorted[i]];
        }
        i := i + 1;
      }
    }

    /** `prune_archives(archives)`: destroy each given archive once, in order;
        the result is the sequence of `destroy` calls made. */
    method PruneArchives(archives: seq<Archive>) returns (destroyed: seq<Archive>)
      ensures destroyed == archives
    {
      destroyed := [];
      var i := 0;
      while i < |archives|
        invariant 0 <= i <= |archives|
        invariant destroyed == archives[..i]
      {
        destroyed := destroyed + [archives[i]];
        i := i + 1;
      }
      assert archives[..i] == archives;
    }
  }
}
