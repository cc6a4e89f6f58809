/**
 * What the retention pass guarantees: fresh archives survive, each tier keeps
 * at most its quota of representatives in distinct buckets, a daily
 * representative is the newest non-fresh archive of its day, and the prunable
 * list is the ordered remainder of the sorted archives.
 */
module PruningProperties {
  import opened Calendar
  import opened TimeUtilities
  import opened BackendTypes
  import opened Pruning

  /** The tiers that keep one archive per bucket. */
  predicate IsRepresentative(t: Tier) {
    t == Daily || t == Weekly || t == Monthly
  }

  /** The bucket key a representative tier files an instant under. */
  function Bucket(t: Tier, timestamp: int): int
    requires IsRepresentative(t)
  {
    match t
    case Daily => Day(timestamp)
    case Weekly => Week(timestamp)
    case _ => Month(timestamp)
  }

  /** The buckets of tier `t` already holding a representative. */
  function ClaimedIn(c: Claimed, t: Tier): set<int>
    requires IsRepresentative(t)
  {
    match t
    case Daily => c.days
    case Weekly => c.weeks
    case _ => c.months
  }

  /** The number of representatives kept so far in tier `t`. */
  function KeptIn(c: Claimed, t: Tier): nat
    requires IsRepresentative(t)
  {
    match t
    case Daily => c.dailyKept
    case Weekly => c.weeklyKept
    case _ => c.monthlyKept
  }

  /** The quota of tier `t`. */
  function Quota(config: PruningConfig, t: Tier): int
    requires IsRepresentative(t)
  {
    match t
    case Daily => config.dailyCount
    case Weekly => config.weeklyCount
    case _ => config.monthlyCount
  }

  /** How many of the positions below `i` get tier `t`. */
  function TierCount(s: seq<Archive>, i: int, t: Tier, now: int, config: PruningConfig): nat
    requires 0 <= i <= |s|
  {
    if i == 0 then 0
    else TierCount(s, i - 1, t, now, config) + (if TierOf(s, i - 1, now, config) == t then 1 else 0)
  }

  /** Whether each archive of `s` is fresh. */
  function FreshFlags(s: seq<Archive>, now: int): (flags: seq<bool>)
    ensures |flags| == |s|
  {
    seq(|s|, j requires 0 <= j < |s| => IsFresh(s[j], now))
  }

  /** The archives of `s` that are not fresh, in order. */
  function StaleOf(s: seq<Archive>, now: int): seq<Archive> {
    Unkept(s, FreshFlags(s, now), |s|)
  }

  /** One classification, seen from one representative tier: archive `a`
      gets tier `t` only when its bucket is unclaimed and the quota has room,
      and then it claims that bucket and nothing else in tier `t`. */
  lemma ClassifyClaims(c: Claimed, a: Archive, t: Tier, now: int, config: PruningConfig)
    requires IsRepresentative(t)
    ensures Classify(c, a, now, config) == t ==>
      Bucket(t, a.timestamp) !in ClaimedIn(c, t) && KeptIn(c, t) < Quota(config, t)
    ensures ClaimedIn(Claim(c, a, Classify(c, a, now, config)), t) ==
      ClaimedIn(c, t) + (if Classify(c, a, now, config) == t then {Bucket(t, a.timestamp)} else {})
    ensures KeptIn(Claim(c, a, Classify(c, a, now, config)), t) ==
      KeptIn(c, t) + (if Classify(c, a, now, config) == t then 1 else 0)
  {
  }

  /** The step of `ClassifyClaims` at position `i` of the pass. */
  lemma ClaimStep(s: seq<Archive>, i: int, t: Tier, now: int, config: PruningConfig)
    requires 0 <= i < |s| && IsRepresentative(t)
    ensures TierOf(s, i, now, config) == t ==>
      Bucket(t, s[i].timestamp) !in ClaimedIn(ClaimedBy(s, i, now, config), t) &&
      KeptIn(ClaimedBy(s, i, now, config), t) < Quota(config, t)
    ensures ClaimedIn(ClaimedBy(s, i + 1, now, config), t) ==
      ClaimedIn(ClaimedBy(s, i, now, config), t) +
      (if TierOf(s, i, now, config) == t then {Bucket(t, s[i].timestamp)} else {})
    ensures KeptIn(ClaimedBy(s, i + 1, now, config), t) ==
      KeptIn(ClaimedBy(s, i, now, config), t) + (if TierOf(s, i, now, config) == t then 1 else 0)
  {
    ClassifyClaims(ClaimedBy(s, i, now, config), s[i], t, now, config);
  }

  /** Claimed buckets only accumulate along the pass. */
  lemma {:induction false} ClaimedGrows(s: seq<Archive>, j: int, i: int, t: Tier, now: int, config: PruningConfig)
    requires 0 <= j <= i <= |s| && IsRepresentative(t)
    ensures ClaimedIn(ClaimedBy(s, j, now, config), t) <= ClaimedIn(ClaimedBy(s, i, now, config), t)
    decreases i
  {
    if j < i {
      ClaimedGrows(s, j, i - 1, t, now, config);
      ClassifyClaims(ClaimedBy(s, i - 1, now, config), s[i - 1], t, now, config);
    }
  }

  /** Kept counts only grow along the pass. */
  lemma {:induction false} KeptGrows(s: seq<Archive>, j: int, i: int, t: Tier, now: int, config: PruningConfig)
    requires 0 <= j <= i <= |s| && IsRepresentative(t)
    ensures KeptIn(ClaimedBy(s, j, now, config), t) <= KeptIn(ClaimedBy(s, i, now, config), t)
    decreases i
  {
    if j < i {
      KeptGrows(s, j, i - 1, t, now, config);
      ClassifyClaims(ClaimedBy(s, i - 1, now, config), s[i - 1], t, now, config);
    }
  }

  lemma ClaimedStaysClaimed(s: seq<Archive>, k: int, i: int, t: Tier, now: int, config: PruningConfig)
    requires 0 <= k < i <= |s| && IsRepresentative(t) && TierOf(s, k, now, config) == t
    ensures Bucket(t, s[k].timestamp) in ClaimedIn(ClaimedBy(s, i, now, config), t)
  {
    ClaimStep(s, k, t, now, config);
    ClaimedGrows(s, k + 1, i, t, now, config);
  }

  /** A claimed bucket was claimed by an earlier representative of its tier. */
  lemma {:induction false} ClaimedByWhom(s: seq<Archive>, i: int, t: Tier, b: int, now: int, config: PruningConfig)
    returns (k: int)
    requires 0 <= i <= |s| && IsRepresentative(t)
    requires b in ClaimedIn(ClaimedBy(s, i, now, config), t)
    ensures 0 <= k < i && TierOf(s, k, now, config) == t && Bucket(t, s[k].timestamp) == b
  {
    ClaimStep(s, i - 1, t, now, config);
    if b in ClaimedIn(ClaimedBy(s, i - 1, now, config), t) {
      k := ClaimedByWhom(s, i - 1, t, b, now, config);
    } else {
      k := i - 1;
    }
  }

  /** A bucket is claimed exactly when an earlier archive of tier `t` lies in it. */
  lemma ClaimedAre(s: seq<Archive>, i: int, t: Tier, b: int, now: int, config: PruningConfig)
    requires 0 <= i <= |s| && IsRepresentative(t)
    ensures b in ClaimedIn(ClaimedBy(s, i, now, config), t) <==>
      exists k :: 0 <= k < i && TierOf(s, k, now, config) == t && Bucket(t, s[k].timestamp) == b
  {
    if b in ClaimedIn(ClaimedBy(s, i, now, config), t) {
      var k := ClaimedByWhom(s, i, t, b, now, config);
    } else {
      forall k | 0 <= k < i && TierOf(s, k, now, config) == t
        ensures Bucket(t, s[k].timestamp) != b
      {
        ClaimedStaysClaimed(s, k, i, t, now, config);
      }
    }
  }

  /** Each tier keeps at most its quota of representatives (none when the quota is not positive). */
  lemma {:induction false} QuotaRespected(s: seq<Archive>, i: int, t: Tier, now: int, config: PruningConfig)
    requires 0 <= i <= |s| && IsRepresentative(t)
    ensures KeptIn(ClaimedBy(s, i, now, config), t) <= if Quota(config, t) < 0 then 0 else Quota(config, t)
  {
    if i > 0 {
      QuotaRespected(s, i - 1, t, now, config);
      ClassifyClaims(ClaimedBy(s, i - 1, now, config), s[i - 1], t, now, config);
    }
  }

  /** The kept count of tier `t` counts the archives the pass gives tier `t`. */
  lemma {:induction false} KeptCountsTier(s: seq<Archive>, i: int, t: Tier, now: int, config: PruningConfig)
    requires 0 <= i <= |s| && IsRepresentative(t)
    ensures TierCount(s, i, t, now, config) == KeptIn(ClaimedBy(s, i, now, config), t)
  {
    if i > 0 {
      KeptCountsTier(s, i - 1, t, now, config);
      ClassifyClaims(ClaimedBy(s, i - 1, now, config), s[i - 1], t, now, config);
    }
  }

  /** Every representative claims a bucket of its own: there are as many
      claimed buckets of tier `t` as representatives kept in it. */
  lemma {:induction false} OneBucketEach(s: seq<Archive>, i: int, t: Tier, now: int, config: PruningConfig)
    requires 0 <= i <= |s| && IsRepresentative(t)
    ensures |ClaimedIn(ClaimedBy(s, i, now, config), t)| == KeptIn(ClaimedBy(s, i, now, config), t)
  {
    if i > 0 {
      OneBucketEach(s, i - 1, t, now, config);
      ClaimKeepsOneBucketEach(ClaimedBy(s, i - 1, now, config), s[i - 1], t, now, config);
    }
  }

  /** One classification keeps the claimed buckets of tier `t` as many as its kept count. */
  lemma ClaimKeepsOneBucketEach(c: Claimed, a: Archive, t: Tier, now: int, config: PruningConfig)
    requires IsRepresentative(t) && |ClaimedIn(c, t)| == KeptIn(c, t)
    ensures |ClaimedIn(Claim(c, a, Classify(c, a, now, config)), t)| == KeptIn(Claim(c, a, Classify(c, a, now, config)), t)
  {
    ClassifyClaims(c, a, t, now, config);
  }



  /** At most the quota of archives is kept as representatives of tier `t`. */
  lemma AtMostQuota(s: seq<Archive>, t: Tier, now: int, config: PruningConfig)
    requires IsRepresentative(t)
    ensures TierCount(s, |s|, t, now, config) <= if Quota(config, t) < 0 then 0 else Quota(config, t)
  {
    KeptCountsTier(s, |s|, t, now, config);
    QuotaRespected(s, |s|, t, now, config);
  }

  /** Two representatives of the same tier lie in different buckets. */
  lemma DistinctBuckets(s: seq<Archive>, j: int, k: int, t: Tier, now: int, config: PruningConfig)
    requires 0 <= j < k < |s| && IsRepresentative(t)
    requires TierOf(s, j, now, config) == t && TierOf(s, k, now, config) == t
    ensures Bucket(t, s[j].timestamp) != Bucket(t, s[k].timestamp)
  {
    ClaimStep(s, j, t, now, config);
    ClaimedGrows(s, j + 1, k, t, now, config);
    ClaimStep(s, k, t, now, config);
  }

  /** A daily representative is the first non-fresh archive of its day in the
      pass: every archive before it in the same day is fresh. */
  lemma DailyIsFirstOfItsDay(s: seq<Archive>, k: int, j: int, now: int, config: PruningConfig)
    requires 0 <= k < j < |s|
    requires TierOf(s, j, now, config) == Daily
    requires Day(s[k].timestamp) == Day(s[j].timestamp)
    ensures IsFresh(s[k], now)
  {
    ClaimStep(s, k, Daily, now, config);
    ClaimedGrows(s, k, j, Daily, now, config);
    ClaimedGrows(s, k + 1, j, Daily, now, config);
    KeptGrows(s, k, j, Daily, now, config);
    ClaimStep(s, j, Daily, now, config);
  }

  /** When `s` is sorted newest first, a daily representative is the most
      recent non-fresh archive of its day. */
  lemma DailyIsNewestOfItsDay(s: seq<Archive>, j: int, k: int, now: int, config: PruningConfig)
    requires NewestFirst(s) && 0 <= j < |s| && 0 <= k < |s|
    requires TierOf(s, j, now, config) == Daily
    requires Day(s[k].timestamp) == Day(s[j].timestamp) && !IsFresh(s[k], now)
    ensures NewerOrSame(s[j], s[k])
  {
    if k < j {
      DailyIsFirstOfItsDay(s, k, j, now, config);
    }
  }

  /** The order in which the pass tries the tiers. */
  function Rank(t: Tier): nat {
    match t
    case Fresh => 0
    case Daily => 1
    case Weekly => 2
    case Monthly => 3
    case Prunable => 4
  }

  /** The tiers are tried in order: an archive filed under a later tier than
      `u` (or left prunable) is not fresh, and tier `u` had no room for it —
      its quota was used up or an earlier archive already holds its bucket. */
  lemma EarlierTiersDeclined(s: seq<Archive>, j: int, u: Tier, now: int, config: PruningConfig)
    requires 0 <= j < |s| && IsRepresentative(u)
    requires Rank(u) < Rank(TierOf(s, j, now, config))
    ensures !IsFresh(s[j], now)
    ensures TierCount(s, j, u, now, config) >= Quota(config, u) ||
      exists k :: 0 <= k < j && TierOf(s, k, now, config) == u && Bucket(u, s[k].timestamp) == Bucket(u, s[j].timestamp)
  {
    KeptCountsTier(s, j, u, now, config);
    ClaimedAre(s, j, u, Bucket(u, s[j].timestamp), now, config);
  }

  /* The list built by the filter loop, for any flags. */

  /** Each position below `i` is either flagged or contributes its archive. */
  lemma {:induction false} UnkeptCount(s: seq<Archive>, kept: seq<bool>, i: int)
    requires 0 <= i <= |s| == |kept|
    ensures |Unkept(s, kept, i)| + |KeptPositions(kept, i)| == i
  {
    if i > 0 {
      UnkeptCount(s, kept, i - 1);
      KeptPositionsHas(kept, i - 1, i - 1);
    }
  }

  /** The unflagged positions below `i`, in increasing order. */
  function UnkeptPositions(kept: seq<bool>, i: int): seq<int>
    requires 0 <= i <= |kept|
  {
    if i == 0 then []
    else UnkeptPositions(kept, i - 1) + (if kept[i - 1] then [] else [i - 1])
  }

  /** `p` lists increasing unflagged positions below `i`, and `xs` holds the
      archives of `s` at those positions, in that order. */
  ghost predicate SublistAt(xs: seq<Archive>, s: seq<Archive>, kept: seq<bool>, p: seq<int>, i: int)
    requires 0 <= i <= |s| == |kept|
  {
    |p| == |xs| &&
    (forall k :: 0 <= k < |p| ==> 0 <= p[k] < i && !kept[p[k]] && xs[k] == s[p[k]]) &&
    (forall k, l :: 0 <= k < l < |p| ==> p[k] < p[l])
  }

  /** The filtered list is a sub-list of `s[..i]`: its archives are those at
      increasing unflagged positions. */
  lemma {:induction false} UnkeptSublist(s: seq<Archive>, kept: seq<bool>, i: int)
    requires 0 <= i <= |s| == |kept|
    ensures SublistAt(Unkept(s, kept, i), s, kept, UnkeptPositions(kept, i), i)
  {
    if i > 0 {
      UnkeptSublist(s, kept, i - 1);
    }
  }


  /** An unflagged archive below `i` is in the filtered list. */
  lemma {:induction false} UnkeptHas(s: seq<Archive>, kept: seq<bool>, i: int, j: int)
    requires 0 <= j < i <= |s| == |kept| && !kept[j]
    ensures s[j] in Unkept(s, kept, i)
  {
    if j < i - 1 {
      UnkeptHas(s, kept, i - 1, j);
    }
  }

  /** Every archive in the filtered list sits at an unflagged position below `i`. */
  lemma {:induction false} UnkeptOnly(s: seq<Archive>, kept: seq<bool>, i: int, a: Archive) returns (j: int)
    requires 0 <= i <= |s| == |kept| && a in Unkept(s, kept, i)
    ensures 0 <= j < i && s[j] == a && !kept[j]
  {
    if a in Unkept(s, kept, i - 1) {
      j := UnkeptOnly(s, kept, i - 1, a);
    } else {
      j := i - 1;
    }
  }

  /** Filtering keeps the order of `s`. */
  lemma {:induction false} UnkeptNewestFirst(s: seq<Archive>, kept: seq<bool>, i: int)
    requires NewestFirst(s) && 0 <= i <= |s| == |kept|
    ensures NewestFirst(Unkept(s, kept, i))
  {
    if i > 0 {
      var rest := Unkept(s, kept, i - 1);
      UnkeptNewestFirst(s, kept, i - 1);
      forall k | 0 <= k < |rest|
        ensures NewerOrSame(rest[k], s[i - 1])
      {
        var j := UnkeptOnly(s, kept, i - 1, rest[k]);
      }
    }
  }

  /* The prunable list. */

  /** The prunable list holds exactly the archives whose tier is `Prunable`:
      each of them is in it, and nothing else is. */
  lemma PrunableExactly(s: seq<Archive>, now: int, config: PruningConfig)
    ensures forall j :: 0 <= j < |s| && TierOf(s, j, now, config) == Prunable ==> s[j] in PrunableOf(s, now, config)
    ensures forall a :: a in PrunableOf(s, now, config) ==>
      exists j :: 0 <= j < |s| && s[j] == a && TierOf(s, j, now, config) == Prunable
  {
    var kept := KeptFlags(s, now, config);
    forall j | 0 <= j < |s| && TierOf(s, j, now, config) == Prunable
      ensures s[j] in PrunableOf(s, now, config)
    {
      UnkeptHas(s, kept, |s|, j);
    }
    forall a | a in PrunableOf(s, now, config)
      ensures exists j :: 0 <= j < |s| && s[j] == a && TierOf(s, j, now, config) == Prunable
    {
      var j := UnkeptOnly(s, kept, |s|, a);
      assert !kept[j];
    }
  }

  /** Fresh archives (under a day old, or dated in the future) are never prunable. */
  lemma FreshNeverPrunable(s: seq<Archive>, now: int, config: PruningConfig)
    ensures forall a :: a in PrunableOf(s, now, config) ==> !IsFresh(a, now)
  {
    var kept := KeptFlags(s, now, config);
    forall a | a in PrunableOf(s, now, config)
      ensures !IsFresh(a, now)
    {
      var j := UnkeptOnly(s, kept, |s|, a);
      assert !kept[j];
    }
  }

  /** With every quota at zero (or below), the prunable archives are exactly
      the archives that are not fresh. */
  lemma NoQuotasPrunesAllStale(s: seq<Archive>, now: int, config: PruningConfig)
    requires config.dailyCount <= 0 && config.weeklyCount <= 0 && config.monthlyCount <= 0
    ensures PrunableOf(s, now, config) == StaleOf(s, now)
  {
    assert KeptFlags(s, now, config) == FreshFlags(s, now);
  }

  /** Every archive is either kept or prunable: the prunable list is as long as
      the sorted list less the kept positions, and is drawn from it. */
  lemma PrunableCount(s: seq<Archive>, now: int, config: PruningConfig)
    ensures |PrunableOf(s, now, config)| + |KeptBelow(s, |s|, now, config)| == |s|
    ensures SublistAt(PrunableOf(s, now, config), s, KeptFlags(s, now, config),
                      UnkeptPositions(KeptFlags(s, now, config), |s|), |s|)
  {
    UnkeptCount(s, KeptFlags(s, now, config), |s|);
    UnkeptSublist(s, KeptFlags(s, now, config), |s|);
    assert s[..|s|] == s;
  }

  /** The prunable list of a newest-first list is newest first. */
  lemma PrunableNewestFirst(s: seq<Archive>, now: int, config: PruningConfig)
    requires NewestFirst(s)
    ensures NewestFirst(PrunableOf(s, now, config))
  {
    UnkeptNewestFirst(s, KeptFlags(s, now, config), |s|);
  }
}
