/**
 * The validators the configuration reader applies to the values it finds in
 * the configuration document: two-letter prefix matching, the timespec
 * normaliser and the paths checker. Values are JSON values; a timespec
 * becomes a collection of this revision's own schedule tokens.
 */
module ConfigValidation {
  import opened Wrappers

  /** A value of the configuration document. JSON numbers are kept integral. */
  datatype Json =
    | JNull
    | JBool(b: bool)
    | JNumber(n: int)
    | JString(s: string)
    | JList(items: seq<Json>)
    | JObject(fields: map<string, Json>)

  /** `d.get(key, None)` on a JSON object. */
  function Get(d: map<string, Json>, key: string): Json {
    if key in d then d[key] else JNull
  }

  /** Each cause for which the reader raises InvalidConfigError. */
  datatype ConfigError =
    | InvalidTimespec
    | PathsNotStringMap
    | NotAbsolutePath(path: string)
    | InvalidPathName(name: string)
    | PathNameCollision(name: string)
    | BackupNotADictionary
    | MissingBackupName
    | BackendsNotStrings
    | UnknownBackend(backend: string)
    | BackupsNotAList
    | DuplicateBackup(backupName: Json)

  type DayOfWeek = w: int | 0 <= w < 7

  /** This revision's schedule tokens: the seven weekdays (Monday = 0), WEEKLY and MONTHLY. */
  datatype Token = Weekday(number: DayOfWeek) | Weekly | Monthly

  /** A validated timespec. A bare keyword yields a list of tokens; anything
      else yields a set whose elements are tokens or `None` (an item that named
      no weekday). */
  datatype Timespec = TokenList(tokens: seq<Token>) | TokenSet(items: set<Option<Token>>)

  /** `x in timespec`. */
  predicate Holds(ts: Timespec, x: Option<Token>) {
    match ts
    case TokenList(tokens) => x.Some? && x.value in tokens
    case TokenSet(items) => x in items
  }

  const AllWeekdays: seq<Token> := [Weekday(0), Weekday(1), Weekday(2), Weekday(3), Weekday(4), Weekday(5), Weekday(6)]

  const WeekdayNames: seq<string> := ["monday", "tuesday", "wednesday", "thursday", "friday", "saturday", "sunday"]

  /* prefix_match */

  /** Python's `s[:n]`: a negative `n` counts from the end, and a bound past
      either end is clamped. */
  function Take(s: string, n: int): (r: string)
    ensures |r| <= |s|
  {
    if n >= 0 then s[..if n <= |s| then n else |s|]
    else s[..if |s| + n >= 0 then |s| + n else 0]
  }

  /** `prefix_match(s1, s2, n)`. */
  predicate PrefixMatch(s1: string, s2: string, n: int) {
    Take(s1, n) == Take(s2, n)
  }

  function Min(a: int, b: int): int {
    if a <= b then a else b
  }

  /** For `n >= 0`, prefix matching is equality of the first `n` characters,
      where a string shorter than `n` takes part whole. */
  lemma PrefixMatchMeaning(s1: string, s2: string, n: int)
    requires n >= 0
    ensures PrefixMatch(s1, s2, n) <==>
      Min(|s1|, n) == Min(|s2|, n) && forall i :: 0 <= i < Min(|s1|, n) ==> s1[i] == s2[i]
  {
    if Min(|s1|, n) == Min(|s2|, n) && forall i :: 0 <= i < Min(|s1|, n) ==> s1[i] == s2[i] {
      assert Take(s1, n) == Take(s2, n);
    }
  }

  /** A string no longer than `n` matches exactly the strings whose first `n`
      characters are it. */
  lemma ShortStringComparedWhole(s1: string, s2: string, n: int)
    requires 0 <= |s1| <= n
    ensures PrefixMatch(s1, s2, n) <==> s1 == Take(s2, n)
  {
    assert Take(s1, n) == s1;
  }

  /* validate_timespec */

  function LowerChar(c: char): char {
    if 'A' <= c <= 'Z' then (c as int - 'A' as int + 'a' as int) as char else c
  }

  /** `s.lower()` on ASCII letters. */
  function Lower(s: string): (r: string)
    ensures |r| == |s|
  {
    seq(|s|, i requires 0 <= i < |s| => LowerChar(s[i]))
  }

  lemma LowerIdempotent(s: string)
    ensures Lower(Lower(s)) == Lower(s)
  {
  }

  /** The weekday whose name an item starts with, trying Monday to Sunday from
      weekday `k` on; `None` when no name shares the item's first two letters. */
  function MatchFrom(item: string, k: nat): Option<Token>
    requires k <= 7
    decreases 7 - k
  {
    if k == 7 then None
    else if PrefixMatch(item, WeekdayNames[k], 2) then Some(Weekday(k))
    else MatchFrom(item, k + 1)
  }

  /** The token one (lowercased) list item becomes. */
  function ItemToken(item: string): Option<Token> {
    MatchFrom(item, 0)
  }

  predicate AllStrings(items: seq<Json>) {
    forall i :: 0 <= i < |items| ==> items[i].JString?
  }

  /** The tokens of the items of a list of strings, each lowercased first. */
  function ItemTokens(items: seq<Json>): set<Option<Token>>
    requires AllStrings(items)
  {
    set i | 0 <= i < |items| :: ItemToken(Lower(items[i].s))
  }

  /** What `validate_timespec(spec)` returns or raises. */
  function TimespecOf(spec: Json): Result<Timespec, ConfigError> {
    match spec
    case JString(s) =>
      if Lower(s) == "weekly" then Success(TokenList([Weekly]))
      else if Lower(s) == "monthly" then Success(TokenList([Monthly]))
      else if Lower(s) == "daily" then Success(TokenList(AllWeekdays))
      else Success(TokenSet(ItemTokens([spec])))
    case JList(items) =>
      if AllStrings(items) then Success(TokenSet(ItemTokens(items))) else Failure(InvalidTimespec)
    case _ => Failure(InvalidTimespec)
  }

  /** `validate_timespec(spec)`: a bare keyword is expanded; any other string
      is treated as a one-item list; each item of a list of strings is
      lowercased and mapped to a weekday by its first two letters. */
  method ValidateTimespec(spec: Json) returns (r: Result<Timespec, ConfigError>)
    ensures r == TimespecOf(spec)
  {
    var items: seq<Json>;
    match spec {
      case JString(s) =>
        var lowered := Lower(s);
        if lowered == "weekly" {
          return Success(TokenList([Weekly]));
        }
        if lowered == "monthly" {
          return Success(TokenList([Monthly]));
        }
        if lowered == "daily" {
          return Success(TokenList(AllWeekdays));
        }
        items := [spec];
      case JList(list) =>
        items := list;
      case _ =>
        return Failure(InvalidTimespec);
    }
    if exists i :: 0 <= i < |items| && !items[i].JString? {
      return Failure(InvalidTimespec);
    }
    var newSpec := CollectTokens(items);
    return Success(TokenSet(newSpec));
  }

  /** The loop of `validate_timespec` that adds each lowercased item's token
      to the new set. */
  method CollectTokens(items: seq<Json>) returns (newSpec: set<Option<Token>>)
    requires AllStrings(items)
    ensures newSpec == ItemTokens(items)
  {
    newSpec := {};
    var i := 0;
    while i < |items|
      invariant 0 <= i <= |items|
      invariant newSpec == set j | 0 <= j < i :: ItemToken(Lower(items[j].s))
    {
      newSpec := newSpec + {ItemToken(Lower(items[i].s))};
      i := i + 1;
    }
  }

  /** Weekday names differ in their first two letters. */
  lemma WeekdayPrefixesDistinct(j: int, k: int)
    requires 0 <= j < 7 && 0 <= k < 7 && j != k
    ensures Take(WeekdayNames[j], 2) != Take(WeekdayNames[k], 2)
  {
    assert Take(WeekdayNames[j], 2)[0] != Take(WeekdayNames[k], 2)[0] ||
           Take(WeekdayNames[j], 2)[1] != Take(WeekdayNames[k], 2)[1];
  }

  lemma {:induction false} MatchFromMeaning(item: string, k: nat, w: DayOfWeek)
    requires k <= 7
    ensures MatchFrom(item, k) == Some(Weekday(w)) <==> k <= w && PrefixMatch(item, WeekdayNames[w], 2)
    ensures MatchFrom(item, k) == None <==> forall v :: k <= v < 7 ==> !PrefixMatch(item, WeekdayNames[v], 2)
    ensures MatchFrom(item, k) != Some(Weekly) && MatchFrom(item, k) != Some(Monthly)
    decreases 7 - k
  {
    if k < 7 {
      MatchFromMeaning(item, k + 1, w);
      if k != w && PrefixMatch(item, WeekdayNames[k], 2) && PrefixMatch(item, WeekdayNames[w], 2) {
        WeekdayPrefixesDistinct(k, w);
      }
    }
  }

  /** An item becomes weekday `w` exactly when its first two letters are
      those of `w`'s name, and `None` when they are no weekday's; it never
      becomes WEEKLY or MONTHLY. */
  lemma ItemTokenMeaning(item: string, w: DayOfWeek)
    ensures ItemToken(item) == Some(Weekday(w)) <==> Take(item, 2) == Take(WeekdayNames[w], 2)
    ensures ItemToken(item) == None <==> forall v :: 0 <= v < 7 ==> Take(item, 2) != Take(WeekdayNames[v], 2)
    ensures ItemToken(item) != Some(Weekly) && ItemToken(item) != Some(Monthly)
  {
    MatchFromMeaning(item, 0, w);
  }

  /** The tokens of a one-item list are the token of that item. */
  lemma OneItem(x: Json)
    requires x.JString?
    ensures ItemTokens([x]) == {ItemToken(Lower(x.s))}
  {
    assert [x][0] == x;
  }

  /** Inside a list, "weekly" loses its meaning and becomes Wednesday. */
  lemma WeeklyInsideAList()
    ensures TimespecOf(JList([JString("weekly")])) == Success(TokenSet({Some(Weekday(2))}))
  {
    OneItem(JString("weekly"));
    assert Lower("weekly") == "weekly";
    ItemTokenMeaning("weekly", 2);
  }

  /** Inside a list, "monthly" becomes Monday. */
  lemma MonthlyInsideAList()
    ensures TimespecOf(JList([JString("monthly")])) == Success(TokenSet({Some(Weekday(0))}))
  {
    OneItem(JString("monthly"));
    assert Lower("monthly") == "monthly";
    ItemTokenMeaning("monthly", 0);
  }

  /** No weekday's name starts with a letter other than m, t, w, f or s. */
  lemma NoWeekdayInitial(item: string)
    requires |item| > 0 && item[0] !in "mtwfs"
    ensures ItemToken(item) == None
  {
    forall v | 0 <= v < 7
      ensures Take(item, 2) != Take(WeekdayNames[v], 2)
    {
      assert WeekdayNames[v][0] in "mtwfs";
      assert Take(WeekdayNames[v], 2)[0] == WeekdayNames[v][0];
    }
    ItemTokenMeaning(item, 0);
  }

  /** Inside a list, "daily" names no weekday and becomes `None`. */
  lemma DailyInsideAList()
    ensures TimespecOf(JList([JString("daily")])) == Success(TokenSet({None}))
  {
    OneItem(JString("daily"));
    assert Lower("daily") == "daily";
    NoWeekdayInitial("daily");
  }

  /** The normaliser ignores case: a string gives the same timespec as its
      lowercased form. */
  lemma TimespecIgnoresCase(s: string)
    ensures TimespecOf(JString(s)) == TimespecOf(JString(Lower(s)))
  {
    LowerIdempotent(s);
    OneItem(JString(s));
    OneItem(JString(Lower(s)));
  }

  /** "daily" in any case expands to the seven weekdays, Monday to Sunday. */
  lemma DailyIsEveryWeekday(s: string)
    requires Lower(s) == "daily"
    ensures TimespecOf(JString(s)) == Success(TokenList(AllWeekdays))
    ensures forall w: DayOfWeek :: Holds(TimespecOf(JString(s)).value, Some(Weekday(w)))
  {
    forall w: DayOfWeek
      ensures Weekday(w) in AllWeekdays
    {
      assert AllWeekdays[w] == Weekday(w);
    }
  }

  /** The normaliser fails exactly on values that are neither a string nor a
      list of strings. */
  lemma TimespecFailsIff(spec: Json)
    ensures TimespecOf(spec).Failure? <==> !spec.JString? && !(spec.JList? && AllStrings(spec.items))
    ensures TimespecOf(spec).Failure? ==> TimespecOf(spec).error == InvalidTimespec
  {
  }

  /** A list's timespec holds `x` exactly when some item, lowercased, becomes `x`. */
  lemma ListTimespecItems(items: seq<Json>, x: Option<Token>)
    requires AllStrings(items)
    ensures Holds(TimespecOf(JList(items)).value, x) <==> exists i :: 0 <= i < |items| && ItemToken(Lower(items[i].s)) == x
  {
  }

  /* validate_paths */

  /** `os.path.isabs` on POSIX. */
  predicate IsAbsolute(path: string) {
    |path| > 0 && path[0] == '/'
  }

  /** A name for a path: non-empty, no '/' or '\', and not "..". */
  predicate ValidName(name: string) {
    name != [] && '/' !in name && '\\' !in name && name != ".."
  }

  predicate StringValues(fields: map<string, Json>) {
    forall p :: p in fields ==> fields[p].JString?
  }

  /** Every path is absolute, every name valid, and no two paths share a name. */
  predicate PathsValid(fields: map<string, Json>) {
    StringValues(fields) &&
    (forall p :: p in fields ==> IsAbsolute(p) && ValidName(fields[p].s)) &&
    (forall p, q :: p in fields && q in fields && p != q ==> fields[p].s != fields[q].s)
  }

  /** A failure of `validate_paths(paths)` names a real defect of `paths`. */
  ghost predicate PathsErrorShown(paths: Json, e: ConfigError) {
    match e
    case PathsNotStringMap => !paths.JObject? || !StringValues(paths.fields)
    case NotAbsolutePath(p) => paths.JObject? && p in paths.fields && !IsAbsolute(p)
    case InvalidPathName(n) =>
      paths.JObject? && (exists p :: p in paths.fields && paths.fields[p] == JString(n)) && !ValidName(n)
    case PathNameCollision(n) =>
      paths.JObject? &&
      exists p, q :: p in paths.fields && q in paths.fields && p != q &&
                     paths.fields[p] == JString(n) && paths.fields[q] == JString(n)
    case _ => false
  }

  /** `validate_paths(paths)`: check each path -> name entry, in the
      dictionary's (unspecified) order, and return the dictionary unchanged
      when all pass. */
  method ValidatePaths(paths: Json) returns (r: Result<map<string, string>, ConfigError>)
    ensures r.Success? <==> paths.JObject? && PathsValid(paths.fields)
    ensures r.Success? ==> r.value.Keys == paths.fields.Keys &&
                           forall p :: p in r.value ==> paths.fields[p] == JString(r.value[p])
    ensures r.Failure? ==> PathsErrorShown(paths, r.error)
  {
    if !paths.JObject? || exists p :: p in paths.fields && !paths.fields[p].JString? {
      return Failure(PathsNotStringMap);
    }
    var fields := paths.fields;
    var names: set<string> := {};
    var remaining := fields.Keys;
    ghost var done: set<string> := {};
    while remaining != {}
      invariant remaining <= fields.Keys && done == fields.Keys - remaining
      invariant forall p :: p in done ==> IsAbsolute(p) && ValidName(fields[p].s)
      invariant names == set p | p in done :: fields[p].s
      invariant forall p, q :: p in done && q in done && p != q ==> fields[p].s != fields[q].s
      decreases remaining
    {
      var path :| path in remaining;
      var name := fields[path].s;
      if !IsAbsolute(path) {
        return Failure(NotAbsolutePath(path));
      }
      if !ValidName(name) {
        return Failure(InvalidPathName(name));
      }
      if name in names {
        ghost var other :| other in done && fields[other].s == name;
        assert fields[other] == JString(name) && fields[path] == JString(name);
        return Failure(PathNameCollision(name));
      }
      names := names + {name};
      remaining := remaining - {path};
      done := done + {path};
    }
    return Success(map p | p in fields :: fields[p].s);
  }
}
