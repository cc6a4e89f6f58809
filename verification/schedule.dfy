/**
 * `next_due_run`: the time a backup is next due, from its timespec (weekday,
 * WEEKLY and MONTHLY tokens) and the time it last ran.
 *
 * Instants are integer seconds since the epoch (UTC). The scheduler works in
 * the local zone, a fixed offset `zone`: calendar arithmetic (midnight,
 * weekday, first of the month) is done on the wall clock `t + zone`, and a
 * wall-clock result `w` denotes the instant `w - zone`.
 */
module Schedule {
  import opened Wrappers
  import opened Calendar

  type DayOfWeek = w: int | 0 <= w < 7

  /** A timespec entry: one of the seven weekday tokens (Monday = 0), WEEKLY or MONTHLY. */
  datatype Token = Weekday(number: DayOfWeek) | Weekly | Monthly

  /** Longest gap between a run and the next due time: 31 days. */
  const MaxGap: int := 31 * SecondsPerDay

  /** The day number of `t`'s local date. */
  function LocalDay(t: int, zone: UtcOffset): int {
    (t + zone) / SecondsPerDay
  }

  /** The local calendar date of `t`. */
  function LocalDate(t: int, zone: UtcOffset): Date {
    DateOfDayNumber(LocalDay(t, zone))
  }

  /** The first day number on or after `n` whose weekday is `w`
      (`relativedelta(weekday=W(1))` on a date). */
  function WeekdayOnOrAfter(w: DayOfWeek, n: int): int {
    n + (w - WeekdayOfDayNumber(n)) % DaysPerWeek
  }

  /** Midnight of the first date strictly after `since`'s local date whose weekday
      is `w`: one day forward, then forward to the first `w`, at 00:00:00. */
  function WeekdayCandidate(w: DayOfWeek, since: int, zone: UtcOffset): int {
    WeekdayOnOrAfter(w, LocalDay(since, zone) + 1) * SecondsPerDay - zone
  }

  /** The (year, month) after the given one; December rolls over to January. */
  function NextMonth(y: int, m: int): (r: (int, int))
    requires 1 <= m <= 12
    ensures 1 <= r.1 <= 12
    ensures m < 12 ==> r == (y, m + 1)
    ensures m == 12 ==> r == (y + 1, 1)
  {
    if m == 12 then (y + 1, 1) else (y, m + 1)
  }

  /** Midnight on day 1 of the month after `since`'s local month. */
  function MonthlyCandidate(since: int, zone: UtcOffset): int {
    var today := LocalDate(since, zone);
    var next := NextMonth(today.year, today.month);
    At(next.0, next.1, 1) - zone
  }

  /** `next_due_run_part`: WEEKLY is treated as MONDAY. */
  function Candidate(tok: Token, since: int, zone: UtcOffset): int {
    match tok
    case Monthly => MonthlyCandidate(since, zone)
    case Weekly => WeekdayCandidate(Monday, since, zone)
    case Weekday(w) => WeekdayCandidate(w, since, zone)
  }

  /** The least candidate of a non-empty timespec. */
  function MinCandidate(spec: seq<Token>, since: int, zone: UtcOffset): (r: int)
    requires |spec| > 0
    ensures exists i :: 0 <= i < |spec| && r == Candidate(spec[i], since, zone)
    ensures forall i :: 0 <= i < |spec| ==> r <= Candidate(spec[i], since, zone)
  {
    if |spec| == 1 then Candidate(spec[0], since, zone)
    else
      var rest := MinCandidate(spec[1..], since, zone);
      var first := Candidate(spec[0], since, zone);
      assert forall i :: 1 <= i < |spec| ==> spec[i] == spec[1..][i - 1];
      if first <= rest then first else rest
  }

  /** `next_due_run(timespec, since)`: the least candidate of the entries. The
      `min` of an empty timespec raises, which is `None` here. */
  function NextDueRun(spec: seq<Token>, since: int, zone: UtcOffset): (r: Option<int>)
    ensures r.Some? <==> |spec| > 0
    ensures r.Some? ==> exists i :: 0 <= i < |spec| && r.value == Candidate(spec[i], since, zone)
    ensures r.Some? ==> forall i :: 0 <= i < |spec| ==> r.value <= Candidate(spec[i], since, zone)
  {
    if |spec| == 0 then None else Some(MinCandidate(spec, since, zone))
  }

  lemma WeekdayShift(n: int, k: int)
    ensures WeekdayOfDayNumber(n + k) == (WeekdayOfDayNumber(n) + k) % 7
  {
    assert n + 3 == 7 * ((n + 3) / 7) + WeekdayOfDayNumber(n);
  }

  /** `WeekdayOnOrAfter(w, n)` has weekday `w`, lies less than a week after `n`,
      and no day from `n` up to it has weekday `w`. */
  lemma WeekdayOnOrAfterSpec(w: DayOfWeek, n: int)
    ensures n <= WeekdayOnOrAfter(w, n) < n + DaysPerWeek
    ensures WeekdayOfDayNumber(WeekdayOnOrAfter(w, n)) == w
    ensures forall d :: n <= d < WeekdayOnOrAfter(w, n) ==> WeekdayOfDayNumber(d) != w
  {
    var jump := (w - WeekdayOfDayNumber(n)) % DaysPerWeek;
    WeekdayShift(n, jump);
    forall d | n <= d < n + jump
      ensures WeekdayOfDayNumber(d) != w
    {
      WeekdayShift(n, d - n);
    }
  }

  /** A local midnight, as an instant, lies in `(since, since + k days]` when its
      day number is 1..k days after `since`'s local day. */
  lemma MidnightWithin(since: int, zone: UtcOffset, day: int, k: int)
    requires LocalDay(since, zone) < day <= LocalDay(since, zone) + k
    ensures since < day * SecondsPerDay - zone <= since + k * SecondsPerDay
  {
  }

  /** The weekday candidate is a local midnight of weekday `w`, on a date strictly
      after `since`'s date and at most a week later, and no date in between has
      weekday `w`; as an instant it lies in `(since, since + 7 days]`. */
  lemma WeekdayCandidateSpec(w: DayOfWeek, since: int, zone: UtcOffset)
    ensures var local := WeekdayCandidate(w, since, zone) + zone;
      var today := LocalDay(since, zone);
      local % SecondsPerDay == 0 &&
      WeekdayOf(local) == w &&
      today < local / SecondsPerDay <= today + DaysPerWeek &&
      (forall d :: today < d < local / SecondsPerDay ==> WeekdayOfDayNumber(d) != w)
    ensures since < WeekdayCandidate(w, since, zone) <= since + DaysPerWeek * SecondsPerDay
  {
    var day := WeekdayOnOrAfter(w, LocalDay(since, zone) + 1);
    WeekdayOnOrAfterSpec(w, LocalDay(since, zone) + 1);
    assert (day * SecondsPerDay) / SecondsPerDay == day;
    MidnightWithin(since, zone, day, DaysPerWeek);
  }

  /** Day 1 of a month comes no later than any date of that or a later month. */
  lemma FirstOfMonthNoLater(y1: int, m1: int, d2: Date)
    requires 1 <= m1 <= 12 && ValidDate(d2)
    requires y1 < d2.year || (y1 == d2.year && m1 <= d2.month)
    ensures DayNumber(Date(y1, m1, 1)) <= DayNumber(d2)
  {
    DayNumberBounds(Date(y1, m1, 1));
    DayNumberBounds(d2);
    if y1 < d2.year {
      YearsMonotone(y1 + 1, d2.year);
    } else if m1 < d2.month {
      MonthsMonotone(y1, m1, d2.month);
    }
  }

  /** The first of the next month is the current month's first plus its length. */
  lemma NextFirstOfMonth(y: int, m: int)
    requires 1 <= m <= 12
    ensures var n := NextMonth(y, m);
      DayNumber(Date(n.0, n.1, 1)) == DayNumber(Date(y, m, 1)) + DaysInMonth(y, m)
  {
    MonthStep(y, m);
    if m == 12 {
      YearStep(y);
    }
  }

  /** The monthly candidate's local day number is that of day 1 of the next
      month, 1 to 31 days after `since`'s local day. */
  lemma MonthlyCandidateDay(since: int, zone: UtcOffset)
    ensures var today := LocalDate(since, zone);
      var n := NextMonth(today.year, today.month);
      MonthlyCandidate(since, zone) + zone == DayNumber(Date(n.0, n.1, 1)) * SecondsPerDay &&
      LocalDay(since, zone) < DayNumber(Date(n.0, n.1, 1)) <= LocalDay(since, zone) + 31
  {
    var today := LocalDate(since, zone);
    DateOfDayNumberSpec(LocalDay(since, zone));
    NextFirstOfMonth(today.year, today.month);
    assert DayNumber(today) == DayNumber(Date(today.year, today.month, 1)) + today.day - 1;
  }

  /** The monthly candidate is local midnight on day 1 of the month after
      `since`'s month (December rolling over), lies in `(since, since + 31 days]`,
      and no first-of-month midnight after `since` comes earlier. */
  lemma MonthlyCandidateSpec(since: int, zone: UtcOffset)
    ensures var c := ToCivil(since + zone);
      var n := NextMonth(c.date.year, c.date.month);
      ToCivil(MonthlyCandidate(since, zone) + zone) == DateTime(Date(n.0, n.1, 1), 0, 0, 0)
    ensures since < MonthlyCandidate(since, zone) <= since + MaxGap
    ensures forall y, m :: 1 <= m <= 12 && since + zone < At(y, m, 1) ==>
      MonthlyCandidate(since, zone) + zone <= At(y, m, 1)
  {
    var today := LocalDate(since, zone);
    var n := NextMonth(today.year, today.month);
    CivilRoundTrip(DateTime(Date(n.0, n.1, 1), 0, 0, 0));
    assert ToCivil(since + zone).date == today;
    MonthlyCandidateDay(since, zone);
    MidnightWithin(since, zone, DayNumber(Date(n.0, n.1, 1)), 31);
    forall y, m | 1 <= m <= 12 && since + zone < At(y, m, 1)
      ensures MonthlyCandidate(since, zone) + zone <= At(y, m, 1)
    {
      MonthlyNotBefore(since, zone, y, m);
    }
  }

  lemma MonthlyNotBefore(since: int, zone: UtcOffset, y: int, m: int)
    requires 1 <= m <= 12 && since + zone < At(y, m, 1)
    ensures MonthlyCandidate(since, zone) + zone <= At(y, m, 1)
  {
    var today := LocalDate(since, zone);
    var n := NextMonth(today.year, today.month);
    DateOfDayNumberSpec(LocalDay(since, zone));
    MonthlyCandidateDay(since, zone);
    if y < n.0 || (y == n.0 && m < n.1) {
      FirstOfMonthNoLater(y, m, today);
      assert false;
    } else {
      FirstOfMonthNoLater(n.0, n.1, Date(y, m, 1));
    }
  }

  /** WEEKLY is due at the first Monday midnight after `since`'s date, exactly as MONDAY. */
  lemma WeeklyIsNextMonday(since: int, zone: UtcOffset)
    ensures Candidate(Weekly, since, zone) == Candidate(Weekday(Monday), since, zone)
    ensures var local := Candidate(Weekly, since, zone) + zone;
      var today := LocalDay(since, zone);
      local % SecondsPerDay == 0 && WeekdayOf(local) == Monday &&
      today < local / SecondsPerDay <= today + DaysPerWeek &&
      (forall d :: today < d < local / SecondsPerDay ==> WeekdayOfDayNumber(d) != Monday)
  {
    WeekdayCandidateSpec(Monday, since, zone);
  }

  /** Every candidate is strictly after `since` and at most 31 days later. */
  lemma CandidateBounds(tok: Token, since: int, zone: UtcOffset)
    ensures since < Candidate(tok, since, zone) <= since + MaxGap
  {
    match tok
    case Monthly => MonthlyCandidateSpec(since, zone);
    case Weekly => WeekdayCandidateSpec(Monday, since, zone);
    case Weekday(w) => WeekdayCandidateSpec(w, since, zone);
  }

  /** The due time of a non-empty timespec is strictly after `since` and at most 31 days later. */
  lemma NextDueRunBounds(spec: seq<Token>, since: int, zone: UtcOffset)
    requires |spec| > 0
    ensures since < NextDueRun(spec, since, zone).value <= since + MaxGap
  {
    var i :| 0 <= i < |spec| && NextDueRun(spec, since, zone).value == Candidate(spec[i], since, zone);
    CandidateBounds(spec[i], since, zone);
  }

  /** The due time of a timespec is the candidate of any entry whose candidate is
      no later than every other entry's. */
  lemma NextDueRunIsLeastCandidate(spec: seq<Token>, i: int, since: int, zone: UtcOffset)
    requires 0 <= i < |spec|
    requires forall j :: 0 <= j < |spec| ==> Candidate(spec[i], since, zone) <= Candidate(spec[j], since, zone)
    ensures NextDueRun(spec, since, zone) == Some(Candidate(spec[i], since, zone))
  {
    var k :| 0 <= k < |spec| && NextDueRun(spec, since, zone).value == Candidate(spec[k], since, zone);
  }

  /** Reordering or repeating entries does not change the due time: it depends
      only on the set of tokens, as for the source's set-valued timespecs. */
  lemma NextDueRunOfSet(a: seq<Token>, b: seq<Token>, since: int, zone: UtcOffset)
    requires forall t :: t in a <==> t in b
    ensures NextDueRun(a, since, zone) == NextDueRun(b, since, zone)
  {
    if |b| > 0 {
      assert b[0] in a;
    }
    if |a| > 0 {
      assert a[0] in b;
      NoLaterThanSame(a, b, since, zone);
      NoLaterThanSame(b, a, since, zone);
    }
  }

  /** The due time of `a` is no later than that of `b` when every token of `b` is in `a`. */
  lemma NoLaterThanSame(a: seq<Token>, b: seq<Token>, since: int, zone: UtcOffset)
    requires |a| > 0 && |b| > 0
    requires forall t :: t in b ==> t in a
    ensures NextDueRun(a, since, zone).value <= NextDueRun(b, since, zone).value
  {
    var j :| 0 <= j < |b| && NextDueRun(b, since, zone).value == Candidate(b[j], since, zone);
    assert b[j] in a;
    var i :| 0 <= i < |a| && a[i] == b[j];
    assert NextDueRun(a, since, zone).value <= Candidate(a[i], since, zone);
  }

  lemma LeapYearsBefore2014()
    ensures LeapYearsThrough(2013) - LeapYearsThrough(1969) == 11
  {
  }

  /** 2014-01-01 is day 16071. */
  lemma Year2014()
    ensures DaysBeforeYear(2014) == 16071
  {
    DaysBeforeYearCounted(2014);
    LeapYearsBefore2014();
  }

  /** Day numbers of the dates the scenarios below use: 2014-11-01 is day 16375, a Saturday. */
  lemma November2014(d: int)
    requires 1 <= d <= 30
    ensures At(2014, 11, d) == (16374 + d) * SecondsPerDay
    ensures At(2014, 12, 1) == 16405 * SecondsPerDay
    ensures WeekdayOfDayNumber(16375) == 5
  {
    Year2014();
  }

  /** The weekday candidate after the local midnight starting day `n`. */
  lemma MidnightCandidate(w: DayOfWeek, n: int, zone: UtcOffset)
    ensures WeekdayCandidate(w, n * SecondsPerDay - zone, zone) ==
      (n + 1 + (w - WeekdayOfDayNumber(n + 1)) % DaysPerWeek) * SecondsPerDay - zone
  {
    assert LocalDay(n * SecondsPerDay - zone, zone) == n;
  }

  /** The candidate of weekday token `tok` (weekday `w`) after the local midnight
      starting day `n`, given the weekday `next` of day `n + 1`. */
  lemma WeekdayAfterMidnight(tok: Token, w: DayOfWeek, n: int, next: int, since: int, due: int, zone: UtcOffset)
    requires tok == Weekday(w) || (tok == Weekly && w == Monday)
    requires since == n * SecondsPerDay - zone
    requires WeekdayOfDayNumber(n + 1) == next
    requires due == (n + 1 + (w - next) % DaysPerWeek) * SecondsPerDay - zone
    ensures Candidate(tok, since, zone) == due
  {
    MidnightCandidate(w, n, zone);
  }

  /** From a local midnight of a given date, the monthly candidate is day 1 of the next month. */
  lemma MonthlyAfterMidnight(y: int, m: int, d: int, ny: int, nm: int, since: int, zone: UtcOffset)
    requires ValidDate(Date(y, m, d)) && since + zone == At(y, m, d)
    requires NextMonth(y, m) == (ny, nm)
    ensures MonthlyCandidate(since, zone) == At(ny, nm, 1) - zone
  {
    assert LocalDay(since, zone) == DayNumber(Date(y, m, d));
    DateRoundTrip(Date(y, m, d));
  }

  /** `[MONDAY]` run at Monday 2014-11-17 00:00 is next due 2014-11-24 00:00. */
  lemma MondayRanToday(zone: UtcOffset)
    ensures NextDueRun([Weekday(0)], At(2014, 11, 17) - zone, zone) == Some(At(2014, 11, 24) - zone)
  {
    November2014(17);
    November2014(24);
  }

  /** `[MONTHLY]` run at 2014-11-30 00:00 is next due 2014-12-01 00:00. */
  lemma MonthlyRanLast(zone: UtcOffset)
    ensures NextDueRun([Monthly], At(2014, 11, 30) - zone, zone) == Some(At(2014, 12, 1) - zone)
  {
    var since := At(2014, 11, 30) - zone;
    November2014(30);
    MonthlyAfterMidnight(2014, 11, 30, 2014, 12, since, zone);
    NextDueRunIsLeastCandidate([Monthly], 0, since, zone);
  }

  /** `[MONTHLY]` run in December rolls over to 2015-01-01. */
  lemma MonthlyRollsOver(zone: UtcOffset)
    ensures NextDueRun([Monthly], At(2014, 12, 1) - zone, zone) == Some(At(2015, 1, 1) - zone)
  {
    var since := At(2014, 12, 1) - zone;
    MonthlyAfterMidnight(2014, 12, 1, 2015, 1, since, zone);
    NextDueRunIsLeastCandidate([Monthly], 0, since, zone);
  }

  /** The WEEKLY and FRIDAY candidates from Saturday 2014-11-01 00:00 are Monday
      2014-11-03 and Friday 2014-11-07. */
  lemma WeekdaysFromNovember1(zone: UtcOffset)
    ensures Candidate(Weekly, At(2014, 11, 1) - zone, zone) == At(2014, 11, 3) - zone
    ensures Candidate(Weekday(4), At(2014, 11, 1) - zone, zone) == At(2014, 11, 7) - zone
  {
    November2014(1);
    November2014(3);
    November2014(7);
    WeekdayAfterMidnight(Weekly, 0, 16375, 6, At(2014, 11, 1) - zone, At(2014, 11, 3) - zone, zone);
    WeekdayAfterMidnight(Weekday(4), 4, 16375, 6, At(2014, 11, 1) - zone, At(2014, 11, 7) - zone, zone);
  }

  /** `[MONTHLY, WEEKLY, FRIDAY]` run at Saturday 2014-11-01 00:00: the candidates are
      2014-12-01, Monday 2014-11-03 and Friday 2014-11-07, so the WEEKLY entry is the
      least and the run is next due 2014-11-03. */
  lemma ComplexRanFirst(zone: UtcOffset)
    ensures NextDueRun([Monthly, Weekly, Weekday(4)], At(2014, 11, 1) - zone, zone) == Some(At(2014, 11, 3) - zone)
  {
    var since := At(2014, 11, 1) - zone;
    WeekdaysFromNovember1(zone);
    November2014(1);
    November2014(3);
    November2014(7);
    MonthlyAfterMidnight(2014, 11, 1, 2014, 12, since, zone);
    NextDueRunIsLeastCandidate([Monthly, Weekly, Weekday(4)], 1, since, zone);
  }
}
