/**
 * The proleptic Gregorian calendar over integer seconds.
 *
 * An instant is a count of seconds since 1970-01-01T00:00:00 in some zone;
 * a day number counts days since 1970-01-01 (negative before it). This is
 * the arithmetic that Python's `datetime`, `dateutil.relativedelta` and
 * `time.mktime` perform for the scheduler and the bucketing helpers.
 */
module Calendar {

  const SecondsPerMinute: int := 60
  const SecondsPerHour: int := 3600
  const SecondsPerDay: int := 86400
  const DaysPerWeek: int := 7

  /** Python's `weekday()` numbering. */
  const Monday: int := 0

  /** A fixed offset from UTC, in seconds; wall-clock time = instant + offset. */
  type UtcOffset = o: int | -86400 < o < 86400

  datatype Date = Date(year: int, month: int, day: int)

  datatype DateTime = DateTime(date: Date, hour: int, minute: int, second: int)

  predicate IsLeapYear(y: int) {
    y % 4 == 0 && (y % 100 != 0 || y % 400 == 0)
  }

  function DaysInYear(y: int): int {
    if IsLeapYear(y) then 366 else 365
  }

  function DaysInMonth(y: int, m: int): int
    requires 1 <= m <= 12
  {
    if m == 2 then (if IsLeapYear(y) then 29 else 28)
    else if m == 4 || m == 6 || m == 9 || m == 11 then 30
    else 31
  }

  /** Days of year `y` that precede the first of month `m`. */
  function DaysBeforeMonth(y: int, m: int): int
    requires 1 <= m <= 12
  {
    [0, 31, 59, 90, 120, 151, 181, 212, 243, 273, 304, 334][m - 1]
    + (if m > 2 && IsLeapYear(y) then 1 else 0)
  }

  /** Day number of January 1st of year `y`: the lengths of the years from 1970 up
      to (or, before 1970, down from) `y`. */
  function DaysBeforeYear(y: int): int
    decreases if y < 1970 then 1970 - y else y - 1970
  {
    if y == 1970 then 0
    else if y > 1970 then DaysBeforeYear(y - 1) + DaysInYear(y - 1)
    else DaysBeforeYear(y + 1) - DaysInYear(y)
  }

  /** Leap years among 1..y (shifted by a constant when y is not positive). */
  function LeapYearsThrough(y: int): int {
    y / 4 - y / 100 + y / 400
  }

  /** Year `y` adds one to the leap-year count exactly when it is a leap year. */
  lemma LeapStep(y: int)
    ensures LeapYearsThrough(y) - LeapYearsThrough(y - 1) == if IsLeapYear(y) then 1 else 0
  {
    QuotientSteps(y);
  }

  /** Each of the quotients by 4, 100 and 400 grows by one exactly at a multiple. */
  lemma QuotientSteps(y: int)
    ensures y / 4 - (y - 1) / 4 == if y % 4 == 0 then 1 else 0
    ensures y / 100 - (y - 1) / 100 == if y % 100 == 0 then 1 else 0
    ensures y / 400 - (y - 1) / 400 == if y % 400 == 0 then 1 else 0
  {
  }

  /** The closed form of `DaysBeforeYear` from 1970 on: 365 days a year plus one
      per leap year passed. */
  lemma {:induction false} DaysBeforeYearCounted(y: int)
    requires y >= 1970
    ensures DaysBeforeYear(y) == 365 * (y - 1970) + LeapYearsThrough(y - 1) - LeapYearsThrough(1969)
    decreases y - 1970
  {
    if y > 1970 {
      DaysBeforeYearCounted(y - 1);
      LeapStep(y - 1);
    }
  }

  predicate ValidDate(d: Date) {
    1 <= d.month <= 12 && 1 <= d.day <= DaysInMonth(d.year, d.month)
  }

  predicate ValidDateTime(c: DateTime) {
    ValidDate(c.date) && 0 <= c.hour < 24 && 0 <= c.minute < 60 && 0 <= c.second < 60
  }

  function DayNumber(d: Date): int
    requires ValidDate(d)
  {
    DaysBeforeYear(d.year) + DaysBeforeMonth(d.year, d.month) + d.day - 1
  }

  /** Monday = 0 ... Sunday = 6; 1970-01-01 (day 0) was a Thursday. */
  function WeekdayOfDayNumber(n: int): (w: int)
    ensures 0 <= w < 7
  {
    (n + 3) % 7
  }

  lemma YearStep(y: int)
    ensures DaysBeforeYear(y + 1) == DaysBeforeYear(y) + DaysInYear(y)
  {
  }

  lemma {:induction false} YearsMonotone(y1: int, y2: int)
    requires y1 <= y2
    ensures DaysBeforeYear(y1) <= DaysBeforeYear(y2)
    decreases y2 - y1
  {
    if y1 < y2 {
      YearStep(y1);
      YearsMonotone(y1 + 1, y2);
    }
  }

  lemma MonthStep(y: int, m: int)
    requires 1 <= m <= 12
    ensures m < 12 ==> DaysBeforeMonth(y, m + 1) == DaysBeforeMonth(y, m) + DaysInMonth(y, m)
    ensures m == 12 ==> DaysBeforeMonth(y, m) + DaysInMonth(y, m) == DaysInYear(y)
  {
  }

  lemma {:induction false} MonthsMonotone(y: int, m1: int, m2: int)
    requires 1 <= m1 < m2 <= 12
    ensures DaysBeforeMonth(y, m1) + DaysInMonth(y, m1) <= DaysBeforeMonth(y, m2)
    decreases m2 - m1
  {
    MonthStep(y, m1);
    if m1 + 1 < m2 {
      MonthsMonotone(y, m1 + 1, m2);
      MonthStep(y, m1 + 1);
    }
  }

  /** The year holding day `DaysBeforeYear(y) + r`, and that day's index within it. */
  function YearContaining(y: int, r: int): (res: (int, int))
    ensures 0 <= res.1 < DaysInYear(res.0)
    decreases if r < 0 then 400 - r else r
  {
    if r < 0 then YearContaining(y - 1, r + DaysInYear(y - 1))
    else if r >= DaysInYear(y) then YearContaining(y + 1, r - DaysInYear(y))
    else (y, r)
  }

  lemma {:induction false} YearContainingSpec(y: int, r: int)
    ensures var res := YearContaining(y, r);
      DaysBeforeYear(res.0) + res.1 == DaysBeforeYear(y) + r
    decreases if r < 0 then 400 - r else r
  {
    if r < 0 {
      YearStep(y - 1);
      YearContainingSpec(y - 1, r + DaysInYear(y - 1));
    } else if r >= DaysInYear(y) {
      YearStep(y);
      YearContainingSpec(y + 1, r - DaysInYear(y));
    }
  }

  /** The month (searched downwards from `m`) holding day index `r` of year `y`. */
  function MonthContaining(y: int, r: int, m: int): (res: int)
    requires 1 <= m <= 12 && 0 <= r
    requires m < 12 ==> r < DaysBeforeMonth(y, m + 1)
    requires m == 12 ==> r < DaysInYear(y)
    ensures 1 <= res <= m
    ensures DaysBeforeMonth(y, res) <= r < DaysBeforeMonth(y, res) + DaysInMonth(y, res)
    decreases m
  {
    MonthStep(y, m);
    if m == 1 || DaysBeforeMonth(y, m) <= r then m
    else MonthContaining(y, r, m - 1)
  }

  /** The calendar date of a day number. */
  function DateOfDayNumber(n: int): (d: Date)
    ensures ValidDate(d)
  {
    var (y, r) := YearContaining(1970, n);
    var m := MonthContaining(y, r, 12);
    Date(y, m, r - DaysBeforeMonth(y, m) + 1)
  }

  lemma DateOfDayNumberSpec(n: int)
    ensures DayNumber(DateOfDayNumber(n)) == n
  {
    YearContainingSpec(1970, n);
  }

  lemma DayNumberBounds(d: Date)
    requires ValidDate(d)
    ensures DaysBeforeYear(d.year) <= DayNumber(d) < DaysBeforeYear(d.year + 1)
  {
    MonthStep(d.year, d.month);
    if d.month < 12 {
      MonthsMonotone(d.year, d.month, 12);
      MonthStep(d.year, 12);
    }
    YearStep(d.year);
  }

  /** Distinct valid dates have distinct day numbers. */
  lemma DayNumberInjective(a: Date, b: Date)
    requires ValidDate(a) && ValidDate(b) && DayNumber(a) == DayNumber(b)
    ensures a == b
  {
    DayNumberBounds(a);
    DayNumberBounds(b);
    if a.year < b.year {
      YearsMonotone(a.year + 1, b.year);
    } else if b.year < a.year {
      YearsMonotone(b.year + 1, a.year);
    } else if a.month < b.month {
      MonthsMonotone(a.year, a.month, b.month);
    } else if b.month < a.month {
      MonthsMonotone(a.year, b.month, a.month);
    }
  }

  lemma DateRoundTrip(d: Date)
    requires ValidDate(d)
    ensures DateOfDayNumber(DayNumber(d)) == d
  {
    DateOfDayNumberSpec(DayNumber(d));
    DayNumberInjective(DateOfDayNumber(DayNumber(d)), d);
  }

  /** The wall-clock seconds of a civil date and time. */
  function FromCivil(c: DateTime): int
    requires ValidDateTime(c)
  {
    DayNumber(c.date) * SecondsPerDay + c.hour * SecondsPerHour + c.minute * SecondsPerMinute + c.second
  }

  /** The civil date and time of wall-clock seconds. */
  function ToCivil(t: int): (c: DateTime)
    ensures ValidDateTime(c)
  {
    var secs := t % SecondsPerDay;
    var rest := secs % SecondsPerHour;
    DateTime(DateOfDayNumber(t / SecondsPerDay), secs / SecondsPerHour, rest / SecondsPerMinute, rest % SecondsPerMinute)
  }

  lemma ToCivilSpec(t: int)
    ensures FromCivil(ToCivil(t)) == t
  {
    DateOfDayNumberSpec(t / SecondsPerDay);
  }

  lemma CivilRoundTrip(c: DateTime)
    requires ValidDateTime(c)
    ensures ToCivil(FromCivil(c)) == c
  {
    var t := FromCivil(c);
    var s := c.hour * SecondsPerHour + c.minute * SecondsPerMinute + c.second;
    assert 0 <= s < SecondsPerDay;
    assert t / SecondsPerDay == DayNumber(c.date);
    assert t % SecondsPerDay == s;
    DateRoundTrip(c.date);
  }

  /** Python's `datetime.weekday()` of wall-clock seconds. */
  function WeekdayOf(t: int): (w: int)
    ensures 0 <= w < 7
  {
    WeekdayOfDayNumber(t / SecondsPerDay)
  }

  /** Wall-clock seconds of a date at midnight; `At(y, m, d)` in a fixed zone is `At(...) - zone`. */
  function At(y: int, m: int, d: int): int
    requires ValidDate(Date(y, m, d))
  {
    FromCivil(DateTime(Date(y, m, d), 0, 0, 0))
  }
}
