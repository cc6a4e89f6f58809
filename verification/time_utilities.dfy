/**
 * Calendar bucket keys used by the pruning engine: the start of an instant's
 * day, of its Monday-based week and of its month. Instants are seconds in
 * the zone the bucket is taken in (UTC for archives), so a day starts at a
 * multiple of `SecondsPerDay`.
 */
module TimeUtilities {
  import opened Calendar

  /** `dt.replace(hour=0, minute=0, second=0, microsecond=0)`: the midnight
      starting `t`'s day (see `DayIsMidnight`). */
  function Day(t: int): (r: int)
    ensures r <= t < r + SecondsPerDay
    ensures r % SecondsPerDay == 0
  {
    t - t % SecondsPerDay
  }

  /** `(dt - relativedelta(weekday=MO(-1))).replace(hour=0, ...)`: step back to the
      Monday on or before `t`'s date, then truncate to midnight. */
  function Week(t: int): (r: int)
    ensures r <= t < r + DaysPerWeek * SecondsPerDay
    ensures r % SecondsPerDay == 0
  {
    Day(t - (WeekdayOf(t) - Monday) % DaysPerWeek * SecondsPerDay)
  }

  /** `dt.replace(day=1, hour=0, minute=0, second=0, microsecond=0)`. */
  function Month(t: int): int {
    var c := ToCivil(t);
    FromCivil(DateTime(Date(c.date.year, c.date.month, 1), 0, 0, 0))
  }

  /** The day bucket keeps the date and zeroes the time of day. */
  lemma DayIsMidnight(t: int)
    ensures ToCivil(Day(t)) == ToCivil(t).(hour := 0, minute := 0, second := 0)
  {
    var midnight := ToCivil(t).(hour := 0, minute := 0, second := 0);
    ToCivilSpec(t);
    CivilRoundTrip(midnight);
    assert FromCivil(midnight) == Day(t);
  }

  /** The day bucket of `t` is the multiple of a day at or below it. */
  lemma DayIsFloor(t: int)
    ensures Day(t) == t / SecondsPerDay * SecondsPerDay
  {
  }

  lemma DaysBack(t: int, k: int)
    ensures (t - k * SecondsPerDay) / SecondsPerDay == t / SecondsPerDay - k
  {
  }

  lemma MondayOfWeek(d: int)
    ensures WeekdayOfDayNumber(d - WeekdayOfDayNumber(d)) == Monday
  {
    var w := WeekdayOfDayNumber(d);
    assert d + 3 == 7 * ((d + 3) / 7) + w;
    assert d - w + 3 == 7 * ((d + 3) / 7);
  }

  /** The week bucket is the midnight starting the Monday on or before `t`'s date. */
  lemma WeekIsFloor(t: int)
    ensures Week(t) == (t / SecondsPerDay - WeekdayOf(t)) * SecondsPerDay
  {
    var w := WeekdayOf(t);
    assert (w - Monday) % DaysPerWeek == w;
    DaysBack(t, w);
    DayIsFloor(t - w * SecondsPerDay);
  }

  /** The week bucket falls on a Monday, at midnight. */
  lemma WeekIsMondayMidnight(t: int)
    ensures WeekdayOf(Week(t)) == Monday
    ensures ToCivil(Week(t)).hour == 0 && ToCivil(Week(t)).minute == 0 && ToCivil(Week(t)).second == 0
  {
    var d := t / SecondsPerDay;
    var w := WeekdayOf(t);
    WeekIsFloor(t);
    DaysBack(0, w - d);
    assert Week(t) / SecondsPerDay == d - w;
    MondayOfWeek(d);
    DayIsMidnight(Week(t));
  }

  /** The month bucket is midnight on the first of `t`'s month, and `t` lies in
      that month. */
  lemma MonthIsFirstOfMonth(t: int)
    ensures ToCivil(Month(t)) == DateTime(Date(ToCivil(t).date.year, ToCivil(t).date.month, 1), 0, 0, 0)
    ensures Month(t) <= t
    ensures t < Month(t) + DaysInMonth(ToCivil(t).date.year, ToCivil(t).date.month) * SecondsPerDay
  {
    var c := ToCivil(t);
    var first := DateTime(Date(c.date.year, c.date.month, 1), 0, 0, 0);
    ToCivilSpec(t);
    CivilRoundTrip(first);
  }

  lemma DayIdempotent(t: int)
    ensures Day(Day(t)) == Day(t)
  {
  }

  lemma WeekIdempotent(t: int)
    ensures Week(Week(t)) == Week(t)
  {
    WeekIsFloor(t);
    WeekIsFloor(Week(t));
    WeekIsMondayMidnight(t);
  }

  lemma MonthIdempotent(t: int)
    ensures Month(Month(t)) == Month(t)
  {
    MonthIsFirstOfMonth(t);
  }

  /** The week and month buckets of an instant start no later than its day bucket. */
  lemma BucketsOrdered(t: int)
    ensures Week(t) <= Day(t)
    ensures Month(t) <= Day(t)
  {
    DayIsFloor(t);
    WeekIsFloor(t);
    MonthIsFirstOfMonth(t);
    var c := ToCivil(t);
    ToCivilSpec(t);
    assert DayNumber(Date(c.date.year, c.date.month, 1)) <= DayNumber(c.date);
  }

  /** Instants in the same day bucket share their week and month buckets. */
  lemma BucketsNest(a: int, b: int)
    requires Day(a) == Day(b)
    ensures Week(a) == Week(b)
    ensures Month(a) == Month(b)
  {
    DayIsFloor(a);
    DayIsFloor(b);
    assert a / SecondsPerDay == b / SecondsPerDay;
    WeekIsFloor(a);
    WeekIsFloor(b);
    assert ToCivil(a).date == ToCivil(b).date;
  }
}
