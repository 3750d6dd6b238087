/** Which schedules the five-year look-ahead reaches.

    The search is documented to give up only on an expression that can never
    match.  That is true except for schedules confined to 29 February, and for
    those exactly when the window falls in the eight-year gap around a century
    year that is not a leap year. */
module CronReach {
  import opened Calendar
  import opened Cron

  /** What parsing guarantees: every field allows some value of its range, and an
      unrestricted day field allows all of them. */
  ghost predicate WellFormed(s: Schedule) {
    && (exists h :: 0 <= h < 24 && h in s.hours)
    && (exists m :: 0 <= m < 60 && m in s.minutes)
    && (exists m :: 1 <= m <= 12 && m in s.months)
    && (exists d :: 1 <= d <= 31 && d in s.days)
    && (exists w :: 0 <= w < 7 && w in s.weekdays)
    && (!s.dayRestricted ==> forall d :: 1 <= d <= 31 ==> d in s.days)
    && (!s.weekdayRestricted ==> forall w :: 0 <= w < 7 ==> w in s.weekdays)
  }

  /** Some allowed month has an allowed day in a common year. */
  ghost predicate EveryYear(s: Schedule) {
    exists m :: 1 <= m <= 12 && m in s.months && MonthHasDay(s, m)
  }

  ghost predicate MonthHasDay(s: Schedule, m: int)
    requires 1 <= m <= 12
  {
    s.weekdayRestricted || exists d :: 1 <= d <= DaysIn(1, m) && d in s.days
  }

  ghost predicate NeverMatches(s: Schedule) {
    forall k :: !Matches(s, k)
  }

  ghost predicate WindowMatches(s: Schedule, from: int) {
    exists k :: from <= k < from + LOOKAHEAD && Matches(s, k)
  }

  // ----- Schedules that match every year

  lemma MinuteOfDay(day: int, h: int, m: int)
    requires 0 <= h < 24 && 0 <= m < 60
    ensures var k := day * 1440 + h * 60 + m;
      DayAt(k) == day && HourAt(k) == h && k % 60 == m && day * 1440 <= k < day * 1440 + 1440
  {
    var k, r := day * 1440 + h * 60 + m, h * 60 + m;
    assert k % 1440 == r && k / 1440 == day;
    assert k == 60 * (24 * day + h) + m;
    assert r / 60 == h;
  }

  /** A day of month `m` and year `y` on which the schedule fires. */
  lemma MatchingDay(s: Schedule, y: int, m: int) returns (day: int)
    requires WellFormed(s) && 1 <= m <= 12 && m in s.months && MonthHasDay(s, m)
    ensures MatchesDay(s, day) && DateOf(day).year == y && DateOf(day).month == m
  {
    hide DateOf, DayNumber, DaysBeforeYear;
    var dayOfMonth;
    if s.weekdayRestricted {
      var w :| 0 <= w < 7 && w in s.weekdays;
      var k := WeekdayWithinSeven(DayOf(Date(y, m, 1)), w);
      dayOfMonth := k + 1;
      PlainDayNumber(y, m, 1);
      PlainDayNumber(y, m, dayOfMonth);
      assert Weekday(DayOf(Date(y, m, dayOfMonth))) == w;
    } else {
      var d :| 1 <= d <= DaysIn(1, m) && d in s.days;
      dayOfMonth := d;
    }
    var date := Date(y, m, dayOfMonth);
    DateRoundTrip(date);
    day := DayOf(date);
  }

  lemma YearAhead(day: int, later: int)
    requires DateOf(later).year == DateOf(day).year + 1
    ensures day < later < day + 732
  {
    hide DateOf, DayNumber, DaysBeforeYear;
    DayInYear(DateOf(day));
    DayInYear(DateOf(later));
    YearsIncrease(DateOf(day).year, DateOf(day).year + 2);
  }

  /** A schedule with a day in common years is found from every start. */
  lemma EveryYearIsReached(s: Schedule, from: int)
    requires WellFormed(s) && EveryYear(s)
    ensures WindowMatches(s, from)
  {
    hide MatchesDay, MonthHasDay, DateOf;
    var m :| 1 <= m <= 12 && m in s.months && MonthHasDay(s, m);
    var day := MatchingDay(s, DateOf(DayAt(from)).year + 1, m);
    YearAhead(DayAt(from), day);
    var h :| 0 <= h < 24 && h in s.hours;
    var mi :| 0 <= mi < 60 && mi in s.minutes;
    MinuteOfDay(day, h, mi);
    assert Matches(s, day * 1440 + h * 60 + mi);
  }

  // ----- Schedules confined to 29 February

  ghost predicate LeapDayOnly(s: Schedule) {
    !EveryYear(s) && 2 in s.months && 29 in s.days
  }

  function LeapDay(y: int): int {
    DayNumber(y, 2, 29)
  }

  lemma LeapDayNumber(y: int)
    ensures LeapDay(y) == DaysBeforeYear(y) + 59
    ensures IsLeap(y) ==> DateOf(LeapDay(y)) == Date(y, 2, 29)
  {
    PlainDayNumber(y, 2, 29);
    MonthTable(y);
    hide DateOf, DayNumber, DaysBeforeYear;
    if IsLeap(y) {
      DateRoundTrip(Date(y, 2, 29));
    }
  }

  /** A schedule with no day in common years can fire only on 29 February. */
  lemma OnlyLeapDays(s: Schedule, k: int)
    requires WellFormed(s) && !EveryYear(s) && Matches(s, k)
    ensures LeapDayOnly(s)
    ensures var y := DateOf(DayAt(k)).year; IsLeap(y) && DayAt(k) == LeapDay(y)
  {
    hide DateOf, DayNumber, DaysBeforeYear;
    var d := DateOf(DayAt(k));
    assert !MonthHasDay(s, d.month);
    assert d.day in s.days && d.day > DaysIn(1, d.month);
  }

  /** On a leap day the schedule fires at the allowed times and no others. */
  lemma LeapDayTimes(s: Schedule, y: int, h: int, m: int)
    requires WellFormed(s) && LeapDayOnly(s) && IsLeap(y) && 0 <= h < 24 && 0 <= m < 60
    ensures Matches(s, LeapDay(y) * 1440 + h * 60 + m) <==> h in s.hours && m in s.minutes
  {
    hide DateOf, DayNumber, DaysBeforeYear;
    MinuteOfDay(LeapDay(y), h, m);
    LeapDayNumber(y);
    var mo :| 1 <= mo <= 12 && mo in s.months;
    assert !MonthHasDay(s, mo);
    assert Weekday(LeapDay(y)) in s.weekdays;
  }

  /** The same time of day matches on every other leap day. */
  lemma OtherLeapDay(s: Schedule, y: int, z: int, k: int)
    requires WellFormed(s) && LeapDayOnly(s) && IsLeap(y) && IsLeap(z)
    requires Matches(s, k) && DayAt(k) == LeapDay(y)
    ensures Matches(s, k + (LeapDay(z) - LeapDay(y)) * 1440)
    ensures DayAt(k + (LeapDay(z) - LeapDay(y)) * 1440) == LeapDay(z)
  {
    hide DateOf, DayNumber, DaysBeforeYear;
    var h, m := HourAt(k), k % 60;
    MinuteSplit(k);
    MinuteOfDay(LeapDay(z), h, m);
    LeapDayTimes(s, y, h, m);
    LeapDayTimes(s, z, h, m);
  }

  lemma MinuteSplit(k: int)
    ensures k == DayAt(k) * 1440 + HourAt(k) * 60 + k % 60 && 0 <= HourAt(k) < 24
  {
  }

  lemma LeapDaysApart(y: int, z: int)
    requires y <= z
    ensures LeapDay(y) + 365 * (z - y) <= LeapDay(z)
    ensures z == y + 4 && IsLeap(y) ==> LeapDay(z) <= LeapDay(y) + 1461
  {
    hide DaysBeforeYear, LeapDay, IsLeap;
    LeapDayNumber(y);
    LeapDayNumber(z);
    YearsIncrease(y, z);
    if z == y + 4 && IsLeap(y) {
      CommonAfterLeap(y);
      YearLength(y);
      YearLength(y + 1);
      YearLength(y + 2);
      YearLength(y + 3);
    }
  }

  lemma CommonAfterLeap(y: int)
    requires IsLeap(y)
    ensures !IsLeap(y + 1) && !IsLeap(y + 2) && !IsLeap(y + 3)
  {
  }

  /** The window lies between the last firing of one leap day and the first firing of
      the leap day eight years later. */
  ghost predicate InCenturyGap(s: Schedule, from: int) {
    exists c :: GapAround(s, from, c)
  }

  ghost predicate GapAround(s: Schedule, from: int, c: int) {
    && c % 100 == 0 && c % 400 != 0
    && (forall k :: Matches(s, k) && DayAt(k) == LeapDay(c - 4) ==> k < from)
    && (forall k :: Matches(s, k) && DayAt(k) == LeapDay(c + 4) ==> from + LOOKAHEAD <= k)
  }

  lemma GapHasNoMatch(s: Schedule, from: int, c: int)
    requires WellFormed(s) && LeapDayOnly(s) && GapAround(s, from, c)
    ensures NoMatch(s, from, from + LOOKAHEAD)
  {
    forall k | Matches(s, k) ensures k < from || from + LOOKAHEAD <= k {
      GapExcludes(s, from, c, k);
    }
  }

  lemma GapExcludes(s: Schedule, from: int, c: int, k: int)
    requires WellFormed(s) && LeapDayOnly(s) && GapAround(s, from, c) && Matches(s, k)
    ensures k < from || from + LOOKAHEAD <= k
  {
    hide Matches, DateOf, DayNumber, LeapDay, EveryYear, WellFormed, IsLeap;
    OnlyLeapDays(s, k);
    var y := DateOf(DayAt(k)).year;
    LeapAroundCentury(c, y);
    if y <= c - 4 {
      OtherLeapDay(s, y, c - 4, k);
      LeapDaysApart(y, c - 4);
    } else {
      OtherLeapDay(s, y, c + 4, k);
      LeapDaysApart(c + 4, y);
    }
  }

  lemma LeapAroundCentury(c: int, y: int)
    requires c % 100 == 0 && c % 400 != 0
    ensures IsLeap(c - 4) && IsLeap(c + 4)
    ensures IsLeap(y) ==> y <= c - 4 || c + 4 <= y
  {
    CenturyDivisors(c);
    assert (c - 4) % 100 == 96 && (c + 4) % 100 == 4;
    assert c - 4 < y < c + 4 && y % 4 == 0 ==> y == c;
  }

  lemma NearbyLeap(y: int) returns (z: int)
    ensures y < z <= y + 8 && IsLeap(z)
  {
    z := y + 4 - y % 4;
    if !IsLeap(z) {
      LeapAroundCentury(z, z + 4);
      z := z + 4;
    }
  }

  ghost predicate FiresFrom(s: Schedule, from: int, y: int) {
    exists k :: from <= k && Matches(s, k) && DayAt(k) == LeapDay(y)
  }

  /** The first leap year that still has a firing ahead. */
  lemma FirstAhead(s: Schedule, from: int, z: int) returns (y: int)
    requires WellFormed(s) && LeapDayOnly(s) && IsLeap(z) && FiresFrom(s, from, z)
    ensures IsLeap(y) && FiresFrom(s, from, y)
    ensures forall x :: x < y && IsLeap(x) ==> !FiresFrom(s, from, x)
    decreases z - DateOf(DayAt(from)).year
  {
    if x :| x < z && IsLeap(x) && FiresFrom(s, from, x) {
      FiringYearIsNotPast(s, from, x);
      y := FirstAhead(s, from, x);
    } else {
      y := z;
    }
  }

  lemma FiringYearIsNotPast(s: Schedule, from: int, x: int)
    requires IsLeap(x) && FiresFrom(s, from, x)
    ensures DateOf(DayAt(from)).year <= x
  {
    var k :| from <= k && Matches(s, k) && DayAt(k) == LeapDay(x);
    hide Matches, DateOf, DayNumber, LeapDay, DaysBeforeYear;
    LeapDayNumber(x);
    var d := DateOf(DayAt(from));
    DayInYear(d);
    DayInYear(Date(x, 2, 29));
    if x < d.year {
      YearsIncrease(x + 1, d.year);
    }
  }

  lemma FiringExists(s: Schedule, from: int) returns (z: int)
    requires WellFormed(s) && LeapDayOnly(s)
    ensures IsLeap(z) && FiresFrom(s, from, z)
  {
    hide Matches, DateOf, DayNumber, DaysBeforeYear, LeapDay;
    var y := DateOf(DayAt(from)).year;
    z := NearbyLeap(y);
    var h :| 0 <= h < 24 && h in s.hours;
    var m :| 0 <= m < 60 && m in s.minutes;
    LeapDayTimes(s, z, h, m);
    MinuteOfDay(LeapDay(z), h, m);
    LeapDayNumber(z);
    DayInYear(DateOf(DayAt(from)));
    DayInYear(Date(z, 2, 29));
    YearsIncrease(y + 1, z);
    assert DayAt(from) < LeapDay(z);
    var k := LeapDay(z) * 1440 + h * 60 + m;
    assert from <= k && Matches(s, k);
  }

  lemma EmptyWindowIsGap(s: Schedule, from: int)
    requires WellFormed(s) && LeapDayOnly(s) && NoMatch(s, from, from + LOOKAHEAD)
    ensures InCenturyGap(s, from)
  {
    hide Matches, DateOf, DayNumber, LeapDay, LeapDayOnly, WellFormed, IsLeap;
    var z := FiringExists(s, from);
    var y := FirstAhead(s, from, z);
    FirstIsFar(s, from, y);
    assert GapAround(s, from, y - 4);
  }

  /** With a leap year four years earlier the next firing would be within the window. */
  lemma NoEarlierLeap(s: Schedule, from: int, y: int)
    requires WellFormed(s) && LeapDayOnly(s) && NoMatch(s, from, from + LOOKAHEAD)
    requires IsLeap(y) && FiresFrom(s, from, y)
    requires IsLeap(y - 4)
    ensures FiresFrom(s, from, y - 4)
  {
    hide Matches, DateOf, DayNumber, LeapDay, LeapDayOnly, WellFormed, IsLeap, DayAt;
    var k :| from <= k && Matches(s, k) && DayAt(k) == LeapDay(y);
    OtherLeapDay(s, y, y - 4, k);
    LeapDaysApart(y - 4, y);
    assert from + LOOKAHEAD <= k;
  }

  lemma CenturyBefore(y: int)
    requires IsLeap(y) && !IsLeap(y - 4)
    ensures (y - 4) % 100 == 0 && (y - 4) % 400 != 0 && IsLeap(y - 8)
  {
    CenturyDivisors(y - 4);
    LeapAroundCentury(y - 4, y);
  }

  lemma FirstIsFar(s: Schedule, from: int, y: int)
    requires WellFormed(s) && LeapDayOnly(s) && NoMatch(s, from, from + LOOKAHEAD)
    requires IsLeap(y) && FiresFrom(s, from, y)
    requires forall x :: x < y && IsLeap(x) ==> !FiresFrom(s, from, x)
    ensures GapAround(s, from, y - 4)
  {
    hide Matches, DateOf, DayNumber, LeapDay, LeapDayOnly, WellFormed, IsLeap;
    if IsLeap(y - 4) {
      NoEarlierLeap(s, from, y);
    }
    CenturyBefore(y);
    assert !FiresFrom(s, from, y - 8);
    var k0 :| from <= k0 && Matches(s, k0) && DayAt(k0) == LeapDay(y);
    forall k | Matches(s, k) && DayAt(k) == LeapDay(y) ensures from + LOOKAHEAD <= k {
      assert k0 - 1440 < k < k0 + 1440;
    }
  }

  // ----- The documented claim, exactly

  /** Nothing is found in the window exactly when the schedule never matches or is
      confined to leap days and the window lies in a century gap. */
  lemma EmptyWindowExactly(s: Schedule, from: int)
    requires WellFormed(s)
    ensures NoMatch(s, from, from + LOOKAHEAD) <==>
            NeverMatches(s) || (LeapDayOnly(s) && InCenturyGap(s, from))
  {
    if EveryYear(s) {
      EveryYearIsReached(s, from);
    } else if LeapDayOnly(s) {
      if NoMatch(s, from, from + LOOKAHEAD) {
        EmptyWindowIsGap(s, from);
      }
      if InCenturyGap(s, from) {
        var c :| GapAround(s, from, c);
        GapHasNoMatch(s, from, c);
      }
    } else {
      forall k ensures !Matches(s, k) {
        if Matches(s, k) {
          OnlyLeapDays(s, k);
        }
      }
    }
  }

  /** `0 0 29 2 *` */
  const LEAP_NIGHT := Schedule({0}, {0}, {29}, {2}, {0, 1, 2, 3, 4, 5, 6}, true, false)

  /** From 1 March 2096 the window has no firing of `0 0 29 2 *`, which does fire in 2104. */
  lemma LeapNightGap()
    ensures var from := DayNumber(2096, 3, 1) * 1440;
      NoMatch(LEAP_NIGHT, from, from + LOOKAHEAD) && Matches(LEAP_NIGHT, LeapDay(2104) * 1440)
  {
    var s, from := LEAP_NIGHT, DayNumber(2096, 3, 1) * 1440;
    LeapNightIsLeapOnly();
    MarchFirst2096();
    hide Matches, DateOf, DayNumber, LeapDay, LeapDayOnly, WellFormed, IsLeap;
    forall k | Matches(s, k) ensures k == DayAt(k) * 1440 {
      MidnightOnly(k);
    }
    assert GapAround(s, from, 2100);
    GapHasNoMatch(s, from, 2100);
  }

  lemma LeapNightIsLeapOnly()
    ensures WellFormed(LEAP_NIGHT) && LeapDayOnly(LEAP_NIGHT)
    ensures Matches(LEAP_NIGHT, LeapDay(2104) * 1440)
  {
    var s := LEAP_NIGHT;
    hide Matches, DateOf, DayNumber, LeapDay;
    assert 0 in s.hours && 0 in s.minutes && 2 in s.months && 29 in s.days && 0 in s.weekdays;
    assert !EveryYear(s) by {
      assert DaysIn(1, 2) == 28;
    }
    LeapDayTimes(s, 2104, 0, 0);
  }

  lemma MidnightOnly(k: int)
    requires Matches(LEAP_NIGHT, k)
    ensures k == DayAt(k) * 1440
  {
    hide DateOf, MatchesDay;
    MinuteSplit(k);
  }

  lemma MarchFirst2096()
    ensures DayNumber(2096, 3, 1) == LeapDay(2096) + 1
    ensures LeapDay(2096) + 2920 <= LeapDay(2104)
  {
    hide DayNumber, LeapDay, DaysBeforeYear;
    PlainDayNumber(2096, 3, 1);
    MonthTable(2096);
    LeapDayNumber(2096);
    LeapDaysApart(2096, 2104);
  }
}
