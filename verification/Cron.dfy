/** The next occurrence of a cron schedule in a fixed-offset zone.

    Instants are seconds since the calendar's day 0 on the zone's wall clock, and
    a schedule is a predicate on wall-clock minutes.  The search skips whole
    months, days and hours; it is proved to visit no less than a search that
    tries every minute. */
module Cron {
  import opened Calendar
  import opened Wrappers

  datatype Schedule = Schedule(
    minutes: set<int>, hours: set<int>, days: set<int>, months: set<int>, weekdays: set<int>,
    dayRestricted: bool, weekdayRestricted: bool)

  /** Five years of 366 days, in minutes. */
  const LOOKAHEAD := 5 * 366 * 24 * 60

  predicate MatchesDay(s: Schedule, day: int) {
    var inDays, inWeekdays := DateOf(day).day in s.days, Weekday(day) in s.weekdays;
    if s.dayRestricted && s.weekdayRestricted then inDays || inWeekdays else inDays && inWeekdays
  }

  function DayAt(k: int): int { k / 1440 }

  function HourAt(k: int): int { k % 1440 / 60 }

  /** The schedule allows minute `k`. */
  predicate Matches(s: Schedule, k: int) {
    && DateOf(DayAt(k)).month in s.months
    && MatchesDay(s, DayAt(k))
    && HourAt(k) in s.hours
    && k % 60 in s.minutes
  }

  ghost predicate NoMatch(s: Schedule, from: int, to: int) {
    forall k :: from <= k < to ==> !Matches(s, k)
  }

  // ----- What each skip may step over

  lemma MonthSkip(s: Schedule, k: int)
    requires DateOf(DayAt(k)).month !in s.months
    ensures NoMatch(s, k, NextMonth(DayAt(k)) * 1440)
    ensures k < NextMonth(DayAt(k)) * 1440
  {
    NextMonthIsLater(DayAt(k));
    forall j | k <= j < NextMonth(DayAt(k)) * 1440 ensures !Matches(s, j) {
      SameMonthUntilNext(DayAt(k), DayAt(j));
    }
  }

  lemma DaySkip(s: Schedule, k: int)
    requires !MatchesDay(s, DayAt(k))
    ensures NoMatch(s, k, (DayAt(k) + 1) * 1440)
    ensures k < (DayAt(k) + 1) * 1440
  {
    hide MatchesDay;
    forall j | k <= j < (DayAt(k) + 1) * 1440 ensures !Matches(s, j) {
      assert DayAt(j) == DayAt(k);
    }
  }

  lemma HourSkip(s: Schedule, k: int)
    requires HourAt(k) !in s.hours
    ensures NoMatch(s, k, DayAt(k) * 1440 + HourAt(k) * 60 + 60)
    ensures k < DayAt(k) * 1440 + HourAt(k) * 60 + 60
  {
    hide MatchesDay;
    forall j | k <= j < DayAt(k) * 1440 + HourAt(k) * 60 + 60 ensures !Matches(s, j) {
      assert DayAt(j) == DayAt(k);
      assert HourAt(j) == HourAt(k);
    }
  }

  lemma NoMatchJoin(s: Schedule, a: int, b: int, c: int)
    requires NoMatch(s, a, b) && NoMatch(s, b, c)
    ensures NoMatch(s, a, c)
  {
  }

  // ----- The search

  /** The first instant considered: the next whole minute of absolute time, shown on
      the wall clock.  `after` is in nanoseconds, `offset` in seconds. */
  function Start(after: int, offset: int): int {
    after / 60_000_000_000 * 60 + 60 + offset
  }

  lemma StartIsLater(after: int, offset: int)
    ensures (Start(after, offset) - offset) * 1_000_000_000 > after
  {
  }

  /** The result, in seconds of absolute time, falls in the least matching minute that is
      not before the first one considered; there is none exactly when no minute of the
      window matches.  A zone offset that is not a whole number of minutes shifts the
      window's end by less than a minute, hence the two bounds. */
  ghost predicate IsNext(s: Schedule, after: int, offset: int, r: Option<int>) {
    var start := Start(after, offset);
    match r
    case Some(t) =>
      && after < t * 1_000_000_000
      && start <= t + offset < start + LOOKAHEAD * 60
      && Matches(s, (t + offset) / 60) && NoMatch(s, start / 60, (t + offset) / 60)
      && (offset % 60 == 0 ==> (t + offset) % 60 == 0)
    case None => NoMatch(s, start / 60, start / 60 + LOOKAHEAD)
  }

  method Next(s: Schedule, after: int, offset: int) returns (r: Option<int>)
    ensures IsNext(s, after, offset, r)
  {
    hide *;
    var t := after / 60_000_000_000 * 60 + 60 + offset;
    ghost var start := t;
    StartUnfolds(after, offset);
    StartIsLater(after, offset);
    var deadline := t + LOOKAHEAD * 60;
    NoMatchEmpty(s, start / 60);
    while t < deadline
      invariant start <= t && NoMatch(s, start / 60, t / 60)
      invariant offset % 60 == 0 ==> t % 60 == 0
      decreases deadline - t
    {
      var k := t / 60;
      MatchesUnfolds(s, k);
      if DateOf(DayAt(k)).month !in s.months {
        MonthSkip(s, k);
        NoMatchJoin(s, start / 60, k, NextMonth(DayAt(k)) * 1440);
        t := NextMonth(DayAt(k)) * 86400 - 60;
      } else if !MatchesDay(s, DayAt(k)) {
        DaySkip(s, k);
        NoMatchJoin(s, start / 60, k, (DayAt(k) + 1) * 1440);
        t := (DayAt(k) + 1) * 86400 - 60;
      } else if HourAt(k) !in s.hours {
        HourSkip(s, k);
        NoMatchJoin(s, start / 60, k, DayAt(k) * 1440 + HourAt(k) * 60 + 60);
        t := DayAt(k) * 86400 + HourAt(k) * 3600 + 3600 - 60;
      } else if k % 60 in s.minutes {
        r := Some(t - offset);
        IsNextFound(s, after, offset, r.value);
        return;
      } else {
        NoMatchOne(s, k);
        NoMatchJoin(s, start / 60, k, k + 1);
      }
      t := t + 60;
    }
    NoMatchShorter(s, start / 60, t / 60, start / 60 + LOOKAHEAD);
    IsNextNone(s, after, offset);
    return None;
  }

  lemma IsNextFound(s: Schedule, after: int, offset: int, t: int)
    requires after < t * 1_000_000_000
    requires Start(after, offset) <= t + offset < Start(after, offset) + LOOKAHEAD * 60
    requires Matches(s, (t + offset) / 60) && NoMatch(s, Start(after, offset) / 60, (t + offset) / 60)
    requires offset % 60 == 0 ==> (t + offset) % 60 == 0
    ensures IsNext(s, after, offset, Some(t))
  {
    hide Start, Matches, NoMatch;
  }

  lemma IsNextNone(s: Schedule, after: int, offset: int)
    requires NoMatch(s, Start(after, offset) / 60, Start(after, offset) / 60 + LOOKAHEAD)
    ensures IsNext(s, after, offset, None)
  {
    hide Start, NoMatch;
  }

  lemma StartUnfolds(after: int, offset: int)
    ensures Start(after, offset) == after / 60_000_000_000 * 60 + 60 + offset
    ensures offset % 60 == 0 ==> Start(after, offset) % 60 == 0
    ensures LOOKAHEAD == 2_635_200
  {
  }

  lemma MatchesUnfolds(s: Schedule, k: int)
    ensures Matches(s, k) <==>
      && DateOf(DayAt(k)).month in s.months && MatchesDay(s, DayAt(k))
      && HourAt(k) in s.hours && k % 60 in s.minutes
  {
    hide MatchesDay, DateOf;
  }

  lemma NoMatchEmpty(s: Schedule, k: int)
    ensures NoMatch(s, k, k)
  {
  }

  lemma NoMatchOne(s: Schedule, k: int)
    requires !Matches(s, k)
    ensures NoMatch(s, k, k + 1)
  {
  }

  lemma NoMatchShorter(s: Schedule, a: int, b: int, c: int)
    requires NoMatch(s, a, b) && c <= b
    ensures NoMatch(s, a, c)
  {
  }
}
