/** The two day fields of a schedule.

    A restricted day of the month and a restricted weekday widen each other, as in
    historical cron: the schedule then fires whenever either of its halves does, a
    half being the schedule with the other field opened. */
module CronDays {
  import opened Calendar
  import opened Cron
  import opened CronReach
  import opened Wrappers

  function Span(lo: int, hi: int): (values: set<int>)
    ensures forall v :: v in values <==> lo <= v <= hi
    decreases hi - lo
  {
    if lo > hi then {} else {lo} + Span(lo + 1, hi)
  }

  /** The schedule with its weekday field opened. */
  function OnDays(s: Schedule): Schedule {
    s.(weekdays := Span(0, 6), weekdayRestricted := false)
  }

  /** The schedule with its day-of-month field opened. */
  function OnWeekdays(s: Schedule): Schedule {
    s.(days := Span(1, 31), dayRestricted := false)
  }

  /** What each half allows, on dates and times of day. */
  lemma HalvesOnDates(s: Schedule, d: Date, h: int, m: int)
    requires Valid(d) && 0 <= h < 24 && 0 <= m < 60
    ensures var k, rest := DayOf(d) * 1440 + h * 60 + m, d.month in s.months && h in s.hours && m in s.minutes;
      && (Matches(OnDays(s), k) <==> rest && d.day in s.days)
      && (Matches(OnWeekdays(s), k) <==> rest && Weekday(DayOf(d)) in s.weekdays)
  {
    hide DateOf, DayOf;
    DateRoundTrip(d);
    MinuteOfDay(DayOf(d), h, m);
    assert 1 <= d.day <= 31;
  }

  /** With both fields restricted a schedule fires when either half does, otherwise when both do. */
  lemma EitherDay(s: Schedule, k: int)
    ensures Matches(s, k) <==>
      if s.dayRestricted && s.weekdayRestricted then Matches(OnDays(s), k) || Matches(OnWeekdays(s), k)
      else Matches(OnDays(s), k) && Matches(OnWeekdays(s), k)
  {
    hide DateOf;
    assert 1 <= DateOf(DayAt(k)).day <= 31;
  }

  /** The earlier of two occurrences. */
  function Earlier(a: Option<int>, b: Option<int>): (r: Option<int>)
    ensures r in {a, b}
    ensures a.Some? ==> r.Some? && r.value <= a.value
    ensures b.Some? ==> r.Some? && r.value <= b.value
  {
    if a.Some? && (b.Some? ==> a.value <= b.value) then a else b
  }

  /** The minute of an occurrence, when it lies in the first `LOOKAHEAD` minutes from the start. */
  ghost function MinuteOf(after: int, offset: int, r: Option<int>): Option<int> {
    if r.Some? && (r.value + offset) / 60 < Start(after, offset) / 60 + LOOKAHEAD then Some((r.value + offset) / 60)
    else None
  }

  /** The least matching minute of the window, if there is one. */
  ghost predicate LeastIn(s: Schedule, from: int, m: Option<int>) {
    match m
    case Some(k) => from <= k < from + LOOKAHEAD && Matches(s, k) && NoMatch(s, from, k)
    case None => NoMatch(s, from, from + LOOKAHEAD)
  }

  lemma NextIsLeast(s: Schedule, after: int, offset: int, r: Option<int>)
    requires IsNext(s, after, offset, r)
    ensures LeastIn(s, Start(after, offset) / 60, MinuteOf(after, offset, r))
    ensures offset % 60 == 0 && r.Some? ==> MinuteOf(after, offset, r) == Some((r.value + offset) / 60)
    ensures offset % 60 == 0 && r.Some? ==> r.value == (r.value + offset) / 60 * 60 - offset
  {
    hide Matches;
    StartUnfolds(after, offset);
  }

  lemma LeastOfEither(s: Schedule, from: int, m: Option<int>, days: Option<int>, weekdays: Option<int>)
    requires s.dayRestricted && s.weekdayRestricted
    requires LeastIn(s, from, m) && LeastIn(OnDays(s), from, days) && LeastIn(OnWeekdays(s), from, weekdays)
    ensures m == Earlier(days, weekdays)
  {
    hide Matches;
    forall k ensures Matches(s, k) <==> Matches(OnDays(s), k) || Matches(OnWeekdays(s), k) {
      EitherDay(s, k);
    }
  }

  /** With both fields restricted the next occurrence is the earlier of the halves' next ones:
      the same instant in a zone of whole minutes, the same minute in any zone. */
  lemma NextOfHalves(s: Schedule, after: int, offset: int, r: Option<int>, days: Option<int>, weekdays: Option<int>)
    requires s.dayRestricted && s.weekdayRestricted
    requires IsNext(s, after, offset, r)
    requires IsNext(OnDays(s), after, offset, days) && IsNext(OnWeekdays(s), after, offset, weekdays)
    ensures MinuteOf(after, offset, r) == Earlier(MinuteOf(after, offset, days), MinuteOf(after, offset, weekdays))
    ensures offset % 60 == 0 ==> r == Earlier(days, weekdays)
  {
    hide IsNext, Matches, NoMatch, OnDays, OnWeekdays, LeastIn;
    NextIsLeast(s, after, offset, r);
    NextIsLeast(OnDays(s), after, offset, days);
    NextIsLeast(OnWeekdays(s), after, offset, weekdays);
    LeastOfEither(s, Start(after, offset) / 60, MinuteOf(after, offset, r),
                  MinuteOf(after, offset, days), MinuteOf(after, offset, weekdays));
  }
}
