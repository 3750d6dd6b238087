/** The proleptic Gregorian calendar, day 0 being Monday 1 January of year 1. */
module Calendar {

  datatype Date = Date(year: int, month: int, day: int)

  predicate IsLeap(y: int) {
    y % 4 == 0 && (y % 100 != 0 || y % 400 == 0)
  }

  function DaysIn(y: int, m: int): int
    requires 1 <= m <= 12
  {
    if m == 2 then (if IsLeap(y) then 29 else 28)
    else if m == 4 || m == 6 || m == 9 || m == 11 then 30
    else 31
  }

  predicate Valid(d: Date) {
    1 <= d.month <= 12 && 1 <= d.day <= DaysIn(d.year, d.month)
  }

  function DaysBeforeYear(y: int): int {
    365 * (y - 1) + (y - 1) / 4 - (y - 1) / 100 + (y - 1) / 400
  }

  function DaysBeforeMonth(y: int, m: int): int
    requires 1 <= m <= 13
  {
    if m == 1 then 0 else DaysBeforeMonth(y, m - 1) + DaysIn(y, m - 1)
  }

  /** `time.Date` at midnight: a month past December rolls into the next year and
      a day past the month's end into the next month. */
  function DayNumber(y: int, m: int, d: int): int {
    var year, month := y + (m - 1) / 12, (m - 1) % 12 + 1;
    DaysBeforeYear(year) + DaysBeforeMonth(year, month) + d - 1
  }

  function DayOf(d: Date): int {
    DayNumber(d.year, d.month, d.day)
  }

  function Weekday(day: int): int {
    (day + 1) % 7
  }

  lemma Quotients(y: int)
    ensures y / 4 - (y - 1) / 4 == if y % 4 == 0 then 1 else 0
    ensures y / 100 - (y - 1) / 100 == if y % 100 == 0 then 1 else 0
    ensures y / 400 - (y - 1) / 400 == if y % 400 == 0 then 1 else 0
  {
  }

  lemma CenturyDivisors(y: int)
    ensures y % 100 == 0 ==> y % 4 == 0
    ensures y % 400 == 0 ==> y % 100 == 0
  {
  }

  lemma YearLength(y: int)
    ensures DaysBeforeYear(y + 1) == DaysBeforeYear(y) + if IsLeap(y) then 366 else 365
  {
    Quotients(y);
    CenturyDivisors(y);
  }

  lemma MonthTable(y: int)
    ensures DaysBeforeMonth(y, 2) == 31 && DaysBeforeMonth(y, 3) == 31 + DaysIn(y, 2)
    ensures DaysBeforeMonth(y, 13) == if IsLeap(y) then 366 else 365
  {
    assert DaysBeforeMonth(y, 3) == DaysBeforeMonth(y, 2) + DaysIn(y, 2);
    assert DaysBeforeMonth(y, 5) == DaysBeforeMonth(y, 3) + 61;
    assert DaysBeforeMonth(y, 7) == DaysBeforeMonth(y, 5) + 61;
    assert DaysBeforeMonth(y, 9) == DaysBeforeMonth(y, 7) + 62;
    assert DaysBeforeMonth(y, 11) == DaysBeforeMonth(y, 9) + 61;
    assert DaysBeforeMonth(y, 13) == DaysBeforeMonth(y, 11) + 61;
  }

  lemma {:induction false} MonthsIncrease(y: int, m: int, n: int)
    requires 1 <= m <= n <= 13
    ensures DaysBeforeMonth(y, m) + 28 * (n - m) <= DaysBeforeMonth(y, n)
    decreases n - m
  {
    if m < n {
      MonthsIncrease(y, m, n - 1);
    }
  }

  lemma {:induction false} YearsIncrease(y: int, z: int)
    requires y <= z
    ensures DaysBeforeYear(y) + 365 * (z - y) <= DaysBeforeYear(z) <= DaysBeforeYear(y) + 366 * (z - y)
    decreases z - y
  {
    if y < z {
      YearsIncrease(y, z - 1);
      YearLength(z - 1);
    }
  }

  lemma PlainDayNumber(y: int, m: int, d: int)
    requires 1 <= m <= 12
    ensures DayNumber(y, m, d) == DaysBeforeYear(y) + DaysBeforeMonth(y, m) + d - 1
  {
    assert (m - 1) / 12 == 0 && (m - 1) % 12 == m - 1;
  }

  /** A date's number lies in its year, after the months before it. */
  lemma DayInYear(d: Date)
    requires Valid(d)
    ensures DayOf(d) == DaysBeforeYear(d.year) + DaysBeforeMonth(d.year, d.month) + d.day - 1
    ensures DaysBeforeYear(d.year) <= DayOf(d) < DaysBeforeYear(d.year + 1)
  {
    PlainDayNumber(d.year, d.month, d.day);
    hide DayNumber, DaysBeforeYear, IsLeap;
    MonthsIncrease(d.year, 1, d.month);
    MonthsIncrease(d.year, d.month + 1, 13);
    MonthTable(d.year);
    YearLength(d.year);
  }

  // ----- From day numbers back to dates

  lemma YearNeighbours(y: int)
    ensures DaysBeforeYear(y - 1) < DaysBeforeYear(y) < DaysBeforeYear(y + 1) < DaysBeforeYear(y + 2)
  {
    hide DaysBeforeYear;
    YearsIncrease(y - 1, y);
    YearsIncrease(y, y + 1);
    YearsIncrease(y + 1, y + 2);
  }

  function YearFrom(day: int, y: int): (r: int)
    ensures DaysBeforeYear(r) <= day < DaysBeforeYear(r + 1)
    decreases if day < DaysBeforeYear(y) then DaysBeforeYear(y) - day
              else if day >= DaysBeforeYear(y + 1) then day - DaysBeforeYear(y + 1) + 1 else 0
  {
    YearNeighbours(y);
    if day < DaysBeforeYear(y) then YearFrom(day, y - 1)
    else if day >= DaysBeforeYear(y + 1) then YearFrom(day, y + 1)
    else y
  }

  function MonthFrom(y: int, yearDay: int, m: int): (r: int)
    requires 1 <= m <= 12 && DaysBeforeMonth(y, m) <= yearDay < DaysBeforeMonth(y, 13)
    ensures m <= r <= 12 && DaysBeforeMonth(y, r) <= yearDay < DaysBeforeMonth(y, r + 1)
    decreases 13 - m
  {
    if yearDay < DaysBeforeMonth(y, m + 1) then m else MonthFrom(y, yearDay, m + 1)
  }

  lemma YearSpan(y: int)
    ensures DaysBeforeYear(y + 1) == DaysBeforeYear(y) + DaysBeforeMonth(y, 13)
  {
    hide DaysBeforeYear, IsLeap;
    YearLength(y);
    MonthTable(y);
  }

  function DateIn(y: int, yearDay: int): (d: Date)
    requires 0 <= yearDay < DaysBeforeMonth(y, 13)
    ensures Valid(d) && DayOf(d) == DaysBeforeYear(y) + yearDay
  {
    var m := MonthFrom(y, yearDay, 1);
    PlainDayNumber(y, m, yearDay - DaysBeforeMonth(y, m) + 1);
    Date(y, m, yearDay - DaysBeforeMonth(y, m) + 1)
  }

  /** The calendar date of a day. */
  function DateOf(day: int): (d: Date)
    ensures Valid(d) && DayOf(d) == day
  {
    var y := YearFrom(day, 1);
    YearSpan(y);
    DateIn(y, day - DaysBeforeYear(y))
  }

  lemma OneYearPerDay(y: int, z: int, day: int)
    requires DaysBeforeYear(y) <= day < DaysBeforeYear(y + 1)
    requires DaysBeforeYear(z) <= day < DaysBeforeYear(z + 1)
    ensures y == z
  {
    hide DaysBeforeYear;
    if y < z {
      YearsIncrease(y + 1, z);
    } else if z < y {
      YearsIncrease(z + 1, y);
    }
  }

  lemma OneMonthPerDay(y: int, m: int, n: int, yearDay: int)
    requires 1 <= m <= 12 && DaysBeforeMonth(y, m) <= yearDay < DaysBeforeMonth(y, m + 1)
    requires 1 <= n <= 12 && DaysBeforeMonth(y, n) <= yearDay < DaysBeforeMonth(y, n + 1)
    ensures m == n
  {
    if m < n {
      MonthsIncrease(y, m + 1, n);
    } else if n < m {
      MonthsIncrease(y, n + 1, m);
    }
  }

  /** Dates and day numbers correspond one to one. */
  lemma DateRoundTrip(d: Date)
    requires Valid(d)
    ensures DateOf(DayOf(d)) == d
  {
    var e := DateOf(DayOf(d));
    hide DateOf, DayNumber, DaysBeforeYear, IsLeap;
    DayInYear(d);
    DayInYear(e);
    OneYearPerDay(d.year, e.year, DayOf(d));
    assert DaysBeforeMonth(d.year, d.month + 1) == DaysBeforeMonth(d.year, d.month) + DaysIn(d.year, d.month);
    assert DaysBeforeMonth(d.year, e.month + 1) == DaysBeforeMonth(d.year, e.month) + DaysIn(d.year, e.month);
    OneMonthPerDay(d.year, d.month, e.month, DayOf(d) - DaysBeforeYear(d.year));
  }

  /** The first day of the month after the one `day` falls in, as `AddDate(0, 1, 0)`
      computes it from the first of the month. */
  function NextMonth(day: int): int {
    var d := DateOf(day);
    DayNumber(d.year, d.month + 1, 1)
  }

  /** Days up to the next month's first keep the month; the next one begins another. */
  lemma SameMonthUntilNext(day: int, later: int)
    requires day <= later < NextMonth(day)
    ensures DateOf(later).month == DateOf(day).month
  {
    var d := DateOf(day);
    hide DateOf, DayNumber, DaysBeforeYear, IsLeap;
    NextMonthNumber(d);
    var e := Date(d.year, d.month, d.day + (later - day));
    PlainDayNumber(d.year, d.month, d.day);
    PlainDayNumber(d.year, d.month, e.day);
    DateRoundTrip(e);
  }

  lemma NextMonthNumber(d: Date)
    requires Valid(d)
    ensures DayNumber(d.year, d.month + 1, 1) == DaysBeforeYear(d.year) + DaysBeforeMonth(d.year, d.month + 1)
    ensures DayNumber(d.year, d.month + 1, 1) == DayOf(d) + DaysIn(d.year, d.month) - d.day + 1
  {
    PlainDayNumber(d.year, d.month, d.day);
    if d.month == 12 {
      assert DayNumber(d.year, 13, 1) == DaysBeforeYear(d.year + 1) + DaysBeforeMonth(d.year + 1, 1);
      hide DayNumber, DaysBeforeYear, IsLeap;
      YearSpan(d.year);
    } else {
      PlainDayNumber(d.year, d.month + 1, 1);
      hide DayNumber, DaysBeforeYear, IsLeap;
    }
  }

  lemma NextMonthIsLater(day: int)
    ensures day < NextMonth(day)
  {
    hide DateOf, DayNumber, IsLeap;
    NextMonthNumber(DateOf(day));
  }

  /** Weekdays follow each other, and 1 January 2000 was a Saturday. */
  lemma WeekdaysAreKnown(day: int)
    ensures Weekday(day + 1) == if Weekday(day) == 6 then 0 else Weekday(day) + 1
    ensures 0 <= Weekday(day) < 7 && Weekday(DayOf(Date(2000, 1, 1))) == 6
  {
    PlainDayNumber(2000, 1, 1);
    assert DaysBeforeYear(2000) == 730119;
  }

  /** The days from 1 January to the first of each month, in a common and in a leap year. */
  const MONTH_STARTS: seq<int> := [0, 31, 59, 90, 120, 151, 181, 212, 243, 273, 304, 334, 365]

  lemma {:induction false} MonthStarts(y: int, m: int)
    requires 1 <= m <= 13
    ensures DaysBeforeMonth(y, m) == MONTH_STARTS[m - 1] + if m > 2 && IsLeap(y) then 1 else 0
  {
    if m > 1 {
      MonthStarts(y, m - 1);
      hide IsLeap;
    }
  }

  /** The day number of a date, counted from the start of its year; a year ends after 365 days or 366. */
  lemma DayNumbers(y: int, m: int, d: int)
    requires 1 <= m <= 12
    ensures DayNumber(y, m, d)
         == DayNumber(y, 1, 1) + MONTH_STARTS[m - 1] + (if m > 2 && IsLeap(y) then 1 else 0) + d - 1
    ensures DayNumber(y + 1, 1, 1) == DayNumber(y, 1, 1) + 365 + (if IsLeap(y) then 1 else 0)
    ensures DayNumber(1, 1, 1) == 0
  {
    PlainDayNumber(y, m, d);
    PlainDayNumber(y, 1, 1);
    PlainDayNumber(y + 1, 1, 1);
    PlainDayNumber(1, 1, 1);
    assert DaysBeforeYear(1) == 0;
    hide DayNumber, DaysBeforeYear, IsLeap;
    MonthStarts(y, m);
    YearLength(y);
  }

  /** Every weekday occurs among any seven consecutive days. */
  lemma WeekdayWithinSeven(day: int, w: int) returns (k: int)
    requires 0 <= w < 7
    ensures 0 <= k < 7 && Weekday(day + k) == w
  {
    k := (w - Weekday(day)) % 7;
  }
}
