/** Proleptic Gregorian calendar dates: validity, calendar order, the day
    count that weekdays are read from, and the range of days a pandas
    nanosecond Timestamp can hold. The time of day is not modelled: a
    parsed timestamp is its calendar day. */
module Calendar {

  /** A calendar day as a (year, month, day) triple. */
  datatype Date = Date(year: int, month: int, day: int)

  predicate IsLeapYear(y: int) {
    y % 4 == 0 && (y % 100 != 0 || y % 400 == 0)
  }

  function DaysInMonth(y: int, m: int): (n: int)
    requires 1 <= m <= 12
    ensures 28 <= n <= 31
    ensures n == 29 <==> m == 2 && IsLeapYear(y)
  {
    if m == 2 then (if IsLeapYear(y) then 29 else 28)
    else if m == 4 || m == 6 || m == 9 || m == 11 then 30
    else 31
  }

  function YearLength(y: int): int {
    if IsLeapYear(y) then 366 else 365
  }

  predicate IsValid(d: Date) {
    1 <= d.month <= 12 && 1 <= d.day <= DaysInMonth(d.year, d.month)
  }

  /** Strict calendar order: by year, then month, then day. */
  predicate Before(a: Date, b: Date) {
    || a.year < b.year
    || (a.year == b.year && a.month < b.month)
    || (a.year == b.year && a.month == b.month && a.day < b.day)
  }

  /** The first and the last midnight a nanosecond Timestamp can represent
      (its range is 1677-09-21 00:12:43 to 2262-04-11 23:47:16). */
  const FirstDay := Date(1677, 9, 22)
  const LastDay := Date(2262, 4, 11)

  predicate InTimestampRange(d: Date)
    ensures InTimestampRange(d) ==> IsValid(d) && 1677 <= d.year <= 2262
  {
    IsValid(d) && !Before(d, FirstDay) && !Before(LastDay, d)
  }

  /** A day that a parsed order date can hold; anything else parses to NaT. */
  type Timestamp = d: Date | InTimestampRange(d) witness Date(1970, 1, 1)

  /** Days from 0001-01-01 to the first of January of year y. */
  function DaysBeforeYear(y: int): (n: int)
    requires y >= 1
    ensures n >= 0
  {
    var p := y - 1;
    365 * p + p / 4 - p / 100 + p / 400
  }

  /** Days from the first of January to the first of month m of year y. */
  function DaysBeforeMonth(y: int, m: int): (n: int)
    requires 1 <= m <= 12
    ensures 0 <= n <= 335
  {
    [0, 31, 59, 90, 120, 151, 181, 212, 243, 273, 304, 334][m - 1]
      + (if m > 2 && IsLeapYear(y) then 1 else 0)
  }

  /** Days elapsed from 0001-01-01 (a Monday) to d. */
  function DayNumber(d: Date): (n: nat)
    requires IsValid(d) && d.year >= 1
    ensures DaysBeforeYear(d.year) <= n < DaysBeforeYear(d.year) + YearLength(d.year)
    ensures d == Date(1, 1, 1) ==> n == 0
  {
    MonthsFillYear(d.year, d.month);
    DaysBeforeYear(d.year) + DaysBeforeMonth(d.year, d.month) + d.day - 1
  }

  /** The day after d. */
  function Next(d: Date): (n: Date)
    requires IsValid(d)
    ensures IsValid(n) && Before(d, n)
    ensures forall e :: IsValid(e) && Before(d, e) ==> n == e || Before(n, e)
  {
    if d.day < DaysInMonth(d.year, d.month) then Date(d.year, d.month, d.day + 1)
    else if d.month < 12 then Date(d.year, d.month + 1, 1)
    else Date(d.year + 1, 1, 1)
  }

  const DayNames: seq<string> :=
    ["Monday", "Tuesday", "Wednesday", "Thursday", "Friday", "Saturday", "Sunday"]

  /** Weekday number, Monday = 0 .. Sunday = 6. */
  function Weekday(d: Date): (w: nat)
    requires IsValid(d) && d.year >= 1
    ensures w < 7
  {
    DayNumber(d) % 7
  }

  /** The English name of d's weekday, as day_name() gives it. */
  function DayName(d: Date): (name: string)
    requires IsValid(d) && d.year >= 1
    ensures name in DayNames
  {
    DayNames[Weekday(d)]
  }

  lemma YearStep(y: int)
    requires y >= 1
    ensures DaysBeforeYear(y + 1) == DaysBeforeYear(y) + YearLength(y)
  {
    var p := y - 1;
    QuadrennialStep(p);
    CenturyStep(p);
    QuadricentennialStep(p);
    LeapRulesNest(y);
  }

  lemma LeapRulesNest(y: int)
    ensures y % 400 == 0 ==> y % 100 == 0
    ensures y % 100 == 0 ==> y % 4 == 0
  {
  }

  // Counting one more year adds a leap-rule multiple exactly when the new
  // year is one.

  lemma QuadrennialStep(p: nat)
    ensures (p + 1) / 4 == p / 4 + (if (p + 1) % 4 == 0 then 1 else 0)
  {
  }

  lemma CenturyStep(p: nat)
    ensures (p + 1) / 100 == p / 100 + (if (p + 1) % 100 == 0 then 1 else 0)
  {
  }

  lemma QuadricentennialStep(p: nat)
    ensures (p + 1) / 400 == p / 400 + (if (p + 1) % 400 == 0 then 1 else 0)
  {
  }

  lemma MonthStep(y: int, m: int)
    requires 1 <= m < 12
    ensures DaysBeforeMonth(y, m + 1) == DaysBeforeMonth(y, m) + DaysInMonth(y, m)
  {
  }

  lemma MonthsFillYear(y: int, m: int)
    requires 1 <= m <= 12
    ensures DaysBeforeMonth(y, m) + DaysInMonth(y, m) <= YearLength(y)
    ensures m == 12 ==> DaysBeforeMonth(y, m) + DaysInMonth(y, m) == YearLength(y)
  {
  }

  lemma {:induction false} MonthsIncrease(y: int, m1: int, m2: int)
    requires 1 <= m1 < m2 <= 12
    ensures DaysBeforeMonth(y, m1) + DaysInMonth(y, m1) <= DaysBeforeMonth(y, m2)
    decreases m2 - m1
  {
    MonthStep(y, m1);
    if m1 + 1 < m2 {
      MonthsIncrease(y, m1 + 1, m2);
    }
  }

  lemma {:induction false} YearsIncrease(y1: int, y2: int)
    requires 1 <= y1 < y2
    ensures DaysBeforeYear(y1) + YearLength(y1) <= DaysBeforeYear(y2)
    decreases y2 - y1
  {
    YearStep(y1);
    if y1 + 1 < y2 {
      YearsIncrease(y1 + 1, y2);
    }
  }

  /** The day count follows the calendar order, in both directions: the
      count of days is a faithful numbering of the calendar. */
  lemma DayNumberOrder(a: Date, b: Date)
    requires IsValid(a) && IsValid(b) && a.year >= 1 && b.year >= 1
    ensures Before(a, b) <==> DayNumber(a) < DayNumber(b)
    ensures a == b <==> DayNumber(a) == DayNumber(b)
  {
    forall x: Date, y: Date | IsValid(x) && IsValid(y) && x.year >= 1 && y.year >= 1 && Before(x, y)
      ensures DayNumber(x) < DayNumber(y)
    {
      if x.year < y.year {
        MonthsFillYear(x.year, x.month);
        YearsIncrease(x.year, y.year);
      } else if x.month < y.month {
        MonthsIncrease(x.year, x.month, y.month);
      }
    }
  }

  /** Each day's successor is one day later in the count, so the weekday
      advances by one, cyclically. */
  lemma NextDay(d: Date)
    requires IsValid(d) && d.year >= 1
    ensures DayNumber(Next(d)) == DayNumber(d) + 1
    ensures Weekday(Next(d)) == (Weekday(d) + 1) % 7
  {
    NextDayCount(d);
    WeekStep(DayNumber(d));
  }

  lemma WeekStep(n: nat)
    ensures (n + 1) % 7 == (n % 7 + 1) % 7
  {
  }

  lemma NextDayCount(d: Date)
    requires IsValid(d) && d.year >= 1
    ensures DayNumber(Next(d)) == DayNumber(d) + 1
  {
    if d.day == DaysInMonth(d.year, d.month) {
      if d.month < 12 {
        MonthStep(d.year, d.month);
      } else {
        YearStep(d.year);
        MonthsFillYear(d.year, 12);
      }
    }
  }

  /** 2024-05-01 fell on a Wednesday. */
  lemma KnownWeekday()
    ensures DayName(Date(2024, 5, 1)) == "Wednesday"
  {
  }
}
