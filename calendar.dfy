/** Naive (time-zone free) timestamps of the proleptic Gregorian calendar, as Python's
    `datetime` and pandas' `Timestamp` hold them, at a resolution of one second. */
module Calendar {

  import opened Wrappers

  /** A moment: a calendar day and the second of that day (hour * 3600 + minute * 60 + second). */
  datatype Timestamp = Timestamp(year: int, month: int, day: int, sec: int)

  const SecondsPerDay: int := 86400

  predicate IsLeap(y: int)
  {
    y % 4 == 0 && (y % 100 != 0 || y % 400 == 0)
  }

  function DaysInMonth(y: int, m: int): int
  {
    if m == 2 then (if IsLeap(y) then 29 else 28)
    else if m == 4 || m == 6 || m == 9 || m == 11 then 30
    else 31
  }

  function DaysInYear(y: int): int
  {
    if IsLeap(y) then 366 else 365
  }

  /** The dates Python's `datetime` accepts: years 1 to 9999 and a day that exists in its month. */
  predicate ValidDate(y: int, m: int, d: int)
  {
    1 <= y <= 9999 && 1 <= m <= 12 && 1 <= d <= DaysInMonth(y, m)
  }

  predicate Valid(t: Timestamp)
  {
    ValidDate(t.year, t.month, t.day) && 0 <= t.sec < SecondsPerDay
  }

  /** The timestamps that can exist in Python's `datetime`: years 1 to 9999. */
  type DateTime = t: Timestamp | Valid(t) witness Timestamp(1970, 1, 1, 0)

  /** The comparison `a <= b` of two timestamps: by year, then month, then day, then time of day. */
  predicate LessEq(a: Timestamp, b: Timestamp)
  {
    || a.year < b.year
    || (a.year == b.year && a.month < b.month)
    || (a.year == b.year && a.month == b.month && a.day < b.day)
    || (a.year == b.year && a.month == b.month && a.day == b.day && a.sec <= b.sec)
  }

  /** `t.replace(day=1)`: only the day changes, the time of day is kept. */
  function FirstOfMonth(t: DateTime): DateTime
  {
    t.(day := 1)
  }

  /** The day of `t` at 00:00:00, as `strptime` yields for a date without a time. */
  function Midnight(t: DateTime): DateTime
  {
    t.(sec := 0)
  }

  /** Days in the years before `y`, counted from 0001-01-01. */
  function DaysBeforeYear(y: int): int
    decreases y
  {
    if y <= 1 then 0 else DaysBeforeYear(y - 1) + DaysInYear(y - 1)
  }

  /** Days in the months of year `y` before month `m`. */
  function DaysBeforeMonth(y: int, m: int): int
  {
    var leap := if IsLeap(y) && m > 2 then 1 else 0;
    leap + (
      if m <= 1 then 0 else if m == 2 then 31 else if m == 3 then 59 else if m == 4 then 90
      else if m == 5 then 120 else if m == 6 then 151 else if m == 7 then 181
      else if m == 8 then 212 else if m == 9 then 243 else if m == 10 then 273
      else if m == 11 then 304 else 334)
  }

  /** The day number of a date, 0 for 0001-01-01 (Python's `date.toordinal()` minus one). */
  function DaysFromCivil(y: int, m: int, d: int): int
  {
    DaysBeforeYear(y) + DaysBeforeMonth(y, m) + d - 1
  }

  /** Seconds since 0001-01-01 00:00:00. */
  function Ordinal(t: Timestamp): int
  {
    DaysFromCivil(t.year, t.month, t.day) * SecondsPerDay + t.sec
  }

  /** `t - timedelta(days=n)`, stepping back one month at a time. None when the result would lie
      before 0001-01-01, where Python raises OverflowError. */
  function MinusDays(t: DateTime, n: nat): Option<DateTime>
    decreases n
  {
    if n < t.day then Some(t.(day := t.day - n))
    else if t.month > 1 then
      MinusDays(Timestamp(t.year, t.month - 1, DaysInMonth(t.year, t.month - 1), t.sec), n - t.day)
    else if t.year > 1 then
      MinusDays(Timestamp(t.year - 1, 12, 31, t.sec), n - t.day)
    else None
  }

  lemma MonthSteps(y: int, m: int)
    requires 1 <= m < 12
    ensures DaysBeforeMonth(y, m + 1) == DaysBeforeMonth(y, m) + DaysInMonth(y, m)
  {
  }

  lemma YearOfMonths(y: int)
    ensures DaysBeforeMonth(y, 12) + DaysInMonth(y, 12) == DaysInYear(y)
  {
  }

  /** A valid date's offset inside its year is below the length of the year. */
  lemma DayOfYearBounds(y: int, m: int, d: int)
    requires ValidDate(y, m, d)
    ensures 0 <= DaysBeforeMonth(y, m) + d - 1 < DaysInYear(y)
  {
    if m < 12 {
      MonthSteps(y, m);
      MonthsIncrease(y, m + 1, 12);
    }
    YearOfMonths(y);
  }

  lemma {:induction false} MonthsIncrease(y: int, m: int, m': int)
    requires 1 <= m <= m' <= 12
    ensures DaysBeforeMonth(y, m) <= DaysBeforeMonth(y, m')
  {
    if m < m' {
      MonthsIncrease(y, m, m' - 1);
      MonthSteps(y, m' - 1);
    }
  }

  lemma {:induction false} YearsIncrease(y: int, y': int)
    requires 1 <= y < y'
    ensures DaysBeforeYear(y) + DaysInYear(y) <= DaysBeforeYear(y')
  {
    if y + 1 < y' {
      YearsIncrease(y, y' - 1);
    }
  }

  /** DaysFromCivil is strictly increasing in calendar order. */
  lemma DaysFromCivilIncreasing(a: DateTime, b: DateTime)
    requires a.year < b.year || (a.year == b.year && (a.month < b.month || (a.month == b.month && a.day < b.day)))
    ensures DaysFromCivil(a.year, a.month, a.day) < DaysFromCivil(b.year, b.month, b.day)
  {
    DayOfYearBounds(a.year, a.month, a.day);
    DayOfYearBounds(b.year, b.month, b.day);
    if a.year < b.year {
      YearsIncrease(a.year, b.year);
    } else if a.month < b.month {
      MonthSteps(a.year, a.month);
      MonthsIncrease(a.year, a.month + 1, b.month);
    }
  }

  /** Comparing timestamps field by field is comparing their distance from the epoch. */
  lemma OrderMatchesOrdinal(a: DateTime, b: DateTime)
    ensures LessEq(a, b) <==> Ordinal(a) <= Ordinal(b)
  {
    var da := DaysFromCivil(a.year, a.month, a.day);
    var db := DaysFromCivil(b.year, b.month, b.day);
    if a.year == b.year && a.month == b.month && a.day == b.day {
    } else if LessEq(a, b) {
      DaysFromCivilIncreasing(a, b);
      assert Ordinal(a) < (da + 1) * SecondsPerDay <= Ordinal(b);
    } else {
      DaysFromCivilIncreasing(b, a);
      assert Ordinal(b) < (db + 1) * SecondsPerDay <= Ordinal(a);
    }
  }

  /** Subtracting `n` days moves a valid timestamp exactly `n` days back, keeps its time of day,
      and fails exactly when fewer than `n` days separate it from 0001-01-01. */
  lemma {:induction false} MinusDaysExact(t: DateTime, n: nat)
    ensures MinusDays(t, n).Some? <==> n <= DaysFromCivil(t.year, t.month, t.day)
    ensures MinusDays(t, n).Some? ==>
      var r := MinusDays(t, n).value;
      r.sec == t.sec && Ordinal(r) == Ordinal(t) - n * SecondsPerDay
    decreases n
  {
    if n < t.day {
      if t.year > 1 {
        YearsIncrease(1, t.year);
      }
    } else if t.month > 1 {
      var p: DateTime := Timestamp(t.year, t.month - 1, DaysInMonth(t.year, t.month - 1), t.sec);
      MonthSteps(t.year, t.month - 1);
      assert DaysFromCivil(p.year, p.month, p.day) == DaysFromCivil(t.year, t.month, t.day) - t.day;
      MinusDaysExact(p, n - t.day);
    } else if t.year > 1 {
      var p: DateTime := Timestamp(t.year - 1, 12, 31, t.sec);
      YearOfMonths(t.year - 1);
      assert DaysFromCivil(p.year, p.month, p.day) == DaysFromCivil(t.year, t.month, t.day) - t.day;
      MinusDaysExact(p, n - t.day);
    } else {
      assert DaysFromCivil(t.year, t.month, t.day) == t.day - 1;
    }
  }
}
