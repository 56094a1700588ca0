/** The calendar arithmetic behind pandas' `.dt.year`, `.dt.month`,
    `.dt.dayofweek` and `.dt.hour` on naive timestamps counted in milliseconds
    from 1970-01-01T00:00 (proleptic Gregorian calendar, no time zone). */
module Calendar {

  const MsPerHour: int := 3_600_000
  const MsPerDay: int := 86_400_000

  /** pandas stores a timestamp as a signed 64-bit count of nanoseconds, so a
      millisecond count converts only when its nanosecond value fits:
      |ms| * 1_000_000 <= 2^63 - 1 (the most negative value is reserved for NaT). */
  const MaxMs: int := 9_223_372_036_854

  datatype Date = Date(year: int, month: int, day: int)

  predicate IsLeapYear(y: int) {
    y % 4 == 0 && (y % 100 != 0 || y % 400 == 0)
  }

  function YearLength(y: int): int {
    if IsLeapYear(y) then 366 else 365
  }

  function DaysInMonth(y: int, m: int): int
    requires 1 <= m <= 12
  {
    if m == 2 then (if IsLeapYear(y) then 29 else 28)
    else if m == 4 || m == 6 || m == 9 || m == 11 then 30
    else 31
  }

  predicate ValidDate(d: Date) {
    1 <= d.month <= 12 && 1 <= d.day <= DaysInMonth(d.year, d.month)
  }

  /** Days from 1970-01-01 to 1 January of year `y`: the lengths of the
      years in between, negative before 1970. */
  function DaysBeforeYear(y: int): int
    decreases if y < 1970 then 1970 - y else y - 1970
  {
    if y == 1970 then 0
    else if y > 1970 then DaysBeforeYear(y - 1) + YearLength(y - 1)
    else DaysBeforeYear(y + 1) - YearLength(y)
  }

  /** The count of leap years before year `y` since year 1, by the
      Gregorian rule. */
  function LeapsBefore(y: int): int {
    var a := y - 1;
    a / 4 - a / 100 + a / 400
  }

  /** Days in the months of year `y` before month `m`. */
  function DaysBeforeMonth(y: int, m: int): int
    requires 1 <= m <= 12
  {
    var common := [0, 31, 59, 90, 120, 151, 181, 212, 243, 273, 304, 334];
    common[m - 1] + (if m > 2 && IsLeapYear(y) then 1 else 0)
  }

  /** Days from 1970-01-01 to the date `d`. */
  function DaysFromCivil(d: Date): int
    requires 1 <= d.month <= 12
  {
    DaysBeforeYear(d.year) + DaysBeforeMonth(d.year, d.month) + d.day - 1
  }

  /** Stepping from `a - 1` to `a` adds one to the quotient by `k` exactly when
      `k` divides `a`. */
  lemma DivStep(a: int, k: int)
    requires k == 4 || k == 100 || k == 400
    ensures a / k - (a - 1) / k == if a % k == 0 then 1 else 0
  {
    if k == 4 {
      assert a / 4 - (a - 1) / 4 == if a % 4 == 0 then 1 else 0;
    } else if k == 100 {
      assert a / 100 - (a - 1) / 100 == if a % 100 == 0 then 1 else 0;
    } else {
      assert a / 400 - (a - 1) / 400 == if a % 400 == 0 then 1 else 0;
    }
  }

  /** Consecutive years start one year's length apart. */
  lemma YearStep(y: int)
    ensures DaysBeforeYear(y + 1) == DaysBeforeYear(y) + YearLength(y)
  {
  }

  /** A multiple of 400 is a multiple of 100, and a multiple of 100 is a
      multiple of 4. */
  lemma Multiples(y: int)
    ensures y % 400 == 0 ==> y % 100 == 0
    ensures y % 100 == 0 ==> y % 4 == 0
  {
    if y % 400 == 0 {
      var q := y / 400;
      assert y == 400 * q;
      assert y / 100 == 4 * q;
    }
    if y % 100 == 0 {
      var q := y / 100;
      assert y == 100 * q;
      assert y / 4 == 25 * q;
    }
  }

  /** The count of leap years grows by one exactly past a leap year. */
  lemma LeapStep(y: int)
    ensures LeapsBefore(y + 1) == LeapsBefore(y) + (if IsLeapYear(y) then 1 else 0)
  {
    DivStep(y, 4);
    DivStep(y, 100);
    DivStep(y, 400);
    Multiples(y);
  }

  /** The closed form: 365 days a year plus one per leap year (477 leap
      years precede 1970). */
  lemma {:induction false} DaysBeforeYearFormula(y: int)
    ensures DaysBeforeYear(y) == 365 * (y - 1970) + LeapsBefore(y) - 477
    decreases if y < 1970 then 1970 - y else y - 1970
  {
    if y > 1970 {
      DaysBeforeYearFormula(y - 1);
      LeapStep(y - 1);
    } else if y < 1970 {
      DaysBeforeYearFormula(y + 1);
      LeapStep(y);
    } else {
      assert LeapsBefore(1970) == 477;
    }
  }

  /** Each month starts where the previous one ends, and the last one ends
      where the year does. */
  lemma MonthStep(y: int, m: int)
    requires 1 <= m <= 12
    ensures m < 12 ==> DaysBeforeMonth(y, m + 1) == DaysBeforeMonth(y, m) + DaysInMonth(y, m)
    ensures m == 12 ==> DaysBeforeMonth(y, m) + DaysInMonth(y, m) == YearLength(y)
  {
  }

  lemma {:induction false} YearsAfterEpoch(n: nat)
    ensures DaysBeforeYear(1970 + n) <= 366 * n
  {
    if n > 0 {
      YearsAfterEpoch(n - 1);
      YearStep(1970 + n - 1);
    }
  }

  lemma {:induction false} YearsBeforeEpoch(n: nat)
    ensures DaysBeforeYear(1970 - n) <= -365 * n
  {
    if n > 0 {
      YearsBeforeEpoch(n - 1);
      YearStep(1970 - n);
    }
  }

  /** Years start in increasing order. */
  lemma {:induction false} YearsIncrease(a: int, b: int)
    requires a < b
    ensures DaysBeforeYear(a + 1) <= DaysBeforeYear(b)
    decreases b - a
  {
    if a + 1 < b {
      YearsIncrease(a + 1, b);
      YearStep(a + 1);
    }
  }

  /** A year that starts no later than day `days`. */
  function StartYear(days: int): (y: int)
    ensures DaysBeforeYear(y) <= days
  {
    if days >= 0 then
      YearsAfterEpoch(days / 366);
      1970 + days / 366
    else
      YearsBeforeEpoch(-(days / 365));
      1970 + days / 365
  }

  /** Searches upward from year `y` for the year containing day `days`. */
  function FindYear(days: int, y: int): (r: int)
    requires DaysBeforeYear(y) <= days
    ensures DaysBeforeYear(r) <= days < DaysBeforeYear(r + 1)
    decreases days - DaysBeforeYear(y)
  {
    YearStep(y);
    if days < DaysBeforeYear(y + 1) then y else FindYear(days, y + 1)
  }

  /** Searches upward from month `m` for the month containing day `doy`
      (counted from 0) of year `y`. */
  function FindMonth(y: int, doy: int, m: int): (r: int)
    requires 1 <= m <= 12 && DaysBeforeMonth(y, m) <= doy < YearLength(y)
    ensures 1 <= r <= 12
    ensures DaysBeforeMonth(y, r) <= doy < DaysBeforeMonth(y, r) + DaysInMonth(y, r)
    decreases 12 - m
  {
    MonthStep(y, m);
    if m == 12 || doy < DaysBeforeMonth(y, m + 1) then m else FindMonth(y, doy, m + 1)
  }

  /** The calendar date `days` days after 1970-01-01. */
  function CivilFromDays(days: int): (d: Date)
    ensures ValidDate(d)
    ensures DaysFromCivil(d) == days
  {
    var y := FindYear(days, StartYear(days));
    YearStep(y);
    var doy := days - DaysBeforeYear(y);
    var m := FindMonth(y, doy, 1);
    Date(y, m, doy - DaysBeforeMonth(y, m) + 1)
  }

  /** The day of a valid date falls inside its year. */
  lemma DayInYear(d: Date)
    requires ValidDate(d)
    ensures DaysBeforeYear(d.year) <= DaysFromCivil(d) < DaysBeforeYear(d.year + 1)
  {
    YearStep(d.year);
    MonthStep(d.year, d.month);
    assert DaysBeforeMonth(d.year, d.month) + DaysInMonth(d.year, d.month) <= YearLength(d.year);
  }

  /** Months of one year start in increasing order. */
  lemma MonthsIncrease(y: int, a: int, b: int)
    requires 1 <= a < b <= 12
    ensures DaysBeforeMonth(y, a) + DaysInMonth(y, a) <= DaysBeforeMonth(y, b)
  {
  }

  /** Different valid dates are different days. */
  lemma DaysFromCivilInjective(d1: Date, d2: Date)
    requires ValidDate(d1) && ValidDate(d2)
    requires DaysFromCivil(d1) == DaysFromCivil(d2)
    ensures d1 == d2
  {
    DayInYear(d1);
    DayInYear(d2);
    if d1.year < d2.year {
      YearsIncrease(d1.year, d2.year);
    } else if d2.year < d1.year {
      YearsIncrease(d2.year, d1.year);
    }
    assert d1.year == d2.year;
    if d1.month < d2.month {
      MonthsIncrease(d1.year, d1.month, d2.month);
    } else if d2.month < d1.month {
      MonthsIncrease(d1.year, d2.month, d1.month);
    }
  }

  /** Converting a valid date to days and back gives the same date: with
      `CivilFromDays`'s own contract, the two are inverse bijections between
      day numbers and valid dates. */
  lemma CivilRoundTrip(d: Date)
    requires ValidDate(d)
    ensures CivilFromDays(DaysFromCivil(d)) == d
  {
    DaysFromCivilInjective(CivilFromDays(DaysFromCivil(d)), d);
  }

  /** Whole days since 1970-01-01 of the instant `ms`, rounding down. */
  function DayNumber(ms: int): int {
    ms / MsPerDay
  }

  /** `.dt.hour`: the hour of the day. */
  function HourOf(ms: int): (h: int)
    ensures 0 <= h < 24
  {
    (ms / MsPerHour) % 24
  }

  /** An instant is its day, plus its hour, plus less than an hour. */
  lemma HourSplit(ms: int)
    ensures var rest := ms - DayNumber(ms) * MsPerDay - HourOf(ms) * MsPerHour;
            0 <= rest < MsPerHour
  {
    var hours := ms / MsPerHour;
    assert hours / 24 == ms / MsPerDay;
  }

  /** `.dt.dayofweek` of day number `days`: Monday is 0 and Sunday is 6. */
  function WeekdayOf(days: int): (w: int)
    ensures 0 <= w <= 6
  {
    (days + 3) % 7
  }

  /** 1970-01-01 was a Thursday, and each day is the weekday after the one before. */
  lemma WeekdayCycle(days: int)
    ensures WeekdayOf(0) == 3
    ensures WeekdayOf(days + 1) == (WeekdayOf(days) + 1) % 7
    ensures WeekdayOf(days + 7) == WeekdayOf(days)
  {
  }

  /** 2 January 2023 was a Monday. */
  lemma SecondOfJanuary2023()
    ensures DaysFromCivil(Date(2023, 1, 2)) == 19_359
    ensures WeekdayOf(DaysFromCivil(Date(2023, 1, 2))) == 0
  {
    DaysBeforeYearFormula(2023);
    assert LeapsBefore(2023) == 490;
  }

  /** Day 19359 after 1970-01-01 converts back to 2 January 2023. */
  lemma Day19359(days: int)
    requires days == DaysFromCivil(Date(2023, 1, 2))
    ensures days == 19_359 && CivilFromDays(days) == Date(2023, 1, 2)
  {
    SecondOfJanuary2023();
    CivilRoundTrip(Date(2023, 1, 2));
  }
}
