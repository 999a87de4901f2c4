// The lock-free localtime of src/Util/local_time.cpp.  Its two loops subtract
// years and months; the reference is the closed form of the Gregorian calendar.

module Calendar {
  import opened Arithmetic

  predicate Leap(y: int) {
    y % 4 == 0 && (y % 100 != 0 || y % 400 == 0)
  }

  function MonthLength(y: int, m: int): int
    requires 1 <= m <= 12
  {
    if m == 2 then (if Leap(y) then 29 else 28)
    else if m == 4 || m == 6 || m == 9 || m == 11 then 30
    else 31
  }

  predicate IsDate(y: int, m: int, d: int) {
    1 <= m <= 12 && 1 <= d <= MonthLength(y, m)
  }

  /**
   * Days from 1 January 1970 to a date, without loops: years start in March, so
   * that the leap day comes last and the months before it follow 153 days in five.
   */
  function DaysFromCivil(y: int, m: int, d: int): int
    requires 1 <= m <= 12
  {
    var march := if m <= 2 then m + 9 else m - 3;
    DaysBeforeMarch(if m <= 2 then y - 1 else y) + (153 * march + 2) / 5 + d - 1
  }

  function DaysBeforeMarch(y: int): int {
    365 * y + y / 4 - y / 100 + y / 400 - 719468
  }

  /** The count starts at the epoch; 2000 was a leap year. */
  lemma KnownDays()
    ensures DaysFromCivil(1970, 1, 1) == 0 && DaysFromCivil(2000, 3, 1) == 11017
  {
  }

  lemma MultiplesPassed(y: int, k: int)
    requires k > 0
    ensures y / k - (y - 1) / k == if y % k == 0 then 1 else 0
  {
    var q, r := y / k, y % k;
    if r == 0 {
      DivideBy(y - 1, k, q - 1, k - 1);
    } else {
      DivideBy(y - 1, k, q, r - 1);
    }
  }

  /** A year has 365 days, or 366 when it is leap. */
  lemma YearStep(y: int)
    ensures DaysBeforeMarch(y) == DaysBeforeMarch(y - 1) + (if Leap(y) then 366 else 365)
    ensures DaysFromCivil(y + 1, 1, 1) == DaysFromCivil(y, 1, 1) + (if Leap(y) then 366 else 365)
  {
    MultiplesPassed(y, 4);
    MultiplesPassed(y, 100);
    MultiplesPassed(y, 400);
  }

  /** The first of the next month comes MonthLength days after the first of this one. */
  lemma MonthStep(y: int, m: int)
    requires 1 <= m <= 12
    ensures DaysFromCivil(if m == 12 then y + 1 else y, if m == 12 then 1 else m + 1, 1)
         == DaysFromCivil(y, m, 1) + MonthLength(y, m)
  {
    if m == 2 {
      YearStep(y);
    }
  }

  lemma {:induction false} YearsOrdered(y: int, z: int)
    requires y <= z
    ensures DaysFromCivil(y, 1, 1) <= DaysFromCivil(z, 1, 1)
    ensures y < z ==> DaysFromCivil(y + 1, 1, 1) <= DaysFromCivil(z, 1, 1)
    decreases z - y
  {
    hide DaysFromCivil;
    if y < z {
      YearStep(y);
      YearsOrdered(y + 1, z);
    }
  }

  lemma {:induction false} MonthsOrdered(y: int, m: int, n: int)
    requires 1 <= m <= n <= 12
    ensures DaysFromCivil(y, m, 1) <= DaysFromCivil(y, n, 1)
    ensures m < n ==> DaysFromCivil(y, m, 1) + MonthLength(y, m) <= DaysFromCivil(y, n, 1)
    decreases n - m
  {
    hide DaysFromCivil;
    if m < n {
      MonthStep(y, m);
      MonthsOrdered(y, m + 1, n);
    }
  }

  lemma DayOffset(y: int, m: int, d: int)
    requires 1 <= m <= 12
    ensures DaysFromCivil(y, m, d) == DaysFromCivil(y, m, 1) + d - 1
  {
  }

  lemma WithinYear(y: int, m: int, d: int)
    requires IsDate(y, m, d)
    ensures DaysFromCivil(y, 1, 1) <= DaysFromCivil(y, m, d) < DaysFromCivil(y + 1, 1, 1)
  {
    hide DaysFromCivil;
    DayOffset(y, m, d);
    MonthsOrdered(y, 1, m);
    MonthsOrdered(y, m, 12);
    MonthStep(y, 12);
  }

  /** No two dates fall on one day: the day number determines year, month and day. */
  lemma DateIsUnique(y: int, m: int, d: int, z: int, n: int, e: int)
    requires IsDate(y, m, d) && IsDate(z, n, e)
    requires DaysFromCivil(y, m, d) == DaysFromCivil(z, n, e)
    ensures y == z && m == n && d == e
  {
    hide DaysFromCivil;
    WithinYear(y, m, d);
    WithinYear(z, n, e);
    if y < z {
      YearsOrdered(y, z);
    } else if z < y {
      YearsOrdered(z, y);
    }
    DayOffset(y, m, d);
    DayOffset(z, n, e);
    if m < n {
      MonthsOrdered(y, m, n);
    } else if n < m {
      MonthsOrdered(y, n, m);
    }
  }
}

module LocalTime {
  import opened Calendar

  /** Division as C++ does it on time_t: towards zero. */
  function Quotient(a: int, b: int): (q: int)
    requires b > 0
  {
    if a >= 0 then a / b else -(-a / b)
  }

  /** The remainder that goes with it has the sign of the dividend. */
  function Remainder(a: int, b: int): (r: int)
    requires b > 0
    ensures -b < r < b && (a >= 0 ==> r >= 0) && (a <= 0 ==> r <= 0)
  {
    a - Quotient(a, b) * b
  }

  function IsLeapYear(year: int): (r: int)
    requires year >= 0
    ensures r == if Leap(year) then 1 else 0
  {
    if year % 4 != 0 then 0
    else if year % 100 != 0 then 1
    else if year % 400 != 0 then 0
    else 1
  }

  const SECS_MIN := 60
  const SECS_HOUR := 3600
  const SECS_DAY := 86400

  /** struct tm. */
  class Tm {
    var sec: int
    var min: int
    var hour: int
    var mday: int
    var mon: int
    var year: int
    var wday: int
    var yday: int
    var isdst: int
    var gmtoff: int

    /** Every field within the range that the C standard gives it. */
    ghost predicate InRange()
      reads this
    {
      && 0 <= sec < 60 && 0 <= min < 60 && 0 <= hour < 24
      && IsDate(year + 1900, mon + 1, mday)
      && 0 <= wday < 7 && 0 <= yday < 366
    }
  }

  /** The year loop: takes whole years off a day count. */
  method SkipYears(tm: Tm, days0: int) returns (days: int)
    modifies tm`year
    ensures days0 < 0 ==> tm.year == 1970 && days == days0
    ensures days0 >= 0 ==> tm.year >= 1970 && 0 <= days < 365 + IsLeapYear(tm.year)
    ensures days0 >= 0 ==> DaysFromCivil(tm.year, 1, 1) + days == days0
    ensures days0 >= 0 ==> (tm.year - 1970) * 365 <= days0
  {
    assert DaysFromCivil(1970, 1, 1) == 0;
    hide DaysFromCivil, Leap;
    days := days0;
    tm.year := 1970;
    while true
      invariant tm.year >= 1970
      invariant days0 < 0 ==> tm.year == 1970 && days == days0
      invariant days0 >= 0 ==> days >= 0 && DaysFromCivil(tm.year, 1, 1) + days == days0
      invariant days0 >= 0 ==> (tm.year - 1970) * 365 + days <= days0
      decreases days
    {
      var daysThisYear := 365 + IsLeapYear(tm.year);
      if daysThisYear > days {
        break;
      }
      YearStep(tm.year);
      days := days - daysThisYear;
      tm.year := tm.year + 1;
    }
  }

  /** The month lengths of a year. */
  method MonthTable(year: int) returns (mdays: array<int>)
    requires year >= 0
    ensures fresh(mdays) && mdays.Length == 12
    ensures forall m | 0 <= m < 12 :: mdays[m] == MonthLength(year, m + 1)
  {
    mdays := new int[] [31, 28, 31, 30, 31, 30, 31, 31, 30, 31, 30, 31];
    mdays[1] := mdays[1] + IsLeapYear(year);
  }

  /** The month loop: the month index stays below twelve. */
  method SkipMonths(tm: Tm, days0: int) returns (days: int)
    requires tm.year >= 1970 && days0 < 365 + IsLeapYear(tm.year)
    modifies tm`mon
    ensures 0 <= tm.mon < 12
    ensures days0 < 0 ==> tm.mon == 0 && days == days0
    ensures days0 >= 0 ==> 0 <= days < MonthLength(tm.year, tm.mon + 1)
    ensures days0 >= 0 ==> DaysFromCivil(tm.year, tm.mon + 1, 1) + days == DaysFromCivil(tm.year, 1, 1) + days0
  {
    YearStep(tm.year);
    LastMonth(tm.year);
    hide DaysFromCivil, MonthLength, Leap;
    var mdays := MonthTable(tm.year);
    days := days0;
    tm.mon := 0;
    while days >= mdays[tm.mon]
      invariant 0 <= tm.mon < 12
      invariant forall m | 0 <= m < 12 :: mdays[m] == MonthLength(tm.year, m + 1)
      invariant days0 < 0 ==> tm.mon == 0 && days == days0
      invariant days0 >= 0 ==> 0 <= days
      invariant DaysFromCivil(tm.year, tm.mon + 1, 1) + days == DaysFromCivil(tm.year, 1, 1) + days0
      decreases 12 - tm.mon
    {
      MonthStep(tm.year, tm.mon + 1);
      days := days - mdays[tm.mon];
      tm.mon := tm.mon + 1;
    }
  }

  lemma LastMonth(y: int)
    ensures DaysFromCivil(y, 1, 1) <= DaysFromCivil(y, 1, 1) + 28 <= DaysFromCivil(y, 2, 1)
    ensures forall m | 1 <= m <= 12 :: MonthLength(y, m) >= 28
  {
  }

  /**
   * The time of day, and the whole days left over.  Before the epoch one of the
   * numbers is negative.
   */
  method SetClock(tm: Tm, t: int) returns (days: int)
    modifies tm`hour, tm`min, tm`sec
    ensures days == Quotient(t, SECS_DAY)
    ensures t >= 0 ==> days == t / 86400 && 0 <= tm.hour < 24 && 0 <= tm.min < 60 && 0 <= tm.sec < 60
    ensures t >= 0 ==> tm.hour * 3600 + tm.min * 60 + tm.sec == t % 86400
    ensures t < 0 ==> days < 0 || tm.hour < 0 || tm.min < 0 || tm.sec < 0
  {
    days := Quotient(t, SECS_DAY);
    var seconds := Remainder(t, SECS_DAY);
    tm.hour := Quotient(seconds, SECS_HOUR);
    tm.min := Quotient(Remainder(seconds, SECS_HOUR), SECS_MIN);
    tm.sec := Remainder(Remainder(seconds, SECS_HOUR), SECS_MIN);
  }

  lemma WeekdayInRange(days: int)
    ensures days >= 0 ==> Remainder(days + 4, 7) == (days + 4) % 7
  {
  }

  /** The date, from the days since the epoch. */
  method SetDate(tm: Tm, days0: int)
    modifies tm`wday, tm`year, tm`yday, tm`mon, tm`mday
    ensures tm.wday == Remainder(days0 + 4, 7)
    ensures days0 < 0 ==> tm.mday <= 0
    ensures days0 >= 0 ==>
      && IsDate(tm.year + 1900, tm.mon + 1, tm.mday) && 0 <= tm.yday < 366
      && DaysFromCivil(tm.year + 1900, tm.mon + 1, tm.mday) == days0
      && DaysFromCivil(tm.year + 1900, 1, 1) + tm.yday == days0
  {
    hide DaysFromCivil, MonthLength, Leap, Remainder;
    tm.wday := Remainder(days0 + 4, 7);
    var days := SkipYears(tm, days0);
    tm.yday := days;
    days := SkipMonths(tm, days);
    tm.mday := days + 1;
    DayOffset(tm.year, tm.mon + 1, tm.mday);
    tm.year := tm.year - 1900;
  }

  /**
   * no_locks_localtime.  For an adjusted time from the epoch on, the fields are the
   * calendar date and the time of day; before the epoch they are out of range, so
   * the result is a calendar time exactly when the adjusted time is not negative.
   */
  method NoLocksLocaltime(tm: Tm, time: int, timezone: int, daylight: int)
    modifies tm
    ensures tm.isdst == daylight && tm.gmtoff == -timezone
    ensures var t := time - timezone + 3600 * daylight;
      && (tm.InRange() <==> t >= 0)
      && (t >= 0 ==>
            && DaysFromCivil(tm.year + 1900, tm.mon + 1, tm.mday) == t / 86400
            && tm.hour * 3600 + tm.min * 60 + tm.sec == t % 86400
            && tm.wday == (t / 86400 + 4) % 7
            && DaysFromCivil(tm.year + 1900, 1, 1) + tm.yday == t / 86400)
  {
    hide DaysFromCivil, IsDate, MonthLength, Leap, Quotient, Remainder;
    var t := time - timezone;
    t := t + 3600 * daylight;
    tm.isdst := daylight;
    tm.gmtoff := -timezone;
    var days := SetClock(tm, t);
    SetDate(tm, days);
    WeekdayInRange(days);
    if days < 0 {
      NoSuchDay(tm.year + 1900, tm.mon + 1, tm.mday);
    }
  }

  lemma NoSuchDay(y: int, m: int, d: int)
    requires d <= 0
    ensures !IsDate(y, m, d)
  {
  }
}
