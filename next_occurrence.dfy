/**
  `getNextOccurrenceDate` of services/recurring-expense.service.js (lines
  117-140): the frequency-specific step from one occurrence to the next,
  carried out with `Date` setters and their month and day overflow.
*/
module Recurrence {
  import opened JsDate

  /** The `frequency` field; `Other` is any value the `switch` has no case for. */
  datatype Frequency = Daily | Weekly | Monthly | Yearly | Other

  function Min(a: int, b: int): int {
    if a <= b then a else b
  }

  /**
    The date after `from` for `frequency`. `dayOfMonth` is the template's
    field, 0 when it is absent (falsy).
  */
  function NextOccurrence(from: Date, frequency: Frequency, dayOfMonth: int): Date {
    match frequency
    case Daily =>
      // date.setDate(date.getDate() + 1)
      MakeDay(from.year, from.month - 1, from.day + 1)
    case Weekly =>
      // date.setDate(date.getDate() + 7)
      MakeDay(from.year, from.month - 1, from.day + 7)
    case Monthly =>
      var target := if dayOfMonth != 0 then dayOfMonth else from.day;
      // date.setMonth(date.getMonth() + 1), keeping the day of the month
      var moved := MakeDay(from.year, from.month, from.day);
      // new Date(date.getFullYear(), date.getMonth() + 1, 0).getDate()
      var monthLength := NewDate(moved.year, moved.month, 0).day;
      // date.setDate(Math.min(dayOfMonth, monthLength))
      MakeDay(moved.year, moved.month - 1, Min(target, monthLength))
    case Yearly =>
      // date.setFullYear(date.getFullYear() + 1)
      MakeDay(from.year + 1, from.month - 1, from.day)
    case Other =>
      from
  }

  /** A day inside month `m` of year `y` stays where it is. */
  lemma RollDaysInMonth(y: int, m: int, d: int)
    requires 1 <= m <= 12 && 1 <= d <= DaysInMonth(y, m)
    ensures RollDays(y, m, d) == Civil(y, m, d)
  {
  }

  /** Division of a month index by twelve. */
  lemma MonthIndex(k: int, q: int, r: int)
    requires 0 <= r < 12 && k == 12 * q + r
    ensures k / 12 == q && k % 12 == r
  {
  }

  /** `MakeDay` with a zero-based month inside the year is that month. */
  lemma MakeDayInYear(y: int, m: int, d: int)
    requires 1 <= m <= 12
    ensures MakeDay(y, m - 1, d) == RollDays(y, m, d)
  {
    MonthIndex(m - 1, 0, m - 1);
  }

  /** `MakeDay` with month index `m` (one past the zero-based `m - 1`) is the next month. */
  lemma MakeDayNextMonth(y: int, m: int, d: int)
    requires 1 <= m <= 12
    ensures var n := NextMonth(y, m);
            MakeDay(y, m, d) == RollDays(n.0, n.1, d)
  {
    if m == 12 {
      MonthIndex(m, 1, 0);
    } else {
      MonthIndex(m, 0, m);
    }
  }

  /** Day 0 of a month is the last day of the month before. */
  lemma DayZero(y: int, m: int)
    requires 1 <= m <= 12
    ensures var n := NextMonth(y, m);
            RollDays(n.0, n.1, 0) == Civil(y, m, DaysInMonth(y, m))
  {
    var n := NextMonth(y, m);
    assert PrevMonth(n.0, n.1) == (y, m);
  }

  /** The year after a leap year is a common year. */
  lemma LeapYearFollowing(y: int)
    requires IsLeapYear(y)
    ensures !IsLeapYear(y + 1)
  {
    var q := y / 4;
    assert y == 4 * q;
    assert y + 1 == 4 * q + 1;
  }

  /** `daily` adds one day. */
  lemma DailyAddsOneDay(d: Date, dayOfMonth: int)
    ensures Serial(NextOccurrence(d, Daily, dayOfMonth)) == Serial(d) + 1
  {
    MakeDaySerial(d.year, d.month - 1, d.day + 1);
    MonthIndex(d.month - 1, 0, d.month - 1);
  }

  /** `weekly` adds seven days. */
  lemma WeeklyAddsSevenDays(d: Date, dayOfMonth: int)
    ensures Serial(NextOccurrence(d, Weekly, dayOfMonth)) == Serial(d) + 7
  {
    MakeDaySerial(d.year, d.month - 1, d.day + 7);
    MonthIndex(d.month - 1, 0, d.month - 1);
  }

  /**
    `yearly` keeps month and day in the following year; the 29th of
    February has no counterpart there and overflows to the 1st of March.
  */
  lemma YearlyNextYear(d: Date, dayOfMonth: int)
    ensures var r := NextOccurrence(d, Yearly, dayOfMonth);
            if d.month == 2 && d.day == 29 then r == Civil(d.year + 1, 3, 1)
            else r == Civil(d.year + 1, d.month, d.day)
  {
    var r := NextOccurrence(d, Yearly, dayOfMonth);
    assert r == RollDays(d.year + 1, d.month, d.day) by {
      MakeDayInYear(d.year + 1, d.month, d.day);
    }
    if d.month == 2 && d.day == 29 {
      assert r == Civil(d.year + 1, 3, 1) by {
        FebruaryTwentyNinth(d.year);
      }
    } else {
      assert r == Civil(d.year + 1, d.month, d.day) by {
        assert d.month == 2 ==> d.day <= 28;
        RollDaysInMonth(d.year + 1, d.month, d.day);
      }
    }
  }

  /** The 29th of February of the year after a leap year is the 1st of March. */
  lemma FebruaryTwentyNinth(y: int)
    requires IsLeapYear(y)
    ensures RollDays(y + 1, 2, 29) == Civil(y + 1, 3, 1)
  {
    LeapYearFollowing(y);
    assert RollDays(y + 1, 2, 29) == RollDays(y + 1, 3, 1);
    RollDaysInMonth(y + 1, 3, 1);
  }

  /**
    The month that `setMonth(getMonth() + 1)` reaches from `d`: the next
    month, or the month after it when the day does not exist in the next.
  */
  function ReachedMonth(d: Date): (r: (int, int))
    ensures 1 <= r.1 <= 12
  {
    var n := NextMonth(d.year, d.month);
    if d.day <= DaysInMonth(n.0, n.1) then n else NextMonth(n.0, n.1)
  }

  lemma SetMonthReaches(d: Date)
    ensures var moved := MakeDay(d.year, d.month, d.day);
            (moved.year, moved.month) == ReachedMonth(d)
  {
    var n := NextMonth(d.year, d.month);
    MakeDayNextMonth(d.year, d.month, d.day);
    if d.day <= DaysInMonth(n.0, n.1) {
      RollDaysInMonth(n.0, n.1, d.day);
    } else {
      var a := NextMonth(n.0, n.1);
      assert RollDays(n.0, n.1, d.day) == RollDays(a.0, a.1, d.day - DaysInMonth(n.0, n.1));
      RollDaysInMonth(a.0, a.1, d.day - DaysInMonth(n.0, n.1));
    }
  }

  /**
    `new Date(y, m + 1, 0).getDate()` is the length of month `m`, in year
    1900 + `y` when `y` lies between 0 and 99.
  */
  lemma MonthLength(y: int, m: int)
    requires 1 <= m <= 12
    ensures NewDate(y, m, 0).day == DaysInMonth(FullYear(y), m)
  {
    MakeDayNextMonth(FullYear(y), m, 0);
    DayZero(FullYear(y), m);
  }

  /**
    The month length the constructor reports never exceeds the real one;
    it differs only for February of year 0, a leap year, which the
    constructor takes for February of 1900 (28 days).
  */
  lemma ConstructorMonthLength(y: int, m: int)
    requires 1 <= m <= 12
    ensures DaysInMonth(FullYear(y), m) <= DaysInMonth(y, m)
    ensures DaysInMonth(FullYear(y), m) != DaysInMonth(y, m) <==> m == 2 && y == 0
  {
    if 0 < y <= 99 {
      assert (1900 + y) % 4 == y % 4 by {
        assert 1900 + y == 4 * 475 + y;
      }
      assert (1900 + y) % 100 != 0 && y % 100 != 0;
    }
  }

  /** `setDate(day)` with a day inside the month. */
  lemma SetDateInMonth(y: int, m: int, day: int)
    requires 1 <= m <= 12 && 1 <= day <= DaysInMonth(y, m)
    ensures MakeDay(y, m - 1, day) == Civil(y, m, day)
  {
    MakeDayInYear(y, m, day);
    RollDaysInMonth(y, m, day);
  }

  /**
    `monthly` first moves to the same day of the next month, which overflows
    into the month after when that day does not exist there (the 31st of
    January becomes early March); it then sets the day to the target day
    (`dayOfMonth`, or the original day when absent), clamped to the length
    of the month it reached.
  */
  lemma MonthlyReachedMonth(d: Date, dayOfMonth: int)
    requires dayOfMonth >= 0
    ensures var target := if dayOfMonth != 0 then dayOfMonth else d.day;
            var reached := ReachedMonth(d);
            NextOccurrence(d, Monthly, dayOfMonth)
              == Civil(reached.0, reached.1, Min(target, DaysInMonth(FullYear(reached.0), reached.1)))
  {
    var target := if dayOfMonth != 0 then dayOfMonth else d.day;
    var moved := MakeDay(d.year, d.month, d.day);
    SetMonthReaches(d);
    MonthLength(moved.year, moved.month);
    ConstructorMonthLength(moved.year, moved.month);
    var day := Min(target, DaysInMonth(FullYear(moved.year), moved.month));
    SetDateInMonth(moved.year, moved.month, day);
  }

  /**
    Every known frequency moves strictly forward; an unknown one returns
    the same date.
  */
  lemma AdvanceIsLater(d: Date, frequency: Frequency, dayOfMonth: int)
    requires frequency == Monthly ==> dayOfMonth >= 0
    ensures frequency != Other ==> Before(d, NextOccurrence(d, frequency, dayOfMonth))
    ensures frequency == Other ==> NextOccurrence(d, frequency, dayOfMonth) == d
  {
    var r := NextOccurrence(d, frequency, dayOfMonth);
    match frequency
    case Daily =>
      DailyAddsOneDay(d, dayOfMonth);
    case Weekly =>
      WeeklyAddsSevenDays(d, dayOfMonth);
    case Monthly =>
      MonthlyReachedMonth(d, dayOfMonth);
      SerialOrder(d, r);
    case Yearly =>
      YearlyNextYear(d, dayOfMonth);
      SerialOrder(d, r);
    case Other =>
  }

  /**
    From a day of January that February lacks (the 29th in a common year,
    the 30th, the 31st), the monthly step lands on the same day of March:
    February is skipped.
  */
  lemma MonthEndSkipsFebruary(y: int, day: int, dayOfMonth: int)
    requires 29 <= day <= 31 && day > DaysInMonth(y, 2)
    requires dayOfMonth == 0 || dayOfMonth == day
    ensures NextOccurrence(Civil(y, 1, day), Monthly, dayOfMonth) == Civil(y, 3, day)
  {
    assert ReachedMonth(Civil(y, 1, day)) == (y, 3);
    MonthlyReachedMonth(Civil(y, 1, day), dayOfMonth);
  }

  /**
    The month length comes from year 1900 when the year is 0: from the
    29th of January of year 0, a leap year, `monthly` stops at the 28th of
    February, as February of 1900 is only 28 days long.
  */
  lemma YearZeroFebruaryClamped(dayOfMonth: int)
    requires dayOfMonth == 0 || dayOfMonth == 29
    ensures NextOccurrence(Civil(0, 1, 29), Monthly, dayOfMonth) == Civil(0, 2, 28)
  {
    assert ReachedMonth(Civil(0, 1, 29)) == (0, 2);
    MonthlyReachedMonth(Civil(0, 1, 29), dayOfMonth);
  }
}
