/**
  The part of JavaScript's `Date` that the recurring-expense service relies on,
  restricted to whole calendar days in a single time zone.

  A date is what the local getters report: `getFullYear()`, `getMonth() + 1`
  and `getDate()`. Its ordering is that of the time value, which for whole
  days is ECMA-262's day number `Day(t)` (`Serial` below). The setters
  `setDate`, `setMonth` and `setFullYear` go through the MakeDay abstract
  operation of ECMA-262 (section 21.4.1), which lets the month and the day
  of the month run out of range and rolls them into neighbouring months
  (`MakeDay` below). The constructor `new Date(y, m, d)` does the same after
  it has mapped a year from 0 to 99 onto 1900 to 1999 (MakeFullYear, used by
  the Date constructor of ECMA-262, section 21.4.2.1; `NewDate` below).
*/
module JsDate {

  /** Year, month (1 to 12) and day of the month, not necessarily valid. */
  datatype Civil = Civil(year: int, month: int, day: int)

  /** Leap years of the proleptic Gregorian calendar, as in ECMA-262's DaysInYear. */
  predicate IsLeapYear(y: int) {
    (y % 4 == 0 && y % 100 != 0) || y % 400 == 0
  }

  function DaysInYear(y: int): int {
    if IsLeapYear(y) then 366 else 365
  }

  function DaysInMonth(y: int, m: int): int
    requires 1 <= m <= 12
  {
    if m == 2 then (if IsLeapYear(y) then 29 else 28)
    else if m == 4 || m == 6 || m == 9 || m == 11 then 30
    else 31
  }

  predicate ValidCivil(c: Civil) {
    1 <= c.month <= 12 && 1 <= c.day <= DaysInMonth(c.year, c.month)
  }

  /** A calendar day that a `Date` can denote. */
  type Date = c: Civil | ValidCivil(c) witness Civil(1970, 1, 1)

  /**
    The day number of the first of January of `y`, counted year by year from
    1970. `DayFromYearClosedForm` proves it equal to ECMA-262's DayFromYear.
  */
  function DayFromYear(y: int): int
    decreases if y < 1970 then 1970 - y else y - 1970
  {
    if y == 1970 then 0
    else if y > 1970 then DayFromYear(y - 1) + DaysInYear(y - 1)
    else DayFromYear(y + 1) - DaysInYear(y)
  }

  /** Days of year `y` before the first of month `m` (ECMA-262's MonthFromTime table). */
  function DaysBeforeMonth(y: int, m: int): int
    requires 1 <= m <= 12
  {
    var leap := if IsLeapYear(y) then 1 else 0;
    if m == 1 then 0
    else if m == 2 then 31
    else if m == 3 then 59 + leap
    else if m == 4 then 90 + leap
    else if m == 5 then 120 + leap
    else if m == 6 then 151 + leap
    else if m == 7 then 181 + leap
    else if m == 8 then 212 + leap
    else if m == 9 then 243 + leap
    else if m == 10 then 273 + leap
    else if m == 11 then 304 + leap
    else 334 + leap
  }

  /** Day number of the first day of month `m` of year `y`. */
  function FirstDayOfMonth(y: int, m: int): int
    requires 1 <= m <= 12
  {
    DayFromYear(y) + DaysBeforeMonth(y, m)
  }

  /** ECMA-262 Day(t) of a date: days since 1970-01-01, negative before it. */
  function Serial(d: Date): int {
    FirstDayOfMonth(d.year, d.month) + d.day - 1
  }

  /** `a < b` on two `Date` objects (comparison of time values). */
  predicate Before(a: Date, b: Date) {
    Serial(a) < Serial(b)
  }

  /** `a <= b` on two `Date` objects. */
  predicate LessEq(a: Date, b: Date) {
    Serial(a) <= Serial(b)
  }

  /** Calendar order on (year, month, day). */
  predicate LexBefore(a: Civil, b: Civil) {
    a.year < b.year ||
    (a.year == b.year && (a.month < b.month || (a.month == b.month && a.day < b.day)))
  }

  /** The month after month `m` of year `y`. */
  function NextMonth(y: int, m: int): (r: (int, int))
    requires 1 <= m <= 12
    ensures 1 <= r.1 <= 12
  {
    if m == 12 then (y + 1, 1) else (y, m + 1)
  }

  /** The month before month `m` of year `y`. */
  function PrevMonth(y: int, m: int): (r: (int, int))
    requires 1 <= m <= 12
    ensures 1 <= r.1 <= 12
    ensures NextMonth(r.0, r.1) == (y, m)
  {
    if m == 1 then (y - 1, 12) else (y, m - 1)
  }

  /** Floor division by a positive constant grows by one exactly at multiples. */
  lemma FloorStep(a: int, k: int)
    requires k == 4 || k == 100 || k == 400
    ensures (a + 1) / k == a / k + (if (a + 1) % k == 0 then 1 else 0)
  {
    var q, r := a / k, a % k;
    assert a == k * q + r && 0 <= r < k;
    if r + 1 < k {
      assert a + 1 == k * q + (r + 1);
    } else {
      assert a + 1 == k * (q + 1);
    }
  }

  /** Consecutive years are DaysInYear apart. */
  lemma DayFromYearStep(y: int)
    ensures DayFromYear(y + 1) == DayFromYear(y) + DaysInYear(y)
  {
  }

  /** DayFromYear as ECMA-262 writes it, with floor divisions. */
  function EcmaDayFromYear(y: int): int {
    365 * (y - 1970) + (y - 1969) / 4 - (y - 1901) / 100 + (y - 1601) / 400
  }

  /** The year-by-year count agrees with ECMA-262's closed form. */
  lemma {:induction false} DayFromYearClosedForm(y: int)
    ensures DayFromYear(y) == EcmaDayFromYear(y)
    decreases if y < 1970 then 1970 - y else y - 1970
  {
    if y > 1970 {
      DayFromYearClosedForm(y - 1);
      ClosedFormStep(y - 1);
    } else if y < 1970 {
      DayFromYearClosedForm(y + 1);
      ClosedFormStep(y);
    }
  }

  /** The closed form grows by DaysInYear from one year to the next. */
  lemma ClosedFormStep(y: int)
    ensures EcmaDayFromYear(y + 1) == EcmaDayFromYear(y) + DaysInYear(y)
  {
    FloorStep(y - 1969, 4);
    FloorStep(y - 1901, 100);
    FloorStep(y - 1601, 400);
    assert (y - 1968) % 4 == y % 4 by {
      assert y - 1968 == y + 4 * (-492);
    }
    assert (y - 1900) % 100 == y % 100 by {
      assert y - 1900 == y + 100 * (-19);
    }
    assert (y - 1600) % 400 == y % 400 by {
      assert y - 1600 == y + 400 * (-4);
    }
    DivisorsNest(y);
    var step4 := if y % 4 == 0 then 1 else 0;
    var step100 := if y % 100 == 0 then 1 else 0;
    var step400 := if y % 400 == 0 then 1 else 0;
    assert step4 - step100 + step400 == DaysInYear(y) - 365;
  }

  /** A multiple of 400 is one of 100, and a multiple of 100 one of 4. */
  lemma DivisorsNest(y: int)
    ensures y % 400 == 0 ==> y % 100 == 0
    ensures y % 100 == 0 ==> y % 4 == 0
  {
    if y % 400 == 0 {
      MultipleMod(y, y / 400 * 4, 100);
    }
    if y % 100 == 0 {
      MultipleMod(y, y / 100 * 25, 4);
    }
  }

  lemma MultipleMod(y: int, q: int, k: int)
    requires k == 4 || k == 100
    requires y == k * q
    ensures y % k == 0
  {
  }

  /** Consecutive months are DaysInMonth apart, across the end of a year too. */
  lemma MonthStep(y: int, m: int)
    requires 1 <= m <= 12
    ensures var n := NextMonth(y, m);
            FirstDayOfMonth(n.0, n.1) == FirstDayOfMonth(y, m) + DaysInMonth(y, m)
  {
    if m == 12 {
      DayFromYearStep(y);
    }
  }

  /**
    Rolls a day of the month that is out of range into the neighbouring
    months, one month at a time.
  */
  function RollDays(y: int, m: int, d: int): Date
    requires 1 <= m <= 12
    decreases if d < 1 then 1 else 0, if d < 1 then -d else d
  {
    if d < 1 then
      var p := PrevMonth(y, m);
      RollDays(p.0, p.1, d + DaysInMonth(p.0, p.1))
    else if d > DaysInMonth(y, m) then
      var n := NextMonth(y, m);
      RollDays(n.0, n.1, d - DaysInMonth(y, m))
    else
      Civil(y, m, d)
  }

  /** The day number grows by `d - 1` from the first of month `m`, as MakeDay's `Day(t) + dt - 1` says. */
  lemma {:induction false} RollDaysSerial(y: int, m: int, d: int)
    requires 1 <= m <= 12
    ensures Serial(RollDays(y, m, d)) == FirstDayOfMonth(y, m) + d - 1
    decreases if d < 1 then 1 else 0, if d < 1 then -d else d
  {
    if d < 1 {
      var p := PrevMonth(y, m);
      MonthStep(p.0, p.1);
      RollDaysSerial(p.0, p.1, d + DaysInMonth(p.0, p.1));
    } else if d > DaysInMonth(y, m) {
      var n := NextMonth(y, m);
      MonthStep(y, m);
      RollDaysSerial(n.0, n.1, d - DaysInMonth(y, m));
    }
  }

  /**
    ECMA-262 MakeDay(year, month, date) read back through the getters:
    `month` is zero-based and may lie outside 0..11, `date` may lie outside
    the month. Used for `new Date(y, m, d)`, `setDate(d)` (with the date's
    own year and month), `setMonth(m)` (with its own year and day) and
    `setFullYear(y)` (with its own month and day).
  */
  function MakeDay(year: int, month: int, date: int): Date {
    RollDays(year + month / 12, month % 12 + 1, date)
  }

  /** The day number of MakeDay(year, month, date), as ECMA-262 computes it. */
  lemma MakeDaySerial(year: int, month: int, date: int)
    ensures Serial(MakeDay(year, month, date)) == FirstDayOfMonth(year + month / 12, month % 12 + 1) + date - 1
  {
    RollDaysSerial(year + month / 12, month % 12 + 1, date);
  }

  /** The year `new Date(y, m, d)` uses: years 0 to 99 stand for 1900 to 1999. */
  function FullYear(y: int): int {
    if 0 <= y <= 99 then 1900 + y else y
  }

  /** `new Date(year, month, date)` read back through the getters. */
  function NewDate(year: int, month: int, date: int): Date {
    MakeDay(FullYear(year), month, date)
  }

  /**
    The day number of `new Date(year, month, date)`: MakeDay's, in year
    1900 + `year` when `year` lies between 0 and 99.
  */
  lemma NewDateSerial(year: int, month: int, date: int)
    ensures 0 <= year <= 99 ==>
              Serial(NewDate(year, month, date)) == FirstDayOfMonth(1900 + year + month / 12, month % 12 + 1) + date - 1
    ensures !(0 <= year <= 99) ==>
              Serial(NewDate(year, month, date)) == FirstDayOfMonth(year + month / 12, month % 12 + 1) + date - 1
  {
    MakeDaySerial(FullYear(year), month, date);
  }

  /** Year `y` and the later years begin at least DaysInYear(y) after it. */
  lemma {:induction false} DayFromYearMonotone(y: int, z: int)
    requires y < z
    ensures DayFromYear(y) + DaysInYear(y) <= DayFromYear(z)
    decreases z - y
  {
    DayFromYearStep(y);
    if y + 1 < z {
      DayFromYearMonotone(y + 1, z);
    }
  }

  /** Earlier months of a year end before later months begin. */
  lemma MonthsInOrder(y: int, m: int, n: int)
    requires 1 <= m < n <= 12
    ensures DaysBeforeMonth(y, m) + DaysInMonth(y, m) <= DaysBeforeMonth(y, n)
  {
  }

  lemma LexBeforeSerial(a: Date, b: Date)
    requires LexBefore(a, b)
    ensures Serial(a) < Serial(b)
  {
    if a.year < b.year {
      DayFromYearMonotone(a.year, b.year);
      if a.month < 12 {
        MonthsInOrder(a.year, a.month, 12);
      }
    } else if a.month < b.month {
      MonthsInOrder(a.year, a.month, b.month);
    }
  }

  /** The day number orders dates exactly as the calendar does. */
  lemma SerialOrder(a: Date, b: Date)
    ensures Before(a, b) <==> LexBefore(a, b)
    ensures Serial(a) == Serial(b) <==> a == b
  {
    if LexBefore(a, b) {
      LexBeforeSerial(a, b);
    } else if LexBefore(b, a) {
      LexBeforeSerial(b, a);
    }
  }
}
