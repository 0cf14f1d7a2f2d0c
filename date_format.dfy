/**
  `formatDate` and `isSameDay` of services/recurring-expense.service.js, and
  a reader of the strings `formatDate` produces. For the years 1000 to 9999
  those strings are ECMA-262 date-time strings and the reader gives the day
  `new Date(s)` denotes on a stored cursor; for other years what `new Date(s)`
  makes of them is left to the implementation. `String(n)` of an integer and
  `padStart(2, '0')` are written out as JavaScript defines them for integers.
*/
module DateFormat {
  import opened Options
  import opened JsDate

  predicate IsDigit(c: char) {
    '0' <= c <= '9'
  }

  function DigitChar(n: int): (c: char)
    requires 0 <= n < 10
  {
    ('0' as int + n) as char
  }

  function DigitValue(c: char): int
    requires IsDigit(c)
  {
    c as int - '0' as int
  }

  predicate AllDigits(s: string) {
    forall i :: 0 <= i < |s| ==> IsDigit(s[i])
  }

  /** `String(n)` for a non-negative integer: decimal digits without leading zeros. */
  function NatToString(n: nat): string
    decreases n
  {
    if n < 10 then [DigitChar(n)] else NatToString(n / 10) + [DigitChar(n % 10)]
  }

  /** `String(n)` for any integer. */
  function IntToString(n: int): string {
    if n < 0 then "-" + NatToString(-n) else NatToString(n)
  }

  /** `s.padStart(width, fill)`. */
  function PadStart(s: string, width: nat, fill: char): string
    decreases width - |s|
  {
    if |s| >= width then s else PadStart([fill] + s, width, fill)
  }

  /** `formatDate` (lines 142-147): `${year}-${month}-${day}` with month and day padded to two digits. */
  function FormatDate(d: Date): string {
    IntToString(d.year) + "-" + PadStart(IntToString(d.month), 2, '0') + "-" + PadStart(IntToString(d.day), 2, '0')
  }

  /** `isSameDay` (lines 149-153): the three local getters agree. */
  predicate IsSameDay(a: Date, b: Date) {
    a.year == b.year && a.month == b.month && a.day == b.day
  }

  /** Value of a string of decimal digits. */
  function DigitsValue(s: string): nat
    requires AllDigits(s)
    decreases |s|
  {
    if s == [] then 0 else DigitsValue(s[..|s| - 1]) * 10 + DigitValue(s[|s| - 1])
  }

  /** An optionally negative decimal integer. */
  function ParseInt(s: string): Option<int> {
    if |s| >= 2 && s[0] == '-' && AllDigits(s[1..]) then Some(0 - DigitsValue(s[1..]) as int)
    else if |s| >= 1 && AllDigits(s) then Some(DigitsValue(s))
    else None
  }

  /** Reads a string of the shape `formatDate` produces: a year, then `-MM-DD`. */
  function ParseDate(s: string): Option<Civil> {
    if |s| < 7 then None
    else
      var n := |s|;
      var year := ParseInt(s[..n - 6]);
      if s[n - 6] != '-' || s[n - 3] != '-' || year.None? ||
         !AllDigits(s[n - 5..n - 3]) || !AllDigits(s[n - 2..])
      then None
      else Some(Civil(year.value, DigitsValue(s[n - 5..n - 3]), DigitsValue(s[n - 2..])))
  }

  /** `String(n)` is a non-empty string of digits that reads back as `n`; one digit exactly below ten. */
  lemma {:induction false} NatToStringRoundTrip(n: nat)
    ensures var s := NatToString(n);
            |s| >= 1 && AllDigits(s) && DigitsValue(s) == n && (n < 10 <==> |s| == 1)
    decreases n
  {
    if n >= 10 {
      var s := NatToString(n);
      NatToStringRoundTrip(n / 10);
      assert s[..|s| - 1] == NatToString(n / 10);
    }
  }

  lemma IntToStringRoundTrip(n: int)
    ensures ParseInt(IntToString(n)) == Some(n)
  {
    if n < 0 {
      NatToStringRoundTrip(-n);
      assert IntToString(n)[1..] == NatToString(-n);
    } else {
      NatToStringRoundTrip(n);
    }
  }

  /** A month or a day of the month renders as exactly two digits with its value. */
  lemma PadTwoDigits(n: int)
    requires 1 <= n <= 31
    ensures var s := PadStart(IntToString(n), 2, '0');
            |s| == 2 && AllDigits(s) && DigitsValue(s) == n
  {
    var s := PadStart(IntToString(n), 2, '0');
    NatToStringRoundTrip(n);
    if n < 10 {
      assert s == PadStart(['0'] + NatToString(n), 2, '0') == ['0'] + NatToString(n);
      assert s[..1] == ['0'];
    } else {
      assert s == NatToString(n);
    }
  }

  /** The rendering of a date reads back as the same date. */
  lemma FormatDateRoundTrip(d: Date)
    ensures ParseDate(FormatDate(d)) == Some(Civil(d.year, d.month, d.day))
  {
    var y := IntToString(d.year);
    var mm := PadStart(IntToString(d.month), 2, '0');
    var dd := PadStart(IntToString(d.day), 2, '0');
    PadTwoDigits(d.month);
    PadTwoDigits(d.day);
    IntToStringRoundTrip(d.year);
    var p1 := y + "-";
    var p2 := p1 + mm;
    var p3 := p2 + "-";
    var s := p3 + dd;
    assert s == FormatDate(d);
    var n := |s|;
    assert s[..|p3|] == p3 && s[|p3|..] == dd;
    assert p3[..|p2|] == p2 && p3[|p2|] == '-';
    assert p2[..|p1|] == p1 && p2[|p1|..] == mm;
    assert p1[..|y|] == y && p1[|y|] == '-';
    assert s[..n - 6] == y by {
      assert s[..n - 6] == p3[..|y|] == p2[..|y|] == p1[..|y|];
    }
    assert s[n - 6] == '-' by {
      assert s[n - 6] == p3[|y|] == p2[|y|] == p1[|y|];
    }
    assert s[n - 5..n - 3] == mm by {
      assert s[n - 5..n - 3] == p3[|p1|..|p2|] == p2[|p1|..];
    }
    assert s[n - 3] == '-';
  }

  /** `isSameDay(a, b)` holds exactly when both render to the same string. */
  lemma SameDayIffSameFormat(a: Date, b: Date)
    ensures IsSameDay(a, b) <==> FormatDate(a) == FormatDate(b)
  {
    if FormatDate(a) == FormatDate(b) {
      FormatDateRoundTrip(a);
      FormatDateRoundTrip(b);
    }
  }

  /** Distinct dates render to distinct strings. */
  lemma FormatDateInjective(a: Date, b: Date)
    requires a != b
    ensures FormatDate(a) != FormatDate(b)
  {
    SameDayIffSameFormat(a, b);
  }
}
