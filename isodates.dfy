/**
 * `TwseCrawker.days_between_isodates` of stockanalysis.py and its nested
 * helpers `is_leap_year` and `get_days`: two dates in the calendar-date
 * extended format of ISO 8601 (section 4.1.2.2, `YYYY-MM-DD`) are turned into
 * day counts from 1971 and the result is the distance plus one.
 */
module IsoDates {
  import opened Wrappers
  import opened PyStr

  /** `is_leap_year`: the Gregorian rule. */
  predicate IsLeapYear(year: nat)
  {
    year % 4 == 0 && (year % 100 != 0 || year % 400 == 0)
  }

  /** `365 + int(is_leap_year(y))`. */
  function YearLength(year: nat): (r: nat)
    ensures 365 <= r <= 366
  {
    if IsLeapYear(year) then 366 else 365
  }

  /** `sum(365 + int(is_leap_year(y)) for y in range(1971, year))`: zero up to 1971. */
  function YearOffset(year: nat): (r: nat)
    ensures year <= 1971 ==> r == 0
    ensures year >= 1971 ==> 365 * (year - 1971) <= r <= 366 * (year - 1971)
  {
    if year <= 1971 then 0 else YearOffset(year - 1) + YearLength(year - 1)
  }

  /** The month table of line 177; February is always 28 days. */
  const MonthLengths: seq<nat> := [0, 31, 28, 31, 30, 31, 30, 31, 31, 30, 31, 30, 31]

  function Sum(s: seq<nat>): (r: nat)
  {
    if |s| == 0 then 0 else Sum(s[..|s| - 1]) + s[|s| - 1]
  }

  /** `sum(MonthLengths[:month])`; a Python slice past the end takes the whole list. */
  function MonthOffset(month: nat): (r: nat)
  {
    Sum(MonthLengths[..if month <= |MonthLengths| then month else |MonthLengths|])
  }

  /** `int(is_leap_year(y) and m < 2)` of line 175, as written. */
  function LeapAdjustment(year: nat, month: nat): (r: nat)
    ensures r <= 1
    ensures r == 1 ==> IsLeapYear(year) && month <= 1
  {
    if IsLeapYear(year) && month < 2 then 1 else 0
  }

  datatype Date = Date(year: nat, month: nat, day: nat)

  /** `get_days` on the three fields, as written. */
  function GetDays(date: Date): (r: nat)
    ensures date.day + YearOffset(date.year) <= r <= date.day + YearOffset(date.year) + 366
  {
    MonthOffsetAtMost(date.month);
    date.day + LeapAdjustment(date.year, date.month) + YearOffset(date.year) + MonthOffset(date.month)
  }

  // ---------------------------------------------------------------------------
  // Reading `YYYY-MM-DD`: `y, m, d = map(int, date.split('-'))`.

  predicate IsDigit(c: char)
  {
    '0' <= c <= '9'
  }

  predicate AllDigits(s: string)
  {
    forall k :: 0 <= k < |s| ==> IsDigit(s[k])
  }

  /** The decimal value of a string of digits. */
  function DigitsValue(s: string): (r: nat)
    requires AllDigits(s)
  {
    if |s| == 0 then 0 else DigitsValue(s[..|s| - 1]) * 10 + (s[|s| - 1] - '0') as nat
  }

  /** `int(field)` on a non-empty string of ASCII digits; any other field raises ValueError (None). */
  function ParseField(s: string): (r: Option<nat>)
    ensures r.Some? <==> |s| > 0 && AllDigits(s)
  {
    if |s| > 0 && AllDigits(s) then Some(DigitsValue(s)) else None
  }

  /** Splitting at '-' must give exactly three integer fields; otherwise ValueError (None). */
  function ParseDate(s: string): (r: Option<Date>)
    ensures r.Some? <==> |Split(s, '-')| == 3 && forall k :: 0 <= k < 3 ==> ParseField(Split(s, '-')[k]).Some?
  {
    var parts := Split(s, '-');
    if |parts| != 3 then None
    else
      var y, m, d := ParseField(parts[0]), ParseField(parts[1]), ParseField(parts[2]);
      if y.Some? && m.Some? && d.Some? then Some(Date(y.value, m.value, d.value)) else None
  }

  function Abs(x: int): (r: nat)
  {
    if x < 0 then -x else x
  }

  /** `days_between_isodates`: None where either date raises ValueError. */
  function DaysBetweenIsoDates(date1: string, date2: string): (r: Option<nat>)
    ensures r.Some? <==> ParseDate(date1).Some? && ParseDate(date2).Some?
    ensures r.Some? ==> r.value >= 1
  {
    var a, b := ParseDate(date1), ParseDate(date2);
    if a.Some? && b.Some? then Some(Abs(GetDays(a.value) - GetDays(b.value)) + 1) else None
  }

  // ---------------------------------------------------------------------------
  // What the distance promises.

  /** The distance does not depend on the order of its arguments. */
  lemma DaysBetweenSymmetric(date1: string, date2: string)
    ensures DaysBetweenIsoDates(date1, date2) == DaysBetweenIsoDates(date2, date1)
  {
  }

  /** A date is one day away from itself. */
  lemma DaysBetweenSameDate(date: string)
    requires ParseDate(date).Some?
    ensures DaysBetweenIsoDates(date, date) == Some(1)
  {
  }

  /** In one month of one year, the distance counts the days from one date to the other inclusive. */
  lemma DaysBetweenSameMonth(date1: string, date2: string, year: nat, month: nat, day1: nat, day2: nat)
    requires ParseDate(date1) == Some(Date(year, month, day1))
    requires ParseDate(date2) == Some(Date(year, month, day2))
    ensures DaysBetweenIsoDates(date1, date2) == Some(Abs(day1 - day2) + 1)
  {
  }

  // ---------------------------------------------------------------------------
  // The terms of `get_days`.

  /** Leap years in `1..year`. */
  function LeapsThrough(year: nat): (r: int)
  {
    year / 4 - year / 100 + year / 400
  }

  /** Going up by one crosses a multiple of `q` exactly when landing on one. */
  lemma DivStep(a: nat, q: nat)
    requires a >= 1 && q > 0
    ensures a / q - (a - 1) / q == (if a % q == 0 then 1 else 0)
  {
    var x, r := (a - 1) / q, (a - 1) % q;
    assert a - 1 == q * x + r && 0 <= r < q;
    if r == q - 1 {
      assert a == q * (x + 1);
      DivUnique(a, q, x + 1, 0);
    } else {
      assert a == q * x + (r + 1);
      DivUnique(a, q, x, r + 1);
    }
  }

  lemma DivUnique(a: nat, q: nat, x: int, r: int)
    requires q > 0 && a == q * x + r && 0 <= r < q
    ensures a / q == x && a % q == r
  {
    var x', r' := a / q, a % q;
    assert a == q * x' + r' && 0 <= r' < q;
    if x > x' {
      MulGap(q, x, x');
      assert false;
    } else if x < x' {
      MulGap(q, x', x);
      assert false;
    }
  }

  /** Two multiples of `q` with different factors are at least `q` apart. */
  lemma {:induction false} MulGap(q: nat, hi: int, lo: int)
    requires hi > lo
    ensures q * hi - q * lo >= q
    decreases hi - lo
  {
    if hi - lo > 1 {
      MulGap(q, hi - 1, lo);
      assert q * hi == q * (hi - 1) + q;
    } else {
      assert q * hi == q * lo + q;
    }
  }

  lemma LeapsThroughStep(year: nat)
    requires year >= 1
    ensures LeapsThrough(year) - LeapsThrough(year - 1) == (if IsLeapYear(year) then 1 else 0)
  {
    DivStep(year, 4);
    DivStep(year, 100);
    DivStep(year, 400);
  }

  /** The year term adds 365 per year from 1971 on, plus one per Gregorian leap year. */
  lemma {:induction false} YearOffsetClosedForm(year: nat)
    requires year >= 1971
    ensures YearOffset(year) == 365 * (year - 1971) + LeapsThrough(year - 1) - LeapsThrough(1970)
  {
    if year > 1971 {
      YearOffsetClosedForm(year - 1);
      LeapsThroughStep(year - 1);
    }
  }

  /** Every 400 years of the year term are 146097 days, the length of the Gregorian cycle. */
  lemma GregorianCycle(year: nat)
    requires year >= 1971
    ensures YearOffset(year + 400) == YearOffset(year) + 146097
  {
    YearOffsetClosedForm(year);
    YearOffsetClosedForm(year + 400);
    var y := year - 1;
    assert (y + 400) / 4 == y / 4 + 100;
    assert (y + 400) / 100 == y / 100 + 4;
    assert (y + 400) / 400 == y / 400 + 1;
  }

  /** The days before the first of each month in a common year. */
  const DaysBeforeMonth: seq<nat> := [0, 0, 31, 59, 90, 120, 151, 181, 212, 243, 273, 304, 334, 365]

  lemma MonthOffsetStep(month: nat)
    requires month < |MonthLengths|
    ensures MonthOffset(month + 1) == MonthOffset(month) + MonthLengths[month]
  {
    assert MonthLengths[..month + 1][..month] == MonthLengths[..month];
  }

  /** The month term is the running total of the month table, whatever the year. */
  lemma {:induction false} MonthOffsetValues(month: nat)
    ensures month <= 13 ==> MonthOffset(month) == DaysBeforeMonth[month]
    ensures month >= 13 ==> MonthOffset(month) == 365
  {
    if month > 13 {
      MonthOffsetValues(13);
    } else if month > 0 {
      MonthOffsetValues(month - 1);
      MonthOffsetStep(month - 1);
    }
  }

  /** Whatever the month, the month term is at most the 365 days of the whole table. */
  lemma {:induction false} MonthOffsetAtMost(month: nat)
    ensures MonthOffset(month) <= 365
    decreases 13 - month
  {
    if month >= 13 {
      MonthOffsetValues(month);
    } else {
      MonthOffsetAtMost(month + 1);
      MonthOffsetStep(month);
    }
  }

  // ---------------------------------------------------------------------------
  // The calendar, and what the count does from one day to the next.

  function DaysInMonth(year: nat, month: nat): (r: nat)
    requires 1 <= month <= 12
  {
    if month == 2 then (if IsLeapYear(year) then 29 else 28) else MonthLengths[month]
  }

  predicate ValidDate(date: Date)
  {
    1 <= date.month <= 12 && 1 <= date.day <= DaysInMonth(date.year, date.month)
  }

  /** The calendar day after `date`. */
  function NextDay(date: Date): (r: Date)
    requires ValidDate(date)
    ensures ValidDate(r)
  {
    if date.day < DaysInMonth(date.year, date.month) then Date(date.year, date.month, date.day + 1)
    else if date.month < 12 then Date(date.year, date.month + 1, 1)
    else Date(date.year + 1, 1, 1)
  }

  /**
   * The count as written, from one calendar day to the next: one more, except
   * that it stands still from January 31 and from February 29 of a leap year,
   * and jumps by two into and out of a leap year.
   */
  lemma GetDaysNextDay(date: Date)
    requires ValidDate(date) && date.year >= 1971
    ensures GetDays(NextDay(date)) - GetDays(date) ==
      if IsLeapYear(date.year) && date.day == 31 && date.month == 1 then 0
      else if IsLeapYear(date.year) && date.day == 29 && date.month == 2 then 0
      else if date.month == 12 && date.day == 31 && (IsLeapYear(date.year) || IsLeapYear(date.year + 1)) then 2
      else 1
  {
    var y, m := date.year, date.month;
    if date.day == DaysInMonth(y, m) {
      if m < 12 {
        MonthOffsetStep(m);
      } else {
        MonthOffsetValues(12);
        MonthOffsetValues(1);
      }
    }
  }

  /** The leap adjustment as written gives the last day of January and the first of February one count. */
  lemma GetDaysLeapJanuaryCollision(year: nat)
    requires IsLeapYear(year)
    ensures GetDays(Date(year, 1, 31)) == GetDays(Date(year, 2, 1))
  {
    MonthOffsetValues(1);
    MonthOffsetValues(2);
  }

  // ---------------------------------------------------------------------------
  // The leap adjustment for the months after February, evidently intended.

  function CorrectedLeapAdjustment(year: nat, month: nat): (r: nat)
  {
    if IsLeapYear(year) && month > 2 then 1 else 0
  }

  function CorrectedGetDays(date: Date): (r: nat)
  {
    date.day + CorrectedLeapAdjustment(date.year, date.month) + YearOffset(date.year) + MonthOffset(date.month)
  }

  function CorrectedDaysBetweenIsoDates(date1: string, date2: string): (r: Option<nat>)
    ensures r.Some? <==> ParseDate(date1).Some? && ParseDate(date2).Some?
    ensures r.Some? ==> r.value >= 1
  {
    var a, b := ParseDate(date1), ParseDate(date2);
    if a.Some? && b.Some? then Some(Abs(CorrectedGetDays(a.value) - CorrectedGetDays(b.value)) + 1) else None
  }

  /** With the adjustment on the months after February, consecutive calendar days are consecutive counts. */
  lemma CorrectedGetDaysNextDay(date: Date)
    requires ValidDate(date) && date.year >= 1971
    ensures CorrectedGetDays(NextDay(date)) == CorrectedGetDays(date) + 1
  {
    var y, m := date.year, date.month;
    if date.day == DaysInMonth(y, m) {
      if m < 12 {
        MonthOffsetStep(m);
      } else {
        MonthOffsetValues(12);
        MonthOffsetValues(1);
      }
    }
  }

  // ---------------------------------------------------------------------------
  // Writing `YYYY-MM-DD`, and reading it back.

  function Pow10(n: nat): (r: nat)
  {
    if n == 0 then 1 else 10 * Pow10(n - 1)
  }

  /** The last `width` decimal digits of `n`, with leading zeros. */
  function DigitString(n: nat, width: nat): (r: string)
    ensures |r| == width && AllDigits(r)
  {
    if width == 0 then "" else DigitString(n / 10, width - 1) + [('0' as int + n % 10) as char]
  }

  lemma {:induction false} DigitStringValue(n: nat, width: nat)
    requires n < Pow10(width)
    ensures DigitsValue(DigitString(n, width)) == n
  {
    if width > 0 {
      DigitStringValue(n / 10, width - 1);
      var r := DigitString(n, width);
      assert r[..width - 1] == DigitString(n / 10, width - 1);
    }
  }

  /** `date` in the extended format: four digits of year, two of month, two of day. */
  function FormatDate(date: Date): (r: string)
    requires date.year < 10000 && date.month < 100 && date.day < 100
  {
    DigitString(date.year, 4) + "-" + DigitString(date.month, 2) + "-" + DigitString(date.day, 2)
  }

  lemma {:induction false} SplitNoSeparator(s: string, sep: char)
    requires sep !in s
    ensures Split(s, sep) == [s]
  {
    if |s| > 0 {
      SplitNoSeparator(s[1..], sep);
      assert [s[0]] + s[1..] == s;
    }
  }

  lemma {:induction false} SplitAtSeparator(a: string, rest: string, sep: char)
    requires sep !in a
    ensures Split(a + [sep] + rest, sep) == [a] + Split(rest, sep)
  {
    var s := a + [sep] + rest;
    if |a| == 0 {
      assert s[1..] == rest;
    } else {
      SplitAtSeparator(a[1..], rest, sep);
      assert s[1..] == a[1..] + [sep] + rest;
      assert [a[0]] + a[1..] == a;
    }
  }

  lemma DigitsHaveNoDash(s: string)
    requires AllDigits(s)
    ensures '-' !in s
  {
  }

  /** Reading a formatted date gives the date back. */
  lemma ParseFormatDate(date: Date)
    requires date.year < 10000 && date.month < 100 && date.day < 100
    ensures ParseDate(FormatDate(date)) == Some(date)
  {
    var y, m, d := DigitString(date.year, 4), DigitString(date.month, 2), DigitString(date.day, 2);
    DigitsHaveNoDash(y);
    DigitsHaveNoDash(m);
    DigitsHaveNoDash(d);
    assert FormatDate(date) == y + ['-'] + (m + ['-'] + d);
    SplitAtSeparator(y, m + ['-'] + d, '-');
    SplitAtSeparator(m, d, '-');
    SplitNoSeparator(d, '-');
    assert Split(FormatDate(date), '-') == [y, m, d];
    DigitStringValue(date.year, 4);
    DigitStringValue(date.month, 2);
    DigitStringValue(date.day, 2);
  }

  /** Consecutive calendar days read from text are two days apart inclusive, with the corrected count. */
  lemma CorrectedDaysBetweenNextDay(date: Date)
    requires ValidDate(date) && 1971 <= date.year < 9999
    ensures CorrectedDaysBetweenIsoDates(FormatDate(date), FormatDate(NextDay(date))) == Some(2)
  {
    ParseFormatDate(date);
    ParseFormatDate(NextDay(date));
    CorrectedGetDaysNextDay(date);
  }

  lemma FormatExamples()
    ensures FormatDate(Date(2020, 1, 31)) == "2020-01-31"
    ensures FormatDate(Date(2020, 2, 1)) == "2020-02-01"
  {
    assert DigitString(2020, 4) == "2020" by {
      assert DigitString(2, 1) == "2";
      assert DigitString(20, 2) == "20";
      assert DigitString(202, 3) == "202";
    }
    assert DigitString(1, 2) == "01" && DigitString(2, 2) == "02" && DigitString(31, 2) == "31";
  }

  /** As written, the last day of January and the first of February of a leap year are one day apart inclusive. */
  lemma DaysBetweenLeapJanuary(year: nat)
    requires IsLeapYear(year) && 1971 <= year < 10000
    ensures DaysBetweenIsoDates(FormatDate(Date(year, 1, 31)), FormatDate(Date(year, 2, 1))) == Some(1)
    ensures CorrectedDaysBetweenIsoDates(FormatDate(Date(year, 1, 31)), FormatDate(Date(year, 2, 1))) == Some(2)
  {
    ParseFormatDate(Date(year, 1, 31));
    ParseFormatDate(Date(year, 2, 1));
    GetDaysLeapJanuaryCollision(year);
    CorrectedGetDaysNextDay(Date(year, 1, 31));
  }

  /** The same on the text `2020-01-31` and `2020-02-01`. */
  lemma DaysBetweenLeapJanuaryExample()
    ensures DaysBetweenIsoDates("2020-01-31", "2020-02-01") == Some(1)
    ensures CorrectedDaysBetweenIsoDates("2020-01-31", "2020-02-01") == Some(2)
  {
    FormatExamples();
    DaysBetweenLeapJanuary(2020);
  }
}
