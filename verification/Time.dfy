/**
 The Time library: conversion between seconds since 1970 and calendar fields, and the clock that counts
 seconds from the millisecond timer.  Years are offsets from 1970, months and days count from 1,
 weekdays from 1 for Sunday.
 */
module Calendar {
  import opened Words

  datatype TimeElements = TimeElements(second: nat, minute: nat, hour: nat, wday: nat,
                                       day: nat, month: nat, year: nat)

  const SECS_PER_DAY: nat := 86400

  lemma U32Add(x: int, y: int)
    ensures U32(U32(x) + y) == U32(x + y)
  {
  }

  lemma U32Small(x: int)
    requires 0 <= x < 0x1_0000_0000
    ensures U32(x) == x
  {
  }

  // LEAP_YEAR
  predicate Leap(year: nat) {
    var calendar := 1970 + year;
    calendar % 4 == 0 && (calendar % 100 != 0 || calendar % 400 == 0)
  }

  const MONTH_DAYS: seq<nat> := [31, 28, 31, 30, 31, 30, 31, 31, 30, 31, 30, 31]

  function YearLength(year: nat): nat {
    if Leap(year) then 366 else 365
  }

  /** Months count from 0 here. */
  function MonthLength(year: nat, month: nat): nat
    requires month < 12
  {
    if month == 1 then (if Leap(year) then 29 else 28) else MONTH_DAYS[month]
  }

  function DaysBeforeYear(year: nat): nat {
    if year == 0 then 0 else DaysBeforeYear(year - 1) + YearLength(year - 1)
  }

  function DaysBeforeMonth(year: nat, month: nat): nat
    requires month <= 12
  {
    if month == 0 then 0 else DaysBeforeMonth(year, month - 1) + MonthLength(year, month - 1)
  }

  predicate Valid(e: TimeElements) {
    && e.second < 60 && e.minute < 60 && e.hour < 24
    && e.year < 256
    && 1 <= e.month <= 12
    && 1 <= e.day <= MonthLength(e.year, e.month - 1)
  }

  /** Day of the year, from 0. */
  function YearDay(e: TimeElements): int
    requires e.month <= 13
  {
    DaysBeforeMonth(e.year, if e.month == 0 then 0 else e.month - 1) + e.day - 1
  }

  /** Seconds since the epoch as the calendar defines them: whole years, months, days and the rest. */
  function Seconds(e: TimeElements): int
    requires e.month <= 13
  {
    (DaysBeforeYear(e.year) + YearDay(e)) * SECS_PER_DAY + e.hour * 3600 + e.minute * 60 + e.second
  }

  /** Section 4.16 of POSIX.1-2017 (Base Definitions, Seconds Since the Epoch), where tm_year counts
      from 1900. */
  function PosixSeconds(e: TimeElements): int
    requires e.month <= 13
  {
    var tmYear := e.year + 70;
    e.second + e.minute * 60 + e.hour * 3600 + YearDay(e) * 86400
    + (tmYear - 70) * 31536000 + ((tmYear - 69) / 4) * 86400
    - ((tmYear - 1) / 100) * 86400 + ((tmYear + 299) / 400) * 86400
  }

  lemma {:induction false} DaysBeforeYearClosed(year: nat)
    ensures DaysBeforeYear(year) == 365 * year + (year + 1) / 4 - (year + 69) / 100 + (year + 369) / 400
  {
    if year > 0 {
      hide Leap;
      DaysBeforeYearClosed(year - 1);
      LeapByThreeTests(year - 1);
      NextQuotient(year, 4);
      NextQuotient(year + 68, 100);
      NextQuotient(year + 368, 400);
    }
  }

  lemma LeapByThreeTests(year: nat)
    ensures YearLength(year) == 365 + (if (year + 2) % 4 == 0 then 1 else 0)
                              - (if (year + 70) % 100 == 0 then 1 else 0)
                              + (if (year + 370) % 400 == 0 then 1 else 0)
  {
    var c := 1970 + year;
    SameRemainder(year + 2, 492, 4);
    SameRemainder(year + 70, 19, 100);
    SameRemainder(year + 370, 4, 400);
    HundredsAndFours(c);
  }

  lemma HundredsAndFours(c: nat)
    ensures c % 400 == 0 ==> c % 100 == 0
    ensures c % 100 == 0 ==> c % 4 == 0
  {
    if c % 400 == 0 {
      assert c == 100 * (4 * (c / 400));
      Hundreds(4 * (c / 400));
    }
    if c % 100 == 0 {
      assert c == 4 * (25 * (c / 100));
      Fours(25 * (c / 100));
    }
  }

  lemma Hundreds(k: nat)
    ensures 100 * k % 100 == 0
  {
  }

  lemma Fours(k: nat)
    ensures 4 * k % 4 == 0
  {
  }

  lemma SameRemainder(n: nat, k: nat, d: nat)
    requires d == 4 || d == 100 || d == 400
    ensures (n + k * d) % d == n % d
  {
  }

  lemma NextQuotient(n: nat, d: nat)
    requires d == 4 || d == 100 || d == 400
    ensures (n + 1) / d == n / d + if (n + 1) % d == 0 then 1 else 0
  {
  }

  lemma SecondsArePosix(e: TimeElements)
    requires e.month <= 13
    ensures Seconds(e) == PosixSeconds(e)
  {
    DaysBeforeYearClosed(e.year);
  }

  lemma YearIsItsMonths(year: nat)
    ensures DaysBeforeMonth(year, 12) == YearLength(year)
  {
    assert DaysBeforeMonth(year, 1) == 31;
    assert DaysBeforeMonth(year, 2) == 31 + MonthLength(year, 1);
    assert DaysBeforeMonth(year, 4) == DaysBeforeMonth(year, 2) + 61;
    assert DaysBeforeMonth(year, 6) == DaysBeforeMonth(year, 4) + 61;
    assert DaysBeforeMonth(year, 8) == DaysBeforeMonth(year, 6) + 62;
    assert DaysBeforeMonth(year, 10) == DaysBeforeMonth(year, 8) + 61;
  }

  lemma {:induction false} MonthsAscend(year: nat, m: nat, n: nat)
    requires m < n <= 12
    ensures DaysBeforeMonth(year, m) + MonthLength(year, m) <= DaysBeforeMonth(year, n)
    decreases n
  {
    if m < n - 1 {
      MonthsAscend(year, m, n - 1);
    }
  }

  lemma {:induction false} YearsAscend(y: nat, z: nat)
    requires y < z
    ensures DaysBeforeYear(y) + YearLength(y) <= DaysBeforeYear(z)
    decreases z
  {
    if y < z - 1 {
      YearsAscend(y, z - 1);
    }
  }

  lemma YearDayInYear(e: TimeElements)
    requires Valid(e)
    ensures 0 <= YearDay(e) < YearLength(e.year)
  {
    YearIsItsMonths(e.year);
    if e.month < 12 {
      MonthsAscend(e.year, e.month - 1, 12);
    }
  }

  /** Valid dates at the same second agree in every field but the weekday. */
  lemma SecondsInjective(a: TimeElements, b: TimeElements)
    requires Valid(a) && Valid(b) && Seconds(a) == Seconds(b)
    ensures a.(wday := 0) == b.(wday := 0)
  {
    SameDay(DaysBeforeYear(a.year) + YearDay(a), a.hour, a.minute, a.second,
            DaysBeforeYear(b.year) + YearDay(b), b.hour, b.minute, b.second);
    hide Seconds, DaysBeforeYear;
    SameYear(a, b);
    SameMonth(a, b);
  }

  lemma SameMonth(a: TimeElements, b: TimeElements)
    requires Valid(a) && Valid(b) && a.year == b.year && YearDay(a) == YearDay(b)
    ensures a.month == b.month && a.day == b.day
  {
    if a.month < b.month {
      MonthsAscend(a.year, a.month - 1, b.month - 1);
    } else if b.month < a.month {
      MonthsAscend(a.year, b.month - 1, a.month - 1);
    }
  }

  lemma SameYear(a: TimeElements, b: TimeElements)
    requires Valid(a) && Valid(b)
    requires DaysBeforeYear(a.year) + YearDay(a) == DaysBeforeYear(b.year) + YearDay(b)
    ensures a.year == b.year
  {
    YearDayInYear(a);
    YearDayInYear(b);
    if a.year < b.year {
      YearsAscend(a.year, b.year);
    } else if b.year < a.year {
      YearsAscend(b.year, a.year);
    }
  }

  lemma SameDay(d: int, h: nat, m: nat, s: nat, d': int, h': nat, m': nat, s': nat)
    requires h < 24 && m < 60 && s < 60 && h' < 24 && m' < 60 && s' < 60
    requires d * 86400 + h * 3600 + m * 60 + s == d' * 86400 + h' * 3600 + m' * 60 + s'
    ensures d == d' && h == h' && m == m' && s == s'
  {
  }

  function Weekday(t: nat): nat {
    (t / SECS_PER_DAY + 4) % 7 + 1
  }

  /** The days before a month in one formula; months count from 0, and the years that it counts start in March. */
  lemma DaysOfMonths(year: nat, month: nat)
    requires month < 12
    ensures DaysBeforeMonth(year, month) ==
              if month < 2 then 31 * month else YearLength(year) - 306 + (153 * (month - 2) + 2) / 5
  {
    hide Leap;
    assert DaysBeforeMonth(year, 1) == 31;
    assert DaysBeforeMonth(year, 2) == 31 + MonthLength(year, 1) == YearLength(year) - 306;
    assert DaysBeforeMonth(year, 3) == DaysBeforeMonth(year, 2) + 31;
    assert DaysBeforeMonth(year, 4) == DaysBeforeMonth(year, 3) + 30;
    assert DaysBeforeMonth(year, 5) == DaysBeforeMonth(year, 4) + 31;
    assert DaysBeforeMonth(year, 6) == DaysBeforeMonth(year, 5) + 30;
    assert DaysBeforeMonth(year, 7) == DaysBeforeMonth(year, 6) + 31;
    assert DaysBeforeMonth(year, 8) == DaysBeforeMonth(year, 7) + 31;
    assert DaysBeforeMonth(year, 9) == DaysBeforeMonth(year, 8) + 30;
    assert DaysBeforeMonth(year, 10) == DaysBeforeMonth(year, 9) + 31;
    assert DaysBeforeMonth(year, 11) == DaysBeforeMonth(year, 10) + 30;
  }

  /** The days since the first of March of the year 0 of the Gregorian calendar. */
  function CivilDays(e: TimeElements): int
    requires e.month > 0
  {
    var y := 1970 + e.year - if e.month <= 2 then 1 else 0;
    365 * y + y / 4 - y / 100 + y / 400 + (153 * ((e.month + 9) % 12) + 2) / 5 + e.day - 1
  }

  /** The seconds of a date are those of its Gregorian date, from 1970 on, and its weekday is the Gregorian one: the
      first of March of the year 0 is a Wednesday. */
  lemma DatesAreGregorian(e: TimeElements)
    requires Valid(e)
    ensures Seconds(e) == (CivilDays(e) - 719468) * 86400 + e.hour * 3600 + e.minute * 60 + e.second
    ensures Seconds(e) >= 0 && Weekday(Seconds(e)) == (CivilDays(e) + 3) % 7 + 1
  {
    hide *;
    CivilDaysAre(e);
    DayAndTime(e);
    DayOfSeconds(CivilDays(e) - 719468, e.hour * 3600 + e.minute * 60 + e.second);
  }

  lemma DayAndTime(e: TimeElements)
    requires Valid(e)
    ensures e.month > 0 && e.hour * 3600 + e.minute * 60 + e.second < 86400
    ensures Seconds(e) == (DaysBeforeYear(e.year) + YearDay(e)) * 86400 + e.hour * 3600 + e.minute * 60 + e.second
    ensures DaysBeforeYear(e.year) + YearDay(e) >= 0
  {
    hide DaysBeforeYear, YearDay;
    YearDayInYear(e);
  }

  lemma CivilDaysAre(e: TimeElements)
    requires Valid(e)
    ensures e.month > 0 && CivilDays(e) - 719468 == DaysBeforeYear(e.year) + YearDay(e)
  {
    hide YearLength, DaysBeforeYear, DaysBeforeMonth, MonthLength;
    DaysOfMonths(e.year, e.month - 1);
    DaysOfYears(e.year);
    DaysOfYears(e.year + 1);
    NextYear(e.year);
    if e.month == 1 {
    } else if e.month == 2 {
    } else {
      assert (e.month + 9) % 12 == e.month - 3;
    }
  }

  lemma NextYear(year: nat)
    ensures DaysBeforeYear(year + 1) == DaysBeforeYear(year) + YearLength(year)
  {
    hide YearLength;
  }

  /** The days before a year, counted in the year before it. */
  lemma DaysOfYears(year: nat)
    ensures var y := 1969 + year;
            DaysBeforeYear(year) == 365 * y + y / 4 - y / 100 + y / 400 - 719162
  {
    DaysBeforeYearClosed(year);
    QuotientOfSum(year + 1, 492, 4);
    QuotientOfSum(year + 69, 19, 100);
    QuotientOfSum(year + 369, 4, 400);
  }

  lemma QuotientOfSum(n: nat, k: nat, d: nat)
    requires d == 4 || d == 100 || d == 400
    ensures (n + k * d) / d == n / d + k
  {
  }

  lemma DayOfSeconds(days: int, rest: nat)
    requires days >= 0 && rest < 86400
    ensures Weekday(days * 86400 + rest) == (days + 719468 + 3) % 7 + 1
  {
    assert (days * 86400 + rest) / 86400 == days;
  }

  /** Split a day count into a year and a day of that year, counting up the years. */
  method YearOf(days: nat) returns (year: nat, dayOfYear: nat)
    requires days < 49711  // the days in 32 bits of seconds
    ensures year <= 136
    ensures DaysBeforeYear(year) + dayOfYear == days && dayOfYear < YearLength(year)
  {
    year := 0;
    var sum := YearLength(year);
    while sum <= days
      invariant sum == DaysBeforeYear(year + 1) && DaysBeforeYear(year) <= days
      invariant year <= 136
      invariant sum < 0x1_0000  // so the 16-bit comparison of the smallest boards loses nothing
      decreases days - DaysBeforeYear(year)
    {
      DaysBeforeYearClosed(year + 1);
      year := year + 1;
      sum := sum + YearLength(year);
      DaysBeforeYearClosed(year + 1);
    }
    sum := sum - YearLength(year);
    dayOfYear := days - sum;
  }

  method MonthOf(year: nat, dayOfYear: nat) returns (month: nat, dayOfMonth: nat)
    requires dayOfYear < YearLength(year)
    ensures month < 12 && dayOfMonth < MonthLength(year, month)
    ensures DaysBeforeMonth(year, month) + dayOfMonth == dayOfYear
  {
    YearIsItsMonths(year);
    month, dayOfMonth := 0, dayOfYear;
    while month < 12
      invariant month <= 12 && DaysBeforeMonth(year, month) + dayOfMonth == dayOfYear
    {
      var monthLength;
      if month == 1 {
        if Leap(year) {
          monthLength := 29;
        } else {
          monthLength := 28;
        }
      } else {
        monthLength := MONTH_DAYS[month];
      }
      if dayOfMonth >= monthLength {
        dayOfMonth := dayOfMonth - monthLength;
      } else {
        break;
      }
      month := month + 1;
    }
  }

  /** Break a time into the valid date whose seconds it is. */
  method BreakTime(timeInput: nat) returns (tm: TimeElements)
    requires timeInput < 0x1_0000_0000
    ensures Valid(tm) && Seconds(tm) == timeInput
    ensures tm.wday == Weekday(timeInput) && tm.year <= 136
  {
    var time := timeInput;
    var second := time % 60;
    time := time / 60;
    var minute := time % 60;
    time := time / 60;
    var hour := time % 24;
    time := time / 24;
    assert timeInput == time * 86400 + hour * 3600 + minute * 60 + second;
    assert time == timeInput / 86400;
    var wday := (time + 4) % 7 + 1;
    var year, dayOfYear := YearOf(time);
    var month, dayOfMonth := MonthOf(year, dayOfYear);
    tm := TimeElements(second, minute, hour, wday, dayOfMonth + 1, month + 1, year);
    assert YearDay(tm) == dayOfYear;
  }

  method SecondsOfYears(year: nat) returns (seconds: nat)
    ensures seconds == U32(DaysBeforeYear(year) * SECS_PER_DAY)
  {
    hide U32, Leap;
    ghost var total: int := year * (SECS_PER_DAY * 365);
    seconds := U32(year * (SECS_PER_DAY * 365));
    var i := 0;
    while i < year
      invariant 0 <= i <= year && seconds == U32(total)
      invariant total == DaysBeforeYear(i) * SECS_PER_DAY + (year - i) * (SECS_PER_DAY * 365)
    {
      if Leap(i) {
        U32Add(total, SECS_PER_DAY);
        total := total + SECS_PER_DAY;
        seconds := U32(seconds + SECS_PER_DAY);
      }
      i := i + 1;
    }
  }

  /** Assemble a time in 32 bits.  A month above 13 would read past the table of month lengths. */
  method MakeTime(tm: TimeElements) returns (t: nat)
    requires tm.month <= 13
    ensures t == U32(Seconds(tm))
  {
    hide U32;
    var seconds := SecondsOfYears(tm.year);
    ghost var total := DaysBeforeYear(tm.year) * SECS_PER_DAY;
    var i := 1;
    while i < tm.month
      invariant 1 <= i && (i <= tm.month || (tm.month == 0 && i == 1)) && seconds == U32(total)
      invariant total == (DaysBeforeYear(tm.year) + DaysBeforeMonth(tm.year, i - 1)) * SECS_PER_DAY
    {
      var length;
      if i == 2 && Leap(tm.year) {
        length := 29;
      } else {
        length := MONTH_DAYS[i - 1];
      }
      U32Add(total, SECS_PER_DAY * length);
      total := total + SECS_PER_DAY * length;
      seconds := U32(seconds + SECS_PER_DAY * length);
      i := i + 1;
    }
    t := AddTimeOfDay(seconds, tm, total);
  }

  method AddTimeOfDay(start: nat, tm: TimeElements, ghost total: int) returns (seconds: nat)
    requires start == U32(total)
    ensures seconds == U32(total + (tm.day - 1) * SECS_PER_DAY + tm.hour * 3600 + tm.minute * 60 + tm.second)
  {
    hide U32;
    U32Add(total, (tm.day - 1) * SECS_PER_DAY);
    seconds := U32(start + (tm.day - 1) * SECS_PER_DAY);
    ghost var sum := total + (tm.day - 1) * SECS_PER_DAY;
    U32Add(sum, tm.hour * 3600);
    seconds := U32(seconds + tm.hour * 3600);
    U32Add(sum + tm.hour * 3600, tm.minute * 60);
    seconds := U32(seconds + tm.minute * 60);
    U32Add(sum + tm.hour * 3600 + tm.minute * 60, tm.second);
    seconds := U32(seconds + tm.second);
  }

  /** Every 32-bit time survives. */
  method BreakThenMake(t: nat) returns (tm: TimeElements, t': nat)
    requires t < 0x1_0000_0000
    ensures t' == t
  {
    hide U32, Seconds, Weekday;
    tm := BreakTime(t);
    t' := MakeTime(tm);
    U32Small(t);
  }

  /** Every valid date whose seconds fit in 32 bits survives, with its weekday corrected. */
  method MakeThenBreak(e: TimeElements) returns (t: nat, e': TimeElements)
    requires Valid(e) && Seconds(e) < 0x1_0000_0000
    ensures t == PosixSeconds(e)
    ensures e' == e.(wday := Weekday(t))
  {
    hide PosixSeconds, Weekday;
    SecondsArePosix(e);
    YearDayInYear(e);
    t := MakeTime(e);
    e' := BreakTime(t);
    SecondsInjective(e, e');
  }
}

/** The DS3232 real-time clock chip: seven registers in binary-coded decimal. */
module Rtc {
  import opened Calendar
  import opened Words

  function DecToBcd(n: nat): nat {
    U8(n + 6 * (n / 10))
  }

  function BcdToDec(n: nat): nat {
    U8(n - 6 * (n / 16))
  }

  /** n & ~_BV(bit), for the value 2^bit. */
  function ClearBit(n: nat, value: nat): nat
    requires value == 64 || value == 128
  {
    if n / value % 2 == 1 then n - value else n
  }

  lemma Digits(n: nat)
    requires n < 160
    ensures DecToBcd(n) == 16 * (n / 10) + n % 10
  {
  }

  lemma BcdRoundTrip(n: nat)
    requires n < 160
    ensures BcdToDec(DecToBcd(n)) == n
    ensures n < 80 ==> ClearBit(DecToBcd(n), 128) == DecToBcd(n)
    ensures n < 40 ==> ClearBit(DecToBcd(n), 64) == DecToBcd(n)
  {
    Digits(n);
    var b := DecToBcd(n);
    assert b / 16 == n / 10;
    assert n < 80 ==> b / 128 == 0;
    assert n < 40 ==> b / 64 == 0;
  }

  /** The year that read makes of the year register after write. */
  function RereadYear(year: nat): nat {
    U8(BcdToDec(DecToBcd(U8(year - 30))) + 30)
  }

  /** The year register keeps the years from 2000 on; the years before come back as later ones. */
  lemma YearRegister(year: nat)
    requires year <= 136
    ensures if 30 <= year then RereadYear(year) == year else 96 <= RereadYear(year) <= 125
  {
    hide DecToBcd, BcdToDec, ClearBit;
    if 30 <= year {
      BcdRoundTrip(year - 30);
      assert U8(year - 30) == year - 30;
    } else {
      TwoDigitBorrow(year + 226);
      assert U8(year - 30) == year + 226;
    }
  }

  lemma TwoDigitBorrow(n: nat)
    requires 226 <= n < 256
    ensures 66 <= BcdToDec(DecToBcd(n)) <= 95
  {
    hide U8;
    var q := n / 10;
    assert 22 <= q <= 25;
    U8Values(n + 6 * q);
    var b := n + 6 * q - 256;
    assert 6 <= b / 16 <= 9;
    U8Values(b - 6 * (b / 16));
  }

  lemma U8Values(x: int)
    requires 0 <= x < 512
    ensures U8(x) == if x < 256 then x else x - 256
  {
  }

  const SECS_YR_2000: nat := 946684800

  /** The year 2000 starts at the library's own constant. */
  lemma Year2000(tm: TimeElements)
    requires Valid(tm)
    ensures 0 <= Seconds(tm)
    ensures 30 <= tm.year <==> SECS_YR_2000 <= Seconds(tm)
  {
    DaysBeforeYearClosed(30);
    assert DaysBeforeYear(30) == 10957;
    YearDayInYear(tm);
    hide DaysBeforeYear, YearDay, YearLength;
    if tm.year < 30 {
      YearsAscend(tm.year, 30);
    } else if 30 < tm.year {
      YearsAscend(30, tm.year);
    }
  }

  function Reread(tm: TimeElements): TimeElements {
    tm.(year := RereadYear(tm.year))
  }

  lemma RereadIsLate(tm: TimeElements)
    requires Valid(tm) && tm.year < 30
    ensures SECS_YR_2000 <= Seconds(Reread(tm)) < 0x1_0000_0000
  {
    var r := Reread(tm);
    YearRegister(tm.year);
    DaysBeforeYearClosed(r.year);
    assert 35000 <= DaysBeforeYear(r.year) <= 46000;
    SmallMonths(r.year, tm.month - 1);
  }

  lemma SmallMonths(year: nat, month: nat)
    requires month < 12
    ensures 0 <= DaysBeforeMonth(year, month) <= 366
  {
    YearIsItsMonths(year);
    MonthsAscend(year, month, 12);
  }

  /** What was written reads back as the same second exactly from 2000 on. */
  lemma RereadSeconds(tm: TimeElements)
    requires Valid(tm) && tm.year <= 136 && Seconds(tm) < 0x1_0000_0000
    ensures U32(Seconds(Reread(tm))) == Seconds(tm) <==> SECS_YR_2000 <= Seconds(tm)
    ensures SECS_YR_2000 <= Seconds(tm) ==> Reread(tm) == tm
    ensures 0 <= Seconds(tm)
  {
    hide Seconds, RereadYear, U32;
    YearRegister(tm.year);
    Year2000(tm);
    if tm.year < 30 {
      RereadIsLate(tm);
      U32Small(Seconds(Reread(tm)));
    } else {
      assert Reread(tm) == tm;
      U32Small(Seconds(tm));
    }
  }

  class Ds3232 {
    const registers: array<nat>

    constructor ()
      ensures registers.Length == 7 && fresh(registers)
    {
      registers := new nat[7];
    }

    /** The date that read makes of the registers. */
    function Stored(): TimeElements
      requires registers.Length == 7
      reads registers
    {
      TimeElements(BcdToDec(ClearBit(registers[0], 128)),
                   BcdToDec(registers[1]),
                   BcdToDec(ClearBit(registers[2], 64)),
                   registers[3],
                   BcdToDec(registers[4]),
                   BcdToDec(ClearBit(registers[5], 128)),
                   U8(BcdToDec(registers[6]) + 30))
    }

    /** status is what the bus reports; only 0 means that the chip has answered. */
    method Read(status: nat) returns (e: nat, tm: TimeElements)
      requires registers.Length == 7
      ensures e == status && (e == 0 ==> tm == Stored())
    {
      e := status;
      tm := TimeElements(0, 0, 0, 0, 0, 0, 0);
      if e == 0 {
        tm := tm.(second := BcdToDec(ClearBit(registers[0], 128)));
        tm := tm.(minute := BcdToDec(registers[1]));
        tm := tm.(hour := BcdToDec(ClearBit(registers[2], 64)));
        tm := tm.(wday := registers[3]);
        tm := tm.(day := BcdToDec(registers[4]));
        tm := tm.(month := BcdToDec(ClearBit(registers[5], 128)));
        tm := tm.(year := U8(BcdToDec(registers[6]) + 30));
      }
    }

    method Write(tm: TimeElements, status: nat) returns (e: nat)
      requires registers.Length == 7
      modifies registers
      ensures e == status
      ensures registers[..] == if e != 0 then old(registers[..]) else
                [DecToBcd(tm.second), DecToBcd(tm.minute), DecToBcd(tm.hour), tm.wday,
                 DecToBcd(tm.day), DecToBcd(tm.month), DecToBcd(U8(tm.year - 30))]
    {
      e := status;
      if e == 0 {
        registers[0] := DecToBcd(tm.second);
        registers[1] := DecToBcd(tm.minute);
        registers[2] := DecToBcd(tm.hour);
        registers[3] := tm.wday;
        registers[4] := DecToBcd(tm.day);
        registers[5] := DecToBcd(tm.month);
        registers[6] := DecToBcd(U8(tm.year - 30));
      }
    }

    method Set(t: nat, status: nat) returns (e: nat)
      requires registers.Length == 7 && t < 0x1_0000_0000
      modifies registers
      ensures e == status
      ensures e != 0 ==> registers[..] == old(registers[..])
      ensures e == 0 ==>
                && Stored().month <= 13 && (U32(Seconds(Stored())) == t <==> SECS_YR_2000 <= t)
                && (SECS_YR_2000 <= t ==> Valid(Stored()) && Stored().wday == Weekday(t))
    {
      var tm := BreakTime(t);
      e := Write(tm, status);
      if e == 0 {
        hide Seconds, Weekday;
        StoredDate(tm);
        RereadSeconds(tm);
      }
    }

    method Get(status: nat) returns (t: nat)
      requires registers.Length == 7 && (status == 0 ==> Stored().month <= 13)
      ensures t == if status == 0 then U32(Seconds(Stored())) else 0
    {
      var e, tm := Read(status);
      if e != 0 {
        return 0;
      }
      t := MakeTime(tm);
    }

    lemma StoredDate(tm: TimeElements)
      requires registers.Length == 7 && Valid(tm) && tm.year <= 136
      requires registers[..] == [DecToBcd(tm.second), DecToBcd(tm.minute), DecToBcd(tm.hour), tm.wday,
                                 DecToBcd(tm.day), DecToBcd(tm.month), DecToBcd(U8(tm.year - 30))]
      ensures Stored() == Reread(tm)
    {
      hide BcdToDec, DecToBcd, ClearBit;
      assert registers[0] == registers[..][0] && registers[1] == registers[..][1];
      assert registers[2] == registers[..][2] && registers[3] == registers[..][3];
      assert registers[4] == registers[..][4] && registers[5] == registers[..][5];
      assert registers[6] == registers[..][6];
      BcdRoundTrip(tm.second);
      BcdRoundTrip(tm.minute);
      BcdRoundTrip(tm.hour);
      BcdRoundTrip(tm.day);
      BcdRoundTrip(tm.month);
    }
  }

  /** Setting the chip and reading it back is the identity from 2000 on, and only there. */
  method SetThenGet(chip: Ds3232, t: nat) returns (t': nat)
    requires chip.registers.Length == 7 && t < 0x1_0000_0000
    modifies chip.registers
    ensures t' == t <==> SECS_YR_2000 <= t
  {
    var e := chip.Set(t, 0);
    t' := chip.Get(0);
  }
}

/** Counting seconds from a 32-bit millisecond timer that may be polled at any moments. */
module SystemClock {
  import opened Calendar
  import opened Words

  datatype TimeStatus = TimeNotSet | TimeNeedsSync | TimeSet

  class Clock {
    var sysTime: nat
    var prevMillis: nat
    var nextSyncTime: nat
    var syncInterval: nat
    var status: TimeStatus
    // The uptime at which the clock was last set, the time it was set to, and the uptime that
    // prevMillis stands for; uptimes do not wrap.
    ghost var setAt: nat
    ghost var setTo: nat
    ghost var counted: nat

    ghost predicate Valid()
      reads this
    {
      && setAt <= counted && (counted - setAt) % 1000 == 0
      && prevMillis == U32(counted)
      && sysTime == U32(setTo + (counted - setAt) / 1000)
    }

    constructor (uptime: nat)
      ensures Valid() && setTo == 0 && setAt == counted == 0 && status == TimeNotSet
    {
      sysTime, prevMillis, nextSyncTime, syncInterval, status := 0, 0, 0, 300, TimeNotSet;
      setAt, setTo, counted := 0, 0, 0;
    }

    method SetTime(t: nat, uptime: nat)
      requires t < 0x1_0000_0000
      modifies this
      ensures Valid() && sysTime == t && setTo == t && setAt == counted == uptime
      ensures nextSyncTime == U32(t + old(syncInterval)) && status == TimeSet && syncInterval == old(syncInterval)
    {
      sysTime := t;
      nextSyncTime := U32(t + syncInterval);
      status := TimeSet;
      prevMillis := U32(uptime);
      setTo, setAt, counted := t, uptime, uptime;
    }

    /** Count the whole seconds that have passed. */
    method CatchUp(uptime: nat)
      requires Valid() && counted <= uptime < counted + 0x1_0000_0000
      modifies this`sysTime, this`prevMillis, this`counted
      ensures Valid() && counted <= uptime < counted + 1000
      ensures sysTime == U32(setTo + (uptime - setAt) / 1000)
    {
      hide U32;
      Elapsed(uptime, counted);
      while U32(U32(uptime) - prevMillis) >= 1000
        invariant Valid() && counted <= uptime < counted + 0x1_0000_0000
        invariant U32(U32(uptime) - prevMillis) == uptime - counted
        decreases uptime - counted
      {
        U32Add(setTo + (counted - setAt) / 1000, 1);
        U32Add(counted, 1000);
        sysTime := U32(sysTime + 1);
        prevMillis := U32(prevMillis + 1000);
        counted := counted + 1000;
        Elapsed(uptime, counted);
      }
      SameQuotient(counted - setAt, uptime - counted);
    }

    /** now(): the time set plus the whole seconds of uptime since, however often the clock was polled
        in between, as long as no pause reaches 2^32 milliseconds; or the provider's time, once a
        synchronisation is due. */
    method Now(uptime: nat, provider: Option<nat>) returns (t: nat)
      requires Valid() && counted <= uptime < counted + 0x1_0000_0000
      requires provider.Some? ==> provider.value < 0x1_0000_0000
      modifies this
      ensures Valid() && t == sysTime && syncInterval == old(syncInterval)
      ensures old(counted) <= counted <= uptime
      ensures var running := U32(old(setTo) + (uptime - old(setAt)) / 1000);
              if old(nextSyncTime) <= running && provider.Some? then
                if provider.value != 0 then t == provider.value && setTo == t && setAt == uptime && status == TimeSet
                else t == running && unchanged(`setTo, `setAt) && nextSyncTime == U32(t + syncInterval)
                     && status == (if old(status) == TimeNotSet then TimeNotSet else TimeNeedsSync)
              else t == running && unchanged(`setTo, `setAt, `nextSyncTime, `status)
    {
      CatchUp(uptime);
      if nextSyncTime <= sysTime {
        if provider.Some? {
          if provider.value != 0 {
            SetTime(provider.value, uptime);
          } else {
            nextSyncTime := U32(sysTime + syncInterval);
            status := if status == TimeNotSet then TimeNotSet else TimeNeedsSync;
          }
        }
      }
      t := sysTime;
    }
  }

  /** The difference of two wrapped readings is the true difference when that is below 2^32. */
  lemma Elapsed(uptime: nat, counted: nat)
    requires counted <= uptime < counted + 0x1_0000_0000
    ensures U32(U32(uptime) - U32(counted)) == uptime - counted
  {
  }

  lemma SameQuotient(n: nat, r: nat)
    requires n % 1000 == 0 && r < 1000
    ensures (n + r) / 1000 == n / 1000
  {
  }

  /** Polling in between does not change what a later poll returns: no second is lost or counted twice. */
  method PollTwice(clock: Clock, early: nat, late: nat) returns (t: nat)
    requires clock.Valid() && clock.counted <= early <= late < clock.counted + 0x1_0000_0000
    modifies clock
    ensures t == U32(old(clock.setTo) + (late - old(clock.setAt)) / 1000)
  {
    var first := clock.Now(early, None);
    t := clock.Now(late, None);
  }
}
