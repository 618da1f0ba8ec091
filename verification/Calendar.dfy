/** Minutes as the scheduler writes them: 20060102T1504 in UTC.  Instants count nanoseconds from the
    start of the year 0, minutes are numbered from there. */
module Calendar {

  datatype Civil = Civil(year: nat, month: nat, day: nat, hour: nat, minute: nat)

  predicate Leap(year: nat) { year % 4 == 0 && (year % 100 != 0 || year % 400 == 0) }

  function YearLength(year: nat): nat { if Leap(year) then 366 else 365 }

  function MonthLength(leap: bool, month: nat): nat {
    if month == 2 then (if leap then 29 else 28)
    else if month == 4 || month == 6 || month == 9 || month == 11 then 30
    else 31
  }

  /** The year in which the given day falls, and its number there, counting from the given year's start. */
  function YearOf(day: nat, from: nat): (nat, nat)
    decreases day
  {
    if day < YearLength(from) then (from, day) else YearOf(day - YearLength(from), from + 1)
  }

  /** The month in which the given day falls, and its number there; December takes the rest. */
  function MonthOf(day: nat, leap: bool, from: nat): (nat, nat)
    requires 1 <= from <= 12
    decreases 12 - from
  {
    if day < MonthLength(leap, from) || from == 12 then (from, day)
    else MonthOf(day - MonthLength(leap, from), leap, from + 1)
  }

  function CivilOf(minute: nat): Civil {
    var (year, dayOfYear) := YearOf(minute / 1440, 0);
    var (month, dayOfMonth) := MonthOf(dayOfYear, Leap(year), 1);
    Civil(year, month, dayOfMonth + 1, minute % 1440 / 60, minute % 60)
  }

  // ------------------------------------------------------------- back from civil

  function DaysBeforeYear(year: nat): nat {
    if year == 0 then 0 else DaysBeforeYear(year - 1) + YearLength(year - 1)
  }

  function DaysBeforeMonth(leap: bool, month: nat): nat {
    if month <= 1 then 0 else DaysBeforeMonth(leap, month - 1) + MonthLength(leap, month - 1)
  }

  function MinuteOf(c: Civil): int {
    (DaysBeforeYear(c.year) + DaysBeforeMonth(Leap(c.year), c.month) + c.day - 1) * 1440 + c.hour * 60 + c.minute
  }

  lemma {:induction false} YearOfInverse(day: nat, from: nat)
    ensures var (year, rest) := YearOf(day, from); DaysBeforeYear(year) + rest == DaysBeforeYear(from) + day
    ensures YearOf(day, from).1 < 366
    decreases day
  {
    if YearLength(from) <= day { YearOfInverse(day - YearLength(from), from + 1); }
  }

  lemma {:induction false} MonthOfInverse(day: nat, leap: bool, from: nat)
    requires 1 <= from <= 12
    ensures var (month, rest) := MonthOf(day, leap, from);
            DaysBeforeMonth(leap, month) + rest == DaysBeforeMonth(leap, from) + day
            && from <= month <= 12
            && (day + DaysBeforeMonth(leap, from) < DaysBeforeMonth(leap, 12) + 31 ==> rest < MonthLength(leap, month))
    decreases 12 - from
  {
    assert MonthLength(leap, 12) == 31;
    hide MonthLength;
    if MonthLength(leap, from) <= day && from < 12 {
      MonthOfInverse(day - MonthLength(leap, from), leap, from + 1);
      assert DaysBeforeMonth(leap, from + 1) == DaysBeforeMonth(leap, from) + MonthLength(leap, from);
    }
  }

  lemma YearOfInYear(day: nat, from: nat)
    ensures YearOf(day, from).1 < YearLength(YearOf(day, from).0)
    decreases day
  {}

  lemma DaysBeforeDecember(leap: bool)
    ensures DaysBeforeMonth(leap, 12) + 31 == if leap then 366 else 365
  {
    DaysOfMonths(leap);
  }

  lemma MinutesOfDay(minute: nat)
    ensures minute == minute / 1440 * 1440 + minute % 1440 / 60 * 60 + minute % 60
    ensures minute % 1440 / 60 < 24
  {
    assert minute == minute / 1440 * 1440 + minute % 1440;
    assert minute % 1440 == minute % 1440 / 60 * 60 + minute % 1440 % 60;
    assert minute % 1440 % 60 == minute % 60;
  }

  /** The civil fields determine the minute, and they are within their usual ranges. */
  lemma CivilRoundTrip(minute: nat)
    ensures MinuteOf(CivilOf(minute)) == minute
    ensures var c := CivilOf(minute);
            1 <= c.month <= 12 && 1 <= c.day <= MonthLength(Leap(c.year), c.month) && c.hour < 24 && c.minute < 60
  {
    hide YearOf, MonthOf, DaysBeforeYear, DaysBeforeMonth, Leap, YearLength;
    var day := minute / 1440;
    var (year, dayOfYear) := YearOf(day, 0);
    YearOfInverse(day, 0);
    YearOfInYear(day, 0);
    YearLengths(year);
    MonthOfInverse(dayOfYear, Leap(year), 1);
    DaysBeforeDecember(Leap(year));
    NothingBefore(Leap(year));
    MinutesOfDay(minute);
    assert dayOfYear + DaysBeforeMonth(Leap(year), 1) < DaysBeforeMonth(Leap(year), 12) + 31;
    assert MonthOf(dayOfYear, Leap(year), 1).1 < MonthLength(Leap(year), MonthOf(dayOfYear, Leap(year), 1).0);
  }

  lemma YearLengths(year: nat)
    ensures YearLength(year) == if Leap(year) then 366 else 365
  {}

  lemma NothingBefore(leap: bool)
    ensures DaysBeforeYear(0) == 0 && DaysBeforeMonth(leap, 1) == 0
  {}

  // ------------------------------------------------------------------- Gregorian

  lemma Fourth(year: nat)
    ensures (year + 4) / 4 == (year + 3) / 4 + if year % 4 == 0 then 1 else 0
  {}

  lemma Hundredth(year: nat)
    ensures (year + 100) / 100 == (year + 99) / 100 + if year % 100 == 0 then 1 else 0
  {}

  lemma FourHundredth(year: nat)
    ensures (year + 400) / 400 == (year + 399) / 400 + if year % 400 == 0 then 1 else 0
  {}

  lemma FourTimes(k: nat)
    ensures (4 * k) % 4 == 0
  {}

  lemma HundredTimes(k: nat)
    ensures (100 * k) % 100 == 0
  {}

  lemma HundredthIsFourth(year: nat)
    ensures year % 100 == 0 ==> year % 4 == 0
  {
    var q, r := year / 100, year % 100;
    assert year == 100 * q + r;
    FourTimes(25 * q);
    assert r == 0 ==> year == 4 * (25 * q);
  }

  lemma FourHundredthIsHundredth(year: nat)
    ensures year % 400 == 0 ==> year % 100 == 0
  {
    var q, r := year / 400, year % 400;
    assert year == 400 * q + r;
    HundredTimes(4 * q);
    assert r == 0 ==> year == 100 * (4 * q);
  }

  function LeapDays(year: nat): int { (year + 3) / 4 - (year + 99) / 100 + (year + 399) / 400 }

  lemma LeapDaysStep(year: nat)
    ensures LeapDays(year + 1) == LeapDays(year) + if Leap(year) then 1 else 0
  {
    Fourth(year);
    Hundredth(year);
    FourHundredth(year);
    HundredthIsFourth(year);
    FourHundredthIsHundredth(year);
  }

  lemma {:induction false} YearsInDays(year: nat)
    ensures DaysBeforeYear(year) == 365 * year + LeapDays(year)
  {
    hide LeapDays, Leap;
    if year == 0 {
      NoLeapDays();
    } else {
      YearsInDays(year - 1);
      LeapDaysStep(year - 1);
    }
  }

  lemma NoLeapDays()
    ensures LeapDays(0) == 0
  {}

  lemma MonthsInDays(leap: bool, month: nat)
    requires 1 <= month <= 12
    ensures DaysBeforeMonth(leap, month)
            == (367 * month - 362) / 12 - (if month <= 2 then 0 else if leap then 1 else 2)
  {
    DaysOfMonths(leap);
  }

  lemma DaysOfMonths(leap: bool)
    ensures DaysBeforeMonth(leap, 1) == 0 && DaysBeforeMonth(leap, 2) == 31
    ensures var march := if leap then 60 else 59;
            && DaysBeforeMonth(leap, 3) == march && DaysBeforeMonth(leap, 4) == march + 31
            && DaysBeforeMonth(leap, 5) == march + 61 && DaysBeforeMonth(leap, 6) == march + 92
            && DaysBeforeMonth(leap, 7) == march + 122 && DaysBeforeMonth(leap, 8) == march + 153
            && DaysBeforeMonth(leap, 9) == march + 184 && DaysBeforeMonth(leap, 10) == march + 214
            && DaysBeforeMonth(leap, 11) == march + 245 && DaysBeforeMonth(leap, 12) == march + 275
  {
    assert DaysBeforeMonth(leap, 2) == 31;
    assert DaysBeforeMonth(leap, 3) == if leap then 60 else 59;
    assert DaysBeforeMonth(leap, 4) == DaysBeforeMonth(leap, 3) + 31;
    assert DaysBeforeMonth(leap, 5) == DaysBeforeMonth(leap, 4) + 30;
    assert DaysBeforeMonth(leap, 6) == DaysBeforeMonth(leap, 5) + 31;
    assert DaysBeforeMonth(leap, 7) == DaysBeforeMonth(leap, 6) + 30;
    assert DaysBeforeMonth(leap, 8) == DaysBeforeMonth(leap, 7) + 31;
    assert DaysBeforeMonth(leap, 9) == DaysBeforeMonth(leap, 8) + 31;
    assert DaysBeforeMonth(leap, 10) == DaysBeforeMonth(leap, 9) + 30;
    assert DaysBeforeMonth(leap, 11) == DaysBeforeMonth(leap, 10) + 31;
    assert DaysBeforeMonth(leap, 12) == DaysBeforeMonth(leap, 11) + 30;
  }

  /** The fields are those of the Gregorian calendar: its closed formula for the days since the start of the
      year 0, applied to the date, gives back the day, and the time of day the rest. */
  lemma CivilIsGregorian(minute: nat)
    ensures var c := CivilOf(minute);
            var leap := c.year % 4 == 0 && (c.year % 100 != 0 || c.year % 400 == 0);
            && minute / 1440
               == 365 * c.year + (c.year + 3) / 4 - (c.year + 99) / 100 + (c.year + 399) / 400
                  + (367 * c.month - 362) / 12 - (if c.month <= 2 then 0 else if leap then 1 else 2) + c.day - 1
            && minute % 1440 == c.hour * 60 + c.minute
            && 1 <= c.month <= 12 && c.hour < 24 && c.minute < 60
            && 1 <= c.day <= (if c.month == 2 then (if leap then 29 else 28)
                              else if c.month in {4, 6, 9, 11} then 30 else 31)
  {
    hide CivilOf, DaysBeforeYear, DaysBeforeMonth;
    CivilRoundTrip(minute);
    var c := CivilOf(minute);
    YearsInDays(c.year);
    MonthsInDays(Leap(c.year), c.month);
    var days := DaysBeforeYear(c.year) + DaysBeforeMonth(Leap(c.year), c.month) + c.day - 1;
    TimeOfDay(minute, days, c.hour * 60 + c.minute);
  }

  lemma TimeOfDay(minute: nat, days: int, rest: int)
    requires minute == days * 1440 + rest && 0 <= rest < 1440
    ensures minute / 1440 == days && minute % 1440 == rest
  {}

  // ------------------------------------------------------------------- rendering

  function Digit(n: nat): char
    requires n < 10
  {
    ('0' as int + n) as char
  }

  /** Decimal digits, padded with zeros to the given width. */
  function Digits(n: nat, width: nat): string
    decreases n, width
  {
    if n < 10 && width <= 1 then [Digit(n)]
    else Digits(n / 10, if width == 0 then 0 else width - 1) + [Digit(n % 10)]
  }

  predicate IsDigit(c: char) { '0' <= c <= '9' }

  lemma {:induction false} DigitsInjective(a: nat, b: nat, width: nat)
    requires Digits(a, width) == Digits(b, width)
    ensures a == b
    decreases a + b, width
  {
    LastDigit(a, width);
    LastDigit(b, width);
    var next := if width == 0 then 0 else width - 1;
    DigitsShape(a / 10, next);
    DigitsShape(b / 10, next);
    hide Digits;
    if !(a < 10 && width <= 1) && !(b < 10 && width <= 1) { DigitsInjective(a / 10, b / 10, next); }
  }

  lemma LastDigit(n: nat, width: nat)
    ensures var d := Digits(n, width);
            var next := if width == 0 then 0 else width - 1;
            && d != "" && d[|d| - 1] == Digit(n % 10)
            && d[..|d| - 1] == if n < 10 && width <= 1 then "" else Digits(n / 10, next)
    ensures forall m: nat :: m < 10 && Digit(m) == Digit(n % 10) ==> m == n % 10
  {}

  lemma {:induction false} DigitsShape(n: nat, width: nat)
    ensures Digits(n, width) != "" && forall i :: 0 <= i < |Digits(n, width)| ==> IsDigit(Digits(n, width)[i])
    decreases n, width
  {
    if !(n < 10 && width <= 1) { DigitsShape(n / 10, if width == 0 then 0 else width - 1); }
  }

  lemma TwoDigits(n: nat)
    requires n < 100
    ensures |Digits(n, 2)| == 2
  {}

  /** time.Format("20060102T1504") of the minute. */
  function Stamp(minute: nat): string {
    var c := CivilOf(minute);
    Digits(c.year, 4) + Digits(c.month, 2) + Digits(c.day, 2) + "T" + Digits(c.hour, 2) + Digits(c.minute, 2)
  }

  lemma StampParts(minute: nat)
    ensures var c, s := CivilOf(minute), Stamp(minute);
            && |s| == |Digits(c.year, 4)| + 9
            && s[..|s| - 9] == Digits(c.year, 4)
            && s[|s| - 9..|s| - 7] == Digits(c.month, 2) && s[|s| - 7..|s| - 5] == Digits(c.day, 2)
            && s[|s| - 4..|s| - 2] == Digits(c.hour, 2) && s[|s| - 2..] == Digits(c.minute, 2)
    ensures ':' !in Stamp(minute)
  {
    CivilRoundTrip(minute);
    var c := CivilOf(minute);
    hide CivilOf, MinuteOf, Digits;
    TwoDigits(c.month);
    TwoDigits(c.day);
    TwoDigits(c.hour);
    TwoDigits(c.minute);
    DigitsShape(c.year, 4);
    DigitsShape(c.month, 2);
    DigitsShape(c.day, 2);
    DigitsShape(c.hour, 2);
    DigitsShape(c.minute, 2);
  }

  /** Two minutes with the same stamp are the same minute. */
  lemma StampInjective(a: nat, b: nat)
    requires Stamp(a) == Stamp(b)
    ensures a == b
  {
    hide CivilOf, Digits, Stamp;
    StampParts(a);
    StampParts(b);
    var c, d := CivilOf(a), CivilOf(b);
    DigitsInjective(c.year, d.year, 4);
    DigitsInjective(c.month, d.month, 2);
    DigitsInjective(c.day, d.day, 2);
    DigitsInjective(c.hour, d.hour, 2);
    DigitsInjective(c.minute, d.minute, 2);
    CivilRoundTrip(a);
    CivilRoundTrip(b);
  }

  function TaskId(name: string, minute: nat): string { "schedule:" + name + ":" + Stamp(minute) }

  lemma LongerHeadLeavesColon(a: string, b: string, restA: string, restB: string)
    requires |a| < |b| && a + ":" + restA == b + ":" + restB
    ensures ':' in restA
  {
    assert (a + ":" + restA)[|b|] == restA[|b| - |a| - 1] && (b + ":" + restB)[|b|] == ':';
  }

  lemma SplitAtLastColon(a: string, b: string, restA: string, restB: string)
    requires ':' !in restA && ':' !in restB
    requires a + ":" + restA == b + ":" + restB
    ensures a == b && restA == restB
  {
    if |a| < |b| { LongerHeadLeavesColon(a, b, restA, restB); }
    if |b| < |a| { LongerHeadLeavesColon(b, a, restB, restA); }
    var left, right := a + ":" + restA, b + ":" + restB;
    assert a == left[..|a|] && b == right[..|b|];
    assert restA == left[|a| + 1..] && restB == right[|b| + 1..];
  }

  /** Task IDs are injective in schedule name and minute, also when names contain colons. */
  lemma TaskIdInjective(name1: string, minute1: nat, name2: string, minute2: nat)
    requires TaskId(name1, minute1) == TaskId(name2, minute2)
    ensures name1 == name2 && minute1 == minute2
  {
    hide Stamp;
    StampParts(minute1);
    StampParts(minute2);
    SplitAtLastColon("schedule:" + name1, "schedule:" + name2, Stamp(minute1), Stamp(minute2));
    assert name1 == ("schedule:" + name1)[9..] && name2 == ("schedule:" + name2)[9..];
    StampInjective(minute1, minute2);
  }
}
