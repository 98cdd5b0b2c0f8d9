/**
 * The proleptic Gregorian calendar and ISO weeks (ISO 8601:2004 section 4.1.4)
 * behind time.Date, AddDate and ISOWeek, in a zone with a fixed offset. Days
 * are counted from Monday, 1 January of year 1.
 */
module Calendar {

  predicate Leap(y: int) { y % 4 == 0 && (y % 100 != 0 || y % 400 == 0) }

  function LeapDay(y: int): nat { if Leap(y) then 1 else 0 }

  /** The day number of 1 January of year y. */
  function DaysBeforeYear(y: int): int {
    365 * (y - 1) + (y - 1) / 4 - (y - 1) / 100 + (y - 1) / 400
  }

  lemma YearLength(y: int)
    ensures DaysBeforeYear(y + 1) == DaysBeforeYear(y) + 365 + LeapDay(y)
  {
    LeapDayBits(y);
    NextMultiple(y - 1, 4);
    NextMultiple(y - 1, 100);
    NextMultiple(y - 1, 400);
  }

  function Bit(n: int, k: int): int
    requires k > 0
  {
    if n % k == 0 then 1 else 0
  }

  lemma NextMultiple(n: int, k: int)
    requires k == 4 || k == 100 || k == 400
    ensures (n + 1) / k == n / k + Bit(n + 1, k)
  {
  }

  lemma LeapDayBits(y: int)
    ensures LeapDay(y) == Bit(y, 4) - Bit(y, 100) + Bit(y, 400)
  {
    if y % 400 == 0 {
      Multiples(y, 100, 4);
    }
    if y % 100 == 0 {
      Multiples(y, 4, 25);
    }
  }

  lemma Multiples(y: int, k: int, times: int)
    requires (k == 100 && times == 4 && y % 400 == 0) || (k == 4 && times == 25 && y % 100 == 0)
    ensures y % k == 0
  {
    if k == 100 {
      assert y == 100 * (4 * (y / 400));
    } else {
      assert y == 4 * (25 * (y / 100));
    }
  }

  lemma {:induction false} YearsGrow(y: int, z: int)
    requires y <= z
    ensures DaysBeforeYear(y) + 365 * (z - y) <= DaysBeforeYear(z)
    decreases z - y
  {
    hide DaysBeforeYear;
    if y < z {
      YearLength(y);
      YearsGrow(y + 1, z);
    }
  }

  /** The year day d falls in: a division by the mean length, off by at most one either way. */
  function YearOf(d: int): (y: int)
    ensures DaysBeforeYear(y) <= d < DaysBeforeYear(y + 1)
  {
    var guess := 400 * d / 146097 + 1;
    YearBounds(guess - 1);
    YearBounds(guess + 2);
    if d < DaysBeforeYear(guess) then guess - 1
    else if d >= DaysBeforeYear(guess + 1) then guess + 1
    else guess
  }

  lemma YearBounds(y: int)
    ensures 146097 * (y - 1) - 699 <= 400 * DaysBeforeYear(y) <= 146097 * (y - 1) + 396
  {
  }

  lemma YearUnique(d: int, y: int)
    requires DaysBeforeYear(y) <= d < DaysBeforeYear(y + 1)
    ensures YearOf(d) == y
  {
    hide DaysBeforeYear;
    if YearOf(d) < y {
      YearsGrow(YearOf(d) + 1, y);
    } else if y < YearOf(d) {
      YearsGrow(y + 1, YearOf(d));
    }
  }

  /** Months are numbered 12 * year + month, January being 0. */
  function DaysBeforeMonth(mi: int): int {
    DaysBeforeYear(mi / 12) + MonthStart(mi % 12, LeapDay(mi / 12))
  }

  /** Days of the year before the month, in a year with `leap` leap days. */
  function MonthStart(month: int, leap: nat): nat {
    (if month >= 2 then leap else 0) + (
      if month <= 0 then 0 else if month == 1 then 31 else if month == 2 then 59 else if month == 3 then 90
      else if month == 4 then 120 else if month == 5 then 151 else if month == 6 then 181
      else if month == 7 then 212 else if month == 8 then 243 else if month == 9 then 273
      else if month == 10 then 304 else if month == 11 then 334 else 365)
  }

  /** The month of the year that day `yearDay` of it (from 0) falls in. */
  function MonthInYear(yearDay: int, leap: nat): (m: int)
    requires 0 <= yearDay < 365 + leap && leap <= 1
    ensures 0 <= m < 12 && MonthStart(m, leap) <= yearDay < MonthStart(m + 1, leap)
  {
    if yearDay < 31 then 0 else if yearDay < 59 + leap then 1 else if yearDay < 90 + leap then 2
    else if yearDay < 120 + leap then 3 else if yearDay < 151 + leap then 4 else if yearDay < 181 + leap then 5
    else if yearDay < 212 + leap then 6 else if yearDay < 243 + leap then 7 else if yearDay < 273 + leap then 8
    else if yearDay < 304 + leap then 9 else if yearDay < 334 + leap then 10 else 11
  }

  /** The month day d falls in: see MonthHolds. */
  function MonthOf(d: int): int {
    var y := YearOf(d);
    YearLength(y);
    12 * y + MonthInYear(d - DaysBeforeYear(y), LeapDay(y))
  }

  lemma MonthHolds(d: int)
    ensures DaysBeforeMonth(MonthOf(d)) <= d < DaysBeforeMonth(MonthOf(d) + 1)
  {
    hide DaysBeforeMonth, DaysBeforeYear;
    var y := YearOf(d);
    YearLength(y);
    StartOfMonths(y, MonthInYear(d - DaysBeforeYear(y), LeapDay(y)));
  }

  lemma StartOfMonths(y: int, m: int)
    requires 0 <= m < 12
    ensures DaysBeforeMonth(12 * y + m) == DaysBeforeYear(y) + MonthStart(m, LeapDay(y))
    ensures DaysBeforeMonth(12 * y + m + 1) == DaysBeforeYear(y) + MonthStart(m + 1, LeapDay(y))
  {
    hide DaysBeforeYear;
    MonthSplit(y, m);
    NextMonth(12 * y + m);
  }

  lemma MonthSplit(y: int, m: int)
    requires 0 <= m < 12
    ensures (12 * y + m) / 12 == y && (12 * y + m) % 12 == m
  {
  }

  lemma NextMonth(mi: int)
    ensures DaysBeforeMonth(mi + 1) == DaysBeforeYear(mi / 12) + MonthStart(mi % 12 + 1, LeapDay(mi / 12))
    ensures DaysBeforeMonth(mi) + 28 <= DaysBeforeMonth(mi + 1) <= DaysBeforeMonth(mi) + 31
  {
    hide DaysBeforeYear;
    YearLength(mi / 12);
    if mi % 12 == 11 {
      assert (mi + 1) / 12 == mi / 12 + 1 && (mi + 1) % 12 == 0;
    } else {
      assert (mi + 1) / 12 == mi / 12 && (mi + 1) % 12 == mi % 12 + 1;
    }
  }

  lemma {:induction false} MonthsGrow(a: int, b: int)
    requires a <= b
    ensures DaysBeforeMonth(a) + 28 * (b - a) <= DaysBeforeMonth(b)
    decreases b - a
  {
    hide DaysBeforeMonth;
    if a < b {
      NextMonth(a);
      MonthsGrow(a + 1, b);
    }
  }

  lemma MonthUnique(d: int, mi: int)
    requires DaysBeforeMonth(mi) <= d < DaysBeforeMonth(mi + 1)
    ensures MonthOf(d) == mi
  {
    hide DaysBeforeMonth;
    MonthHolds(d);
    MonthsOverlap(d, mi, MonthOf(d));
    MonthsOverlap(d, MonthOf(d), mi);
  }

  lemma MonthsOverlap(d: int, a: int, b: int)
    requires DaysBeforeMonth(a) <= d < DaysBeforeMonth(b + 1)
    ensures a <= b
  {
    hide DaysBeforeMonth;
    if b < a {
      MonthsGrow(b + 1, a);
    }
  }

  /** time.Weekday: Sunday is 0. */
  function Weekday(d: int): int { (d + 1) % 7 }

  datatype Week = Week(year: int, week: int)

  /** The Thursday of the Monday-to-Sunday week of day d. */
  function Thursday(d: int): int { d - d % 7 + 3 }

  /** ISOWeek: a week belongs to the year that holds its Thursday. */
  function ISOWeek(d: int): (w: Week)
    ensures 1 <= w.week <= 53
  {
    var year := YearOf(Thursday(d));
    YearLength(year);
    Week(year, (Thursday(d) - DaysBeforeYear(year)) / 7 + 1)
  }

  predicate WeekBefore(a: Week, b: Week) {
    a.year < b.year || (a.year == b.year && a.week < b.week)
  }

  /** Days of different weeks have different ISO weeks, in the order of the days, across year ends too. */
  lemma WeeksInOrder(a: int, b: int)
    requires a / 7 < b / 7
    ensures WeekBefore(ISOWeek(a), ISOWeek(b))
  {
    hide DaysBeforeYear;
    var s, t := Thursday(a), Thursday(b);
    assert s + 7 <= t;
    if YearOf(t) < YearOf(s) {
      YearsGrow(YearOf(t) + 1, YearOf(s));
    }
  }

  /** Days of one week share its ISO week. */
  lemma WeekShared(a: int, b: int)
    requires a / 7 == b / 7
    ensures ISOWeek(a) == ISOWeek(b)
  {
    assert Thursday(a) == Thursday(b);
  }

  /**
   * Week 1 is the week with 4 January in it, and the last week the one with 28
   * December: the standard's own description of the numbering.
   */
  lemma FirstAndLastWeek(y: int)
    ensures ISOWeek(DaysBeforeYear(y) + 3) == Week(y, 1)
    ensures ISOWeek(DaysBeforeYear(y + 1) - 4).year == y
    ensures ISOWeek(DaysBeforeYear(y + 1) + 3) == Week(y + 1, 1)
  {
    hide DaysBeforeYear;
    YearLength(y);
    YearLength(y + 1);
    YearUnique(Thursday(DaysBeforeYear(y) + 3), y);
    YearUnique(Thursday(DaysBeforeYear(y + 1) - 4), y);
    YearUnique(Thursday(DaysBeforeYear(y + 1) + 3), y + 1);
  }

  /** The count of days agrees with dates the calendar's readers know: the Unix epoch, two leap rules, a weekday of each. */
  lemma KnownDates()
    ensures DaysBeforeYear(1970) == 719162 && Weekday(719162) == 4
    ensures DaysBeforeYear(2000) == 730119 && Weekday(730119) == 6
    ensures MonthOf(730119 + 59) == 12 * 2000 + 1 && MonthOf(730119 + 60) == 12 * 2000 + 2
    ensures DaysBeforeYear(1901) - DaysBeforeYear(1900) == 365 && DaysBeforeYear(2001) - DaysBeforeYear(2000) == 366
  {
    assert DaysBeforeMonth(24001) == 730119 + 31 && DaysBeforeMonth(24002) == 730119 + 60 && DaysBeforeMonth(24003) == 730119 + 91;
    hide DaysBeforeMonth, MonthOf;
    MonthUnique(730119 + 59, 24001);
    MonthUnique(730119 + 60, 24002);
  }
}
