/** The proleptic Gregorian calendar, counted year by year and month by month. */
module Calendar {
  import opened DivMod

  datatype Date = Date(year: nat, month: int, day: int)

  predicate IsLeap(y: int) { y % 4 == 0 && (y % 100 != 0 || y % 400 == 0) }

  function DaysInYear(y: int): nat { if IsLeap(y) then 366 else 365 }

  function DaysInMonth(y: int, m: int): nat {
    if m == 2 then (if IsLeap(y) then 29 else 28)
    else if m == 4 || m == 6 || m == 9 || m == 11 then 30
    else 31
  }

  function DaysBeforeYear(y: nat): nat {
    if y == 0 then 0 else DaysBeforeYear(y - 1) + DaysInYear(y - 1)
  }

  function DaysBeforeMonth(y: int, m: int): nat {
    if m <= 1 then 0 else DaysBeforeMonth(y, m - 1) + DaysInMonth(y, m - 1)
  }

  predicate Valid(d: Date) { 1 <= d.month <= 12 && 1 <= d.day <= DaysInMonth(d.year, d.month) }

  /** Days since 1 January of year 0. */
  function DayNumber(d: Date): int { DaysBeforeYear(d.year) + DaysBeforeMonth(d.year, d.month) + d.day - 1 }

  /** Days since 1 January 1970. */
  function EpochDay(d: Date): int { DayNumber(d) - DayNumber(Date(1970, 1, 1)) }

  /** 0 is Sunday; 1 January 1970 was a Thursday. */
  function Weekday(epochDay: int): int { (epochDay + 4) % 7 }

  lemma CeilBy4(y: nat)
    ensures (y + 3) / 4 == y / 4 + (if y % 4 == 0 then 0 else 1)
    ensures (y + 4) / 4 == y / 4 + 1
  {
  }

  lemma CeilBy100(y: nat)
    ensures (y + 99) / 100 == y / 100 + (if y % 100 == 0 then 0 else 1)
    ensures (y + 100) / 100 == y / 100 + 1
  {
  }

  lemma CeilBy400(y: nat)
    ensures (y + 399) / 400 == y / 400 + (if y % 400 == 0 then 0 else 1)
    ensures (y + 400) / 400 == y / 400 + 1
  {
  }

  lemma LeapNesting(y: nat)
    ensures y % 400 == 0 ==> y % 100 == 0
    ensures y % 100 == 0 ==> y % 4 == 0
  {
    ModOfMod(y, 400, 100);
    ModOfMod(y, 100, 4);
  }

  lemma {:induction false} DaysBeforeYearClosed(y: nat)
    ensures DaysBeforeYear(y) == 365 * y + (y + 3) / 4 - (y + 99) / 100 + (y + 399) / 400
  {
    if y > 0 {
      DaysBeforeYearClosed(y - 1);
      CeilBy4(y - 1);
      CeilBy100(y - 1);
      CeilBy400(y - 1);
      LeapNesting(y - 1);
    }
  }

  lemma EpochIs719528()
    ensures DayNumber(Date(1970, 1, 1)) == 719528
  {
    DaysBeforeYearClosed(1970);
  }

  lemma DaysBeforeSpring(y: int)
    ensures DaysBeforeMonth(y, 3) == if IsLeap(y) then 60 else 59
    ensures DaysBeforeMonth(y, 4) == DaysBeforeMonth(y, 3) + 31
  {
    assert DaysBeforeMonth(y, 2) == 31;
  }

  lemma {:induction false} LaterYear(y: nat, y': nat)
    requires y < y'
    ensures DaysBeforeYear(y) + DaysInYear(y) <= DaysBeforeYear(y')
  {
    if y + 1 < y' { LaterYear(y, y' - 1); }
  }

  lemma {:induction false} LaterMonth(y: int, m: int, m': int)
    requires 1 <= m < m'
    ensures DaysBeforeMonth(y, m) + DaysInMonth(y, m) <= DaysBeforeMonth(y, m')
    decreases m'
  {
    if m + 1 < m' { LaterMonth(y, m, m' - 1); }
  }

  lemma WithinYear(d: Date)
    requires Valid(d)
    ensures DaysBeforeYear(d.year) <= DayNumber(d) < DaysBeforeYear(d.year) + DaysInYear(d.year)
  {
    if d.month < 12 { LaterMonth(d.year, d.month, 12); }
    LastOfYear(d.year);
  }

  /** A day number names one valid date. */
  lemma DayNumberInjective(d: Date, e: Date)
    requires Valid(d) && Valid(e) && DayNumber(d) == DayNumber(e)
    ensures d == e
  {
    WithinYear(d);
    WithinYear(e);
    if d.year < e.year { LaterYear(d.year, e.year); }
    if e.year < d.year { LaterYear(e.year, d.year); }
    if d.month < e.month { LaterMonth(d.year, d.month, e.month); }
    if e.month < d.month { LaterMonth(d.year, e.month, d.month); }
  }

  function NextDay(d: Date): Date {
    if d.day < DaysInMonth(d.year, d.month) then d.(day := d.day + 1)
    else if d.month < 12 then Date(d.year, d.month + 1, 1)
    else Date(d.year + 1, 1, 1)
  }

  /** The day before a date that is not 1 January. */
  function PreviousDay(d: Date): Date {
    if d.day > 1 then d.(day := d.day - 1) else Date(d.year, d.month - 1, DaysInMonth(d.year, d.month - 1))
  }

  lemma NextDayNumber(d: Date)
    requires Valid(d)
    ensures Valid(NextDay(d)) && DayNumber(NextDay(d)) == DayNumber(d) + 1
  {
    if d.month == 12 && d.day == 31 { LastOfYear(d.year); }
  }

  lemma LastOfYear(y: nat)
    ensures DaysBeforeMonth(y, 12) + 31 == DaysInYear(y)
  {
    assert DaysBeforeMonth(y, 12) == DaysBeforeMonth(y, 11) + 30;
    assert DaysBeforeMonth(y, 11) == DaysBeforeMonth(y, 10) + 31;
    assert DaysBeforeMonth(y, 10) == DaysBeforeMonth(y, 9) + 30;
    assert DaysBeforeMonth(y, 9) == DaysBeforeMonth(y, 8) + 31;
    assert DaysBeforeMonth(y, 8) == DaysBeforeMonth(y, 7) + 31;
    assert DaysBeforeMonth(y, 7) == DaysBeforeMonth(y, 6) + 30;
    assert DaysBeforeMonth(y, 6) == DaysBeforeMonth(y, 5) + 31;
    assert DaysBeforeMonth(y, 5) == DaysBeforeMonth(y, 4) + 30;
    DaysBeforeSpring(y);
  }

  lemma PreviousDayNumber(d: Date)
    requires Valid(d) && (d.month > 1 || d.day > 1)
    ensures Valid(PreviousDay(d)) && DayNumber(PreviousDay(d)) == DayNumber(d) - 1
  {
  }

  /** The order of dates within a year. */
  function MonthDayKey(d: Date): int { d.month * 100 + d.day }

  lemma KeyOrdersDays(d: Date, e: Date)
    requires Valid(d) && Valid(e) && d.year == e.year
    ensures MonthDayKey(d) < MonthDayKey(e) <==> DayNumber(d) < DayNumber(e)
  {
    if d.month < e.month { LaterMonth(d.year, d.month, e.month); }
    if e.month < d.month { LaterMonth(d.year, e.month, d.month); }
  }
}
