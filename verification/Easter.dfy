/** The Easter computus behind the list of Czech public holidays. */
module Easter {
  import opened Calendar
  import opened DivMod

  /** Date.UTC reads the years 0 to 99 as 1900 to 1999. */
  function UtcYear(year: nat): nat { if year <= 99 then 1900 + year else year }

  datatype Terms = Terms(a: int, b: int, c: int, d: int, e: int, f: int, g: int, h: int, i: int, k: int, l: int, m: int)

  function Computus(year: nat): Terms {
    var a := year % 19;
    var b := year / 100;
    var c := year % 100;
    var d := b / 4;
    var e := b % 4;
    var f := (b + 8) / 25;
    var g := (b - f + 1) / 3;
    var h := (19 * a + b - d - g + 15) % 30;
    var i := c / 4;
    var k := c % 4;
    var l := (32 + 2 * e + 2 * i - h - k) % 7;
    var m := (a + 11 * h + 22 * l) / 451;
    Terms(a, b, c, d, e, f, g, h, i, k, l, m)
  }

  function EasterSunday(year: nat): Date {
    var t := Computus(year);
    var n := t.h + t.l - 7 * t.m + 114;
    Date(UtcYear(year), n / 31, n % 31 + 1)
  }

  // ---- The rule the formula implements ----

  /** Days from 21 March to the paschal full moon before the two exceptions. */
  function MoonAge(year: nat): int {
    var b := year / 100;
    (19 * (year % 19) + b - b / 4 - (8 * b + 13) / 25 + 15) % 30
  }

  /** 21 March plus the moon's age; one day earlier at 29, and at 28 in the second half of the 19-year cycle. */
  function PaschalFullMoon(year: nat): int {
    var h := MoonAge(year);
    DayNumber(Date(year, 3, 21)) + h - if h == 29 || (h == 28 && year % 19 >= 11) then 1 else 0
  }

  /** d is the first Sunday strictly after the paschal full moon of the year. */
  predicate IsEaster(year: nat, d: Date) {
    && Valid(d)
    && d.year == year
    && Weekday(EpochDay(d)) == 0
    && PaschalFullMoon(year) < DayNumber(d) <= PaschalFullMoon(year) + 7
  }

  lemma EasterUnique(year: nat, d: Date, e: Date)
    requires IsEaster(year, d) && IsEaster(year, e)
    ensures d == e
  {
    OneSundayAWeek(PaschalFullMoon(year), DayNumber(d), DayNumber(e), DayNumber(Date(1970, 1, 1)));
    DayNumberInjective(d, e);
  }

  lemma OneSundayAWeek(p: int, x: int, y: int, epoch: int)
    requires p < x <= p + 7 && p < y <= p + 7
    requires Weekday(x - epoch) == 0 && Weekday(y - epoch) == 0
    ensures x == y
  {
  }

  /** The lunar correction written with two divisions equals the single division of the rule. */
  lemma LunarCorrection(b: nat)
    ensures (b - (b + 8) / 25 + 1) / 3 == (8 * b + 13) / 25
  {
    var q, r := b / 25, b % 25;
    assert b == 25 * q + r;
    var s := if r < 17 then 0 else 1;
    assert (b + 8) / 25 == q + s;
    assert (8 * b + 13) / 25 == 8 * q + (8 * r + 13) / 25;
    assert (24 * q + r - s + 1) / 3 == 8 * q + (r - s + 1) / 3;
    assert (r - s + 1) / 3 == (8 * r + 13) / 25;
  }

  /** The correction term m is 1 in exactly the two exceptional cases that fall on a Saturday full moon. */
  lemma CorrectionTerm(a: int, h: int, l: int)
    requires 0 <= a < 19 && 0 <= h < 30 && 0 <= l < 7
    ensures (a + 11 * h + 22 * l) / 451 == if l == 6 && (h == 29 || (h == 28 && a >= 11)) then 1 else 0
  {
  }

  /** Leap days up to and including the given year, by centuries. */
  lemma LeapDaysThrough(year: nat)
    ensures var t := Computus(year);
      (year + 3) / 4 - (year + 99) / 100 + (year + 399) / 400 + (if IsLeap(year) then 1 else 0)
      == 24 * t.b + t.i + t.d + 1
  {
    var t := Computus(year);
    CeilBy4(year);
    CeilBy100(year);
    CeilBy400(year);
    LeapNesting(year);
    YearParts(year);
    assert year / 4 == 25 * t.b + t.i;
  }

  lemma YearParts(year: nat)
    ensures var t := Computus(year);
      && year == 100 * t.b + t.c && t.b == 4 * t.d + t.e && t.c == 4 * t.i + t.k
      && year / 400 == t.d && year / 4 == 25 * t.b + t.i
  {
    var t := Computus(year);
    assert year == 400 * t.d + (100 * t.e + t.c) && 0 <= 100 * t.e + t.c < 400;
    assert year == 4 * (25 * t.b + t.i) + t.k;
  }

  lemma March22Number(year: nat)
    ensures var t := Computus(year); DayNumber(Date(year, 3, 22)) == 365 * year + 24 * t.b + t.i + t.d + 81
  {
    DaysBeforeYearClosed(year);
    DaysBeforeSpring(year);
    LeapDaysThrough(year);
  }

  /** 22 March, seven-day weeks apart, as a combination of the century and year-of-century terms. */
  lemma March22Residue(year: nat) returns (weeks: int)
    ensures var t := Computus(year);
      DayNumber(Date(year, 3, 22)) == 7 * weeks + 4 + 5 * t.e + 5 * t.i + t.k
  {
    var t := Computus(year);
    March22Number(year);
    YearParts(year);
    weeks := 20871 * t.d + 5217 * t.e + 208 * t.i + 52 * t.k + 11;
  }

  lemma TermRanges(year: nat)
    ensures var t := Computus(year);
      0 <= t.a < 19 && 0 <= t.h < 30 && 0 <= t.l < 7 && t.h == MoonAge(year)
  {
    LunarCorrection(year / 100);
  }

  lemma SundayArithmetic(n: int, weeks: int, e: int, i: int, k: int, h: int, l: int)
    requires n == 7 * weeks + 4 + 5 * e + 5 * i + k
    requires l == (32 + 2 * e + 2 * i - h - k) % 7
    ensures Weekday(n + h + l - 719528) == 0
  {
    var q := (32 + 2 * e + 2 * i - h - k) / 7;
    assert n + h + l - 719528 + 4 == 7 * (weeks + e + i - q - 102784);
  }

  /** l days after 22 March + h comes a Sunday. */
  lemma SundayAfterMoon(year: nat)
    ensures var t := Computus(year);
      Weekday(DayNumber(Date(year, 3, 22)) + t.h + t.l - 719528) == 0
  {
    var t := Computus(year);
    var weeks := March22Residue(year);
    SundayArithmetic(DayNumber(Date(year, 3, 22)), weeks, t.e, t.i, t.k, t.h, t.l);
  }

  /** The formula's month and day number the day h + l - 7m after 22 March. */
  lemma SpringDate(year: nat, n: int)
    requires 0 <= n <= 34
    ensures var d := Date(year, (n + 114) / 31, (n + 114) % 31 + 1);
      Valid(d) && DayNumber(d) == DayNumber(Date(year, 3, 22)) + n
  {
    DaysBeforeSpring(year);
    if n <= 9 {
      assert n + 114 == 31 * 3 + (n + 21);
    } else {
      assert n + 114 == 31 * 4 + (n - 10);
    }
  }

  lemma WeekEarlier(s: int, m: int)
    ensures Weekday(s - 7 * m) == Weekday(s)
  {
  }

  /** A date n = h + l - 7m days after 22 March is Easter when l leads to a Sunday and m is the correction. */
  lemma EasterFromTerms(year: nat, h: int, l: int, m: int)
    requires h == MoonAge(year) && 0 <= l < 7
    requires m == if l == 6 && (h == 29 || (h == 28 && year % 19 >= 11)) then 1 else 0
    requires Weekday(DayNumber(Date(year, 3, 22)) + h + l - 719528) == 0
    ensures var n := h + l - 7 * m + 114;
      var d := Date(year, n / 31, n % 31 + 1);
      && IsEaster(year, d)
      && DayNumber(Date(year, 3, 22)) <= DayNumber(d) <= DayNumber(Date(year, 4, 25))
  {
    var n := h + l - 7 * m;
    SpringDate(year, n);
    SpringDate(year, 34);
    EpochIs719528();
    var march22 := DayNumber(Date(year, 3, 22));
    assert DayNumber(Date(year, 3, 21)) == march22 - 1;
    WeekEarlier(march22 + h + l - 719528, m);
  }

  /** What the formula's last terms are, for every year. */
  lemma ComputusTerms(year: nat) returns (h: int, l: int, m: int)
    ensures h == MoonAge(year) && 0 <= h < 30 && 0 <= l < 7
    ensures m == if l == 6 && (h == 29 || (h == 28 && year % 19 >= 11)) then 1 else 0
    ensures Weekday(DayNumber(Date(year, 3, 22)) + h + l - 719528) == 0
    ensures var n := h + l - 7 * m + 114; EasterSunday(year) == Date(UtcYear(year), n / 31, n % 31 + 1)
  {
    var t := Computus(year);
    TermRanges(year);
    CorrectionTerm(t.a, t.h, t.l);
    SundayAfterMoon(year);
    return t.h, t.l, t.m;
  }

  /** For every year the month and day computed are those of Easter Sunday of that year, between 22 March and
      25 April. */
  lemma ComputusIsEaster(year: nat)
    ensures var d := EasterSunday(year).(year := year);
      && IsEaster(year, d)
      && DayNumber(Date(year, 3, 22)) <= DayNumber(d) <= DayNumber(Date(year, 4, 25))
      && (d.month == 3 || d.month == 4)
  {
    var h, l, m := ComputusTerms(year);
    EasterFromTerms(year, h, l, m);
    SpringMonth(h, l, m);
  }

  lemma SpringMonth(h: int, l: int, m: int)
    requires 0 <= h < 30 && 0 <= l < 7 && 0 <= m <= 1 && (m == 1 ==> h >= 28 && l == 6)
    requires m == 0 ==> h + l <= 34
    ensures (h + l - 7 * m + 114) / 31 == 3 || (h + l - 7 * m + 114) / 31 == 4
  {
  }

  /** The code promises Easter Sunday for a year and delivers it exactly from year 100 on: for 0 to 99 the month and day
      are right, but the Date carries the year 1900 later. */
  lemma EasterExactlyFrom100(year: nat)
    ensures IsEaster(year, EasterSunday(year)) <==> year >= 100
    ensures EasterSunday(year).year == if year < 100 then year + 1900 else year
  {
    ComputusIsEaster(year);
  }

  /** The epact of a year, the age of the moon at its start, as Clavius counts it: by golden number, solar correction
      and lunar correction. */
  function Epact(year: nat): int {
    var golden, century := year % 19 + 1, year / 100 + 1;
    (11 * golden + 20 + ((8 * century + 5) / 25 - 5) - (3 * century / 4 - 12)) % 30
  }

  lemma SolarCorrection(b: nat)
    ensures 3 * (b + 1) / 4 == b - b / 4
  {
  }

  /** The full moon of the rule is the one of the epact: 21 March and as many days as 23 exceeds it, counted in a
      month of 30. */
  lemma MoonFromEpact(year: nat)
    ensures MoonAge(year) == (23 - Epact(year)) % 30
  {
    var a, b := year % 19, year / 100;
    SolarCorrection(b);
    var z := (8 * (b + 1) + 5) / 25;
    assert z == (8 * b + 13) / 25;
    var sum := 11 * (a + 1) + 20 + (z - 5) - (b - b / 4 - 12);
    assert Epact(year) == sum % 30;
    var age := 19 * a + b - b / 4 - z + 15;
    assert age == 30 * (a + 1) + (23 - sum);
    ModShift(23 - sum, 30, a + 1);
    assert 23 - sum % 30 == 30 * (sum / 30) + (23 - sum);
    ModShift(23 - sum, 30, sum / 30);
  }

  /** The earliest and the latest date there are, and both exceptions of the moon. */
  lemma KnownEasters()
    ensures EasterSunday(1818) == Date(1818, 3, 22)
    ensures EasterSunday(2038) == Date(2038, 4, 25)
    ensures EasterSunday(1981) == Date(1981, 4, 19)
    ensures EasterSunday(1954) == Date(1954, 4, 18)
  {
    Earliest();
    Latest();
    FirstException();
    SecondException();
  }

  lemma Earliest()
    ensures EasterSunday(1818) == Date(1818, 3, 22)
  {
    assert Computus(1818) == Terms(13, 18, 18, 4, 2, 1, 6, 0, 4, 2, 0, 0);
  }

  lemma Latest()
    ensures EasterSunday(2038) == Date(2038, 4, 25)
  {
    assert Computus(2038) == Terms(5, 20, 38, 5, 0, 1, 6, 29, 9, 2, 5, 0);
  }

  lemma FirstException()
    ensures EasterSunday(1981) == Date(1981, 4, 19)
  {
    assert Computus(1981) == Terms(5, 19, 81, 4, 3, 1, 6, 29, 20, 1, 6, 1);
  }

  lemma SecondException()
    ensures EasterSunday(1954) == Date(1954, 4, 18)
  {
    assert (19 * 16 + 19 - 4 - 6 + 15) % 30 == 28 && (32 + 2 * 3 + 2 * 13 - 28 - 2) % 7 == 6;
    assert Computus(1954) == Terms(16, 19, 54, 4, 3, 1, 6, 28, 13, 2, 6, 1);
  }
}
