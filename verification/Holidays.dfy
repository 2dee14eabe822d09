/** The list of Czech public holidays of a year: eleven fixed days, Good Friday and Easter Monday, sorted by the text of
    their dates. */
module Holidays {
  import opened Common
  import opened Calendar
  import opened Easter

  datatype FixedDay = FixedDay(month: int, day: int, name: string)

  const FIXED := [
    FixedDay(1, 1, "New Year"),
    FixedDay(5, 1, "Labour Day"),
    FixedDay(5, 8, "Victory Day"),
    FixedDay(7, 5, "Cyril and Methodius"),
    FixedDay(7, 6, "Jan Hus"),
    FixedDay(9, 28, "Statehood Day"),
    FixedDay(10, 28, "Independence Day"),
    FixedDay(11, 17, "Freedom and Democracy"),
    FixedDay(12, 24, "Christmas Eve"),
    FixedDay(12, 25, "Christmas Day"),
    FixedDay(12, 26, "Saint Stephen")]

  // ---- Dates as text ----

  function Digit(n: int): char
    requires 0 <= n <= 9
  {
    ('0' as int + n) as char
  }

  function Decimal(n: nat): (s: string)
    ensures s != "" && s[0] >= '0' && (n > 0 ==> s[0] >= '1')
  {
    if n < 10 then [Digit(n)] else Decimal(n / 10) + [Digit(n % 10)]
  }

  function Padded(n: nat, width: nat): (s: string)
    ensures |s| == width
  {
    if width == 0 then "" else Padded(n / 10, width - 1) + [Digit(n % 10)]
  }

  /** The year as toISOString writes it: four digits, or a sign and six. */
  function IsoYear(year: nat): (s: string)
    ensures |s| == if year <= 9999 then 4 else 7
  { 
    if year <= 9999 then Padded(year, 4) else "+" + Padded(year, 6)
  }

  function MonthDay(d: Date): (s: string)
    requires d.month >= 0 && d.day >= 0
    ensures |s| == 6
  {
    "-" + Padded(d.month, 2) + "-" + Padded(d.day, 2)
  }

  /** A holiday; the text of a fixed day has the year as it is, that of a movable one is the first ten characters of
      toISOString, which a longer year fills up before the day. */
  datatype Entry = Fixed(date: Date, name: string) | Movable(date: Date, name: string)
  {
    function Text(): string
      requires date.month >= 0 && date.day >= 0
    {
      if Fixed? then Decimal(date.year) + MonthDay(date) else (IsoYear(date.year) + MonthDay(date))[..10]
    }
  }

  type Holiday = e: Entry | 1 <= e.date.month <= 12 && 1 <= e.date.day <= 31 witness Fixed(Date(0, 1, 1), "")

  /** The order of texts, character by character: hyphen and plus before digits, and digits by value. */
  predicate Less(a: string, b: string) {
    b != "" && (a == "" || a[0] < b[0] || (a[0] == b[0] && Less(a[1..], b[1..])))
  }

  lemma {:induction false} LessTransitive(a: string, b: string, c: string)
    requires Less(a, b) && Less(b, c)
    ensures Less(a, c)
  {
    if a != "" && a[0] == b[0] == c[0] { LessTransitive(a[1..], b[1..], c[1..]); }
  }

  lemma {:induction false} LessPrefix(p: string, a: string, b: string)
    ensures Less(p + a, p + b) <==> Less(a, b)
  {
    if p == "" {
      assert p + a == a && p + b == b;
    } else {
      LessPrefix(p[1..], a, b);
      assert (p + a)[1..] == p[1..] + a && (p + b)[1..] == p[1..] + b;
    }
  }

  /** The first difference decides. */
  lemma {:induction false} LessAt(a: string, b: string, k: nat)
    requires k < |a| && k < |b| && a[..k] == b[..k] && a[k] < b[k]
    ensures Less(a, b)
  {
    if k > 0 {
      assert a[0] == a[..k][0] == b[..k][0] == b[0];
      assert a[1..][..k - 1] == a[..k][1..] && b[1..][..k - 1] == b[..k][1..];
      LessAt(a[1..], b[1..], k - 1);
    }
  }

  lemma LessCons(x: char, a: string, y: char, b: string)
    ensures Less([x] + a, [y] + b) <==> x < y || (x == y && Less(a, b))
  {
    assert ([x] + a)[1..] == a && ([y] + b)[1..] == b;
  }

  lemma PaddedTwo(n: nat)
    requires n <= 99
    ensures Padded(n, 2) == [Digit(n / 10), Digit(n % 10)]
  {
    var tens := n / 10;
    assert tens % 10 == tens;
    assert Padded(tens / 10, 0) == "";
    assert Padded(tens, 1) == [Digit(tens)];
  }

  /** Two-digit numbers compare as text as they do as numbers. */
  lemma PaddedTwoLess(m: nat, n: nat, a: string, b: string)
    requires m <= 99 && n <= 99
    ensures Less(Padded(m, 2) + a, Padded(n, 2) + b) <==> m < n || (m == n && Less(a, b))
  {
    PaddedTwo(m);
    PaddedTwo(n);
    LessCons(Digit(m % 10), a, Digit(n % 10), b);
    LessCons(Digit(m / 10), [Digit(m % 10)] + a, Digit(n / 10), [Digit(n % 10)] + b);
    assert Padded(m, 2) + a == [Digit(m / 10)] + ([Digit(m % 10)] + a);
    assert Padded(n, 2) + b == [Digit(n / 10)] + ([Digit(n % 10)] + b);
  }

  lemma MonthDayLess(d: Date, e: Date)
    requires 0 <= d.month <= 99 && 0 <= d.day <= 99 && 0 <= e.month <= 99 && 0 <= e.day <= 99
    ensures Less(MonthDay(d), MonthDay(e)) <==> MonthDayKey(d) < MonthDayKey(e)
  {
    var a, b := "-" + Padded(d.day, 2), "-" + Padded(e.day, 2);
    LessPrefix("-", Padded(d.day, 2), Padded(e.day, 2));
    PaddedTwoLess(d.day, e.day, "", "");
    assert Padded(d.day, 2) + "" == Padded(d.day, 2) && Padded(e.day, 2) + "" == Padded(e.day, 2);
    PaddedTwoLess(d.month, e.month, a, b);
    LessPrefix("-", Padded(d.month, 2) + a, Padded(e.month, 2) + b);
    assert MonthDay(d) == "-" + (Padded(d.month, 2) + a) && MonthDay(e) == "-" + (Padded(e.month, 2) + b);
  }

  // ---- The list ----

  function FixedEntry(year: nat, i: nat): Holiday
    requires i < |FIXED|
  {
    Fixed(Date(year, FIXED[i].month, FIXED[i].day), FIXED[i].name)
  }

  function FixedEntries(year: nat): seq<Holiday> {
    seq(|FIXED|, i requires 0 <= i < |FIXED| => FixedEntry(year, i))
  }

  function GoodFriday(year: nat): Holiday {
    MovableDates(year);
    Movable(PreviousDay(PreviousDay(EasterSunday(year))), "Good Friday")
  }

  function EasterMonday(year: nat): Holiday {
    MovableDates(year);
    Movable(NextDay(EasterSunday(year)), "Easter Monday")
  }

  function Pushed(year: nat): seq<Holiday> { FixedEntries(year) + [GoodFriday(year), EasterMonday(year)] }

  /** The order the list is meant to have. */
  function InOrder(year: nat): seq<Holiday> {
    FixedEntries(year)[..1] + [GoodFriday(year), EasterMonday(year)] + FixedEntries(year)[1..]
  }

  /** Both movable days are in spring, Good Friday before Easter Monday. */
  lemma MovableDates(year: nat)
    ensures var d := EasterSunday(year);
      var friday, monday := PreviousDay(PreviousDay(d)), NextDay(d);
      && Valid(d) && (d.month == 3 || d.month == 4) && Valid(friday) && Valid(monday)
      && friday.year == monday.year == UtcYear(year)
      && 320 <= MonthDayKey(friday) < MonthDayKey(monday) <= 426
      && DayNumber(friday) == DayNumber(d) - 2 && DayNumber(monday) == DayNumber(d) + 1
  {
    var d := EasterSunday(year);
    ComputusIsEaster(year);
    SpringDays(d.(year := year), year);
    assert Valid(d);
    PreviousDayNumber(d);
    PreviousDayNumber(PreviousDay(d));
    NextDayNumber(d);
  }

  lemma SpringDays(d: Date, year: nat)
    requires Valid(d) && d.year == year && (d.month == 3 || d.month == 4)
    requires DayNumber(Date(year, 3, 22)) <= DayNumber(d) <= DayNumber(Date(year, 4, 25))
    ensures 322 <= MonthDayKey(d) <= 425
  {
    DaysBeforeSpring(year);
  }

  /** The last day a Date can hold is 13 September 275760. */
  const MAX_EPOCH_DAY := 100_000_000

  lemma YearEnds275760()
    ensures DaysBeforeYear(275760) == 100_719_272 && DaysBeforeYear(275761) == 100_719_638
  {
    DaysBeforeYearClosed(275760);
    DaysBeforeYearClosed(275761);
  }

  lemma DateRangeIff(year: nat)
    ensures EpochDay(EasterSunday(year)) > MAX_EPOCH_DAY <==> year > 275760
  {
    var d := EasterSunday(year);
    MovableDates(year);
    WithinYear(d);
    EpochIs719528();
    YearEnds275760();
    if d.year < 275760 { LaterYear(d.year, 275760); }
    if d.year > 275761 { LaterYear(275761, d.year); }
    SpringNumber(d);
  }

  lemma SpringNumber(d: Date)
    requires Valid(d) && (d.month == 3 || d.month == 4)
    ensures DaysBeforeYear(d.year) + 59 <= DayNumber(d) <= DaysBeforeYear(d.year) + 120
  {
    DaysBeforeSpring(d.year);
  }

  /** None when the date of Easter is outside of what a Date can hold. */
  method GetCzHolidays(year: nat) returns (entries: Option<seq<Holiday>>)
    ensures entries.None? <==> year > 275760
    ensures entries.Some? ==>
      && multiset(entries.value) == multiset(Pushed(year)) && Sorted(entries.value)
      && (entries.value == InOrder(year) <==> 1000 <= year <= 9999)
  {
    var list := FixedEntries(year);
    var easter := EasterSunday(year);
    MovableDates(year);
    DateRangeIff(year);
    if EpochDay(easter) > MAX_EPOCH_DAY { return None; }
    list := list + [Movable(PreviousDay(PreviousDay(easter)), "Good Friday")];
    list := list + [Movable(NextDay(easter), "Easter Monday")];
    assert list == Pushed(year);
    SortCounts(list);
    SortSorts(list);
    TextOrderIff(year);
    return Some(SortByText(list));
  }

  // ---- Sorting ----

  ghost predicate Sorted(entries: seq<Holiday>) {
    forall i, j :: 0 <= i < j < |entries| ==> !Less(entries[j].Text(), entries[i].Text())
  }

  ghost predicate StrictlySorted(entries: seq<Holiday>) {
    forall i, j :: 0 <= i < j < |entries| ==> Less(entries[i].Text(), entries[j].Text())
  }

  /** The stable sort by text. */
  function SortByText(entries: seq<Holiday>): seq<Holiday> {
    if entries == [] then [] else Insert(SortByText(entries[..|entries| - 1]), entries[|entries| - 1])
  }

  function Insert(sorted: seq<Holiday>, e: Holiday): seq<Holiday> {
    if sorted == [] || Less(e.Text(), sorted[0].Text()) then [e] + sorted else [sorted[0]] + Insert(sorted[1..], e)
  }

  lemma ConsCounts(e: Holiday, rest: seq<Holiday>)
    ensures multiset([e] + rest) == multiset{e} + multiset(rest)
  {
  }

  lemma SnocCounts(rest: seq<Holiday>, e: Holiday)
    ensures multiset(rest + [e]) == multiset(rest) + multiset{e}
  {
  }

  lemma {:induction false} SortCounts(entries: seq<Holiday>)
    ensures multiset(SortByText(entries)) == multiset(entries)
  {
    if entries != [] {
      var rest, e := entries[..|entries| - 1], entries[|entries| - 1];
      SortCounts(rest);
      InsertCounts(SortByText(rest), e);
      SnocCounts(rest, e);
      assert entries == rest + [e];
    }
  }

  lemma {:induction false} SortSorts(entries: seq<Holiday>)
    ensures Sorted(SortByText(entries))
  {
    if entries != [] {
      SortSorts(entries[..|entries| - 1]);
      InsertSorts(SortByText(entries[..|entries| - 1]), entries[|entries| - 1]);
    }
  }

  lemma BehindHeadCounts(head: Holiday, tail: seq<Holiday>, tail': seq<Holiday>, e: Holiday)
    requires multiset(tail') == multiset(tail) + multiset{e}
    ensures multiset([head] + tail') == multiset([head] + tail) + multiset{e}
  {
    ConsCounts(head, tail);
    ConsCounts(head, tail');
  }

  lemma {:induction false} InsertCounts(sorted: seq<Holiday>, e: Holiday)
    ensures multiset(Insert(sorted, e)) == multiset(sorted) + multiset{e}
  {
    if sorted != [] && !Less(e.Text(), sorted[0].Text()) {
      InsertCounts(sorted[1..], e);
      assert sorted == [sorted[0]] + sorted[1..];
      BehindHeadCounts(sorted[0], sorted[1..], Insert(sorted[1..], e), e);
    } else {
      ConsCounts(e, sorted);
    }
  }

  lemma ConsSorted(e: Holiday, rest: seq<Holiday>)
    requires Sorted(rest) && forall x :: x in rest ==> !Less(x.Text(), e.Text())
    ensures Sorted([e] + rest)
  {
    var all := [e] + rest;
    forall i, j | 0 <= i < j < |all| ensures !Less(all[j].Text(), all[i].Text()) {
      assert all[j] in rest;
    }
  }

  lemma {:induction false} InsertSorts(sorted: seq<Holiday>, e: Holiday)
    requires Sorted(sorted)
    ensures Sorted(Insert(sorted, e))
  {
    if sorted == [] {
    } else if Less(e.Text(), sorted[0].Text()) {
      forall x | x in sorted ensures !Less(x.Text(), e.Text()) {
        if Less(x.Text(), e.Text()) { LessTransitive(x.Text(), e.Text(), sorted[0].Text()); }
        LessIrreflexive(sorted[0].Text());
      }
      ConsSorted(e, sorted);
    } else {
      var tail := Insert(sorted[1..], e);
      InsertSorts(sorted[1..], e);
      InsertCounts(sorted[1..], e);
      forall x | x in tail ensures !Less(x.Text(), sorted[0].Text()) {
        assert x in multiset(tail);
        assert x in sorted[1..] || x == e;
      }
      ConsSorted(sorted[0], tail);
    }
  }

  lemma {:induction false} LessIrreflexive(a: string)
    ensures !Less(a, a)
  {
    if a != "" { LessIrreflexive(a[1..]); }
  }

  lemma FirstsAgree(a: seq<Holiday>, b: seq<Holiday>)
    requires Sorted(a) && StrictlySorted(b) && multiset(a) == multiset(b) && a != [] && b != []
    ensures a[0] == b[0]
  {
    assert a[0] in multiset(b) && b[0] in multiset(a);
    var i :| 0 <= i < |b| && b[i] == a[0];
    var j :| 0 <= j < |a| && a[j] == b[0];
  }

  /** A strictly sorted list is the only sorted arrangement of its entries. */
  lemma {:induction false} SortedUnique(a: seq<Holiday>, b: seq<Holiday>)
    requires Sorted(a) && StrictlySorted(b) && multiset(a) == multiset(b)
    ensures a == b
  {
    assert |a| == |multiset(a)| == |multiset(b)| == |b|;
    if a != [] {
      FirstsAgree(a, b);
      TailCounts(a);
      TailCounts(b);
      TailsSorted(a, b);
      SortedUnique(a[1..], b[1..]);
      assert a == [a[0]] + a[1..] && b == [b[0]] + b[1..];
    }
  }

  lemma TailCounts(a: seq<Holiday>)
    requires a != []
    ensures multiset(a[1..]) == multiset(a) - multiset{a[0]}
  {
    assert a == [a[0]] + a[1..];
  }

  lemma TailsSorted(a: seq<Holiday>, b: seq<Holiday>)
    requires Sorted(a) && StrictlySorted(b) && a != [] && b != []
    ensures Sorted(a[1..]) && StrictlySorted(b[1..])
  {
  }

  lemma SortIs(year: nat, list: seq<Holiday>)
    requires StrictlySorted(list) && multiset(list) == multiset(Pushed(year))
    ensures SortByText(Pushed(year)) == list
  {
    SortCounts(Pushed(year));
    SortSorts(Pushed(year));
    SortedUnique(SortByText(Pushed(year)), list);
  }

  // ---- Where the movable days end up ----

  function FixedKey(i: nat): int
    requires i < |FIXED|
  {
    FIXED[i].month * 100 + FIXED[i].day
  }

  lemma FixedKeys(i: nat, j: nat)
    requires i < j < |FIXED|
    ensures FixedKey(i) < FixedKey(j)
  {
  }

  lemma FixedKeyEnds()
    ensures |FIXED| == 11 && FixedKey(0) == 101 && FixedKey(1) == 501
  {
  }

  lemma SameYearLess(p: string, d: Date, e: Date)
    requires 0 <= d.month <= 99 && 0 <= d.day <= 99 && 0 <= e.month <= 99 && 0 <= e.day <= 99
    ensures Less(p + MonthDay(d), p + MonthDay(e)) <==> MonthDayKey(d) < MonthDayKey(e)
  {
    LessPrefix(p, MonthDay(d), MonthDay(e));
    MonthDayLess(d, e);
  }

  lemma FixedAreStrict(year: nat)
    ensures StrictlySorted(FixedEntries(year))
  {
    var f := FixedEntries(year);
    forall i, j | 0 <= i < j < |f| ensures Less(f[i].Text(), f[j].Text()) {
      FixedKeys(i, j);
      SameYearLess(Decimal(year), f[i].date, f[j].date);
    }
  }

  lemma FourDigitText(e: Holiday)
    requires e.Movable? && e.date.year <= 9999
    ensures e.Text() == IsoYear(e.date.year) + MonthDay(e.date)
  {
  }

  lemma MovableAreStrict(year: nat)
    requires year <= 9999
    ensures Less(GoodFriday(year).Text(), EasterMonday(year).Text())
  {
    MovableDates(year);
    SameYearLess(IsoYear(UtcYear(year)), GoodFriday(year).date, EasterMonday(year).date);
    FourDigitText(GoodFriday(year));
    FourDigitText(EasterMonday(year));
  }

  /** From 10000 on the ten characters end after the month. */
  lemma LongYearText(e: Holiday)
    requires e.Movable? && e.date.year >= 10000
    ensures e.Text() == IsoYear(e.date.year) + ("-" + Padded(e.date.month, 2))
  {
    var month, day := "-" + Padded(e.date.month, 2), "-" + Padded(e.date.day, 2);
    assert IsoYear(e.date.year) + MonthDay(e.date) == (IsoYear(e.date.year) + month) + day;
  }

  /** Then Good Friday and Easter Monday have one text if and only if they share the month; Easter Monday's text is
      never the lesser. */
  lemma LongYearTexts(year: nat)
    requires year >= 10000
    ensures !Less(EasterMonday(year).Text(), GoodFriday(year).Text())
    ensures EasterMonday(year).Text() == GoodFriday(year).Text()
       <==> EasterMonday(year).date.month == GoodFriday(year).date.month
  {
    MovableDates(year);
    var a, b := GoodFriday(year), EasterMonday(year);
    LongYearText(a);
    LongYearText(b);
    var y := IsoYear(year);
    LessPrefix(y, "-" + Padded(b.date.month, 2), "-" + Padded(a.date.month, 2));
    LessPrefix("-", Padded(b.date.month, 2), Padded(a.date.month, 2));
    PaddedTwoLess(b.date.month, a.date.month, "", "");
    assert Padded(a.date.month, 2) + "" == Padded(a.date.month, 2);
    assert Padded(b.date.month, 2) + "" == Padded(b.date.month, 2);
    MonthTexts(y, a.date.month, b.date.month);
  }

  lemma MonthTexts(y: string, m: nat, n: nat)
    requires m <= 99 && n <= 99
    ensures y + ("-" + Padded(m, 2)) == y + ("-" + Padded(n, 2)) <==> m == n
  {
    PaddedTwo(m);
    PaddedTwo(n);
    var a, b := y + ("-" + Padded(m, 2)), y + ("-" + Padded(n, 2));
    assert a[|y| + 1] == Digit(m / 10) && a[|y| + 2] == Digit(m % 10);
    assert b[|y| + 1] == Digit(n / 10) && b[|y| + 2] == Digit(n % 10);
  }

  lemma ConcatStrict(a: seq<Holiday>, b: seq<Holiday>)
    requires StrictlySorted(a) && StrictlySorted(b)
    requires forall x, y :: x in a && y in b ==> Less(x.Text(), y.Text())
    ensures StrictlySorted(a + b)
  {
    forall i, j | 0 <= i < |a| && 0 <= j < |b| ensures Less(a[i].Text(), b[j].Text()) {
      assert a[i] in a && b[j] in b;
    }
  }

  function Both(year: nat): seq<Holiday> { [GoodFriday(year), EasterMonday(year)] }

  lemma PaddedFour(n: nat)
    requires n <= 9999
    ensures Padded(n, 4) == [Digit(n / 10 / 10 / 10), Digit(n / 10 / 10 % 10), Digit(n / 10 % 10), Digit(n % 10)]
  {
    var a := n / 10;
    PaddedTwo(a / 10);
    assert Padded(a, 3) == Padded(a / 10, 2) + [Digit(a % 10)];
  }

  lemma DecimalFour(n: nat)
    requires 1000 <= n <= 9999
    ensures Decimal(n) == Padded(n, 4)
  {
    PaddedFour(n);
    var a := n / 10;
    var b := a / 10;
    assert Decimal(b) == [Digit(b / 10)] + [Digit(b % 10)];
    assert Decimal(a) == Decimal(b) + [Digit(a % 10)];
  }

  /** The years Date.UTC makes of 0 to 99. */
  lemma NineteenHundreds(year: nat)
    requires year <= 99
    ensures IsoYear(UtcYear(year)) == ['1', '9', Digit(year / 10), Digit(year % 10)]
  {
    var n := 1900 + year;
    assert n / 10 == 190 + year / 10 && n % 10 == year % 10;
    assert n / 10 / 10 == 19 && n / 10 % 10 == year / 10;
    PaddedFour(n);
  }

  lemma BetweenFirstAndSecond(f: seq<Holiday>, both: seq<Holiday>)
    requires StrictlySorted(f) && StrictlySorted(both) && |f| >= 2
    requires forall y :: y in both ==> Less(f[0].Text(), y.Text()) && Less(y.Text(), f[1].Text())
    ensures StrictlySorted(f[..1] + both + f[1..])
  {
    ConcatStrict(f[..1], both);
    forall x, y | x in f[..1] + both && y in f[1..] ensures Less(x.Text(), y.Text()) {
      var j :| 1 <= j < |f| && f[j] == y;
      if x in both && j > 1 { LessTransitive(x.Text(), f[1].Text(), y.Text()); }
    }
    ConcatStrict(f[..1] + both, f[1..]);
  }

  /** With four digits the texts share the year, and the list is in the order of the dates. */
  lemma FourDigitsInOrder(year: nat)
    requires 1000 <= year <= 9999
    ensures StrictlySorted(InOrder(year))
  {
    FixedAreStrict(year);
    MovableAreStrict(year);
    forall y | y in Both(year)
      ensures Less(FixedEntry(year, 0).Text(), y.Text()) && Less(y.Text(), FixedEntry(year, 1).Text())
    {
      MovableBetween(year, y);
    }
    BetweenFirstAndSecond(FixedEntries(year), Both(year));
  }

  lemma MovableBetween(year: nat, y: Holiday)
    requires 1000 <= year <= 9999 && y in Both(year)
    ensures Less(FixedEntry(year, 0).Text(), y.Text()) && Less(y.Text(), FixedEntry(year, 1).Text())
  {
    DecimalFour(year);
    MovableDates(year);
    FourDigitText(y);
    SameYearLess(Decimal(year), FixedEntry(year, 0).date, y.date);
    SameYearLess(Decimal(year), y.date, FixedEntry(year, 1).date);
  }

  /** The movable days come before all fixed ones. */
  predicate MovableFirst(year: nat) { 2 <= year <= 9 || 20 <= year <= 999 || year >= 10000 }

  /** The first difference between a movable text and a fixed one. */
  lemma MovableFirstLess(year: nat, x: Holiday, y: Holiday)
    requires MovableFirst(year) && x.Movable? && x.date.year == UtcYear(year) && y.Fixed? && y.date.year == year
    ensures Less(x.Text(), y.Text())
  {
    assert x.Text()[0] == IsoYear(UtcYear(year))[0] && y.Text()[0] == Decimal(year)[0];
    YearStarts(year);
    LessAt(x.Text(), y.Text(), 0);
  }

  lemma YearStarts(year: nat)
    requires MovableFirst(year)
    ensures IsoYear(UtcYear(year))[0] < Decimal(year)[0]
  {
    if year <= 99 {
      NineteenHundreds(year);
      if 20 <= year { assert Decimal(year) == [Digit(year / 10)] + [Digit(year % 10)]; }
    } else if year <= 999 {
      PaddedFour(year);
    }
  }

  /** Against 19xx: the unpadded 0, 1 and 10 to 19 compare as less. */
  lemma ShortYearLess(year: nat, a: string, b: string)
    requires !MovableFirst(year) && year <= 999
    ensures Less(Decimal(year) + "-" + a, ['1', '9', Digit(year / 10), Digit(year % 10)] + b)
  {
    var x, y := Decimal(year) + "-" + a, ['1', '9', Digit(year / 10), Digit(year % 10)] + b;
    if year <= 1 {
      assert x == [Digit(year)] + "-" + a;
      if year == 0 { LessAt(x, y, 0); } else { LessAt(x, y, 1); }
    } else {
      assert Decimal(year) == ['1', Digit(year % 10)];
      if year < 19 { LessAt(x, y, 1); } else { LessAt(x, y, 2); }
    }
  }

  lemma FixedFirstLess(year: nat, x: Holiday, y: Holiday)
    requires !MovableFirst(year) && year <= 999
    requires x.Fixed? && x.date.year == year && y.Movable? && y.date.year == UtcYear(year)
    ensures Less(x.Text(), y.Text())
  {
    NineteenHundreds(year);
    FourDigitText(y);
    var a := Padded(x.date.month, 2) + "-" + Padded(x.date.day, 2);
    ShortYearLess(year, a, MonthDay(y.date));
    assert x.Text() == Decimal(year) + "-" + a;
  }

  lemma FirstTexts(year: nat)
    requires MovableFirst(year)
    ensures Less(GoodFriday(year).Text(), FixedEntry(year, 0).Text())
    ensures Less(EasterMonday(year).Text(), FixedEntry(year, 0).Text())
    ensures !Less(EasterMonday(year).Text(), GoodFriday(year).Text())
  {
    MovableDates(year);
    if year <= 9999 {
      MovableAreStrict(year);
      LessAsymmetric(GoodFriday(year).Text(), EasterMonday(year).Text());
    } else {
      LongYearTexts(year);
    }
    MovableFirstLess(year, GoodFriday(year), FixedEntry(year, 0));
    MovableFirstLess(year, EasterMonday(year), FixedEntry(year, 0));
  }

  /** The fixed days are pushed in order, and each movable one is inserted before them; Easter Monday stays behind Good
      Friday, with an equal text because the sort is stable. */
  lemma MovableGoFirst(year: nat)
    requires MovableFirst(year)
    ensures SortByText(Pushed(year)) == Both(year) + FixedEntries(year)
  {
    var f, friday, monday := FixedEntries(year), GoodFriday(year), EasterMonday(year);
    FirstTexts(year);
    SortFixed(year);
    SortSnoc(f, friday);
    SortSnoc(f + [friday], monday);
    assert Pushed(year) == f + [friday] + [monday];
    InsertInFront(f, friday, monday);
  }

  lemma InsertHere(sorted: seq<Holiday>, e: Holiday)
    requires sorted != [] && Less(e.Text(), sorted[0].Text())
    ensures Insert(sorted, e) == [e] + sorted
  {
  }

  lemma InsertBehind(head: Holiday, rest: seq<Holiday>, e: Holiday)
    requires !Less(e.Text(), head.Text())
    ensures Insert([head] + rest, e) == [head] + Insert(rest, e)
  {
    var all := [head] + rest;
    assert all[0] == head && all[1..] == rest;
  }

  lemma InsertInFront(f: seq<Holiday>, a: Holiday, b: Holiday)
    requires f != [] && Less(a.Text(), f[0].Text()) && Less(b.Text(), f[0].Text()) && !Less(b.Text(), a.Text())
    ensures Insert(Insert(f, a), b) == [a, b] + f
  {
    InsertHere(f, a);
    InsertBehind(a, f, b);
    InsertHere(f, b);
    assert [a] + ([b] + f) == [a, b] + f;
  }

  lemma SortFixed(year: nat)
    ensures SortByText(FixedEntries(year)) == FixedEntries(year)
  {
    var f := FixedEntries(year);
    FixedAreStrict(year);
    SortCounts(f);
    SortSorts(f);
    SortedUnique(SortByText(f), f);
  }

  lemma SortSnoc(entries: seq<Holiday>, e: Holiday)
    ensures SortByText(entries + [e]) == Insert(SortByText(entries), e)
  {
    assert (entries + [e])[..|entries|] == entries;
  }

  lemma LessAsymmetric(a: string, b: string)
    requires Less(a, b)
    ensures !Less(b, a)
  {
    if Less(b, a) {
      LessTransitive(a, b, a);
      LessIrreflexive(a);
    }
  }

  /** Outside four digits the movable days are all in front or all at the end. */
  lemma OutOfOrder(year: nat)
    requires !(1000 <= year <= 9999)
    ensures SortByText(Pushed(year))
         == if MovableFirst(year) then Both(year) + FixedEntries(year) else FixedEntries(year) + Both(year)
  {
    var f, both := FixedEntries(year), Both(year);
    FixedAreStrict(year);
    MovableDates(year);
    if MovableFirst(year) {
      MovableGoFirst(year);
    } else {
      MovableAreStrict(year);
      forall x, y | x in f && y in both ensures Less(x.Text(), y.Text()) { FixedFirstLess(year, x, y); }
      ConcatStrict(f, both);
      SortIs(year, f + both);
    }
  }

  lemma PushedIsPermutation(year: nat)
    ensures multiset(Pushed(year)) == multiset(InOrder(year))
  {
    var f := FixedEntries(year);
    assert f == f[..1] + f[1..];
  }

  /** Sorting the texts gives the meant order if and only if the year has four digits. */
  lemma TextOrderIff(year: nat)
    ensures SortByText(Pushed(year)) == InOrder(year) <==> 1000 <= year <= 9999
  {
    if 1000 <= year <= 9999 {
      FourDigitsInOrder(year);
      PushedIsPermutation(year);
      SortIs(year, InOrder(year));
    } else {
      OutOfOrder(year);
      var f := FixedEntries(year);
      assert InOrder(year)[1] == GoodFriday(year);
      assert (Both(year) + f)[1] == EasterMonday(year) && (f + Both(year))[1] == f[1];
    }
  }

  /** The text is YYYY-MM-DD of the date. */
  predicate IsIsoDate(text: string, d: Date)
    requires d.month >= 0 && d.day >= 0
  {
    d.year <= 9999 && text == Padded(d.year, 4) + MonthDay(d)
  }

  /** Every text of the list is YYYY-MM-DD of its own date, as the field is documented, if and only if the year has four
      digits. */
  lemma TextsAreDatesIff(year: nat)
    ensures (forall e :: e in Pushed(year) ==> IsIsoDate(e.Text(), e.date)) <==> 1000 <= year <= 9999
  {
    if 1000 <= year <= 9999 {
      DecimalFour(year);
      MovableDates(year);
      forall e | e in Pushed(year) ensures IsIsoDate(e.Text(), e.date) {
        if e.Movable? { FourDigitText(e); }
      }
    } else {
      var e := FixedEntry(year, 0);
      assert Pushed(year)[0] == e;
      if year < 1000 { ShortYearIsNoDate(e); }
      assert !IsIsoDate(e.Text(), e.date);
    }
  }

  lemma ShortYearIsNoDate(e: Holiday)
    requires e.Fixed? && e.date.year < 1000
    ensures !IsIsoDate(e.Text(), e.date)
  {
    var year := e.date.year;
    PaddedFour(year);
    if year == 0 {
      assert |e.Text()| == 7;
    } else {
      assert e.Text()[0] == Decimal(year)[0] && (Padded(year, 4) + MonthDay(e.date))[0] == '0';
    }
  }

  /** The meant order is the order of the dates, all thirteen different, from year 100 on. */
  lemma OrderIsStrict(year: nat)
    requires year >= 100
    ensures |InOrder(year)| == 13
    ensures forall i, j :: 0 <= i < j < 13 ==> DayNumber(InOrder(year)[i].date) < DayNumber(InOrder(year)[j].date)
  {
    var list := InOrder(year);
    MovableDates(year);
    forall i, j | 0 <= i < j < 13 ensures DayNumber(list[i].date) < DayNumber(list[j].date) {
      InOrderKeys(year, i, j);
      KeyOrdersDays(list[i].date, list[j].date);
    }
  }

  lemma InOrderAt(year: nat, k: nat)
    requires k < 13
    ensures |InOrder(year)| == 13
    ensures InOrder(year)[k]
         == if k == 0 then FixedEntry(year, 0)
            else if k == 1 then GoodFriday(year)
            else if k == 2 then EasterMonday(year)
            else FixedEntry(year, k - 2)
  {
  }

  lemma FixedValid(year: nat, i: nat)
    requires i < |FIXED|
    ensures Valid(FixedEntry(year, i).date)
  {
  }

  function KeyAt(year: nat, k: nat): int
    requires k < 13
  {
    if k == 0 then 101
    else if k == 1 then MonthDayKey(GoodFriday(year).date)
    else if k == 2 then MonthDayKey(EasterMonday(year).date)
    else FixedKey(k - 2)
  }

  lemma InOrderDate(year: nat, k: nat)
    requires k < 13 && year >= 100
    ensures Valid(InOrder(year)[k].date) && InOrder(year)[k].date.year == year
    ensures MonthDayKey(InOrder(year)[k].date) == KeyAt(year, k)
  {
    InOrderAt(year, k);
    if k == 1 || k == 2 { MovableDates(year); } else { FixedValid(year, if k == 0 then 0 else k - 2); }
  }

  lemma MovableKeys(year: nat)
    ensures 320 <= KeyAt(year, 1) < KeyAt(year, 2) <= 426
  {
    MovableDates(year);
  }

  lemma FixedKeysFrom(year: nat, j: nat)
    requires 3 <= j < 13
    ensures KeyAt(year, j) >= 501
  {
    FixedKeyEnds();
    if j >= 4 { FixedKeys(1, j - 2); }
  }

  lemma KeysAscend(year: nat, i: nat, j: nat)
    requires i < j < 13
    ensures KeyAt(year, i) < KeyAt(year, j)
  {
    if i >= 3 {
      FixedKeys(i - 2, j - 2);
    } else {
      MovableKeys(year);
      if j >= 3 { FixedKeysFrom(year, j); }
    }
  }

  lemma InOrderKeys(year: nat, i: nat, j: nat)
    requires i < j < 13 && year >= 100
    ensures Valid(InOrder(year)[i].date) && Valid(InOrder(year)[j].date)
    ensures InOrder(year)[i].date.year == InOrder(year)[j].date.year == year
    ensures MonthDayKey(InOrder(year)[i].date) < MonthDayKey(InOrder(year)[j].date)
  {
    InOrderDate(year, i);
    InOrderDate(year, j);
    KeysAscend(year, i, j);
  }

  /** The fixed days of a year of four digits, as they stand in the list. */
  lemma FixedTexts(year: nat)
    requires 1000 <= year <= 9999
    ensures var y := Padded(year, 4);
      var f := FixedEntries(year);
      && |f| == 11
      && f[0].Text() == y + "-01-01" && f[1].Text() == y + "-05-01" && f[2].Text() == y + "-05-08"
      && f[3].Text() == y + "-07-05" && f[4].Text() == y + "-07-06" && f[5].Text() == y + "-09-28"
      && f[6].Text() == y + "-10-28" && f[7].Text() == y + "-11-17" && f[8].Text() == y + "-12-24"
      && f[9].Text() == y + "-12-25" && f[10].Text() == y + "-12-26"
  {
    DecimalFour(year);
    forall i: nat | i < 11
      ensures FixedEntries(year)[i].Text() == Padded(year, 4) + MonthDay(FixedEntry(year, i).date)
    {
    }
    FixedDayTexts(year);
  }

  lemma MonthDayText(d: Date)
    requires 0 <= d.month <= 99 && 0 <= d.day <= 99
    ensures MonthDay(d) == ['-', Digit(d.month / 10), Digit(d.month % 10), '-', Digit(d.day / 10), Digit(d.day % 10)]
  {
    PaddedTwo(d.month);
    PaddedTwo(d.day);
  }

  lemma FixedDayTexts(year: nat)
    ensures forall i: nat :: i < 11 ==>
      MonthDay(FixedEntry(year, i).date)
      == ["-01-01", "-05-01", "-05-08", "-07-05", "-07-06", "-09-28", "-10-28", "-11-17", "-12-24", "-12-25",
          "-12-26"][i]
  {
    forall i: nat | i < 11
      ensures MonthDay(FixedEntry(year, i).date)
      == ["-01-01", "-05-01", "-05-08", "-07-05", "-07-06", "-09-28", "-10-28", "-11-17", "-12-24", "-12-25",
          "-12-26"][i]
    {
      MonthDayText(FixedEntry(year, i).date);
    }
  }

  /** A text of four digits reads as the number. */
  lemma FourDigitsRead(n: nat)
    requires n <= 9999
    ensures var s := Padded(n, 4);
      && |s| == 4 && (forall k :: 0 <= k < 4 ==> '0' <= s[k] <= '9')
      && (s[0] as int - 48) * 1000 + (s[1] as int - 48) * 100 + (s[2] as int - 48) * 10 + (s[3] as int - 48) == n
  {
    PaddedFour(n);
  }
}
