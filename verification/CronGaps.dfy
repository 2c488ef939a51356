/** Schedules of internal/scheduler/cron.go that restrict day of month and day of week together, both of
    which then have to match (lines 207-208): how long Next can take with the month starred, an input for
    which it falls back, and which schedules never fire at all. */
module CronGaps {
  import opened Calendar
  import opened CronField
  import opened Cron
  import opened CronHorizon

  // ---- the same day of the month, year after year ----

  // The first of March of a year, from which no month start depends on leap years.
  function March(y: int): int {
    DayNumber(Date(y, 3, 1))
  }

  lemma MarchStep(y: int)
    ensures March(y + 1) == March(y) + 365 + if Leap(y + 1) then 1 else 0
    ensures March(y) == YearStart(y) + 59 + if Leap(y) then 1 else 0
  {
    MonthTable(y, 3);
    MonthTable(y + 1, 3);
    YearLength(y);
  }

  /** Days from the first of March to the start of a month; 13 is the January after. */
  function Offset(m: int): int
    requires 3 <= m <= 13
  {
    [0, 31, 61, 92, 122, 153, 184, 214, 245, 275, 306][m - 3]
  }

  function InMonth(y: int, m: int, day: int): Date {
    if m == 13 then Date(y + 1, 1, day) else Date(y, m, day)
  }

  lemma MonthOffset(y: int, m: int, day: int)
    requires 3 <= m <= 13
    ensures DayNumber(InMonth(y, m, day)) == March(y) + Offset(m) + day - 1
  {
    MonthTable(y, 3);
    if m <= 12 {
      MonthTable(y, m);
    } else {
      MarchStep(y);
      YearLength(y);
    }
  }

  /** What a month start, counted from March, must leave modulo 7 for the day to fall on the weekday. */
  function Class(y: int, day: int, dow: int): int {
    (dow - March(y) - day) % 7
  }

  /** The first and the last month from March to January with that remainder, among those long
      enough for the day. With 31 days no month leaves 1. */
  function FirstMonth(c: int): int
    requires 0 <= c < 7
  {
    [3, 6, 9, 4, 10, 5, 8][c]
  }

  function LastMonth(c: int): int
    requires 0 <= c < 7
  {
    [11, 6, 12, 7, 10, 13, 8][c]
  }

  function FirstLong(c: int): int
    requires 0 <= c < 7 && c != 1
  {
    [3, 0, 12, 7, 10, 5, 8][c]
  }

  function LastLong(c: int): int
    requires 0 <= c < 7 && c != 1
  {
    [3, 0, 12, 7, 10, 13, 8][c]
  }

  predicate Has(day: int, c: int) {
    0 <= c < 7 && (day <= 30 || c != 1)
  }

  function FirstOf(day: int, c: int): (m: int)
    requires Has(day, c)
    ensures 3 <= m <= 12 && Offset(m) % 7 == c
  {
    if day <= 30 then FirstMonth(c) else FirstLong(c)
  }

  function LastOf(day: int, c: int): (m: int)
    requires Has(day, c)
    ensures FirstOf(day, c) <= m <= 13 && Offset(m) % 7 == c
  {
    if day <= 30 then LastMonth(c) else LastLong(c)
  }

  // The day number of the first match of a year, and of its last.
  function First(y: int, day: int, dow: int): int
    requires Has(day, Class(y, day, dow))
  {
    March(y) + Offset(FirstOf(day, Class(y, day, dow))) + day - 1
  }

  function Last(y: int, day: int, dow: int): int
    requires Has(day, Class(y, day, dow))
  {
    March(y) + Offset(LastOf(day, Class(y, day, dow))) + day - 1
  }

  lemma LandsOn(d: Date, march: int, offset: int, dow: int)
    requires Valid(d) && DayNumber(d) == march + offset + d.day - 1
    requires (march + offset + d.day) % 7 == dow
    ensures var n := march + offset + d.day - 1;
            n >= 0 && DateOf(n).day == d.day && Weekday(n) == dow
  {
    OnDate(d, march + offset + d.day - 1);
  }

  lemma OnDate(d: Date, n: int)
    requires Valid(d) && DayNumber(d) == n
    ensures n >= 0 && DateOf(n) == d
  {
    DateOfDayNumber(d);
  }

  lemma WeekdayIs(march: int, offset: int, day: int, dow: int)
    requires 0 <= dow < 7 && offset % 7 == (dow - march - day) % 7
    ensures (march + offset + day) % 7 == dow
  {
  }

  lemma FirstIsValid(y: int, day: int, c: int)
    requires 1 <= day <= 31 && Has(day, c) && y >= 1
    ensures Valid(InMonth(y, FirstOf(day, c), day))
  {
  }

  lemma LastIsValid(y: int, day: int, c: int)
    requires 1 <= day <= 31 && Has(day, c) && y >= 0 && (y >= 1 || LastOf(day, c) == 13)
    ensures Valid(InMonth(y, LastOf(day, c), day))
  {
  }

  lemma MonthLands(y: int, m: int, day: int, dow: int)
    requires 3 <= m <= 13 && Valid(InMonth(y, m, day)) && 0 <= dow < 7 && Offset(m) % 7 == Class(y, day, dow)
    ensures var n := March(y) + Offset(m) + day - 1; n >= 0 && DateOf(n).day == day && Weekday(n) == dow
  {
    MonthOffset(y, m, day);
    WeekdayIs(March(y), Offset(m), day, dow);
    LandsOn(InMonth(y, m, day), March(y), Offset(m), dow);
  }

  lemma FirstLands(y: int, day: int, dow: int)
    requires 1 <= day <= 31 && 0 <= dow < 7 && Has(day, Class(y, day, dow)) && y >= 1
    ensures var n := First(y, day, dow); n >= 0 && DateOf(n).day == day && Weekday(n) == dow
  {
    FirstIsValid(y, day, Class(y, day, dow));
    MonthLands(y, FirstOf(day, Class(y, day, dow)), day, dow);
  }

  lemma LastLands(y: int, day: int, dow: int)
    requires 1 <= day <= 31 && 0 <= dow < 7 && Has(day, Class(y, day, dow)) && y >= 0
    requires Last(y, day, dow) >= 0
    ensures var n := Last(y, day, dow); DateOf(n).day == day && Weekday(n) == dow
  {
    if y == 0 { YearZero(day, dow); }
    LastIsValid(y, day, Class(y, day, dow));
    MonthLands(y, LastOf(day, Class(y, day, dow)), day, dow);
  }

  // What is left of the March year 0 is January of year 1.
  lemma YearZero(day: int, dow: int)
    requires 1 <= day <= 31 && Has(day, Class(0, day, dow)) && Last(0, day, dow) >= 0
    ensures LastOf(day, Class(0, day, dow)) == 13
  {
    MarchStep(0);
  }

  // ---- from one match to the next ----

  function Gap(day: int): int {
    if day <= 30 then 427 else 609
  }

  // The next year with a match.
  function NextYear(y: int, day: int, dow: int): int {
    if Has(day, Class(y + 1, day, dow)) then y + 1 else y + 2
  }

  lemma ModStep(x: int, leap: bool)
    ensures (x - 365 - (if leap then 1 else 0)) % 7 == (x % 7 + (if leap then 5 else 6)) % 7
  {
  }

  lemma ClassStep(y: int, day: int, dow: int)
    ensures Class(y + 1, day, dow) == (Class(y, day, dow) + (if Leap(y + 1) then 5 else 6)) % 7
  {
    MarchStep(y);
    ModStep(dow - March(y) - day, Leap(y + 1));
  }

  lemma WithinAYear(y: int, day: int, dow: int)
    requires Has(day, Class(y, day, dow))
    ensures First(y, day, dow) <= Last(y, day, dow) <= First(y, day, dow) + 245
  {
  }

  lemma ToNextYear(y: int, day: int, dow: int)
    requires 1 <= day <= 31 && Has(day, Class(y, day, dow)) && Has(day, Class(y + 1, day, dow))
    ensures Last(y, day, dow) < First(y + 1, day, dow) <= Last(y, day, dow) + Gap(day)
  {
    ClassStep(y, day, dow);
    MarchStep(y);
  }

  // With 31 days one year can go without a match, but not two.
  lemma LongClasses(y: int, dow: int)
    requires Class(y + 1, 31, dow) == 1
    ensures Class(y, 31, dow) == if Leap(y + 1) then 3 else 2
    ensures Class(y + 2, 31, dow) == if Leap(y + 2) then 6 else 0
  {
    ClassStep(y, 31, dow);
    ClassBefore(Class(y, 31, dow), Leap(y + 1));
    ClassStep(y + 1, 31, dow);
  }

  lemma MarchTwoYears(y: int)
    ensures March(y + 2) == March(y) + 730 + (if Leap(y + 1) then 1 else 0) + (if Leap(y + 2) then 1 else 0)
    ensures !(Leap(y + 1) && Leap(y + 2))
  {
    MarchStep(y);
    MarchStep(y + 1);
    NoTwoLeapYears(y + 1);
  }

  lemma ClassBefore(c: int, leap: bool)
    requires 0 <= c < 7 && (c + (if leap then 5 else 6)) % 7 == 1
    ensures c == if leap then 3 else 2
  {
  }

  lemma NoTwoLeapYears(y: int)
    ensures !(Leap(y) && Leap(y + 1))
  {
  }

  lemma ToYearAfter(y: int, day: int, dow: int)
    requires 1 <= day <= 31 && Has(day, Class(y, day, dow)) && !Has(day, Class(y + 1, day, dow))
    ensures Has(day, Class(y + 2, day, dow))
    ensures Last(y, day, dow) < First(y + 2, day, dow) <= Last(y, day, dow) + Gap(day)
  {
    LongClasses(y, dow);
    MarchTwoYears(y);
    assert Last(y, 31, dow) == March(y) + (if Leap(y + 1) then 122 else 275) + 30;
    assert First(y + 2, 31, dow) == March(y + 2) + (if Leap(y + 2) then 153 else 0) + 30;
  }

  lemma AcrossYears(y: int, day: int, dow: int)
    requires Has(day, Class(y, day, dow)) && 1 <= day <= 31
    ensures Has(day, Class(NextYear(y, day, dow), day, dow))
    ensures var z := NextYear(y, day, dow);
            Last(y, day, dow) < First(z, day, dow) <= Last(y, day, dow) + Gap(day)
  {
    if Has(day, Class(y + 1, day, dow)) {
      ToNextYear(y, day, dow);
    } else {
      ToYearAfter(y, day, dow);
    }
  }

  lemma FirstBounds(y: int, day: int, dow: int)
    requires Has(day, Class(y, day, dow))
    ensures March(y) <= First(y, day, dow) - day + 1 <= March(y) + 275
  {
  }

  // `n` lies from the first match of year `y` on and before that of the next year with one.
  ghost predicate Around(y: int, n: nat, day: int, dow: int) {
    && Has(day, Class(y, day, dow)) && First(y, day, dow) <= n
    && Has(day, Class(NextYear(y, day, dow), day, dow)) && n < First(NextYear(y, day, dow), day, dow)
  }

  lemma AroundThisYear(n: nat, y0: int, day: int, dow: int)
    requires y0 == DateOf(n).year && 1 <= day <= 31
    requires Has(day, Class(y0, day, dow)) && First(y0, day, dow) <= n
    ensures Around(y0, n, day, dow)
  {
    InItsYear(n, y0, day);
    AcrossYears(y0, day, dow);
    FirstBounds(NextYear(y0, day, dow), day, dow);
  }

  lemma AroundLastYear(n: nat, y0: int, day: int, dow: int)
    requires y0 == DateOf(n).year && 1 <= day <= 31
    requires Has(day, Class(y0, day, dow)) ==> First(y0, day, dow) > n
    requires Has(day, Class(y0 - 1, day, dow))
    ensures Around(y0 - 1, n, day, dow)
  {
    InItsYear(n, y0, day);
    FirstBounds(y0 - 1, day, dow);
    AcrossYears(y0 - 1, day, dow);
    var z := NextYear(y0 - 1, day, dow);
    if z == y0 + 1 {
      FirstBounds(z, day, dow);
      assert First(z, day, dow) > n;
    } else {
      assert z == y0 && First(z, day, dow) > n;
    }
  }

  lemma AroundYearBefore(n: nat, y0: int, day: int, dow: int)
    requires y0 == DateOf(n).year && 1 <= day <= 31
    requires Has(day, Class(y0, day, dow)) ==> First(y0, day, dow) > n
    requires !Has(day, Class(y0 - 1, day, dow)) && 0 <= dow < 7
    ensures Around(y0 - 2, n, day, dow) && NextYear(y0 - 2, day, dow) == y0
  {
    InItsYear(n, y0, day);
    ClassStep(y0 - 2, day, dow);
    assert Has(day, Class(y0 - 2, day, dow));
    FirstBounds(y0 - 2, day, dow);
    AcrossYears(y0 - 2, day, dow);
  }

  /** The year whose matches are the last ones to begin by day `n`. */
  lemma YearAround(n: nat, day: int, dow: int) returns (y: int)
    requires 1 <= day <= 31 && 0 <= dow < 7
    ensures y >= -1 && Around(y, n, day, dow)
    ensures NextYear(y, day, dow) >= 1
  {
    var y0 := DateOf(n).year;
    if Has(day, Class(y0, day, dow)) && First(y0, day, dow) <= n {
      AroundThisYear(n, y0, day, dow);
      y := y0;
    } else if Has(day, Class(y0 - 1, day, dow)) {
      AroundLastYear(n, y0, day, dow);
      y := y0 - 1;
    } else {
      AroundYearBefore(n, y0, day, dow);
      y := y0 - 2;
    }
  }

  // Matches that begin in the March of an earlier year do so before this one, and the next two
  // years' after it.
  lemma InItsYear(n: nat, y0: int, day: int)
    requires y0 == DateOf(n).year && 1 <= day <= 31
    ensures y0 >= 1 && March(y0 - 1) + 275 + day - 1 <= n && March(y0 - 2) + 275 + day - 1 <= n
    ensures n < March(y0 + 1) <= March(y0 + 2)
  {
    DayNumberOfDate(n);
    YearBounds(DateOf(n));
    MarchStep(y0 - 1);
    MarchStep(y0 - 2);
    MarchStep(y0);
    MarchStep(y0 + 1);
    YearLength(y0 - 1);
    YearLength(y0 - 2);
    YearLength(y0);
  }

  /** From any day on, a month day falls on a weekday again within the gap. */
  lemma MeetsAgain(n: nat, day: int, dow: int) returns (d1: nat, d2: nat)
    requires 1 <= day <= 31 && 0 <= dow < 7
    ensures DateOf(d1).day == DateOf(d2).day == day && Weekday(d1) == Weekday(d2) == dow
    ensures d1 < n + Gap(day) && n < d2 <= d1 + Gap(day)
  {
    var y := YearAround(n, day, dow);
    var z := NextYear(y, day, dow);
    AcrossYears(y, day, dow);
    WithinAYear(y, day, dow);
    FirstLands(z, day, dow);
    d2 := First(z, day, dow);
    d1 := d2;
    if n <= Last(y, day, dow) {
      LastLands(y, day, dow);
      d1 := Last(y, day, dow);
      if n < d1 {
        d2 := d1;
      }
    }
  }

  /** With the month starred, Next fires whatever days of the month and of the week are asked for:
      within 427 days for a day up to 30, within 609 for day 31. */
  lemma MonthStarredFires(sp: Spec, after: nat, r: nat, day: int)
    requires WellFormed(sp) && sp.month.all && IsNext(sp, after, r)
    requires 1 <= day <= 31 && sp.dom.Matches(day)
    ensures after < r <= after + Gap(day) * MINUTES_PER_DAY * NANOS_PER_MINUTE
  {
    var dow :| 0 <= dow <= 6 && sp.dow.Matches(dow);
    var d1, d2 := MeetsAgain(DayOf(StartMinute(after)), day, dow);
    FiresWithin(sp, after, r, d1, d2, Gap(day));
  }

  lemma MonthStarredAlwaysFires(sp: Spec)
    requires WellFormed(sp) && sp.month.all
    ensures AlwaysFires(sp)
  {
    var day :| 1 <= day <= 31 && sp.dom.Matches(day);
    forall after: nat, r: nat | IsNext(sp, after, r) ensures r > after {
      MonthStarredFires(sp, after, r, day);
    }
  }

  // ---- an input that falls back ----

  const NEW_YEAR_MONDAYS :=
    Spec(FieldSet(false, {0}), FieldSet(false, {0}), FieldSet(false, {1}), FieldSet(false, {1}), FieldSet(false, {1}))

  lemma NewYearDay(y: int)
    requires y >= 1
    ensures YearStart(y) >= 0 && DateOf(YearStart(y)) == Date(y, 1, 1)
  {
    OnDate(Date(y, 1, 1), YearStart(y));
  }

  lemma NewYearOf(n: nat)
    requires DateOf(n).month == 1 && DateOf(n).day == 1
    ensures n == YearStart(DateOf(n).year)
  {
    DayNumberOfDate(n);
  }

  /** A year that begins on a Monday, two years before a leap year; 2018 is one. */
  predicate MondayYear(y: int) {
    y >= 1 && Leap(y + 2) && (YearStart(y) + 1) % 7 == 1
  }

  lemma Year2018()
    ensures MondayYear(2018)
  {
  }

  // How the new years' weekdays go on from there.
  lemma NewYearWeekdays(y: int)
    requires MondayYear(y)
    ensures (YearStart(y + 1) + 1) % 7 == 2 && (YearStart(y + 2) + 1) % 7 == 3
    ensures (YearStart(y + 3) + 1) % 7 == 5 && (YearStart(y + 4) + 1) % 7 == 6
    ensures (YearStart(y + 6) + 1) % 7 == 1
  {
    YearsAfter(y);
    WeekdaysAfter(YearStart(y));
  }

  lemma YearsAfter(y: int)
    requires Leap(y + 2)
    ensures YearStart(y + 1) == YearStart(y) + 365 && YearStart(y + 2) == YearStart(y) + 730
    ensures YearStart(y + 3) == YearStart(y) + 1096 && YearStart(y + 4) == YearStart(y) + 1461
    ensures YearStart(y + 6) == YearStart(y) + 2191
  {
    YearLength(y);
    YearLength(y + 1);
    YearLength(y + 2);
    YearLength(y + 3);
    YearLength(y + 4);
    YearLength(y + 5);
    NoTwoLeapYears(y + 1);
    NoTwoLeapYears(y + 2);
    AwayFromLeap(y);
  }

  lemma AwayFromLeap(y: int)
    requires Leap(y + 2)
    ensures !Leap(y) && !Leap(y + 4) && !Leap(y + 5)
  {
  }

  lemma WeekdaysAfter(a: int)
    requires (a + 1) % 7 == 1
    ensures (a + 365 + 1) % 7 == 2 && (a + 730 + 1) % 7 == 3 && (a + 1096 + 1) % 7 == 5
    ensures (a + 1461 + 1) % 7 == 6 && (a + 2191 + 1) % 7 == 1
  {
  }

  lemma JanuaryDay(y: int, day: int)
    ensures DayNumber(Date(y, 1, day)) == YearStart(y) + day - 1
  {
  }

  lemma SecondOfJanuary(y: int) returns (n: nat)
    requires y >= 1
    ensures n == YearStart(y) + 1 && HorizonDay(n) == YearStart(y + 4) + 1
  {
    YearStartGrows(1, y);
    n := YearStart(y) + 1;
    EarlyDate(y, 1, 2, n);
    HorizonOf(n, Date(y, 1, 2));
    JanuaryDay(y + 4, 2);
  }

  lemma HorizonOf(n: nat, d: Date)
    requires DateOf(n) == d
    ensures HorizonDay(n) == DayNumber(d.(year := d.year + 4))
  {
  }

  lemma NoNewYearMonday(n: nat, y: int)
    requires MondayYear(y) && YearStart(y) < n <= YearStart(y + 4) + 1
    ensures !DateMatches(NEW_YEAR_MONDAYS, n)
  {
    if DateOf(n).month == 1 && DateOf(n).day == 1 {
      NewYearNotMonday(n, y);
    }
  }

  lemma NewYearNotMonday(n: nat, y: int)
    requires MondayYear(y) && YearStart(y) < n <= YearStart(y + 4) + 1
    requires DateOf(n).month == 1 && DateOf(n).day == 1
    ensures Weekday(n) != 1
  {
    var z := DateOf(n).year;
    NewYearOf(n);
    assert n == YearStart(z);
    NotAMonday(y, z);
  }

  lemma NotAMonday(y: int, z: int)
    requires MondayYear(y) && z >= 1 && YearStart(y) < YearStart(z) <= YearStart(y + 4) + 1
    ensures (YearStart(z) + 1) % 7 != 1
  {
    NewYearWeekdays(y);
    if z <= y {
      YearStartGrows(z, y);
    } else if z >= y + 5 {
      YearStartGrows(y + 4, z);
    }
  }

  /** "0 0 1 1 1" asked on 2 January of such a year falls back: the next Monday that is a 1 January
      comes six years after the last one, behind the horizon. */
  lemma NewYearMondayMissed(y: int, after: nat)
    requires MondayYear(y) && after == (YearStart(y) + 1) * MINUTES_PER_DAY * NANOS_PER_MINUTE
    ensures IsNext(NEW_YEAR_MONDAYS, after, after)
    ensures YearStart(y + 6) >= 0 && MatchesCron(NEW_YEAR_MONDAYS, YearStart(y + 6) * MINUTES_PER_DAY)
  {
    var n := SecondOfJanuary(y);
    FirstMinute(n);
    var start := AtClock(n, 1);
    MinuteSplits(start);
    forall m | start <= m < FourYearsOn(start) ensures !MatchesCron(NEW_YEAR_MONDAYS, m) {
      MinuteSplits(m);
      MatchesByDay(NEW_YEAR_MONDAYS, m);
      NoNewYearMonday(DayOf(m), y);
    }
    FallsBack(NEW_YEAR_MONDAYS, after);
    NewYearWeekdays(y);
    NewYearDay(y + 6);
    var t := AtClock(YearStart(y + 6), 0);
    MatchesByDay(NEW_YEAR_MONDAYS, t);
  }

  // ---- schedules that never fire ----

  // A year in which the date falls on the weekday.
  lemma FallsOn(month: int, day: int, dow: int) returns (n: nat)
    requires SomeYear(month, day) && 0 <= dow < 7
    ensures DateOf(n).month == month && DateOf(n).day == day && Weekday(n) == dow
  {
    if month == 2 && day == 29 {
      n := LeapDayOn(dow);
    } else if month <= 2 {
      n := EarlyDateOn(month, day, dow);
    } else {
      n := LateDateOn(month, day, dow);
    }
  }

  lemma LateDateOn(month: int, day: int, dow: int) returns (n: nat)
    requires SomeYear(month, day) && month >= 3 && 0 <= dow < 7
    ensures DateOf(n).month == month && DateOf(n).day == day && Weekday(n) == dow
  {
    var k := Offset(month) + day;
    var y := YearMarching((dow - k) % 7);
    n := LateDate(y, month, day);
    Completes(March(y), dow, k);
    assert Weekday(n) == (March(y) + k) % 7;
  }

  lemma LateDate(y: int, month: int, day: int) returns (n: nat)
    requires y >= 1 && SomeYear(month, day) && month >= 3
    ensures n == March(y) + Offset(month) + day - 1 && DateOf(n) == Date(y, month, day)
  {
    MonthOffset(y, month, day);
    OnDate(Date(y, month, day), March(y) + Offset(month) + day - 1);
    n := March(y) + Offset(month) + day - 1;
  }

  lemma LeapDayOn(dow: int) returns (n: nat)
    requires 0 <= dow < 7
    ensures DateOf(n) == Date(DateOf(n).year, 2, 29) && Weekday(n) == dow
  {
    var y := LeapYearStarting((dow - 60) % 7);
    n := LeapDay(y);
    Completes(YearStart(y), dow, 60);
  }

  lemma LeapDay(y: int) returns (n: nat)
    requires y >= 1 && Leap(y)
    ensures n == YearStart(y) + 59 && DateOf(n) == Date(y, 2, 29)
  {
    YearStartGrows(1, y);
    MonthTable(y, 2);
    n := YearStart(y) + 59;
    OnDate(Date(y, 2, 29), n);
  }

  lemma EarlyDateOn(month: int, day: int, dow: int) returns (n: nat)
    requires 0 <= dow < 7 && 1 <= month <= 2 && 1 <= day <= if month == 2 then 28 else 31
    ensures DateOf(n).month == month && DateOf(n).day == day && Weekday(n) == dow
  {
    var k := if month == 1 then day else 31 + day;
    var y := YearStarting((dow - k) % 7);
    n := YearStart(y) + k - 1;
    EarlyDate(y, month, day, n);
    Completes(YearStart(y), dow, k);
  }

  lemma EarlyDate(y: int, month: int, day: int, n: int)
    requires y >= 1 && 1 <= month <= 2 && 1 <= day <= if month == 2 then 28 else 31
    requires n == YearStart(y) + (if month == 1 then day else 31 + day) - 1
    ensures n >= 0 && DateOf(n) == Date(y, month, day)
  {
    MonthTable(y, month);
    OnDate(Date(y, month, day), n);
  }

  lemma Completes(start: int, dow: int, k: int)
    requires 0 <= dow < 7 && start % 7 == (dow - k) % 7
    ensures (start + k) % 7 == dow
  {
  }

  lemma YearStarting(c: int) returns (y: int)
    requires 0 <= c < 7
    ensures y >= 1 && YearStart(y) % 7 == c
  {
    y := [1, 2, 3, 4, 10, 5, 6][c];
  }

  lemma YearMarching(c: int) returns (y: int)
    requires 0 <= c < 7
    ensures y >= 1 && March(y) % 7 == c
  {
    y := [4, 5, 6, 1, 2, 3, 9][c];
    MarchStep(y);
  }

  lemma LeapYearStarting(c: int) returns (y: int)
    requires 0 <= c < 7
    ensures y >= 1 && Leap(y) && YearStart(y) % 7 == c
  {
    y := [24, 8, 20, 4, 16, 28, 12][c];
  }

  lemma CanFire(sp: Spec, month: int, day: int)
    requires WellFormed(sp) && SomeYear(month, day) && Allowed(sp, month, day)
    ensures !NeverFires(sp)
  {
    var n := SomeMatch(sp, month, day);
    var after, r := FiresSomewhere(sp, n);
    assert IsNext(sp, after, r) && !(r == after);
  }

  lemma SomeMatch(sp: Spec, month: int, day: int) returns (n: nat)
    requires WellFormed(sp) && SomeYear(month, day) && Allowed(sp, month, day)
    ensures n >= 1 && DateMatches(sp, n)
  {
    var dow :| 0 <= dow <= 6 && sp.dow.Matches(dow);
    n := FallsOn(month, day, dow);
    CycleOfMatches(sp, n);
    n := n + CYCLE;
  }

  lemma CannotFire(sp: Spec)
    requires forall m, d :: SomeYear(m, d) ==> !Allowed(sp, m, d)
    ensures NeverFires(sp)
  {
    forall after: nat, r: nat | IsNext(sp, after, r) ensures r == after {
      forall m, d | 1 <= m <= 12 && 1 <= d <= LongestMonth(m) ensures !(sp.month.Matches(m) && sp.dom.Matches(d)) {
        assert SomeYear(m, d) && !Allowed(sp, m, d);
      }
      ImpossibleDateNeverFires(sp, after, r);
    }
  }

  /** A parsed schedule never fires exactly when none of its dates exists in any year. */
  lemma NeverFiresIff(sp: Spec)
    requires WellFormed(sp)
    ensures NeverFires(sp) <==> forall m, d :: SomeYear(m, d) ==> !Allowed(sp, m, d)
  {
    if m, d :| SomeYear(m, d) && Allowed(sp, m, d) {
      CanFire(sp, m, d);
    } else {
      CannotFire(sp);
    }
  }

  lemma FiresSomewhere(sp: Spec, n: nat) returns (after: nat, r: nat)
    requires WellFormed(sp) && DateMatches(sp, n) && n >= 1
    ensures IsNext(sp, after, r) && r != after
  {
    var clock := SomeClock(sp);
    var t := AtClock(n, clock);
    after := StartAt(t);
    MatchesByDay(sp, t);
    FourYearsIsFar(t);
    r := t * NANOS_PER_MINUTE;
    assert r / NANOS_PER_MINUTE == t;
    assert StartMinute(after) == t && FirstMatch(sp, t, t);
    assert after < r;
  }
}
