/** The proleptic Gregorian calendar in UTC from 1 January of year 1, the zero time of Go's time
    package: dates by counting days forward, a closed day number, and the proof that they agree. */
module Calendar {

  const MINUTES_PER_DAY := 1440

  predicate Leap(y: int) {
    y % 4 == 0 && (y % 100 != 0 || y % 400 == 0)
  }

  function DaysInMonth(y: int, m: int): int {
    if m == 2 then if Leap(y) then 29 else 28
    else if m in {4, 6, 9, 11} then 30
    else 31
  }

  datatype Date = Date(year: int, month: int, day: int)

  predicate Valid(d: Date) {
    d.year >= 1 && 1 <= d.month <= 12 && 1 <= d.day <= DaysInMonth(d.year, d.month)
  }

  function NextDay(d: Date): Date {
    if d.day < DaysInMonth(d.year, d.month) then d.(day := d.day + 1)
    else if d.month < 12 then Date(d.year, d.month + 1, 1)
    else Date(d.year + 1, 1, 1)
  }

  /** The date `n` days after 1 January of year 1. */
  function DateOf(n: nat): (d: Date)
    ensures Valid(d)
  {
    if n == 0 then Date(1, 1, 1) else NextDay(DateOf(n - 1))
  }

  // 1 January of year 1 is a Monday; Sunday is 0.
  function Weekday(n: nat): int {
    (n + 1) % 7
  }

  // ---- closed form ----

  function YearStart(y: int): int {
    365 * (y - 1) + (y - 1) / 4 - (y - 1) / 100 + (y - 1) / 400
  }

  function DaysBefore(y: int, m: int): int
    requires m >= 1
    decreases m
  {
    if m == 1 then 0 else DaysBefore(y, m - 1) + DaysInMonth(y, m - 1)
  }

  /** Days before the date; a day past the end of its month counts into the next. */
  function DayNumber(d: Date): int
    requires d.month >= 1
  {
    YearStart(d.year) + DaysBefore(d.year, d.month) + d.day - 1
  }

  lemma CountBy4(y: int)
    ensures y / 4 == (y - 1) / 4 + if y % 4 == 0 then 1 else 0
  {
  }

  lemma CountBy100(y: int)
    ensures y / 100 == (y - 1) / 100 + if y % 100 == 0 then 1 else 0
    ensures y % 100 == 0 ==> y % 4 == 0
  {
  }

  lemma CountBy400(y: int)
    ensures y / 400 == (y - 1) / 400 + if y % 400 == 0 then 1 else 0
    ensures y % 400 == 0 ==> y % 100 == 0
  {
  }

  lemma YearLength(y: int)
    ensures YearStart(y + 1) == YearStart(y) + 365 + if Leap(y) then 1 else 0
  {
    CountBy4(y);
    CountBy100(y);
    CountBy400(y);
  }

  lemma MonthTable(y: int, m: int)
    requires 1 <= m <= 12
    ensures DaysBefore(y, m) ==
            (if m == 1 then 0 else if m == 2 then 31 else if m == 3 then 59 else if m == 4 then 90
             else if m == 5 then 120 else if m == 6 then 151 else if m == 7 then 181 else if m == 8 then 212
             else if m == 9 then 243 else if m == 10 then 273 else if m == 11 then 304 else 334) +
            (if m > 2 && Leap(y) then 1 else 0)
  {
    if m > 1 { MonthTable(y, m - 1); }
  }

  lemma DayNumberNext(d: Date)
    requires Valid(d)
    ensures Valid(NextDay(d)) && DayNumber(NextDay(d)) == DayNumber(d) + 1
  {
    if d.month == 12 {
      MonthTable(d.year, 12);
      YearLength(d.year);
    }
  }

  /** Counting days forward and the closed form agree. */
  lemma {:induction false} DayNumberOfDate(n: nat)
    ensures DayNumber(DateOf(n)) == n
  {
    if n > 0 {
      DayNumberOfDate(n - 1);
      DayNumberNext(DateOf(n - 1));
    }
  }

  function PreviousDay(d: Date): Date {
    if d.day > 1 then d.(day := d.day - 1)
    else if d.month > 1 then Date(d.year, d.month - 1, DaysInMonth(d.year, d.month - 1))
    else Date(d.year - 1, 12, 31)
  }

  lemma YearStartGrows(y: int, z: int)
    requires 1 <= y <= z
    ensures YearStart(z) >= YearStart(y) + 365 * (z - y)
    decreases z - y
  {
    if y < z {
      YearStartGrows(y, z - 1);
      YearLength(z - 1);
    }
  }

  lemma DayNumberNonNegative(d: Date)
    requires Valid(d)
    ensures DayNumber(d) >= 0
  {
    YearStartGrows(1, d.year);
    MonthTable(d.year, d.month);
  }

  /** Every valid date is reached by counting: the calendar is a bijection with day numbers. */
  lemma {:induction false} DateOfDayNumber(d: Date)
    requires Valid(d)
    ensures DayNumber(d) >= 0 && DateOf(DayNumber(d)) == d
    decreases DayNumber(d)
  {
    DayNumberNonNegative(d);
    if d != Date(1, 1, 1) {
      var p := PreviousDay(d);
      assert Valid(p) && NextDay(p) == d;
      DayNumberNext(p);
      DayNumberNonNegative(p);
      DateOfDayNumber(p);
    }
  }

  // The year of a day number lies between the years whose starts enclose it.
  lemma YearBounds(d: Date)
    requires Valid(d)
    ensures YearStart(d.year) <= DayNumber(d) < YearStart(d.year + 1)
  {
    MonthTable(d.year, d.month);
    YearLength(d.year);
  }

  // ---- minutes ----

  /** Minute, hour, day of month, month and weekday of a minute counted from year 1. */
  function MinuteOf(t: nat): int { t % 60 }
  function HourOf(t: nat): int { t / 60 % 24 }
  function DayOf(t: nat): nat { t / MINUTES_PER_DAY }

  lemma MinuteAt(day: nat, hour: int, minute: int)
    requires 0 <= hour < 24 && 0 <= minute < 60
    ensures var t: nat := day * MINUTES_PER_DAY + hour * 60 + minute;
            MinuteOf(t) == minute && HourOf(t) == hour && DayOf(t) == day
  {
    var t := day * MINUTES_PER_DAY + hour * 60 + minute;
    assert t / 60 == day * 24 + hour;
  }

  /** The same minute four years on, a 29 February normalised to 1 March. */
  function FourYearsOn(t: nat): int {
    var d := DateOf(DayOf(t));
    DayNumber(d.(year := d.year + 4)) * MINUTES_PER_DAY + t % MINUTES_PER_DAY
  }

  lemma FourYears(y: int)
    requires y >= 1
    ensures YearStart(y + 4) >= YearStart(y) + 1460
    ensures YearStart(y + 4) >= YearStart(y) + 1460 +
              (if Leap(y) && !Leap(y + 4) then 1 else 0)
  {
    YearLength(y);
    YearLength(y + 1);
    YearLength(y + 2);
    YearLength(y + 3);
  }

  lemma FourYearsIsFar(t: nat)
    ensures FourYearsOn(t) >= t + 1460 * MINUTES_PER_DAY
  {
    var d := DateOf(DayOf(t));
    DayNumberOfDate(DayOf(t));
    MonthTable(d.year, d.month);
    MonthTable(d.year + 4, d.month);
    FourYears(d.year);
  }
}
