/** When Next of internal/scheduler/cron.go (lines 184-195) can be relied on to fire. Its scan ends four
    years on, so a schedule that parses may be handed its own argument back. For every parsed
    schedule: exactly when that happens, how long the wait can get, and the inputs that show it. */
module CronHorizon {
  import opened Basics
  import opened Calendar
  import opened CronField
  import opened Cron

  /** From every instant Next moves forward. */
  ghost predicate AlwaysFires(sp: Spec) {
    forall after: nat, r: nat :: IsNext(sp, after, r) ==> r > after
  }

  ghost predicate NeverFires(sp: Spec) {
    forall after: nat, r: nat :: IsNext(sp, after, r) ==> r == after
  }

  // ---- day by day ----

  /** The day on which the scan that starts on day `n` ends. */
  function HorizonDay(n: nat): int {
    var d := DateOf(n); DayNumber(d.(year := d.year + 4))
  }

  lemma HorizonIsFar(n: nat)
    ensures HorizonDay(n) >= n + 1460
  {
    MinuteAt(n, 0, 0);
    FourYearsIsFar(n * MINUTES_PER_DAY);
  }

  // A minute and its time of day.
  function Clock(t: nat): nat { t % MINUTES_PER_DAY }

  lemma MinuteSplits(t: nat)
    ensures t == DayOf(t) * MINUTES_PER_DAY + Clock(t)
    ensures FourYearsOn(t) == HorizonDay(DayOf(t)) * MINUTES_PER_DAY + Clock(t)
    ensures MinuteOf(t) == Clock(t) % 60 && HourOf(t) == Clock(t) / 60
  {
    assert t / 60 == DayOf(t) * 24 + Clock(t) / 60;
  }

  predicate TimeMatches(sp: Spec, clock: nat) {
    clock < MINUTES_PER_DAY && sp.hour.Matches(clock / 60) && sp.minute.Matches(clock % 60)
  }

  lemma MatchesByDay(sp: Spec, t: nat)
    ensures MatchesCron(sp, t) <==> DateMatches(sp, DayOf(t)) && TimeMatches(sp, Clock(t))
  {
    MinuteSplits(t);
    MatchesIsConjunction(sp, t);
  }

  lemma SomeClock(sp: Spec) returns (clock: nat)
    requires WellFormed(sp)
    ensures TimeMatches(sp, clock)
  {
    var hour, minute := SomeTimeOfDay(sp);
    clock := hour * 60 + minute;
  }

  lemma AtClock(n: nat, clock: nat) returns (t: nat)
    requires clock < MINUTES_PER_DAY
    ensures t == n * MINUTES_PER_DAY + clock && DayOf(t) == n && Clock(t) == clock
  {
    t := n * MINUTES_PER_DAY + clock;
  }

  // The instant whose scan starts at minute `t`.
  lemma StartAt(t: nat) returns (after: nat)
    requires t >= 1
    ensures StartMinute(after) == t
  {
    after := (t - 1) * NANOS_PER_MINUTE;
  }

  lemma FallsBack(sp: Spec, after: nat)
    requires forall m :: StartMinute(after) <= m < FourYearsOn(StartMinute(after)) ==> !MatchesCron(sp, m)
    ensures IsNext(sp, after, after)
  {
  }

  // ---- the exact condition, on one cycle of the calendar ----

  const CYCLE := 146097

  /** A scan that starts on day `n` meets a matching day, whatever its time of day: one strictly
      inside, or the first and the last together, or the first with a time no start can miss. */
  ghost predicate Covered(sp: Spec, n: nat) {
    || (exists k: nat :: n < k < HorizonDay(n) && DateMatches(sp, k))
    || (DateMatches(sp, n) && (TimeMatches(sp, MINUTES_PER_DAY - 1) ||
                               (HorizonDay(n) >= 0 && DateMatches(sp, HorizonDay(n)))))
  }

  lemma CoveredFires(sp: Spec, after: nat, r: nat)
    requires WellFormed(sp) && Covered(sp, DayOf(StartMinute(after))) && IsNext(sp, after, r)
    ensures r > after
  {
    var start := StartMinute(after);
    var n := DayOf(start);
    MinuteSplits(start);
    HorizonIsFar(n);
    var clock := SomeClock(sp);
    var m: nat;
    if k: nat :| n < k < HorizonDay(n) && DateMatches(sp, k) {
      m := AtClock(k, clock);
    } else if TimeMatches(sp, MINUTES_PER_DAY - 1) {
      m := AtClock(n, MINUTES_PER_DAY - 1);
    } else if clock >= Clock(start) {
      m := AtClock(n, clock);
    } else {
      m := AtClock(HorizonDay(n), clock);
    }
    MatchesByDay(sp, m);
    NextMovesForward(sp, after, r);
  }

  // A day that is not covered lets a scan miss: from midnight, or from the last minute of the day.
  lemma UncoveredMisses(sp: Spec, n: nat) returns (after: nat)
    requires n >= 1 && !Covered(sp, n)
    ensures IsNext(sp, after, after)
  {
    var clock := if DateMatches(sp, n) then MINUTES_PER_DAY - 1 else 0;
    var t := AtClock(n, clock);
    after := StartAt(t);
    MinuteSplits(t);
    HorizonIsFar(n);
    forall m | t <= m < FourYearsOn(t) ensures !MatchesCron(sp, m) {
      MinuteSplits(m);
      MatchesByDay(sp, m);
      if DateMatches(sp, DayOf(m)) && DayOf(m) == n {
        assert Clock(m) == MINUTES_PER_DAY - 1;
      }
    }
    FallsBack(sp, after);
  }

  lemma CycleOfYears(y: int)
    ensures YearStart(y + 400) == YearStart(y) + CYCLE && (Leap(y + 400) <==> Leap(y))
  {
    Hundreds(y - 1, 4, 100);
    Hundreds(y - 1, 100, 4);
    Hundreds(y - 1, 400, 1);
    Hundreds(y, 4, 100);
    Hundreds(y, 100, 4);
    Hundreds(y, 400, 1);
  }

  lemma Hundreds(x: int, c: int, k: int)
    requires c >= 1 && c * k == 400
    ensures (x + 400) / c == x / c + k && (x + 400) % c == x % c
  {
    assert x + 400 == (x / c + k) * c + x % c;
    DivisionIsUnique(x + 400, x / c + k, x % c, c);
  }

  lemma {:induction false} CycleOfMonths(y: int, m: int)
    requires m >= 1
    ensures DaysBefore(y + 400, m) == DaysBefore(y, m)
    decreases m
  {
    if m > 1 {
      CycleOfYears(y);
      CycleOfMonths(y, m - 1);
    }
  }

  lemma CycleOfDates(d: Date)
    requires d.month >= 1
    ensures DayNumber(d.(year := d.year + 400)) == DayNumber(d) + CYCLE
    ensures Valid(d) ==> Valid(d.(year := d.year + 400))
  {
    CycleOfYears(d.year);
    CycleOfMonths(d.year, d.month);
  }

  lemma CycleOfDate(n: nat)
    ensures DateOf(n + CYCLE) == DateOf(n).(year := DateOf(n).year + 400)
  {
    DayNumberOfDate(n);
    CycleOfDates(DateOf(n));
    DateOfDayNumber(DateOf(n).(year := DateOf(n).year + 400));
  }

  lemma CycleOfHorizon(n: nat)
    ensures HorizonDay(n + CYCLE) == HorizonDay(n) + CYCLE
  {
    CycleOfDate(n);
    CycleOfDates(DateOf(n).(year := DateOf(n).year + 4));
  }

  /** The calendar repeats after 400 years, weekdays included. */
  lemma CycleOfDays(n: nat)
    ensures DateOf(n + CYCLE) == DateOf(n).(year := DateOf(n).year + 400)
    ensures Weekday(n + CYCLE) == Weekday(n) && HorizonDay(n + CYCLE) == HorizonDay(n) + CYCLE
  {
    CycleOfDate(n);
    CycleOfHorizon(n);
    assert CYCLE == 7 * 20871;
  }

  lemma CycleOfMatches(sp: Spec, n: nat)
    ensures DateMatches(sp, n + CYCLE) <==> DateMatches(sp, n)
  {
    CycleOfDays(n);
  }

  lemma CycleOfCover(sp: Spec, n: nat)
    ensures Covered(sp, n + CYCLE) <==> Covered(sp, n)
  {
    CycleOfDays(n);
    CycleOfMatches(sp, n);
    HorizonIsFar(n);
    CycleOfMatches(sp, HorizonDay(n));
    if k: nat :| n < k < HorizonDay(n) && DateMatches(sp, k) {
      CycleOfMatches(sp, k);
      assert n + CYCLE < k + CYCLE < HorizonDay(n + CYCLE) && DateMatches(sp, k + CYCLE);
    }
    if k: nat :| n + CYCLE < k < HorizonDay(n + CYCLE) && DateMatches(sp, k) {
      CycleOfMatches(sp, k - CYCLE);
      assert n < k - CYCLE < HorizonDay(n) && DateMatches(sp, k - CYCLE);
    }
  }

  lemma {:induction false} CoveredThroughout(sp: Spec, n: nat)
    requires forall d: nat :: d < CYCLE ==> Covered(sp, d)
    ensures Covered(sp, n)
  {
    if n >= CYCLE {
      CoveredThroughout(sp, n - CYCLE);
      CycleOfCover(sp, n - CYCLE);
    }
  }

  /** A schedule fires from every instant exactly when each day of one 400-year cycle is covered. */
  lemma AlwaysFiresIff(sp: Spec)
    requires WellFormed(sp)
    ensures AlwaysFires(sp) <==> forall d: nat :: d < CYCLE ==> Covered(sp, d)
  {
    if forall d: nat :: d < CYCLE ==> Covered(sp, d) {
      forall after: nat, r: nat | IsNext(sp, after, r) ensures r > after {
        CoveredThroughout(sp, DayOf(StartMinute(after)));
        CoveredFires(sp, after, r);
      }
    } else {
      var d: nat :| d < CYCLE && !Covered(sp, d);
      CycleOfCover(sp, d);
      var after := UncoveredMisses(sp, d + CYCLE);
    }
  }

  // ---- day of week starred: the dates alone decide ----

  predicate Allowed(sp: Spec, month: int, day: int) {
    sp.month.Matches(month) && sp.dom.Matches(day)
  }

  /** The date exists in every year. */
  predicate EveryYear(month: int, day: int) {
    1 <= month <= 12 && 1 <= day <= if month == 2 then 28 else DaysInMonth(1, month)
  }

  /** The date exists in some year. */
  predicate SomeYear(month: int, day: int) {
    1 <= month <= 12 && 1 <= day <= LongestMonth(month)
  }

  /** When 29 February is the only date a schedule allows at most, it falls back on 1 March before
      every gap of eight years (1896, say), whatever its weekdays. */
  lemma LeapDayGapFallsBack(sp: Spec, y: int, after: nat)
    requires forall m, d :: EveryYear(m, d) ==> !Allowed(sp, m, d)
    requires y >= 1 && Leap(y) && !Leap(y + 4)
    requires after == DayNumber(Date(y, 3, 1)) * MINUTES_PER_DAY * NANOS_PER_MINUTE
    ensures IsNext(sp, after, after)
  {
    var start := StartMinute(after);
    FromFirstOfMarch(y);
    forall t: nat | start <= t < FourYearsOn(start) ensures !MatchesCron(sp, t) {
      NoLeapDayBetween(DayOf(t), y);
      MatchesByDay(sp, t);
      var date := DateOf(DayOf(t));
      assert EveryYear(date.month, date.day);
    }
    FallsBack(sp, after);
  }

  /** With the day of week starred, Next always fires exactly when some allowed date exists in every
      year; then it does within 366 days. */
  lemma AlwaysFiresByDateIff(sp: Spec)
    requires WellFormed(sp) && sp.dow.all
    ensures AlwaysFires(sp) <==> exists m, d :: EveryYear(m, d) && Allowed(sp, m, d)
    ensures AlwaysFires(sp) ==>
              forall after: nat, r: nat :: IsNext(sp, after, r) ==> r <= after + 366 * 1440 * NANOS_PER_MINUTE
  {
    if m, d :| EveryYear(m, d) && Allowed(sp, m, d) {
      forall after: nat, r: nat | IsNext(sp, after, r)
        ensures after < r <= after + 366 * 1440 * NANOS_PER_MINUTE
      {
        YearlyFiresWithinAYear(sp, after, r, m, d);
      }
    } else {
      var after := FirstOfMarch1896();
      LeapDayGapFallsBack(sp, 1896, after);
    }
  }

  lemma FirstOfMarch1896() returns (after: nat)
    ensures after == DayNumber(Date(1896, 3, 1)) * MINUTES_PER_DAY * NANOS_PER_MINUTE
  {
    DateOfDayNumber(Date(1896, 3, 1));
    after := DayNumber(Date(1896, 3, 1)) * MINUTES_PER_DAY * NANOS_PER_MINUTE;
  }

  const LEAP_DAY_ONLY :=
    Spec(FieldSet(false, {0}), FieldSet(false, {0}), FieldSet(false, {29}), FieldSet(false, {2}), FieldSet(true, {}))

  /** "0 0 29 2 *" can fire, yet asked on 1 March 1896 Next falls back, although 29 February 1904
      matches. */
  lemma LeapDayMissed() returns (after: nat)
    ensures after == DayNumber(Date(1896, 3, 1)) * MINUTES_PER_DAY * NANOS_PER_MINUTE
    ensures IsNext(LEAP_DAY_ONLY, after, after)
    ensures DayNumber(Date(1904, 2, 29)) >= 0 &&
            MatchesCron(LEAP_DAY_ONLY, DayNumber(Date(1904, 2, 29)) * MINUTES_PER_DAY)
  {
    after := FirstOfMarch1896();
    LeapDayGapFallsBack(LEAP_DAY_ONLY, 1896, after);
    LeapDayFires(Date(1904, 2, 29));
  }

  lemma FromFirstOfMarch(y: int)
    requires y >= 1
    ensures var n := DayNumber(Date(y, 3, 1));
            n >= 0 && StartMinute(n * MINUTES_PER_DAY * NANOS_PER_MINUTE) == n * MINUTES_PER_DAY + 1 &&
            FourYearsOn(n * MINUTES_PER_DAY + 1) == DayNumber(Date(y + 4, 3, 1)) * MINUTES_PER_DAY + 1
  {
    var d := Date(y, 3, 1);
    DateOfDayNumber(d);
    FirstMinute(DayNumber(d));
    HorizonAfterMidnight(d, DayNumber(d));
  }

  lemma HorizonAfterMidnight(d: Date, n: nat)
    requires DateOf(n) == d
    ensures FourYearsOn(n * MINUTES_PER_DAY + 1) == DayNumber(d.(year := d.year + 4)) * MINUTES_PER_DAY + 1
  {
    var t := AtClock(n, 1);
    MinuteSplits(t);
    assert HorizonDay(n) == DayNumber(d.(year := d.year + 4));
  }

  lemma FirstMinute(n: nat)
    ensures StartMinute(n * MINUTES_PER_DAY * NANOS_PER_MINUTE) == n * MINUTES_PER_DAY + 1
  {
  }

  lemma LeapDayFires(d: Date)
    requires Valid(d) && d.month == 2 && d.day == 29
    ensures DayNumber(d) >= 0 && MatchesCron(LEAP_DAY_ONLY, DayNumber(d) * MINUTES_PER_DAY)
  {
    DateOfDayNumber(d);
    MinuteAt(DayNumber(d), 0, 0);
  }

  lemma NoLeapDayBetween(n: nat, y: int)
    requires y >= 1 && Leap(y) && !Leap(y + 4)
    requires DayNumber(Date(y, 3, 1)) <= n <= DayNumber(Date(y + 4, 3, 1))
    ensures !(DateOf(n).month == 2 && DateOf(n).day == 29)
  {
    var d := DateOf(n);
    if d.month == 2 && d.day == 29 {
      DayNumberOfDate(n);
      SameYears(d, y);
      YearBetween(d.year, y);
      MonthTable(y, 3);
      MonthTable(y, 2);
    }
  }

  // A date between two first-of-Marches lies in one of the years in between.
  lemma SameYears(d: Date, y: int)
    requires Valid(d) && y >= 1
    requires DayNumber(Date(y, 3, 1)) <= DayNumber(d) <= DayNumber(Date(y + 4, 3, 1))
    ensures y <= d.year <= y + 4
  {
    YearBounds(d);
    YearBounds(Date(y, 3, 1));
    YearBounds(Date(y + 4, 3, 1));
    YearOrder(d.year, y, DayNumber(d));
    YearOrder(y + 4, d.year, DayNumber(d));
  }

  // A day past the end of year `z` does not lie in an earlier year.
  lemma YearOrder(y: int, z: int, n: int)
    requires y >= 1 && z >= 1
    ensures n >= YearStart(z) && y < z ==> n >= YearStart(y + 1)
  {
    if y < z { YearStartGrows(y + 1, z); }
  }

  lemma YearBetween(d: int, y: int)
    requires Leap(d) && y <= d <= y + 4 && Leap(y)
    ensures d == y || d == y + 4
  {
  }
}
