/** The five-field schedule of internal/scheduler/cron.go: parsing, matching a minute and the
    minute-by-minute scan for the next one, in UTC. Instants are nanoseconds, minutes are counted
    from 1 January of year 1. */
module Cron {
  import opened Basics
  import opened Numerals
  import opened Text
  import opened Calendar
  import opened CronField

  datatype Spec = Spec(minute: FieldSet, hour: FieldSet, dom: FieldSet, month: FieldSet, dow: FieldSet)

  // ---- parsing ----

  function WordLength(s: string): (n: nat)
    ensures n <= |s|
  {
    if s == [] || IsSpace(s[0]) then 0 else 1 + WordLength(s[1..])
  }

  // The words of a text, as strings.Fields cuts them.
  function Words(s: string): seq<string>
    decreases |s|
  {
    if s == [] then []
    else if IsSpace(s[0]) then Words(s[1..])
    else
      var n := WordLength(s);
      [s[..n]] + Words(s[n..])
  }

  function ParseCronSpec(s: string): Option<Spec> {
    var w := Words(s);
    if |w| != 5 then None
    else
      var a := ParseFieldSpec(w[0], 0, 59);
      var b := ParseFieldSpec(w[1], 0, 23);
      var c := ParseFieldSpec(w[2], 1, 31);
      var d := ParseFieldSpec(w[3], 1, 12);
      var e := ParseFieldSpec(w[4], 0, 6);
      if a.None? || b.None? || c.None? || d.None? || e.None? then None
      else Some(Spec(a.value, b.value, c.value, d.value, e.value))
  }

  method ParseCron(s: string) returns (r: Option<Spec>)
    ensures r == ParseCronSpec(s)
  {
    var w := Words(s);
    if |w| != 5 {
      return None;
    }
    var defs: seq<(string, Int64, Int64)> := [(w[0], 0, 59), (w[1], 0, 23), (w[2], 1, 31), (w[3], 1, 12), (w[4], 0, 6)];
    var fields: seq<FieldSet> := [];
    for i := 0 to 5
      invariant |fields| == i
      invariant forall j :: 0 <= j < i ==> ParseFieldSpec(defs[j].0, defs[j].1, defs[j].2) == Some(fields[j])
    {
      var f := ParseField(defs[i].0, defs[i].1, defs[i].2);
      if f.None? {
        return None;
      }
      fields := fields + [f.value];
    }
    return Some(Spec(fields[0], fields[1], fields[2], fields[3], fields[4]));
  }

  // ---- matching ----

  /** matchesCron, branch by branch. */
  predicate MatchesCron(sp: Spec, t: nat) {
    var d := DateOf(DayOf(t));
    var dow := Weekday(DayOf(t));
    if !sp.minute.Matches(MinuteOf(t)) || !sp.hour.Matches(HourOf(t)) || !sp.month.Matches(d.month) then false
    else if sp.dom.all && sp.dow.all then true
    else if !sp.dom.all && !sp.dow.all then sp.dom.Matches(d.day) && sp.dow.Matches(dow)
    else if sp.dom.all then sp.dow.Matches(dow)
    else sp.dom.Matches(d.day)
  }

  /** A minute matches exactly when all five fields do: day of month and day of week are both
      required when both are restricted. */
  lemma MatchesIsConjunction(sp: Spec, t: nat)
    ensures MatchesCron(sp, t) <==>
            && sp.minute.Matches(MinuteOf(t)) && sp.hour.Matches(HourOf(t))
            && sp.dom.Matches(DateOf(DayOf(t)).day) && sp.month.Matches(DateOf(DayOf(t)).month)
            && sp.dow.Matches(Weekday(DayOf(t)))
  {
  }

  // ---- the scan ----

  const NANOS_PER_MINUTE := 60_000_000_000

  /** The first minute after the instant. */
  function StartMinute(after: nat): nat {
    (after + NANOS_PER_MINUTE) / NANOS_PER_MINUTE
  }

  /** `m` is the first matching minute from `t` on. */
  ghost predicate FirstMatch(sp: Spec, t: nat, m: nat) {
    && t <= m && MatchesCron(sp, m)
    && forall k :: t <= k < m ==> !MatchesCron(sp, k)
  }

  /** What Next returns: the first matching minute when it lies before the horizon four years on,
      and the given instant itself otherwise. */
  ghost predicate IsNext(sp: Spec, after: nat, r: nat) {
    var start := StartMinute(after);
    if exists m :: start <= m < FourYearsOn(start) && MatchesCron(sp, m) then
      && r % NANOS_PER_MINUTE == 0 && r / NANOS_PER_MINUTE < FourYearsOn(start)
      && FirstMatch(sp, start, r / NANOS_PER_MINUTE)
    else r == after
  }

  method NextCron(sp: Spec, after: nat) returns (r: nat)
    ensures IsNext(sp, after, r)
  {
    var t := StartMinute(after);
    var horizon := FourYearsOn(t);
    ghost var start := t;
    while t < horizon
      invariant start <= t
      invariant forall k :: start <= k < t ==> !MatchesCron(sp, k)
    {
      if MatchesCron(sp, t) {
        assert FirstMatch(sp, start, t);
        return t * NANOS_PER_MINUTE;
      }
      t := t + 1;
    }
    return after;
  }

  lemma NextIsUnique(sp: Spec, after: nat, r: nat, q: nat)
    requires IsNext(sp, after, r) && IsNext(sp, after, q)
    ensures r == q
  {
  }

  /** Next either falls back to its argument or moves strictly forward. */
  lemma NextMovesForward(sp: Spec, after: nat, r: nat)
    requires IsNext(sp, after, r)
    ensures r >= after
    ensures r > after <==>
            exists m :: StartMinute(after) <= m < FourYearsOn(StartMinute(after)) && MatchesCron(sp, m)
    ensures r > after ==> r % 60_000_000_000 == 0 && MatchesCron(sp, r / 60_000_000_000)
  {
    var start := StartMinute(after);
    assert start * NANOS_PER_MINUTE > after;
    if r != after {
      assert r / NANOS_PER_MINUTE >= start;
      assert r >= start * NANOS_PER_MINUTE;
    }
  }

  // ---- iterating ----

  /** `runs` are the results of calling Next again and again, none of which fell back. */
  ghost predicate Iterates(sp: Spec, after: nat, runs: seq<nat>) {
    forall i :: 0 <= i < |runs| ==> NextLeg(sp, after, runs, i)
  }

  ghost predicate NextLeg(sp: Spec, after: nat, runs: seq<nat>, i: nat)
    requires i < |runs|
  {
    IsNext(sp, Before(after, runs, i), runs[i]) && runs[i] != Before(after, runs, i)
  }

  function Before(after: nat, runs: seq<nat>, i: nat): nat
    requires i <= |runs|
  {
    if i == 0 then after else runs[i - 1]
  }

  // The walk over matching minutes, for any notion `p` of matching.

  /** From `prior` to the matching minute `r` with no matching minute in between. */
  ghost predicate Advances(p: nat -> bool, prior: nat, r: nat) {
    && prior < r && r % NANOS_PER_MINUTE == 0 && p(r / NANOS_PER_MINUTE)
    && forall m: nat :: p(m) ==> m * NANOS_PER_MINUTE <= prior || r <= m * NANOS_PER_MINUTE
  }

  ghost predicate Marches(p: nat -> bool, after: nat, runs: seq<nat>) {
    forall i :: 0 <= i < |runs| ==> Leg(p, after, runs, i)
  }

  ghost predicate Leg(p: nat -> bool, after: nat, runs: seq<nat>, i: nat)
    requires i < |runs|
  {
    Advances(p, Before(after, runs, i), runs[i])
  }

  lemma {:induction false} MarchIncreases(p: nat -> bool, after: nat, runs: seq<nat>, i: nat, j: nat)
    requires Marches(p, after, runs) && i < j <= |runs|
    ensures Before(after, runs, i) < Before(after, runs, j)
    decreases j
  {
    assert Leg(p, after, runs, j - 1);
    if i < j - 1 { MarchIncreases(p, after, runs, i, j - 1); }
  }

  // Minute `m` lies in the stretch the k-th call covered.
  lemma {:induction false} MarchCovers(p: nat -> bool, after: nat, runs: seq<nat>, x: nat, n: nat) returns (k: nat)
    requires Marches(p, after, runs) && n <= |runs|
    requires after < x <= Before(after, runs, n)
    ensures k < n && Before(after, runs, k) < x <= runs[k]
    decreases n
  {
    if x <= Before(after, runs, n - 1) {
      k := MarchCovers(p, after, runs, x, n - 1);
    } else {
      k := n - 1;
    }
  }

  lemma MarchVisits(p: nat -> bool, after: nat, runs: seq<nat>, m: nat)
    requires Marches(p, after, runs)
    requires after < m * NANOS_PER_MINUTE <= Before(after, runs, |runs|)
    ensures p(m) <==> m * NANOS_PER_MINUTE in runs
  {
    var x := m * NANOS_PER_MINUTE;
    assert x / NANOS_PER_MINUTE == m;
    var k := MarchCovers(p, after, runs, x, |runs|);
    assert Leg(p, after, runs, k);
    if x in runs {
      var i :| 0 <= i < |runs| && runs[i] == x;
      assert Leg(p, after, runs, i);
    }
  }

  lemma NextAdvances(sp: Spec, prior: nat, r: nat)
    requires IsNext(sp, prior, r) && r != prior
    ensures Advances((t: nat) => MatchesCron(sp, t), prior, r)
  {
    NextMovesForward(sp, prior, r);
    forall m: nat | MatchesCron(sp, m) ensures m * NANOS_PER_MINUTE <= prior || r <= m * NANOS_PER_MINUTE {
      if m >= StartMinute(prior) {
        assert r / NANOS_PER_MINUTE <= m;
      }
    }
  }

  /** Iterating Next visits matching minutes only, in strictly increasing order, and up to the
      last one visited it skips none. */
  lemma IterationVisitsMatches(sp: Spec, after: nat, runs: seq<nat>)
    requires Iterates(sp, after, runs)
    ensures forall i :: 0 <= i < |runs| ==> after < runs[i]
    ensures forall i, j :: 0 <= i < j < |runs| ==> runs[i] < runs[j]
    ensures forall m: nat :: after < m * NANOS_PER_MINUTE <= Before(after, runs, |runs|) ==>
              (MatchesCron(sp, m) <==> m * NANOS_PER_MINUTE in runs)
    ensures forall i :: 0 <= i < |runs| ==> runs[i] % NANOS_PER_MINUTE == 0
  {
    var p := (t: nat) => MatchesCron(sp, t);
    forall i | 0 <= i < |runs| ensures Leg(p, after, runs, i) {
      assert NextLeg(sp, after, runs, i);
      NextAdvances(sp, Before(after, runs, i), runs[i]);
    }
    MarchIsVisit(p, after, runs);
  }

  lemma MarchIsVisit(p: nat -> bool, after: nat, runs: seq<nat>)
    requires Marches(p, after, runs)
    ensures forall i :: 0 <= i < |runs| ==> after < runs[i]
    ensures forall i, j :: 0 <= i < j < |runs| ==> runs[i] < runs[j]
    ensures forall m: nat :: after < m * NANOS_PER_MINUTE <= Before(after, runs, |runs|) ==>
              (p(m) <==> m * NANOS_PER_MINUTE in runs)
    ensures forall i :: 0 <= i < |runs| ==> runs[i] % NANOS_PER_MINUTE == 0
  {
    forall i | 0 <= i < |runs| ensures after < runs[i] {
      MarchIncreases(p, after, runs, 0, i + 1);
    }
    forall i, j | 0 <= i < j < |runs| ensures runs[i] < runs[j] {
      MarchIncreases(p, after, runs, i + 1, j + 1);
    }
    forall m: nat | after < m * NANOS_PER_MINUTE <= Before(after, runs, |runs|)
      ensures p(m) <==> m * NANOS_PER_MINUTE in runs
    {
      MarchVisits(p, after, runs, m);
    }
    forall i | 0 <= i < |runs| ensures runs[i] % NANOS_PER_MINUTE == 0 {
      assert Leg(p, after, runs, i);
    }
  }

  // ---- Next never falls back on a schedule that can fire ----

  // A minute that matches before the horizon bounds what Next returns.
  lemma NextWithin(sp: Spec, after: nat, r: nat, m: nat, days: nat)
    requires IsNext(sp, after, r) && days <= 1460
    requires StartMinute(after) <= m < StartMinute(after) + days * MINUTES_PER_DAY && MatchesCron(sp, m)
    ensures after < r <= after + days * MINUTES_PER_DAY * NANOS_PER_MINUTE
  {
    FourYearsIsFar(StartMinute(after));
    NextMovesForward(sp, after, r);
    assert r / NANOS_PER_MINUTE <= m;
  }

  /** A field as the parser produces it: it allows some value of its range. */
  predicate Usable(f: FieldSet, min: int, max: int) {
    exists v :: min <= v <= max && f.Matches(v)
  }

  ghost predicate WellFormed(sp: Spec) {
    && Usable(sp.minute, 0, 59) && Usable(sp.hour, 0, 23) && Usable(sp.dom, 1, 31)
    && Usable(sp.month, 1, 12) && Usable(sp.dow, 0, 6)
  }

  /** Whatever parses is well-formed. */
  lemma ParsedIsWellFormed(s: string)
    requires ParseCronSpec(s).Some?
    ensures WellFormed(ParseCronSpec(s).value)
  {
    var w := Words(s);
    FieldUsable(w[0], 0, 59);
    FieldUsable(w[1], 0, 23);
    FieldUsable(w[2], 1, 31);
    FieldUsable(w[3], 1, 12);
    FieldUsable(w[4], 0, 6);
  }

  // A time of day the minute and hour fields allow.
  lemma SomeTimeOfDay(sp: Spec) returns (hour: int, minute: int)
    requires WellFormed(sp)
    ensures 0 <= hour < 24 && 0 <= minute < 60 && sp.hour.Matches(hour) && sp.minute.Matches(minute)
  {
    hour :| 0 <= hour <= 23 && sp.hour.Matches(hour);
    minute :| 0 <= minute <= 59 && sp.minute.Matches(minute);
  }

  // On a day whose date fields match, the schedule fires at that time of day.
  lemma FiresOn(sp: Spec, day: nat, hour: int, minute: int) returns (m: nat)
    requires 0 <= hour < 24 && 0 <= minute < 60 && sp.hour.Matches(hour) && sp.minute.Matches(minute)
    requires sp.dom.Matches(DateOf(day).day) && sp.month.Matches(DateOf(day).month) && sp.dow.Matches(Weekday(day))
    ensures m == day * MINUTES_PER_DAY + hour * 60 + minute && MatchesCron(sp, m)
  {
    m := day * MINUTES_PER_DAY + hour * 60 + minute;
    MinuteAt(day, hour, minute);
    MatchesIsConjunction(sp, m);
  }

  predicate DateMatches(sp: Spec, day: nat) {
    sp.dom.Matches(DateOf(day).day) && sp.month.Matches(DateOf(day).month) && sp.dow.Matches(Weekday(day))
  }

  // Two matching days, the first near today and the second after it, bound the wait.
  lemma FiresWithin(sp: Spec, after: nat, r: nat, d1: nat, d2: nat, days: nat)
    requires WellFormed(sp) && IsNext(sp, after, r) && days <= 1460
    requires DateMatches(sp, d1) && DateMatches(sp, d2)
    requires var today := DayOf(StartMinute(after));
             d1 < today + days && today < d2 <= d1 + days
    ensures after < r <= after + days * MINUTES_PER_DAY * NANOS_PER_MINUTE
  {
    var start := StartMinute(after);
    var hour, minute := SomeTimeOfDay(sp);
    var m := FiresOn(sp, d1, hour, minute);
    if m < start {
      m := FiresOn(sp, d2, hour, minute);
    }
    NextWithin(sp, after, r, m, days);
  }

  /** With all three date fields starred, Next fires within a day. */
  lemma DailyFiresWithinADay(sp: Spec, after: nat, r: nat)
    requires WellFormed(sp) && sp.dom.all && sp.month.all && sp.dow.all && IsNext(sp, after, r)
    ensures after < r <= after + 1440 * NANOS_PER_MINUTE
  {
    var today := DayOf(StartMinute(after));
    FiresWithin(sp, after, r, today, today + 1, 1);
  }

  lemma WeekdayAhead(today: nat, w: int) returns (day: nat)
    requires 0 <= w <= 6
    ensures today <= day < today + 7 && Weekday(day) == w && Weekday(day + 7) == w
  {
    day := today + (w - Weekday(today)) % 7;
  }

  /** With only the day of week restricted, Next fires within a week. */
  lemma WeeklyFiresWithinAWeek(sp: Spec, after: nat, r: nat)
    requires WellFormed(sp) && sp.dom.all && sp.month.all && IsNext(sp, after, r)
    ensures after < r <= after + 7 * 1440 * NANOS_PER_MINUTE
  {
    var w :| 0 <= w <= 6 && sp.dow.Matches(w);
    var day := WeekdayAhead(DayOf(StartMinute(after)), w);
    FiresWithin(sp, after, r, day, day + 7, 7);
  }

  /** With the day of week starred and some allowed date that every year has, Next fires within
      366 days. */
  lemma YearlyFiresWithinAYear(sp: Spec, after: nat, r: nat, month: int, day: int)
    requires WellFormed(sp) && sp.dow.all && IsNext(sp, after, r)
    requires 1 <= month <= 12 && sp.month.Matches(month)
    requires 1 <= day && sp.dom.Matches(day) && (day <= if month == 2 then 28 else DaysInMonth(1, month))
    ensures after < r <= after + 366 * 1440 * NANOS_PER_MINUTE
  {
    var today := DayOf(StartMinute(after));
    var d1, d2 := YearlyDates(today, month, day);
    FiresWithin(sp, after, r, d1, d2, 366);
  }

  lemma YearlyDates(today: nat, month: int, day: int) returns (d1: nat, d2: nat)
    requires 1 <= month <= 12 && 1 <= day <= if month == 2 then 28 else DaysInMonth(1, month)
    ensures DateOf(d1).month == DateOf(d2).month == month && DateOf(d1).day == DateOf(d2).day == day
    ensures d1 < today + 366 && today < d2 <= d1 + 366
  {
    var y := DateOf(today).year;
    SameDateNextYear(y, month, day);
    DateInItsYear(today, month, day);
    DateOfDayNumber(Date(y, month, day));
    DateOfDayNumber(Date(y + 1, month, day));
    d1, d2 := DayNumber(Date(y, month, day)), DayNumber(Date(y + 1, month, day));
    DayNumberOfDate(today);
    YearBounds(DateOf(today));
    YearBounds(Date(y + 1, month, day));
  }

  lemma SameDateNextYear(y: int, month: int, day: int)
    requires y >= 1 && 1 <= month <= 12 && 1 <= day <= if month == 2 then 28 else DaysInMonth(1, month)
    ensures Valid(Date(y, month, day)) && Valid(Date(y + 1, month, day))
    ensures DayNumber(Date(y, month, day)) + 365 <= DayNumber(Date(y + 1, month, day))
    ensures DayNumber(Date(y + 1, month, day)) <= DayNumber(Date(y, month, day)) + 366
  {
    MonthTable(y, month);
    MonthTable(y + 1, month);
    YearLength(y);
  }

  // A date of the current year is less than a year ahead of today.
  lemma DateInItsYear(n: nat, month: int, day: int)
    requires 1 <= month <= 12 && 1 <= day <= if month == 2 then 28 else DaysInMonth(1, month)
    ensures DayNumber(Date(DateOf(n).year, month, day)) <= n + 365
  {
    var y := DateOf(n).year;
    DayNumberOfDate(n);
    YearBounds(DateOf(n));
    SameDateNextYear(y, month, day);
    YearBounds(Date(y, month, day));
    YearLength(y);
  }

  // ---- schedules that parse and never fire ----

  /** The longest the month ever gets. */
  function LongestMonth(m: int): int {
    if m == 2 then 29 else DaysInMonth(1, m)
  }

  /** When no allowed day exists in any allowed month, no minute matches and Next always falls
      back to its argument. */
  lemma ImpossibleDateNeverFires(sp: Spec, after: nat, r: nat)
    requires forall m, d :: 1 <= m <= 12 && 1 <= d <= LongestMonth(m) ==> !(sp.month.Matches(m) && sp.dom.Matches(d))
    requires IsNext(sp, after, r)
    ensures r == after
  {
    forall t: nat ensures !MatchesCron(sp, t) {
      var date := DateOf(DayOf(t));
      assert date.day <= LongestMonth(date.month);
      MatchesIsConjunction(sp, t);
    }
  }

  // ---- daily@ ----

  /** parseDaily's kind: the next instant at the given time of day. */
  method NextDaily(hour: int, minute: int, after: nat) returns (next: nat)
    requires 0 <= hour < 24 && 0 <= minute < 60
    ensures next > after
    ensures next % NANOS_PER_MINUTE == 0
    ensures HourOf(next / NANOS_PER_MINUTE) == hour && MinuteOf(next / NANOS_PER_MINUTE) == minute
    ensures next <= after + 1440 * NANOS_PER_MINUTE
  {
    var day := DayOf(after / NANOS_PER_MINUTE);
    var m: nat := day * MINUTES_PER_DAY + hour * 60 + minute;
    MinuteAt(day, hour, minute);
    if m * NANOS_PER_MINUTE <= after {
      m := m + MINUTES_PER_DAY;
      MinuteAt(day + 1, hour, minute);
    }
    next := m * NANOS_PER_MINUTE;
    assert next / NANOS_PER_MINUTE == m;
  }

  /** A daily schedule and the cron line "minute hour * * *" agree on every instant. */
  lemma DailyIsCron(hour: int, minute: int, after: nat, next: nat, r: nat)
    requires 0 <= hour < 24 && 0 <= minute < 60
    requires next > after && next % NANOS_PER_MINUTE == 0 && next <= after + 1440 * NANOS_PER_MINUTE
    requires HourOf(next / NANOS_PER_MINUTE) == hour && MinuteOf(next / NANOS_PER_MINUTE) == minute
    requires IsNext(DailySpec(hour, minute), after, r)
    ensures next == r
  {
    var sp := DailySpec(hour, minute);
    var m := next / NANOS_PER_MINUTE;
    MatchesIsConjunction(sp, m);
    NextWithin(sp, after, r, m, 1);
    NextAdvances(sp, after, r);
    var k := r / NANOS_PER_MINUTE;
    MatchesIsConjunction(sp, k);
    SameTimeOfDay(k, m);
    assert after < k * NANOS_PER_MINUTE <= m * NANOS_PER_MINUTE <= after + 1440 * NANOS_PER_MINUTE;
    CloseMultiple(k - m);
  }

  lemma CloseMultiple(d: int)
    requires d % 1440 == 0 && -1440 < d <= 0
    ensures d == 0
  {
  }

  function DailySpec(hour: int, minute: int): Spec {
    Spec(FieldSet(false, {minute}), FieldSet(false, {hour}), FieldSet(true, {}), FieldSet(true, {}), FieldSet(true, {}))
  }

  lemma SameTimeOfDay(k: nat, m: nat)
    requires MinuteOf(k) == MinuteOf(m) && HourOf(k) == HourOf(m)
    ensures (k - m) % 1440 == 0
  {
    assert k / 60 == k / 1440 * 24 + HourOf(k);
    assert m / 60 == m / 1440 * 24 + HourOf(m);
    assert k - m == 1440 * (k / 1440 - m / 1440);
  }
}
