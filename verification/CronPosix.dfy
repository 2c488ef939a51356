/** The rule of internal/scheduler/cron.go (lines 197-216) for schedules that restrict the day of week
    together with day of month or month, beside the rule of the crontab utility of POSIX.1-2017
    (section INPUT FILES): on which minutes the two differ, and which schedules never show it. */
module CronPosix {
  import opened Calendar
  import opened CronField
  import opened Cron
  import opened CronHorizon
  import opened CronGaps

  predicate DateFieldsMatch(sp: Spec, n: nat) {
    Allowed(sp, DateOf(n).month, DateOf(n).day)
  }

  /** The day of week is restricted, and so is the month or the day of month. */
  predicate RestrictsBoth(sp: Spec) {
    !sp.dow.all && !(sp.month.all && sp.dom.all)
  }

  /** POSIX: a schedule that restricts both means the days that match either. */
  predicate PosixDay(sp: Spec, n: nat) {
    if sp.dow.all then DateFieldsMatch(sp, n)
    else if sp.month.all && sp.dom.all then sp.dow.Matches(Weekday(n))
    else DateFieldsMatch(sp, n) || sp.dow.Matches(Weekday(n))
  }

  predicate MatchesPosix(sp: Spec, t: nat) {
    sp.minute.Matches(MinuteOf(t)) && sp.hour.Matches(HourOf(t)) && PosixDay(sp, DayOf(t))
  }

  /** Every minute the code accepts, POSIX does. The two differ on a minute exactly when the schedule
      restricts both, the time matches, and either the date fields or the weekday match, but not both. */
  lemma DifferIff(sp: Spec, t: nat)
    ensures MatchesCron(sp, t) ==> MatchesPosix(sp, t)
    ensures MatchesCron(sp, t) != MatchesPosix(sp, t) <==>
            && RestrictsBoth(sp) && sp.minute.Matches(MinuteOf(t)) && sp.hour.Matches(HourOf(t))
            && DateFieldsMatch(sp, DayOf(t)) != sp.dow.Matches(Weekday(DayOf(t)))
  {
    MatchesIsConjunction(sp, t);
  }

  ghost predicate Agree(sp: Spec) {
    forall t: nat :: MatchesCron(sp, t) <==> MatchesPosix(sp, t)
  }

  ghost predicate EveryDate(sp: Spec) {
    forall m, d :: SomeYear(m, d) ==> Allowed(sp, m, d)
  }

  predicate EveryWeekday(sp: Spec) {
    forall w :: 0 <= w < 7 ==> sp.dow.Matches(w)
  }

  /** A parsed schedule means the same under both rules exactly when it does not restrict both, or
      restricts nothing in effect: its date fields allow every date and its day of week every weekday. */
  lemma AgreeIff(sp: Spec)
    requires WellFormed(sp)
    ensures Agree(sp) <==> !RestrictsBoth(sp) || (EveryDate(sp) && EveryWeekday(sp))
  {
    if !RestrictsBoth(sp) || (EveryDate(sp) && EveryWeekday(sp)) {
      forall t: nat ensures MatchesCron(sp, t) <==> MatchesPosix(sp, t) {
        DifferIff(sp, t);
        DateExists(DayOf(t));
      }
    } else if EveryDate(sp) {
      var w :| 0 <= w < 7 && !sp.dow.Matches(w);
      assert SomeYear(1, 1);
      Disagree(sp, 1, 1, w);
    } else {
      var m, d :| SomeYear(m, d) && !Allowed(sp, m, d);
      var w :| 0 <= w <= 6 && sp.dow.Matches(w);
      Disagree(sp, m, d, w);
    }
  }

  lemma DateExists(n: nat)
    ensures SomeYear(DateOf(n).month, DateOf(n).day) && 0 <= Weekday(n) < 7
  {
    DayNumberOfDate(n);
  }

  // Some day has the date and the weekday, and some minute of it the time.
  lemma Disagree(sp: Spec, month: int, day: int, dow: int)
    requires WellFormed(sp) && RestrictsBoth(sp) && SomeYear(month, day) && 0 <= dow < 7
    requires Allowed(sp, month, day) != sp.dow.Matches(dow)
    ensures !Agree(sp)
  {
    var n := FallsOn(month, day, dow);
    var hour, minute := SomeTimeOfDay(sp);
    DisagreeAt(sp, n, hour, minute, n * MINUTES_PER_DAY + hour * 60 + minute);
  }

  lemma DisagreeAt(sp: Spec, n: nat, hour: int, minute: int, t: nat)
    requires RestrictsBoth(sp) && DateFieldsMatch(sp, n) != sp.dow.Matches(Weekday(n))
    requires 0 <= hour < 24 && 0 <= minute < 60 && sp.hour.Matches(hour) && sp.minute.Matches(minute)
    requires t == n * MINUTES_PER_DAY + hour * 60 + minute
    ensures !Agree(sp)
  {
    MinuteAt(n, hour, minute);
    DifferIff(sp, t);
  }

  /** "0 0 1 1 1" at midnight of Monday, 8 January of year 1: POSIX fires, the code does not. */
  lemma MondayAfterNewYear(t: nat)
    requires t == 7 * MINUTES_PER_DAY
    ensures DateOf(DayOf(t)) == Date(1, 1, 8) && Weekday(DayOf(t)) == 1
    ensures MatchesPosix(NEW_YEAR_MONDAYS, t) && !MatchesCron(NEW_YEAR_MONDAYS, t)
  {
    var n := EighthOfJanuary();
    MinuteAt(n, 0, 0);
    MondayDiffers(n, t);
  }

  lemma EighthOfJanuary() returns (n: nat)
    ensures n == 7 && DateOf(n) == Date(1, 1, 8) && Weekday(n) == 1
  {
    n := 7;
    EarlyDate(1, 1, 8, n);
  }

  lemma MondayDiffers(n: nat, t: nat)
    requires DateOf(n).day == 8 && Weekday(n) == 1 && DayOf(t) == n && MinuteOf(t) == 0 && HourOf(t) == 0
    ensures MatchesPosix(NEW_YEAR_MONDAYS, t) && !MatchesCron(NEW_YEAR_MONDAYS, t)
  {
    DifferIff(NEW_YEAR_MONDAYS, t);
  }
}
