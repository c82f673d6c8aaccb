/** The expressions that `get_prev` serves wrongly, one kind of fault after another: for each
    there is a moment at which it returns a wrong time or never returns. */
module CronRetraceExact {
  import opened Wrappers
  import opened Calendar
  import opened CronFields
  import opened CronClock
  import opened CronPrev
  import opened CronBackward
  import opened CronBackwardExact
  import opened CronYears
  import opened CronSchedule
  import opened CronRetrace

  // ---------------------------------------------------------------- both searches come too early

  /** Wherever the search may stop, that is before `e`. */
  ghost predicate AllEarlier(ex: Expanded, start: DateTime, e: DateTime)
    requires ex.Valid() && start.Valid()
  {
    forall n: nat :: Stops(ex, start, n) ==> Ticks(ex, Run(ex, start, start, n)) < Ticks(ex, e)
  }

  lemma FirstStepEarlier(ex: Expanded, start: DateTime, d': DateTime, e: DateTime)
    requires ex.Valid() && start.Valid() && Step(ex, start, start) == Some(d') && Ticks(ex, d') < Ticks(ex, e)
    requires ex.day.Values? ==> !Sticks(ex.day.vs, Wraparound(start))
    ensures AllEarlier(ex, start, e)
  {
    hide IsLeap, MonthStart, FromSeconds, Step, Run, Sticks, DateTime.Valid;
    forall n: nat | Stops(ex, start, n) ensures Ticks(ex, Run(ex, start, start, n)) < Ticks(ex, e) {
      RunTurns(ex, start, start, n);
      RunTurns(ex, start, start, 0);
      RunRetreats(ex, start, d', n - 1);
    }
  }

  /** What one search returns is then before `e`. */
  lemma ReturnsEarlier(ex: Expanded, start: DateTime, e: DateTime, t: int)
    requires ex.Valid() && start.Valid() && e.Valid() && AllEarlier(ex, start, e) && Returns(ex, NowFor(ex, start), t)
    ensures t < e.Seconds()
  {
    hide IsLeap, MonthStart, FromSeconds, Step, Run;
    RoundTrip(start);
    var n: nat :| Stops(ex, start, n) && t == Settle(ex, Run(ex, start, start, n)).Seconds();
    var r := Run(ex, start, start, n);
    Settled(ex, r);
    LaterTicks(ex, Settle(ex, r), e);
  }

  lemma BothEarlier(ex: Expanded, start: DateTime, e: DateTime)
    requires ex.Valid() && EitherDay(ex) && start.Valid() && ex.Fires(e) && Ticks(ex, e) <= Ticks(ex, start)
    requires AllEarlier(ex.ByDay(), start, e)
    requires forall t :: Returns(ex.ByWeekday(), NowFor(ex, start), t) ==> t < e.Seconds()
    ensures !PrevCorrect(ex, NowFor(ex, start))
  {
    hide IsLeap, MonthStart, FromSeconds, AllEarlier, Returns;
    var now := NowFor(ex, start);
    RoundTrip(start);
    RoundTrip(e);
    FiresIsUnion(ex, e);
    StartTicksBack(if ex.ByDay().Matches(e) then ex.ByDay() else ex.ByWeekday(), now, e);
    forall t | PrevReturns(ex, now, t) ensures !FiredLast(ex, now, t) {
      var t1, t2 :| Returns(ex.ByDay(), now, t1) && Returns(ex.ByWeekday(), now, t2) && t == if t1 > t2 then t1 else t2;
      ReturnsEarlier(ex.ByDay(), start, e, t1);
    }
  }

  lemma WeekdaysEarlier(ex: Expanded, start: DateTime, e: DateTime)
    requires ex.Valid() && start.Valid() && e.Valid() && AllEarlier(ex.ByWeekday(), start, e)
    ensures forall t :: Returns(ex.ByWeekday(), NowFor(ex, start), t) ==> t < e.Seconds()
  {
    hide IsLeap, MonthStart, FromSeconds, AllEarlier, Returns;
    forall t | Returns(ex.ByWeekday(), NowFor(ex, start), t) ensures t < e.Seconds() {
      ReturnsEarlier(ex.ByWeekday(), start, e, t);
    }
  }

  // ---------------------------------------------------------------- lost months

  /** From January, both searches pass December. */
  lemma BothSkipDecember(ex: Expanded)
    requires ex.Valid() && EitherDay(ex) && SkipsDecember(ex)
    ensures exists now :: !PrevCorrect(ex, now)
  {
    hide IsLeap, MonthStart, FromSeconds, Step, CronPrev.ProcMonth, AllEarlier, Returns;
    var e := DecemberMatch(ex.ByWeekday());
    var start := LastSecond(2001, 1, 31);
    var d' := DecemberPassed(ex.ByWeekday(), start, e);
    var c' := DecemberPassed(ex.ByDay(), start, e);
    assert Wraparound(start) == 31;
    assert ex.day.vs[|ex.day.vs| - 1] in ex.day.vs;
    FirstStepEarlier(ex.ByWeekday(), start, d', e);
    FirstStepEarlier(ex.ByDay(), start, c', e);
    WeekdaysEarlier(ex, start, e);
    FiresIsUnion(ex, e);
    BothEarlier(ex, start, e);
  }

  lemma DecemberPassed(ex: Expanded, start: DateTime, e: DateTime) returns (d': DateTime)
    requires ex.Valid() && SkipsDecember(ex) && start == LastSecond(2001, 1, 31)
    requires e.Valid() && e.MonthIndex() == 12 * 2000 + 11
    ensures d'.Valid() && Step(ex, start, start) == Some(d') && Ticks(ex, d') < Ticks(ex, e) <= Ticks(ex, start)
  {
    hide IsLeap, MonthStart, FromSeconds, Step, CronPrev.ProcMonth;
    DecemberJump(ex, start);
    d' := ProcMonth(ex, start).value;
    FirstStep(ex, start);
    Order(d', e);
    Order(e, start);
    LaterDay(ex, d', e);
    LaterDay(ex, e, start);
  }

  /** From March of a leap year, both searches enter February on the 28th. */
  lemma BothSkipLeapDay(ex: Expanded)
    requires ex.Valid() && EitherDay(ex) && ex.month.Values? && 2 in ex.month.vs && 3 !in ex.month.vs
    ensures exists now :: !PrevCorrect(ex, now)
  {
    hide MonthStart, FromSeconds, Step, CronPrev.ProcMonth, AllEarlier, Returns;
    assert ex.weekday.vs[0] in ex.weekday.vs;
    var year := FebruaryEndsOn(29, ex.weekday.vs[0]);
    FirstAllowedMatches(ex.ByWeekday(), year, 2, 29);
    var start, e := LastSecond(year, 3, 1), FirstAllowed(ex.ByWeekday(), year, 2, 29);
    FebruaryEntered(ex.ByWeekday(), start, e);
    FirstStepEarlier(ex.ByWeekday(), start, Step(ex.ByWeekday(), start, start).value, e);
    DaysEarlier(ex, start, e);
    WeekdaysEarlier(ex, start, e);
    FiresIsUnion(ex, e);
    BothEarlier(ex, start, e);
  }

  lemma FebruaryEntered(ex: Expanded, start: DateTime, e: DateTime)
    requires ex.Valid() && start.Valid() && start == LastSecond(start.year, 3, 1)
    requires ex.month.Values? && 2 in ex.month.vs && 3 !in ex.month.vs
    requires e.Valid() && e.year == start.year && e.month == 2 && e.day == 29
    ensures Step(ex, start, start).Some? && Step(ex, start, start) == ProcMonth(ex, start)
    ensures var d' := Step(ex, start, start).value;
      && d'.Valid() && d'.MonthIndex() == e.MonthIndex() && d'.month == 2 && d'.day == 28 && d'.TimeOfDay() == DAY_SECONDS - 1
      && d'.Ordinal() < e.Ordinal() && Ticks(ex, d') < Ticks(ex, e) <= Ticks(ex, start)
  {
    hide IsLeap, MonthStart, FromSeconds, Step, CronPrev.ProcMonth;
    MonthEntered(ex, start, 2);
    FirstStep(ex, start);
    var d' := CronPrev.ProcMonth(ex, start).value;
    Gap(d', e);
    LaterDay(ex, d', e);
    Order(e, start);
    LaterDay(ex, e, start);
  }

  /** So the day search ends before the 29th, even where it sticks. */
  lemma DaysEarlier(ex: Expanded, start: DateTime, e: DateTime)
    requires ex.Valid() && EitherDay(ex) && start.Valid() && start == LastSecond(start.year, 3, 1)
    requires ex.month.Values? && 2 in ex.month.vs && 3 !in ex.month.vs
    requires e.Valid() && e.year == start.year && e.month == 2 && e.day == 29
    ensures AllEarlier(ex.ByDay(), start, e)
  {
    hide IsLeap, MonthStart, FromSeconds, Step, CronPrev.ProcMonth, AllEarlier;
    var byDay, vs := ex.ByDay(), ex.day.vs;
    FebruaryEntered(byDay, start, e);
    var d' := Step(byDay, start, start).value;
    if !Sticks(vs, 28) {
      FirstStepEarlier(byDay, start, d', e);
    } else if 28 in vs {
      AllowedMonthStays(byDay, d');
      ClockBounds(byDay);
      RunTurns(byDay, start, start, 1);
      RunTurns(byDay, start, d', 0);
      EveningEarlier(byDay, start, 1, e);
    } else {
      assert vs[0] in vs;
      var m, d := TooShortSteps(byDay, start, 2);
      RunTurns(byDay, start, start, 2);
      RunTurns(byDay, start, m, 1);
      RunTurns(byDay, start, d, 0);
      RunTurns(byDay, start, start, 1);
      RunTurns(byDay, start, m, 0);
      EveningEarlier(byDay, start, 2, e);
    }
  }

  /** After `k` turns it is the evening of a day before `e`. */
  lemma EveningEarlier(ex: Expanded, start: DateTime, k: nat, e: DateTime)
    requires ex.Valid() && start.Valid() && e.Valid()
    requires var d := Run(ex, start, start, k); Evening(ex, start, d) && d.Ordinal() < e.Ordinal()
    requires forall j: nat :: j < k ==> !Stops(ex, start, j)
    ensures AllEarlier(ex, start, e)
  {
    hide IsLeap, MonthStart, FromSeconds, Step, Run, Evening;
    forall n: nat | Stops(ex, start, n) ensures Ticks(ex, Run(ex, start, start, n)) < Ticks(ex, e) {
      RunSplits(ex, start, start, k, n);
      EveningRun(ex, start, Run(ex, start, start, k), n - k);
      LaterDay(ex, Run(ex, start, start, n), e);
    }
  }

  // ---------------------------------------------------------------- a search that sticks

  /** The day search settles on the day it is on after `k` turns. */
  lemma SettlesOnDay(ex: Expanded, start: DateTime, k: nat, t: int)
    requires ex.Valid() && start.Valid() && Returns(ex, NowFor(ex, start), t)
    requires Evening(ex, start, Run(ex, start, start, k)) && forall j: nat :: j < k ==> !Stops(ex, start, j)
    ensures var d := FromSeconds(t); var r := Run(ex, start, start, k);
      d.Ordinal() == r.Ordinal() && d.MonthIndex() == r.MonthIndex() && d.day == r.day
  {
    hide IsLeap, MonthStart, FromSeconds, Step, Run, Evening;
    RoundTrip(start);
    var n: nat :| Stops(ex, start, n) && t == Settle(ex, Run(ex, start, start, n)).Seconds();
    RunSplits(ex, start, start, k, n);
    EveningRun(ex, start, Run(ex, start, start, k), n - k);
    SettledThere(ex, Run(ex, start, start, n), Run(ex, start, start, k));
  }

  lemma SettledThere(ex: Expanded, r: DateTime, d: DateTime)
    requires r.Valid() && d.Valid() && r.Ordinal() == d.Ordinal()
    ensures var c := FromSeconds(Settle(ex, r).Seconds());
      c.Ordinal() == d.Ordinal() && c.MonthIndex() == d.MonthIndex() && c.day == d.day
  {
    hide IsLeap, MonthStart, FromSeconds;
    Settled(ex, r);
    Gap(d, d);
    SameDay(r, d.MonthIndex(), d.day);
    RoundTrip(Settle(ex, r));
  }

  /** A search that sticks by two days or more goes forward from the first of March, and
      settles on a day after it. */
  lemma GoesForward(ex: Expanded, s: int)
    requires ex.Valid() && EitherDay(ex) && 1 <= s <= 12 && ex.month.Allows(s)
    requires var vs, r := ex.day.vs, Days(PrevMonth(s)); Sticks(vs, r) && r + 2 <= vs[|vs| - 1]
    ensures exists now :: !PrevCorrect(ex, now)
  {
    hide IsLeap, MonthStart, FromSeconds, Step, Returns;
    var start := LastSecond(2001, s, 1);
    var d := ForwardStep(ex.ByDay(), start, s);
    RunTurns(ex.ByDay(), start, start, 0);
    RunTurns(ex.ByDay(), start, start, 1);
    RunTurns(ex.ByDay(), start, d, 0);
    var now := NowFor(ex, start);
    hide Run, Evening;
    forall t | PrevReturns(ex, now, t) ensures !FiredLast(ex, now, t) {
      var t1, t2 :| Returns(ex.ByDay(), now, t1) && Returns(ex.ByWeekday(), now, t2) && t == if t1 > t2 then t1 else t2;
      SettlesOnDay(ex.ByDay(), start, 1, t1);
      NextDayStarts(ex, start, t1);
    }
    assert !PrevCorrect(ex, now);
  }

  lemma ForwardStep(ex: Expanded, start: DateTime, s: int) returns (d: DateTime)
    requires DaysOnly(ex) && 1 <= s <= 12 && ex.month.Allows(s) && start == LastSecond(2001, s, 1)
    requires var vs, r := ex.day.vs, Days(PrevMonth(s)); Sticks(vs, r) && r + 2 <= vs[|vs| - 1]
    ensures start.Valid() && Step(ex, start, start) == Some(d) && Evening(ex, start, d) && d.Ordinal() > start.Ordinal()
  {
    hide IsLeap, MonthStart, FromSeconds, Step;
    var vs, r := ex.day.vs, Days(PrevMonth(s));
    assert vs[0] in vs && vs[|vs| - 1] in vs;
    AllowedMonthStays(ex, start);
    FirstStep(ex, start);
    d := ProcDay(ex, start, start).value;
    DayStep(ex, start, start, d);
    LandsIn(start, d, vs[|vs| - 1] - r);
    AllowedMonthStays(ex, d);
    ClockBounds(ex);
  }

  /** A time on a later day than `start`, the last second of its own, is not before the tick
      after it. */
  lemma NextDayStarts(ex: Expanded, start: DateTime, t: int)
    requires start.Valid() && start.TimeOfDay() == DAY_SECONDS - 1 && FromSeconds(t).Ordinal() > start.Ordinal()
    ensures t >= TickStart(ex, NowFor(ex, start))
  {
    hide IsLeap, MonthStart, FromSeconds;
    var n := start.Ordinal() + 1;
    assert t >= DAY_SECONDS * n;
    if ex.second.None? {
      assert NowFor(ex, start) == 60 * (1440 * n) + 59;
      Minutes(NowFor(ex, start), 1440 * n, 59);
    }
  }

  /** A search that sticks on the first of a month, with a weekday that is not listed. */
  lemma StaysOnFirst(ex: Expanded, s: int, w: int)
    requires ex.Valid() && EitherDay(ex) && !LosesMonth(ex) && 1 <= s <= 12 && ex.month.Allows(s)
    requires var vs, r := ex.day.vs, Days(PrevMonth(s)); Sticks(vs, r) && r + 1 == vs[|vs| - 1]
    requires 0 <= w < 7 && !ex.weekday.Allows(w)
    ensures exists now :: !PrevCorrect(ex, now)
  {
    hide IsLeap, MonthStart, FromSeconds, Step, Returns;
    var year := MonthBeginsOn(s, w);
    var start := LastSecond(year, s, 1);
    StuckOnFirst(ex.ByDay(), start, s);
    RunTurns(ex.ByDay(), start, start, 0);
    var now := NowFor(ex, start);
    RoundTrip(start);
    hide Run, Evening;
    forall t | PrevReturns(ex, now, t) ensures !FiredLast(ex, now, t) {
      var t1, t2 :| Returns(ex.ByDay(), now, t1) && Returns(ex.ByWeekday(), now, t2) && t == if t1 > t2 then t1 else t2;
      SettlesOnDay(ex.ByDay(), start, 0, t1);
      WeekdayBefore(ex, start, w, t2);
      LaterDayIsLater(t1, t2);
      assert 1 !in ex.day.vs;
    }
    assert !PrevCorrect(ex, now);
  }

  lemma StuckOnFirst(ex: Expanded, start: DateTime, s: int)
    requires DaysOnly(ex) && 1 <= s <= 12 && ex.month.Allows(s) && start == LastSecond(start.year, s, 1)
    requires var vs, r := ex.day.vs, Days(PrevMonth(s)); Sticks(vs, r) && r + 1 == vs[|vs| - 1]
    ensures start.Valid() && Evening(ex, start, start) && 1 !in ex.day.vs
  {
    hide IsLeap, MonthStart, FromSeconds, Step;
    var vs := ex.day.vs;
    assert vs[0] in vs && vs[|vs| - 1] in vs;
    AllowedMonthStays(ex, start);
    ClockBounds(ex);
  }

  /** The weekday search, which is right, comes to an earlier day than that of `start`. */
  lemma WeekdayBefore(ex: Expanded, start: DateTime, w: int, t: int)
    requires ex.Valid() && EitherDay(ex) && !LosesMonth(ex) && start.Valid()
    requires start.Weekday() == w && !ex.weekday.Allows(w) && Returns(ex.ByWeekday(), NowFor(ex, start), t)
    ensures FromSeconds(t).Ordinal() < start.Ordinal()
  {
    hide IsLeap, MonthStart, FromSeconds, Returns;
    var f := WeekdayFound(ex, start, t);
    Order(start, f);
  }

  /** What the weekday search returns is a match, no later than `start`. */
  lemma WeekdayFound(ex: Expanded, start: DateTime, t: int) returns (f: DateTime)
    requires ex.Valid() && EitherDay(ex) && !LosesMonth(ex) && start.Valid()
    requires Returns(ex.ByWeekday(), NowFor(ex, start), t)
    ensures f == FromSeconds(t) && ex.ByWeekday().Matches(f) && Ticks(ex, f) <= Ticks(ex, start)
  {
    hide IsLeap, MonthStart, FromSeconds, Returns;
    f := FromSeconds(t);
    RoundTrip(start);
    LosesMonthMeans(ex);
    WeekdaysAreSatisfiable(ex);
    FaultlessIsCorrect(ex.ByWeekday(), NowFor(ex, start));
    StartTicksBack(ex.ByWeekday(), NowFor(ex, start), f);
  }

  lemma LaterDayIsLater(t: int, u: int)
    requires FromSeconds(u).Ordinal() < FromSeconds(t).Ordinal()
    ensures u < t
  {
    hide IsLeap, MonthStart, FromSeconds;
  }

  // ---------------------------------------------------------------- a last day dropped

  /** From the midnight that follows it, the day search drops the last day of a month, and the
      weekday search finds nothing there. */
  lemma DroppedDay(ex: Expanded, s: int, w: int)
    requires ex.Valid() && EitherDay(ex) && !LosesMonth(ex) && 1 <= s <= 12 && ex.month.Allows(s)
    requires DropsLastDay(ex.day.vs, ex.month, s) && 0 <= w < 7 && Exposed(ex, w)
    ensures exists now :: !PrevCorrect(ex, now)
  {
    hide IsLeap, MonthStart, FromSeconds, Step, Returns, AllEarlier, Exposed;
    var year := DroppedOn(ex.day.vs, ex.month, s, w);
    var start := DateTime(year, s, 1, 0, 0, 0);
    var e := LastDayBefore(ex.ByDay(), start);
    DaysAhead(start.Ordinal(), e.Ordinal());
    assert e.Weekday() == w;
    DropStep(ex.ByDay(), start, e);
    Order(e, start);
    LaterDay(ex, e, start);
    forall t | Returns(ex.ByWeekday(), NowFor(ex, start), t) ensures t < e.Seconds() {
      var f := WeekdayFound(ex, start, t);
      ExposedBefore(ex, start, e, f);
      LaterDay(ex, f, e);
    }
    FiresIsUnion(ex, e);
    BothEarlier(ex, start, e);
  }

  /** The first step of the day search passes it for good. */
  lemma DropStep(ex: Expanded, start: DateTime, e: DateTime)
    requires DaysOnly(ex) && start.Valid() && start.day == 1 && ex.month.Allows(start.month)
    requires DropsLastDay(ex.day.vs, ex.month, start.month)
    requires e.Valid() && e.Ordinal() == start.Ordinal() - 1 && e.MonthIndex() == start.MonthIndex() - 1
    ensures AllEarlier(ex, start, e)
  {
    hide IsLeap, MonthStart, FromSeconds, Step, AllEarlier;
    var d' := DropJump(ex, start);
    LaterDay(ex, d', e);
    FirstStepEarlier(ex, start, d', e);
  }

  /** A match of the weekday search by midnight is before the exposed day. */
  lemma ExposedBefore(ex: Expanded, start: DateTime, e: DateTime, f: DateTime)
    requires ex.Valid() && start.Valid() && start.TimeOfDay() == 0 && e.Valid() && e.Ordinal() == start.Ordinal() - 1
    requires Exposed(ex, e.Weekday()) && ex.ByWeekday().Matches(f) && Ticks(ex, f) <= Ticks(ex, start)
    ensures f.Ordinal() < e.Ordinal()
  {
    hide IsLeap, MonthStart;
    Order(start, f);
    DaysAhead(e.Ordinal(), start.Ordinal());
  }

  // ---------------------------------------------------------------- the family is exact

  lemma ForgetsIsWrong(ex: Expanded)
    requires ex.Valid() && EitherDay(ex) && Forgets(ex)
    ensures exists now :: !PrevCorrect(ex, now)
  {
    hide PrevCorrect, DropsLastDay, Sticks;
    if SkipsDecember(ex) {
      BothSkipDecember(ex);
    } else if LosesMonth(ex) {
      BothSkipLeapDay(ex);
    } else {
      var s :| 1 <= s <= 12 && ex.month.Allows(s) && LosesEither(ex, s);
      LosesEitherIsWrong(ex, s);
    }
  }

  lemma LosesEitherIsWrong(ex: Expanded, s: int)
    requires ex.Valid() && EitherDay(ex) && !LosesMonth(ex) && 1 <= s <= 12 && ex.month.Allows(s) && LosesEither(ex, s)
    ensures exists now :: !PrevCorrect(ex, now)
  {
    hide PrevCorrect, DropsLastDay, Exposed;
    var vs, r := ex.day.vs, Days(PrevMonth(s));
    if DropsLastDay(vs, ex.month, s) && exists w :: 0 <= w < 7 && Exposed(ex, w) {
      var w :| 0 <= w < 7 && Exposed(ex, w);
      DroppedDay(ex, s, w);
    } else if r + 2 <= vs[|vs| - 1] {
      GoesForward(ex, s);
    } else {
      var w :| 0 <= w < 7 && !ex.weekday.Allows(w);
      StaysOnFirst(ex, s, w);
    }
  }

  /** `get_prev` returns, with the last time at which the schedule fired, at every moment
      exactly when the expression has none of the faults. */
  lemma PrevTimeFiredLastIff(ex: Expanded)
    requires Usable(ex)
    ensures (forall now: int :: PrevCorrect(ex, now)) <==> !Forgets(ex)
  {
    hide PrevCorrect;
    if !Forgets(ex) {
      forall now: int ensures PrevCorrect(ex, now) {
        PrevTimeFiredLast(ex, now);
      }
    } else if EitherDay(ex) {
      ForgetsIsWrong(ex);
    } else {
      FaultIsWrong(ex);
      var now :| !Correct(ex, now);
      SameAsOne(ex, now);
    }
  }

  // ---------------------------------------------------------------- two examples

  /** The 5th and the 31st, and Monday to Friday, at midnight: a 31st on a Saturday is missed. */
  lemma ThirtyFirstForgotten()
    ensures var ex := Expanded(Values([0]), Values([0]), Values([5, 31]), Star, Values([1, 2, 3, 4, 5]), None);
      Usable(ex) && Forgets(ex)
  {
    var ex := Expanded(Values([0]), Values([0]), Values([5, 31]), Star, Values([1, 2, 3, 4, 5]), None);
    assert [5, 31][1] == 31;
    assert DropsLastDay(ex.day.vs, ex.month, 1) && Exposed(ex, 6);
    assert ex.month.Allows(1) && LosesEither(ex, 1);
  }

  /** The 29th, and all seven weekdays: the day search has a fault, and the weekday search
      makes up for it. */
  lemma TwentyNinthKept()
    ensures var ex := Expanded(Values([0]), Values([0]), Values([29]), Star, Values([0, 1, 2, 3, 4, 5, 6]), None);
      Usable(ex) && PrevMisses(ex.ByDay()) && !Forgets(ex)
  {
    var ex := Expanded(Values([0]), Values([0]), Values([29]), Star, Values([0, 1, 2, 3, 4, 5, 6]), None);
    var week := [0, 1, 2, 3, 4, 5, 6];
    assert week[0] == 0 && week[1] == 1 && week[2] == 2 && week[3] == 3 && week[4] == 4 && week[5] == 5 && week[6] == 6;
    assert FullWeek(ex);
    assert ex.ByDay().month.Allows(3) && LosesDay(ex.day.vs, ex.month, 3);
    assert ex.month.Allows(1);
  }
}
