/** The faults of the backward search are real: for every expression that has one there is
    a moment at which the search returns a wrong time or never returns. */
module CronBackwardExact {
  import opened Wrappers
  import opened Calendar
  import opened CronFields
  import opened CronClock
  import opened CronPrev
  import opened CronForward
  import opened CronBackward
  import opened CronYears

  /** The search returns, and only ever returns, the greatest match before now. */
  ghost predicate Correct(ex: Expanded, now: int)
    requires ex.Valid()
  {
    && (exists t :: Returns(ex, now, t))
    && (forall t :: Returns(ex, now, t) ==> GreatestBefore(ex, now, t))
  }

  lemma {:induction false} RunFinds(ex: Expanded, start: DateTime, d: DateTime, bound: DateTime) returns (n: nat)
    requires Searchable(ex) && !PrevMisses(ex) && Inv(ex, start, d)
    requires ex.Matches(bound) && Ticks(ex, bound) <= Ticks(ex, d)
    ensures Step(ex, start, Run(ex, start, d, n)).None?
    ensures Settle(ex, Run(ex, start, d, n)) == SearchBack(ex, start, d, bound)
    decreases Ticks(ex, d) - Ticks(ex, bound)
  {
    hide IsLeap, MonthStart, FromSeconds;
    n := 0;
    if Step(ex, start, d).Some? {
      var d' := Step(ex, start, d).value;
      StepKeeps(ex, start, d, d');
      StepReaches(ex, start, d, d', bound);
      n := RunFinds(ex, start, d', bound);
      n := n + 1;
    }
  }

  lemma FaultlessIsCorrect(ex: Expanded, now: int)
    requires Searchable(ex) && Satisfiable(ex) && !PrevMisses(ex)
    ensures Correct(ex, now)
  {
    hide IsLeap, MonthStart, FromSeconds, Step;
    var start := Start(ex, now);
    var n := RunFinds(ex, start, start, CronBackward.Bound(ex, start));
    assert Stops(ex, start, n);
    assert Returns(ex, now, Prev(ex, now));
    PrevIsGreatest(ex, now);
    forall t | Returns(ex, now, t) ensures t == Prev(ex, now) {
      ReturnsOnce(ex, now, t, Prev(ex, now));
    }
  }

  lemma {:induction false} RunRetreats(ex: Expanded, start: DateTime, d: DateTime, n: nat)
    requires ex.Valid() && d.Valid()
    requires ex.day.Values? ==> !Sticks(ex.day.vs, Wraparound(start))
    ensures Ticks(ex, Run(ex, start, d, n)) <= Ticks(ex, d)
    decreases n
  {
    hide Step, Run, Ticks, Sticks, Expanded.Valid, DateTime.Valid;
    RunTurns(ex, start, d, n);
    if n > 0 && Step(ex, start, d).Some? {
      StepRetreats(ex, start, d, Step(ex, start, d).value);
      RunRetreats(ex, start, Step(ex, start, d).value, n - 1);
    }
  }

  /** After the last allowed time of a day that the date columns leave alone, the run
      stays within that day. */
  ghost predicate Evening(ex: Expanded, start: DateTime, d: DateTime)
    requires ex.Valid()
  {
    && d.Valid() && d.TimeOfDay() >= ex.Closing()
    && ProcMonth(ex, d).None? && ProcDay(ex, start, d).None? && ProcWeekday(ex, d).None?
  }

  lemma EveningStep(ex: Expanded, start: DateTime, d: DateTime, d': DateTime)
    requires ex.Valid() && Evening(ex, start, d) && Step(ex, start, d) == Some(d')
    ensures Evening(ex, start, d') && d'.Ordinal() == d.Ordinal()
  {
    hide IsLeap, MonthStart;
    if ProcHour(ex, d).Some? {
      HourKeepsClosing(ex, d, d');
    } else if ProcMinute(ex, d).Some? {
      MinuteKeepsClosing(ex, d, d');
    } else {
      SecondKeepsClosing(ex, d, d');
    }
    Gap(d, d);
    SameDay(d', d.MonthIndex(), d.day);
    SameMonth(d, d');
  }

  lemma {:induction false} EveningRun(ex: Expanded, start: DateTime, d: DateTime, n: nat)
    requires ex.Valid() && d.Valid() && Evening(ex, start, d)
    ensures Run(ex, start, d, n).Ordinal() == d.Ordinal()
    decreases n
  {
    hide Step, Run, Evening, Expanded.Valid, DateTime.Valid, DateTime.Ordinal;
    RunTurns(ex, start, d, n);
    if n > 0 && Step(ex, start, d).Some? {
      EveningStep(ex, start, d, Step(ex, start, d).value);
      EveningRun(ex, start, Step(ex, start, d).value, n - 1);
    }
  }

  // ---------------------------------------------------------------- two ways of being wrong

  /** The moment from which the backward search starts at `start`. */
  function NowFor(ex: Expanded, start: DateTime): int { start.Seconds() + ex.Unit() }

  lemma EarlierReturn(ex: Expanded, now: int, r: DateTime, e: DateTime)
    requires r.Valid() && ex.Matches(e) && e.Seconds() < TickStart(ex, now) && Ticks(ex, r) < Ticks(ex, e)
    ensures !GreatestBefore(ex, now, Settle(ex, r).Seconds())
  {
    hide IsLeap, MonthStart, FromSeconds, Settle;
    Settled(ex, r);
    LaterTicks(ex, Settle(ex, r), e);
    RoundTrip(e);
  }

  /** The first step passes a match and the search never comes back to it. */
  lemma PassedMatch(ex: Expanded, start: DateTime, d': DateTime, e: DateTime)
    requires Searchable(ex) && start.Valid() && Step(ex, start, start) == Some(d')
    requires ex.day.Values? ==> !Sticks(ex.day.vs, Wraparound(start))
    requires ex.Matches(e) && Ticks(ex, d') < Ticks(ex, e) <= Ticks(ex, start)
    ensures !Correct(ex, NowFor(ex, start))
  {
    hide IsLeap, MonthStart, FromSeconds, Step, Run, Sticks, GreatestBefore;
    var now := NowFor(ex, start);
    RoundTrip(start);
    StartTicksBack(ex, now, e);
    forall t | Returns(ex, now, t) ensures !GreatestBefore(ex, now, t) {
      var n: nat :| Stops(ex, start, n) && t == Settle(ex, Run(ex, start, start, n)).Seconds();
      RunTurns(ex, start, start, n);
      RunTurns(ex, start, start, 0);
      var r := Run(ex, start, d', n - 1);
      RunRetreats(ex, start, d', n - 1);
      EarlierReturn(ex, now, r, e);
    }
  }

  lemma {:induction false} RunSplits(ex: Expanded, start: DateTime, d: DateTime, k: nat, n: nat)
    requires ex.Valid() && d.Valid() && k <= n
    ensures Run(ex, start, d, n) == Run(ex, start, Run(ex, start, d, k), n - k)
    decreases k
  {
    hide Step, Run, Expanded.Valid, DateTime.Valid;
    RunTurns(ex, start, d, n);
    RunTurns(ex, start, d, k);
    if k > 0 && Step(ex, start, d).Some? {
      RunSplits(ex, start, Step(ex, start, d).value, k - 1, n - 1);
    } else {
      RunTurns(ex, start, d, n - k);
    }
  }

  /** The search settles on a day that the day column does not list. */
  lemma UnlistedDay(ex: Expanded, start: DateTime, k: nat)
    requires Searchable(ex) && start.Valid()
    requires var d := Run(ex, start, start, k); Evening(ex, start, d) && !ex.day.Allows(d.day)
    requires forall j: nat :: j < k ==> !Stops(ex, start, j)
    ensures !Correct(ex, NowFor(ex, start))
  {
    hide IsLeap, MonthStart, FromSeconds, Step;
    var now, d := NowFor(ex, start), Run(ex, start, start, k);
    RoundTrip(start);
    forall t | Returns(ex, now, t) ensures !GreatestBefore(ex, now, t) {
      var n: nat :| Stops(ex, start, n) && t == Settle(ex, Run(ex, start, start, n)).Seconds();
      RunSplits(ex, start, start, k, n);
      EveningRun(ex, start, d, n - k);
      SettledDay(ex, Run(ex, start, start, n), d);
    }
  }

  lemma SettledDay(ex: Expanded, r: DateTime, d: DateTime)
    requires r.Valid() && d.Valid() && r.Ordinal() == d.Ordinal()
    ensures FromSeconds(Settle(ex, r).Seconds()).day == d.day
  {
    hide IsLeap, MonthStart, FromSeconds;
    Settled(ex, r);
    Gap(d, d);
    SameDay(r, d.MonthIndex(), d.day);
    RoundTrip(Settle(ex, r));
  }

  // ---------------------------------------------------------------- the faults

  lemma DecemberMatch(ex: Expanded) returns (e: DateTime)
    requires Searchable(ex) && SkipsDecember(ex)
    ensures ex.Matches(e) && e.MonthIndex() == 12 * 2000 + 11
  {
    hide IsLeap, MonthStart;
    var day := 1;
    if ex.day.Values? {
      day := ex.day.vs[0];
      assert day in ex.day.vs;
    } else if ex.weekday.Values? {
      assert ex.weekday.vs[0] in ex.weekday.vs;
      day := DayOnWeekday(12 * 2000 + 11, ex.weekday.vs[0]);
    }
    FirstAllowedMatches(ex, 2000, 12, day);
    e := FirstAllowed(ex, 2000, 12, day);
  }

  /** From January, back to a month below December, past a match in December. */
  lemma DecemberSkipped(ex: Expanded)
    requires Searchable(ex) && SkipsDecember(ex)
    ensures exists now :: !Correct(ex, now)
  {
    hide IsLeap, MonthStart, FromSeconds, Step, CronPrev.ProcMonth;
    var e := DecemberMatch(ex);
    var start := LastSecond(2001, 1, 31);
    DecemberJump(ex, start);
    var d' := ProcMonth(ex, start).value;
    Order(d', e);
    Order(e, start);
    LaterDay(ex, e, start);
    LaterDay(ex, d', e);
    FirstStep(ex, start);
    assert Wraparound(start) == 31;
    assert ex.day.Values? ==> ex.day.vs[|ex.day.vs| - 1] in ex.day.vs;
    PassedMatch(ex, start, d', e);
  }

  lemma DecemberJump(ex: Expanded, start: DateTime)
    requires ex.Valid() && SkipsDecember(ex) && start == LastSecond(2001, 1, 31)
    ensures ProcMonth(ex, start).Some? && ProcMonth(ex, start).value.Valid()
    ensures ProcMonth(ex, start).value.MonthIndex() < 12 * 2000 + 11
  {
    hide IsLeap, MonthStart;
    var vs := ex.month.vs;
    assert vs[0] in vs;
    assert AtMost(vs, 1).None? && AtMost(vs, 11).Some?;
    MonthStep(ex, start, ProcMonth(ex, start).value);
  }

  lemma FirstStep(ex: Expanded, d: DateTime)
    requires ex.Valid() && d.Valid()
    ensures ProcMonth(ex, d).Some? ==> Step(ex, d, d) == ProcMonth(ex, d)
    ensures ProcMonth(ex, d).None? && ProcDay(ex, d, d).Some? ==> Step(ex, d, d) == ProcDay(ex, d, d)
  {
  }

  /** From within a month whose wrap-around sticks, at the day where it does. */
  lemma StuckAtStart(ex: Expanded, s: int)
    requires Searchable(ex) && ex.day.Values? && 1 <= s <= 12 && ex.month.Allows(s)
    requires Sticks(ex.day.vs, Days(PrevMonth(s)))
    ensures exists now :: !Correct(ex, now)
  {
    hide IsLeap, MonthStart, Step;
    var vs, r := ex.day.vs, Days(PrevMonth(s));
    assert vs[0] in vs && vs[|vs| - 1] in vs;
    var start := LastSecond(2001, s, vs[|vs| - 1] - r);
    assert start.day < vs[0];
    AllowedMonthStays(ex, start);
    ClockBounds(ex);
    assert Run(ex, start, start, 0) == start;
    UnlistedDay(ex, start, 0);
  }

  lemma AllowedMonthStays(ex: Expanded, d: DateTime)
    requires ex.Valid() && d.Valid() && ex.month.Allows(d.month)
    ensures ProcMonth(ex, d).None?
  {
  }

  /** From the month after one too short for every listed day: entered on its last day, that
      month holds the search at one of its first three. */
  lemma TooShort(ex: Expanded, q: int)
    requires Searchable(ex) && ex.day.Values? && 1 <= q <= 11 && ex.month.Allows(q) && !ex.month.Allows(q + 1)
    requires Days(q) < ex.day.vs[0]
    ensures exists now :: !Correct(ex, now)
  {
    hide IsLeap, MonthStart, FromSeconds, Step, CronPrev.ProcMonth, CronPrev.ProcDay;
    var start := LastSecond(2001, q + 1, 1);
    var m, d := TooShortSteps(ex, start, q);
    assert Run(ex, start, start, 0) == start && Run(ex, start, start, 1) == Run(ex, start, m, 0) == m;
    assert Run(ex, start, start, 2) == Run(ex, start, m, 1) == Run(ex, start, d, 0) == d;
    UnlistedDay(ex, start, 2);
  }

  lemma TooShortSteps(ex: Expanded, start: DateTime, q: int) returns (m: DateTime, d: DateTime)
    requires Searchable(ex) && ex.day.Values? && 1 <= q <= 11 && ex.month.Allows(q) && !ex.month.Allows(q + 1)
    requires Days(q) < ex.day.vs[0] && start == LastSecond(start.year, q + 1, 1)
    ensures m.Valid() && Step(ex, start, start) == Some(m)
    ensures Step(ex, start, m) == Some(d) && Evening(ex, start, d) && !ex.day.Allows(d.day) && d.Ordinal() < m.Ordinal()
  {
    hide IsLeap, MonthStart, FromSeconds, Step, CronPrev.ProcMonth;
    var vs, r := ex.day.vs, Days(q);
    assert vs[0] in vs && vs[|vs| - 1] in vs;
    MonthEntered(ex, start, q);
    m := CronPrev.ProcMonth(ex, start).value;
    FirstStep(ex, start);
    AllowedMonthStays(ex, m);
    d := CronPrev.ProcDay(ex, start, m).value;
    DayStep(ex, start, m, d);
    LandsIn(m, d, vs[|vs| - 1] - r);
    SecondStepIs(ex, start, m);
    AllowedMonthStays(ex, d);
    ClockBounds(ex);
  }

  lemma SecondStepIs(ex: Expanded, start: DateTime, d: DateTime)
    requires ex.Valid() && d.Valid() && ProcMonth(ex, d).None? && ProcDay(ex, start, d).Some?
    ensures Step(ex, start, d) == ProcDay(ex, start, d)
  {
  }

  /** From just after an allowed month into its last day, by the common-year table. */
  lemma MonthEntered(ex: Expanded, start: DateTime, q: int)
    requires ex.Valid() && start.Valid() && start.month == q + 1 && ex.month.Allows(q) && !ex.month.Allows(q + 1)
    ensures ProcMonth(ex, start).Some?
    ensures var m := ProcMonth(ex, start).value;
      m.Valid() && m.MonthIndex() == start.MonthIndex() - 1 && m.month == q && m.day == Days(q)
      && m.TimeOfDay() == DAY_SECONDS - 1
  {
    hide IsLeap, MonthStart;
    assert AtMost(ex.month.vs, q + 1) == Some(q);
    var m := ProcMonth(ex, start).value;
    MonthStep(ex, start, m);
    Residues(m);
    Residues(start);
    Wrap(start.MonthIndex(), -1, 12);
  }

  lemma LandsIn(m: DateTime, d: DateTime, day: int)
    requires m.Valid() && d.Valid() && 1 <= day <= 28 && d.Ordinal() == m.Ordinal() - m.day + day
    ensures d.MonthIndex() == m.MonthIndex() && d.month == m.month && d.day == day
  {
    hide IsLeap, MonthStart;
    Gap(m, m);
    SameDay(d, m.MonthIndex(), day);
    SameMonth(d, m);
  }

  /** The year in which month `s` begins on weekday `w + 1`, after a month whose last day is
      listed. */
  lemma DroppedOn(vs: seq<int>, month: Field, s: int, w: int) returns (year: int)
    requires |vs| > 0 && 1 <= s <= 12 && DropsLastDay(vs, month, s) && 0 <= w < 7
    ensures MonthLength(if s == 1 then year - 1 else year, PrevMonth(s)) in vs
    ensures MonthStart(12 * year + s - 1) % 7 == (w + 1) % 7
  {
    hide IsLeap, MonthStart;
    var p := PrevMonth(s);
    if p == 2 {
      var length := if 28 in vs then 28 else 29;
      year := FebruaryEndsOn(length, w);
      MonthFollows(year, 2);
      DaysAhead(MonthStart(12 * year + 1) + length - 1, MonthStart(12 * year + 2));
    } else {
      year := MonthBeginsOn(s, (w + 1) % 7);
    }
  }

  /** The first allowed time of the last day before the first of a month. */
  lemma LastDayBefore(ex: Expanded, start: DateTime) returns (e: DateTime)
    requires Searchable(ex) && ex.day.Values? && start.Valid() && start.day == 1 && ex.month.Allows(PrevMonth(start.month))
    requires MonthLength(if start.month == 1 then start.year - 1 else start.year, PrevMonth(start.month)) in ex.day.vs
    ensures ex.Matches(e) && e.Ordinal() == start.Ordinal() - 1 && e.MonthIndex() == start.MonthIndex() - 1
  {
    hide IsLeap, MonthStart;
    var p, y := PrevMonth(start.month), if start.month == 1 then start.year - 1 else start.year;
    FirstAllowedMatches(ex, y, p, MonthLength(y, p));
    e := FirstAllowed(ex, y, p, MonthLength(y, p));
    Gap(e, e);
    MonthBefore(start);
  }

  /** The first step of the search passes that day. */
  lemma DropJump(ex: Expanded, start: DateTime) returns (d': DateTime)
    requires ex.Valid() && ex.day.Values? && start.Valid() && start.day == 1 && ex.month.Allows(start.month)
    requires DropsLastDay(ex.day.vs, ex.month, start.month)
    ensures d'.Valid() && Step(ex, start, start) == Some(d') && d'.Ordinal() < start.Ordinal() - 1
    ensures !Sticks(ex.day.vs, Wraparound(start))
  {
    hide IsLeap, MonthStart, FromSeconds, Step;
    var vs := ex.day.vs;
    assert vs[0] in vs;
    AllowedMonthStays(ex, start);
    FirstStep(ex, start);
    d' := ProcDay(ex, start, start).value;
    DayStep(ex, start, start, d');
  }

  /** From the first day of a month, back past the last listed days of the month before it. */
  lemma DaysSkipped(ex: Expanded, s: int)
    requires Searchable(ex) && ex.day.Values? && 1 <= s <= 12 && ex.month.Allows(s) && DropsLastDay(ex.day.vs, ex.month, s)
    ensures exists now :: !Correct(ex, now)
  {
    hide IsLeap, MonthStart, FromSeconds, Step, Sticks;
    var year := DroppedOn(ex.day.vs, ex.month, s, 0);
    var start := LastSecond(year, s, 1);
    var e := LastDayBefore(ex, start);
    var d' := DropJump(ex, start);
    LaterDay(ex, d', e);
    LaterDay(ex, e, start);
    PassedMatch(ex, start, d', e);
  }

  /** From March of a leap year, into February on the 28th, past a match on the 29th. */
  lemma LeapDaySkipped(ex: Expanded)
    requires Searchable(ex) && SkipsLeapDay(ex)
    requires ex.day.Values? ==> !Sticks(ex.day.vs, 28)
    ensures exists now :: !Correct(ex, now)
  {
    hide MonthStart, FromSeconds, Step, CronPrev.ProcMonth;
    var year := 2000;
    if ex.weekday.Values? {
      assert ex.weekday.vs[0] in ex.weekday.vs;
      year := FebruaryEndsOn(29, ex.weekday.vs[0]);
    }
    FirstAllowedMatches(ex, year, 2, 29);
    var start, e := LastSecond(year, 3, 1), FirstAllowed(ex, year, 2, 29);
    MonthEntered(ex, start, 2);
    FirstStep(ex, start);
    var d' := CronPrev.ProcMonth(ex, start).value;
    Gap(d', e);
    LaterDay(ex, d', e);
    Order(e, start);
    LaterDay(ex, e, start);
    PassedMatch(ex, start, d', e);
  }

  /** The same when the day column cannot move the search once it is on the 28th. */
  lemma LeapDaySkippedStuck(ex: Expanded)
    requires Searchable(ex) && SkipsLeapDay(ex) && ex.day.Values? && 28 in ex.day.vs
    ensures exists now :: !Correct(ex, now)
  {
    hide MonthStart, FromSeconds, Step, CronPrev.ProcMonth;
    var start, e := LastSecond(2000, 3, 1), FirstAllowed(ex, 2000, 2, 29);
    FirstAllowedMatches(ex, 2000, 2, 29);
    MonthEntered(ex, start, 2);
    FirstStep(ex, start);
    var d' := CronPrev.ProcMonth(ex, start).value;
    AllowedMonthStays(ex, d');
    ClockBounds(ex);
    assert Evening(ex, start, d');
    Gap(d', e);
    EveningMisses(ex, start, d', e);
  }

  lemma EveningMisses(ex: Expanded, start: DateTime, d': DateTime, e: DateTime)
    requires Searchable(ex) && start.Valid() && Step(ex, start, start) == Some(d') && Evening(ex, start, d')
    requires ex.Matches(e) && d'.Ordinal() < e.Ordinal() && e.MonthIndex() < start.MonthIndex()
    ensures !Correct(ex, NowFor(ex, start))
  {
    hide IsLeap, MonthStart, FromSeconds, Step, Run, GreatestBefore, Evening;
    var now := NowFor(ex, start);
    RoundTrip(start);
    Order(e, start);
    LaterDay(ex, e, start);
    StartTicksBack(ex, now, e);
    forall t | Returns(ex, now, t) ensures !GreatestBefore(ex, now, t) {
      var n: nat :| Stops(ex, start, n) && t == Settle(ex, Run(ex, start, start, n)).Seconds();
      RunTurns(ex, start, start, n);
      RunTurns(ex, start, start, 0);
      var r := Run(ex, start, d', n - 1);
      EveningRun(ex, start, d', n - 1);
      LaterDay(ex, r, e);
      EarlierReturn(ex, now, r, e);
    }
  }

  lemma FaultIsWrong(ex: Expanded)
    requires Searchable(ex) && PrevMisses(ex)
    ensures exists now :: !Correct(ex, now)
  {
    if SkipsDecember(ex) {
      DecemberSkipped(ex);
    } else if ex.day.Values? && exists s :: 1 <= s <= 12 && ex.month.Allows(s) && LosesDay(ex.day.vs, ex.month, s) {
      var s :| 1 <= s <= 12 && ex.month.Allows(s) && LosesDay(ex.day.vs, ex.month, s);
      DayLost(ex, s);
    } else if ex.day.Values? && 28 in ex.day.vs {
      LeapDaySkippedStuck(ex);
    } else {
      if ex.day.Values? {
        assert ex.day.vs[0] in ex.day.vs;
        assert !LosesDay(ex.day.vs, ex.month, 2);
      }
      LeapDaySkipped(ex);
    }
  }

  lemma DayLost(ex: Expanded, s: int)
    requires Searchable(ex) && ex.day.Values? && 1 <= s <= 12 && ex.month.Allows(s) && LosesDay(ex.day.vs, ex.month, s)
    ensures exists now :: !Correct(ex, now)
  {
    var vs := ex.day.vs;
    assert vs[0] in vs && vs[|vs| - 1] in vs;
    if Sticks(vs, Days(PrevMonth(s))) {
      StuckAtStart(ex, s);
    } else if Days(s) < vs[0] {
      if ex.month.Allows(s + 1) {
        StuckAtStart(ex, s + 1);
      } else {
        TooShort(ex, s);
      }
    } else {
      DaysSkipped(ex, s);
    }
  }

  /** The backward search is right at every moment exactly when the expression has none of the faults. */
  lemma PrevIsGreatestIff(ex: Expanded)
    requires Searchable(ex) && Satisfiable(ex)
    ensures (forall now: int :: Correct(ex, now)) <==> !PrevMisses(ex)
  {
    if PrevMisses(ex) {
      FaultIsWrong(ex);
    } else {
      forall now: int ensures Correct(ex, now) {
        FaultlessIsCorrect(ex, now);
      }
    }
  }
}
