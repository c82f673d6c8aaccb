/** What `get_prev` returns with the either-day rule of the `crontab` utility: the later of two
    searches when both day columns are restricted.  A day that one search loses is made up for
    by the other unless the fault is one of those named here. */
module CronRetrace {
  import opened Wrappers
  import opened Calendar
  import opened CronFields
  import opened CronClock
  import opened CronPrev
  import opened CronForward
  import opened CronBackward
  import CronBackwardExact
  import opened CronSchedule

  ghost predicate PrevReturns(ex: Expanded, now: int, t: int)
    requires ex.Valid()
  {
    if EitherDay(ex) then
      exists t1, t2 :: Returns(ex.ByDay(), now, t1) && Returns(ex.ByWeekday(), now, t2) && t == if t1 > t2 then t1 else t2
    else Returns(ex, now, t)
  }

  /** `t` is the greatest time before the current minute (or second) at which the schedule fires. */
  ghost predicate FiredLast(ex: Expanded, now: int, t: int) {
    && t < TickStart(ex, now) && ex.Fires(FromSeconds(t))
    && forall u :: t < u < TickStart(ex, now) ==> !ex.Fires(FromSeconds(u))
  }

  /** `get_prev` returns, and only ever returns, that time. */
  ghost predicate PrevCorrect(ex: Expanded, now: int)
    requires ex.Valid()
  {
    && (exists t :: PrevReturns(ex, now, t))
    && (forall t :: PrevReturns(ex, now, t) ==> FiredLast(ex, now, t))
  }

  // ---------------------------------------------------------------- which expressions are served wrongly

  /** Months are lost alike by both searches: December, or what lies behind the 28th when
      February is entered from a later month. */
  predicate LosesMonth(ex: Expanded)
    requires ex.Valid()
  {
    SkipsDecember(ex) || (ex.month.Values? && 2 in ex.month.vs && 3 !in ex.month.vs)
  }

  predicate FullWeek(ex: Expanded) { forall w :: 0 <= w < 7 ==> ex.weekday.Allows(w) }

  /** The clock columns allow midnight. */
  predicate FiresEarly(ex: Expanded) { ex.hour.Allows(0) && ex.minute.Allows(0) && ex.SecondField().Allows(0) }

  /** The weekday search comes neither to a day of weekday `w` nor to the midnight after it. */
  predicate Exposed(ex: Expanded, w: int) {
    !ex.weekday.Allows(w) && !(ex.weekday.Allows((w + 1) % 7) && FiresEarly(ex))
  }

  /** The day search loses a day from within month `s`, and the weekday search does not make
      up for it. */
  predicate LosesEither(ex: Expanded, s: int)
    requires ex.day.Values? && |ex.day.vs| > 0
  {
    var vs, r := ex.day.vs, Days(PrevMonth(s));
    || (Sticks(vs, r) && (!FullWeek(ex) || r + 2 <= vs[|vs| - 1]))
    || (DropsLastDay(vs, ex.month, s) && exists w :: 0 <= w < 7 && Exposed(ex, w))
  }

  /** The expressions for which `get_prev` can miss the last time at which the schedule fired. */
  predicate Forgets(ex: Expanded)
    requires ex.Valid()
  {
    if EitherDay(ex) then LosesMonth(ex) || exists s :: 1 <= s <= 12 && ex.month.Allows(s) && LosesEither(ex, s)
    else PrevMisses(ex)
  }

  lemma LosesMonthMeans(ex: Expanded)
    requires ex.Valid()
    ensures PrevMisses(ex.ByWeekday()) <==> LosesMonth(ex)
  {
  }

  // ---------------------------------------------------------------- the day search, faults and all

  ghost predicate DaysOnly(ex: Expanded) { ex.Valid() && ex.day.Values? && ex.weekday.Star? }

  /** The search that begins at `start` never moves forward. */
  ghost predicate Calm(ex: Expanded, start: DateTime)
    requires DaysOnly(ex)
  {
    var vs, r := ex.day.vs, Wraparound(start);
    start.Valid() && !LosesMonth(ex) && (ex.month.Allows(start.month) && Sticks(vs, r) ==> vs[|vs| - 1] == r + 1)
  }

  /** Once the search has left the month it started in, the time of day is no earlier than the
      last allowed one, and the day no earlier than the first listed one, unless the month has
      none; nor is it earlier than the day where the search may stick. */
  ghost predicate Loose(ex: Expanded, start: DateTime, d: DateTime)
    requires DaysOnly(ex)
  {
    var vs, r := ex.day.vs, Wraparound(start);
    && start.Valid() && d.Valid()
    && (d.MonthIndex() != start.MonthIndex() ==>
          && d.TimeOfDay() >= ex.Closing()
          && (vs[0] <= d.day || Length(d.MonthIndex()) < vs[0])
          && (Sticks(vs, r) ==> vs[|vs| - 1] - r <= d.day))
  }

  lemma LooseValid(ex: Expanded, start: DateTime, d: DateTime)
    requires DaysOnly(ex) && Loose(ex, start, d)
    ensures ex.Valid() && start.Valid() && d.Valid()
  {
  }

  /** A month step enters a month on its real last day, and passes no allowed month. */
  lemma MonthLandsLast(ex: Expanded, d: DateTime, d': DateTime)
    requires ex.Valid() && !LosesMonth(ex) && d.Valid() && ProcMonth(ex, d) == Some(d')
    ensures d'.Valid() && d'.day == Length(d'.MonthIndex()) >= 30 && d'.TimeOfDay() == DAY_SECONDS - 1
    ensures d'.MonthIndex() < d.MonthIndex()
  {
    hide IsLeap, MonthStart, PrevDiff;
    MonthStep(ex, d, d');
    LosesMonthMeans(ex);
    EntersFebruary(ex.ByWeekday(), d, d');
    Gap(d', d');
  }

  lemma MonthPassesNone(ex: Expanded, d: DateTime, d': DateTime, e: DateTime)
    requires ex.Valid() && !LosesMonth(ex) && d.Valid() && ProcMonth(ex, d) == Some(d')
    requires e.Valid() && ex.month.Allows(e.month) && e.MonthIndex() <= d.MonthIndex()
    ensures e.Ordinal() <= d'.Ordinal()
  {
    hide IsLeap, MonthStart, CronPrev.ProcMonth;
    MonthLandsLast(ex, d, d');
    Residues(e);
    if e.MonthIndex() > d'.MonthIndex() {
      MonthReaches(ex, d, d', e.MonthIndex());
    }
    Order(e, d');
    Gap(e, d');
    Gap(e, e);
  }

  /** The value that a wrapping day step counts from. */
  function WrapValue(vs: seq<int>, r: int): int
    requires |vs| > 0
  {
    match AtMost(vs, r - 1)
    case Some(c) => c
    case None => vs[|vs| - 1]
  }

  lemma WrapMoves(ex: Expanded, start: DateTime, d: DateTime, d': DateTime)
    requires DaysOnly(ex) && d.Valid() && ProcDay(ex, start, d) == Some(d') && d.day < ex.day.vs[0]
    ensures d'.Valid() && d'.TimeOfDay() == DAY_SECONDS - 1
    ensures d'.Ordinal() == d.Ordinal() - d.day + WrapValue(ex.day.vs, Wraparound(start)) - Wraparound(start)
  {
    hide IsLeap, MonthStart;
    assert ex.day.vs[0] in ex.day.vs;
    DayStep(ex, start, d, d');
  }

  /** A wrapping step of a search that sticks: down to the day where it does. */
  lemma WrapSticks(ex: Expanded, start: DateTime, d: DateTime, d': DateTime)
    requires DaysOnly(ex) && Calm(ex, start) && Loose(ex, start, d) && ProcMonth(ex, d).None?
    requires ProcDay(ex, start, d) == Some(d') && d.day < ex.day.vs[0] && Sticks(ex.day.vs, Wraparound(start))
    ensures d'.Valid() && d'.MonthIndex() == d.MonthIndex() && d'.Ordinal() < d.Ordinal() && d'.TimeOfDay() == DAY_SECONDS - 1
    ensures d'.day == ex.day.vs[|ex.day.vs| - 1] - Wraparound(start)
  {
    hide IsLeap, MonthStart;
    var vs, r := ex.day.vs, Wraparound(start);
    assert vs[0] in vs && vs[|vs| - 1] in vs;
    WrapMoves(ex, start, d, d');
    MonthStays(ex, d);
    Gap(d, d);
    if d.MonthIndex() == start.MonthIndex() {
      SameMonth(d, start);
    }
    SameDay(d', d.MonthIndex(), vs[|vs| - 1] - r);
  }

  /** What is known of the lengths around a month in which the search may wrap. */
  lemma WrapLengths(ex: Expanded, start: DateTime, d: DateTime)
    requires DaysOnly(ex) && Loose(ex, start, d) && d.day < ex.day.vs[0]
    ensures var i, r := d.MonthIndex(), Wraparound(start);
      && Length(i - 1) >= r >= 28
      && (i != start.MonthIndex() ==> Length(i) < ex.day.vs[0] && Length(i - 1) == 31)
      && (i == start.MonthIndex() ==> Length(i - 1) == r || (r == 28 && Length(i - 1) == 29 && PrevMonth(start.month) == 2))
  {
    hide IsLeap, MonthStart;
    MonthBefore(d);
    Residues(d);
    assert ex.day.vs[0] in ex.day.vs;
    if d.MonthIndex() == start.MonthIndex() {
      SameMonth(d, start);
    } else {
      ShortMonthFollows(d);
    }
  }

  /** Every month of less than 31 days follows one of 31. */
  lemma ShortMonthFollows(d: DateTime)
    requires d.Valid() && Length(d.MonthIndex()) < 31
    ensures Length(d.MonthIndex() - 1) == 31
  {
    hide IsLeap, MonthStart;
    MonthBefore(d);
    Residues(d);
  }

  /** A wrapping step of a search that does not stick: into the month before, on the first
      listed day or later. */
  lemma WrapFalls(ex: Expanded, start: DateTime, d: DateTime, d': DateTime)
    requires DaysOnly(ex) && Loose(ex, start, d)
    requires ProcDay(ex, start, d) == Some(d') && d.day < ex.day.vs[0] && !Sticks(ex.day.vs, Wraparound(start))
    ensures var i, r := d.MonthIndex() - 1, Wraparound(start);
      d'.MonthIndex() == i && d'.day == Length(i) - r + WrapValue(ex.day.vs, r) >= ex.day.vs[0]
    ensures d'.Valid() && d'.TimeOfDay() == DAY_SECONDS - 1 && d'.Ordinal() < d.Ordinal()
  {
    hide IsLeap, MonthStart;
    var vs, i, r := ex.day.vs, d.MonthIndex() - 1, Wraparound(start);
    assert vs[0] in vs && vs[|vs| - 1] in vs;
    WrapMoves(ex, start, d, d');
    WrapLengths(ex, start, d);
    MonthBefore(d);
    assert WrapValue(vs, r) <= r;
    SameDay(d', i, Length(i) - r + WrapValue(vs, r));
  }

  /** A step of the clock columns. */
  lemma ClockStep(ex: Expanded, start: DateTime, d: DateTime, d': DateTime)
    requires DaysOnly(ex) && d.Valid() && Step(ex, start, d) == Some(d')
    requires ProcMonth(ex, d).None? && ProcDay(ex, start, d).None?
    ensures d'.Valid() && KeepsClosing(ex, d, d') && Ticks(ex, d') < Ticks(ex, d)
    ensures forall e: DateTime :: e.Valid() && ex.ClockMatches(e) && Ticks(ex, e) <= Ticks(ex, d) ==> Ticks(ex, e) <= Ticks(ex, d')
  {
    hide IsLeap, MonthStart, KeepsClosing;
    forall e: DateTime | e.Valid() && ex.ClockMatches(e) && Ticks(ex, e) <= Ticks(ex, d) ensures Ticks(ex, e) <= Ticks(ex, d') {
      ClockReaches(ex, start, d, d', e);
    }
    if ProcHour(ex, d).Some? {
      HourStep(ex, d, d');
      HourKeepsClosing(ex, d, d');
      Order(d', d);
    } else if ProcMinute(ex, d).Some? {
      MinuteStep(ex, d, d');
      MinuteKeepsClosing(ex, d, d');
      Order(d', d);
    } else {
      SecondStep(ex, d, d');
      SecondKeepsClosing(ex, d, d');
    }
  }

  lemma ClockLoose(ex: Expanded, start: DateTime, d: DateTime, d': DateTime)
    requires DaysOnly(ex) && Loose(ex, start, d) && d'.Valid() && KeepsClosing(ex, d, d')
    ensures Loose(ex, start, d')
  {
    hide IsLeap, MonthStart;
    var vs := ex.day.vs;
    assert vs[0] in vs && vs[|vs| - 1] in vs;
    Gap(d, d);
    if d'.Ordinal() == d.Ordinal() {
      SameDay(d', d.MonthIndex(), d.day);
    } else if d.day > 1 {
      SameDay(d', d.MonthIndex(), d.day - 1);
    } else {
      MonthBefore(d);
      SameDay(d', d.MonthIndex() - 1, Length(d.MonthIndex() - 1));
    }
  }

  /** Every step of a calm search moves it back, and keeps it loose. */
  lemma StepLoose(ex: Expanded, start: DateTime, d: DateTime, d': DateTime)
    requires DaysOnly(ex) && Calm(ex, start) && Loose(ex, start, d) && Step(ex, start, d) == Some(d')
    ensures Loose(ex, start, d') && Ticks(ex, d') < Ticks(ex, d)
  {
    hide IsLeap, MonthStart, CronPrev.ProcMonth, CronPrev.ProcDay;
    var vs := ex.day.vs;
    assert vs[0] in vs && vs[|vs| - 1] in vs;
    ClockBounds(ex);
    if ProcMonth(ex, d).Some? {
      MonthLandsLast(ex, d, d');
      Order(d', d);
    } else if ProcDay(ex, start, d).None? {
      ClockStep(ex, start, d, d');
      ClockLoose(ex, start, d, d');
    } else {
      DayLoose(ex, start, d, d');
    }
  }

  lemma DayLoose(ex: Expanded, start: DateTime, d: DateTime, d': DateTime)
    requires DaysOnly(ex) && Calm(ex, start) && Loose(ex, start, d)
    requires ProcMonth(ex, d).None? && ProcDay(ex, start, d) == Some(d')
    ensures Loose(ex, start, d') && Ticks(ex, d') < Ticks(ex, d)
  {
    hide IsLeap, MonthStart, CronPrev.ProcMonth, CronPrev.ProcDay;
    var vs := ex.day.vs;
    assert vs[0] in vs && vs[|vs| - 1] in vs;
    ClockBounds(ex);
    if vs[0] <= d.day {
      DayFalls(ex, start, d, d');
      DayStep(ex, start, d, d');
      Gap(d', d);
    } else if Sticks(vs, Wraparound(start)) {
      WrapSticks(ex, start, d, d');
    } else {
      WrapFalls(ex, start, d, d');
    }
    LaterDay(ex, d', d);
  }

  // ---------------------------------------------------------------- such a search ends

  /** A match long before `start`, on the first listed day. */
  lemma FirstDayMatch(ex: Expanded, start: DateTime) returns (e: DateTime)
    requires DaysOnly(ex) && Satisfiable(ex) && start.Valid()
    ensures ex.Matches(e) && e.day == ex.day.vs[0] && e.MonthIndex() < start.MonthIndex()
  {
    hide IsLeap, MonthStart;
    var m :| 1 <= m <= 12 && ex.month.Allows(m) && (ex.day.Values? ==> ex.day.vs[0] <= LongestMonth(m));
    hide Satisfiable;
    var year := 400 * ((if start.year < 0 then start.year else 0) - 1);
    LeapCentury((if start.year < 0 then start.year else 0) - 1);
    assert ex.day.vs[0] in ex.day.vs;
    FirstAllowedMatches(ex, year, m, ex.day.vs[0]);
    e := FirstAllowed(ex, year, m, ex.day.vs[0]);
  }

  /** No step of a calm search passes it. */
  lemma FirstDayStays(ex: Expanded, start: DateTime, d: DateTime, d': DateTime, e: DateTime)
    requires DaysOnly(ex) && Calm(ex, start) && Loose(ex, start, d) && Step(ex, start, d) == Some(d')
    requires ex.Matches(e) && e.day == ex.day.vs[0] && Ticks(ex, e) <= Ticks(ex, d)
    ensures Ticks(ex, e) <= Ticks(ex, d')
  {
    hide IsLeap, MonthStart, CronPrev.ProcMonth, CronPrev.ProcDay;
    Order(d, e);
    if ProcMonth(ex, d).Some? {
      MonthLandsLast(ex, d, d');
      MonthPassesNone(ex, d, d', e);
      NotAfter(ex, d', e);
    } else if ProcDay(ex, start, d).None? {
      ClockStep(ex, start, d, d');
    } else {
      FirstDayInStep(ex, start, d, d', e);
      NotAfter(ex, d', e);
    }
  }

  lemma FirstDayInStep(ex: Expanded, start: DateTime, d: DateTime, d': DateTime, e: DateTime)
    requires DaysOnly(ex) && Calm(ex, start) && Loose(ex, start, d)
    requires ProcMonth(ex, d).None? && ProcDay(ex, start, d) == Some(d')
    requires ex.Matches(e) && e.day == ex.day.vs[0] && e.Ordinal() <= d.Ordinal() && e.MonthIndex() <= d.MonthIndex()
    ensures d'.Valid() && d'.TimeOfDay() == DAY_SECONDS - 1 && e.Ordinal() <= d'.Ordinal()
  {
    hide IsLeap, MonthStart, CronPrev.ProcMonth, CronPrev.ProcDay;
    var vs := ex.day.vs;
    assert vs[0] in vs;
    Gap(e, d);
    if vs[0] <= d.day {
      DayFalls(ex, start, d, d');
      DayStep(ex, start, d, d');
    } else if Sticks(vs, Wraparound(start)) {
      WrapSticks(ex, start, d, d');
    } else {
      WrapFalls(ex, start, d, d');
    }
    Order(e, d');
    Gap(e, d');
  }

  lemma {:induction false} LooseRun(ex: Expanded, start: DateTime, d: DateTime, e: DateTime) returns (n: nat)
    requires DaysOnly(ex) && Calm(ex, start) && Loose(ex, start, d)
    requires ex.Matches(e) && e.day == ex.day.vs[0] && Ticks(ex, e) <= Ticks(ex, d)
    ensures Step(ex, start, Run(ex, start, d, n)).None?
    decreases Ticks(ex, d) - Ticks(ex, e)
  {
    LooseValid(ex, start, d);
    hide IsLeap, MonthStart, FromSeconds, Loose, Calm, Step, Run;
    n := 0;
    if Step(ex, start, d).Some? {
      var d' := Step(ex, start, d).value;
      StepLoose(ex, start, d, d');
      FirstDayStays(ex, start, d, d', e);
      n := LooseRun(ex, start, d', e);
      n := n + 1;
    }
    RunTurns(ex, start, d, n);
  }

  lemma {:induction false} RunLoose(ex: Expanded, start: DateTime, d: DateTime, n: nat)
    requires DaysOnly(ex) && Calm(ex, start) && Loose(ex, start, d)
    ensures var r := Run(ex, start, d, n); Loose(ex, start, r) && Ticks(ex, r) <= Ticks(ex, d)
    decreases n
  {
    hide *;
    LooseValid(ex, start, d);
    RunTurns(ex, start, d, n);
    if n > 0 && Step(ex, start, d).Some? {
      var d' := Step(ex, start, d).value;
      StepLoose(ex, start, d, d');
      RunLoose(ex, start, d', n - 1);
    }
  }

  // ---------------------------------------------------------------- what the weekday search makes up for

  /** `g` is the latest match up to `start`. */
  ghost predicate Latest(ex: Expanded, start: DateTime, g: DateTime) {
    && ex.Matches(g) && Ticks(ex, g) <= Ticks(ex, start)
    && forall f :: ex.Matches(f) && Ticks(ex, f) <= Ticks(ex, start) ==> Ticks(ex, f) <= Ticks(ex, g)
  }

  /** The last week of an allowed month before that of `start` has a match of the weekday
      search. */
  lemma WeekGuards(ex: Expanded, start: DateTime, d: DateTime, g: DateTime, x: DateTime)
    requires ex.Valid() && EitherDay(ex) && start.Valid() && Latest(ex.ByWeekday(), start, g)
    requires d.Valid() && ex.month.Allows(d.month) && d.MonthIndex() < start.MonthIndex()
    requires x.Valid() && (x.MonthIndex() < d.MonthIndex() || (x.MonthIndex() == d.MonthIndex() && x.day <= 21))
    ensures Ticks(ex, x) <= Ticks(ex, g)
  {
    hide IsLeap, MonthStart;
    assert ex.weekday.vs[0] in ex.weekday.vs;
    var day := DayOnWeekday(d.MonthIndex(), ex.weekday.vs[0]);
    var n := MonthStart(d.MonthIndex()) + day - 1;
    DaysAhead(n, n + 21);
    FirstAllowedMatches(ex.ByWeekday(), d.year, d.month, day + 21);
    var f := FirstAllowed(ex.ByWeekday(), d.year, d.month, day + 21);
    Order(f, start);
    LaterDay(ex, f, start);
    Gap(x, f);
    LaterDay(ex, x, f);
  }

  /** The day after `e`, at midnight. */
  lemma MidnightAfter(ex: Expanded, e: DateTime, d: DateTime) returns (f: DateTime)
    requires e.Valid() && d.Valid() && e.Ordinal() < d.Ordinal() && e.MonthIndex() == d.MonthIndex() - 1
    ensures f.Valid() && f.hour == f.minute == f.second == 0 && f.Weekday() == (e.Weekday() + 1) % 7
    ensures f.month == e.month || f.month == d.month
    ensures Ticks(ex, e) <= Ticks(ex, f) <= Ticks(ex, d)
  {
    hide IsLeap, MonthStart, FromSeconds;
    f := FromSeconds(DAY_SECONDS * (e.Ordinal() + 1));
    Counters(f);
    DaysAhead(e.Ordinal(), f.Ordinal());
    LaterDay(ex, e, f);
    Order(f, e);
    Order(d, f);
    if f.MonthIndex() == e.MonthIndex() {
      SameMonth(e, f);
    } else {
      SameMonth(d, f);
    }
  }

  /** With every weekday or its midnight after covered, the weekday search makes up for the
      last day of a month. */
  lemma LastDayGuards(ex: Expanded, start: DateTime, d: DateTime, e: DateTime, g: DateTime)
    requires ex.Valid() && EitherDay(ex) && start.Valid() && Latest(ex.ByWeekday(), start, g)
    requires d.Valid() && ex.month.Allows(d.month) && Ticks(ex, d) <= Ticks(ex, start)
    requires ex.ByDay().Matches(e) && e.MonthIndex() == d.MonthIndex() - 1 && !Exposed(ex, e.Weekday())
    ensures Ticks(ex, e) <= Ticks(ex, g)
  {
    hide IsLeap, MonthStart;
    Order(e, d);
    LaterDay(ex, e, d);
    if ex.weekday.Allows(e.Weekday()) {
      assert ex.ByWeekday().Matches(e);
    } else {
      var f := MidnightAfter(ex, e, d);
      assert ex.ByWeekday().Matches(f);
    }
  }

  /** What `start` has to do with a faultless expression. */
  lemma NoFaultHere(ex: Expanded, start: DateTime)
    requires ex.Valid() && EitherDay(ex) && !Forgets(ex) && start.Valid()
    ensures Calm(ex.ByDay(), start)
    ensures ex.month.Allows(start.month) && !FullWeek(ex) ==> !Sticks(ex.day.vs, Wraparound(start))
    ensures ex.month.Allows(start.month) && DropsLastDay(ex.day.vs, ex.month, start.month) ==>
      forall w :: 0 <= w < 7 ==> !Exposed(ex, w)
  {
    hide IsLeap, MonthStart, Exposed, FullWeek, DropsLastDay;
    assert ex.month.Allows(start.month) ==> !LosesEither(ex, start.month);
  }

  /** A wrapping step passes no match but those that the weekday search makes up for. */
  lemma WrapMadeUp(ex: Expanded, start: DateTime, d: DateTime, d': DateTime, e: DateTime, g: DateTime)
    requires ex.Valid() && EitherDay(ex) && !Forgets(ex) && !FullWeek(ex) && Latest(ex.ByWeekday(), start, g)
    requires Loose(ex.ByDay(), start, d) && Ticks(ex, d) <= Ticks(ex, start) && ex.day.vs[0] > d.day
    requires ProcMonth(ex.ByDay(), d).None? && ProcDay(ex.ByDay(), start, d) == Some(d')
    requires ex.ByDay().Matches(e) && e.Ordinal() <= d.Ordinal() && e.MonthIndex() <= d.MonthIndex()
    ensures d'.Valid() && d'.TimeOfDay() == DAY_SECONDS - 1
    ensures e.Ordinal() <= d'.Ordinal() || Ticks(ex, e) <= Ticks(ex, g)
  {
    hide IsLeap, MonthStart, CronPrev.ProcMonth, CronPrev.ProcDay, Forgets, FullWeek, Exposed, DropsLastDay, Latest;
    NoFaultHere(ex, start);
    MonthStays(ex.ByDay(), d);
    Order(start, d);
    Gap(e, d);
    assert ex.day.vs[0] in ex.day.vs && ex.day.vs[0] <= e.day && e.MonthIndex() < d.MonthIndex();
    WrapMoves(ex.ByDay(), start, d, d');
    if d.MonthIndex() < start.MonthIndex() {
      WeekGuards(ex, start, d, g, e);
    } else {
      SameMonth(d, start);
      WrapFalls(ex.ByDay(), start, d, d');
      if d'.Ordinal() < e.Ordinal() {
        PassedIsLastDay(ex, start, d, d', e);
        assert 0 <= e.Weekday() < 7;
        LastDayGuards(ex, start, d, e, g);
      }
    }
  }

  /** What a wrapping step passes is the last day of the month before. */
  lemma PassedIsLastDay(ex: Expanded, start: DateTime, d: DateTime, d': DateTime, e: DateTime)
    requires ex.Valid() && EitherDay(ex) && Loose(ex.ByDay(), start, d) && d.MonthIndex() == start.MonthIndex()
    requires d.day < ex.day.vs[0] && !Sticks(ex.day.vs, Wraparound(start))
    requires var i, r := d.MonthIndex() - 1, Wraparound(start);
      d'.Valid() && d'.MonthIndex() == i && d'.day == Length(i) - r + WrapValue(ex.day.vs, r)
    requires ex.ByDay().Matches(e) && d'.Ordinal() < e.Ordinal() && e.MonthIndex() < d.MonthIndex()
    ensures e.MonthIndex() == d.MonthIndex() - 1 && DropsLastDay(ex.day.vs, ex.month, start.month)
  {
    hide IsLeap, MonthStart;
    var vs, r := ex.day.vs, Wraparound(start);
    assert vs[0] in vs && vs[|vs| - 1] in vs;
    WrapLengths(ex.ByDay(), start, d);
    Order(e, d');
    Gap(d', e);
    Gap(e, e);
    MonthBefore(start);
    Residues(e);
    assert e.month == PrevMonth(start.month);
    assert AtMost(vs, r - 1).Some?;
  }

  lemma StepMadeUp(ex: Expanded, start: DateTime, d: DateTime, d': DateTime, e: DateTime, g: DateTime)
    requires ex.Valid() && EitherDay(ex) && !Forgets(ex) && !FullWeek(ex) && Latest(ex.ByWeekday(), start, g)
    requires Loose(ex.ByDay(), start, d) && Ticks(ex, d) <= Ticks(ex, start) && Step(ex.ByDay(), start, d) == Some(d')
    requires ex.ByDay().Matches(e) && Ticks(ex, e) <= Ticks(ex, d)
    ensures Ticks(ex, e) <= Ticks(ex, d') || Ticks(ex, e) <= Ticks(ex, g)
  {
    hide IsLeap, MonthStart, CronPrev.ProcMonth, CronPrev.ProcDay, FullWeek, Latest;
    var byDay := ex.ByDay();
    Order(d, e);
    if ProcMonth(byDay, d).Some? {
      MonthLandsLast(byDay, d, d');
      MonthPassesNone(byDay, d, d', e);
      NotAfter(byDay, d', e);
    } else if ProcDay(byDay, start, d).None? {
      ClockStep(byDay, start, d, d');
    } else if ex.day.vs[0] <= d.day {
      DayFalls(byDay, start, d, d');
      DayStep(byDay, start, d, d');
      Order(e, d');
      Gap(e, d');
      Gap(e, d);
      NotAfter(byDay, d', e);
    } else {
      WrapMadeUp(ex, start, d, d', e, g);
      if e.Ordinal() <= d'.Ordinal() {
        NotAfter(byDay, d', e);
      }
    }
  }

  lemma {:induction false} RunMadeUp(ex: Expanded, start: DateTime, d: DateTime, n: nat, e: DateTime, g: DateTime)
    requires ex.Valid() && EitherDay(ex) && !Forgets(ex) && !FullWeek(ex) && Latest(ex.ByWeekday(), start, g)
    requires Loose(ex.ByDay(), start, d) && Ticks(ex, d) <= Ticks(ex, start) && ex.ByDay().Matches(e)
    requires Ticks(ex, e) <= Ticks(ex, d) || Ticks(ex, e) <= Ticks(ex, g)
    ensures Ticks(ex, e) <= Ticks(ex, Run(ex.ByDay(), start, d, n)) || Ticks(ex, e) <= Ticks(ex, g)
    decreases n
  {
    var byDay := ex.ByDay();
    hide IsLeap, MonthStart, FromSeconds, Step, FullWeek, Latest, Forgets, Run, Loose, Calm, DateTime.Valid;
    LooseValid(byDay, start, d);
    RunTurns(byDay, start, d, n);
    if n > 0 && Step(byDay, start, d).Some? {
      var d' := Step(byDay, start, d).value;
      NoFaultHere(ex, start);
      StepLoose(byDay, start, d, d');
      if Ticks(ex, e) <= Ticks(ex, d) {
        StepMadeUp(ex, start, d, d', e, g);
      }
      RunMadeUp(ex, start, d', n - 1, e, g);
    }
  }

  /** Where the day search stops, the month and clock columns allow the time. */
  lemma StopAllowed(ex: Expanded, start: DateTime, d: DateTime)
    requires DaysOnly(ex) && d.Valid() && Step(ex, start, d).None?
    ensures ProcMonth(ex, d).None? && ProcDay(ex, start, d).None?
    ensures Settle(ex, d).Valid() && ex.month.Allows(d.month) && ex.ClockMatches(Settle(ex, d))
    ensures Settle(ex, d) == if ex.second.Some? then d else d.(second := 0)
  {
    hide IsLeap, MonthStart;
    MonthStays(ex, d);
    HourStays(ex, d);
    MinuteStays(ex, d);
    SecondStays(ex, d);
    Settled(ex, d);
  }

  /** It stops at an unlisted day only where it sticks. */
  lemma StopUnlisted(ex: Expanded, start: DateTime, d: DateTime)
    requires DaysOnly(ex) && Loose(ex, start, d) && ProcDay(ex, start, d).None? && d.day !in ex.day.vs
    ensures Sticks(ex.day.vs, Wraparound(start)) && d.day <= 21
  {
    hide IsLeap, MonthStart;
    var vs := ex.day.vs;
    assert vs[0] in vs && vs[|vs| - 1] in vs;
  }

  /** Where the day search stops the schedule fires, or the weekday search comes to a later
      time. */
  lemma StopMadeUp(ex: Expanded, start: DateTime, d: DateTime, g: DateTime)
    requires ex.Valid() && EitherDay(ex) && !Forgets(ex) && Latest(ex.ByWeekday(), start, g)
    requires Loose(ex.ByDay(), start, d) && Ticks(ex, d) <= Ticks(ex, start) && Step(ex.ByDay(), start, d).None?
    ensures ex.Fires(Settle(ex, d)) || Ticks(ex, d) <= Ticks(ex, g)
  {
    assert d.Valid() && start.Valid();
    StopAllowed(ex.ByDay(), start, d);
    assert Settle(ex, d) == Settle(ex.ByDay(), d);
    hide IsLeap, MonthStart, Forgets, Latest, Loose, Step, Settle, CronPrev.ProcDay, CronPrev.ProcMonth;
    if FullWeek(ex) {
      assert 0 <= Settle(ex, d).Weekday() < 7;
    } else if d.day !in ex.day.vs {
      StopUnlisted(ex.ByDay(), start, d);
      NoFaultHere(ex, start);
      Order(start, d);
      if d.MonthIndex() == start.MonthIndex() {
        SameMonth(d, start);
      }
      WeekGuards(ex, start, d, g, d);
    }
  }

  // ---------------------------------------------------------------- both searches together

  /** Among times without seconds to spare, ticks decide. */
  lemma NotLater(ex: Expanded, d: DateTime, e: DateTime)
    requires d.Valid() && e.Valid() && Ticks(ex, d) <= Ticks(ex, e) && (ex.second.None? ==> d.second == 0)
    ensures d.Seconds() <= e.Seconds()
  {
    hide IsLeap, MonthStart;
  }

  lemma WeekdaySearch(ex: Expanded, now: int) returns (t: int, g: DateTime)
    requires ex.Valid() && EitherDay(ex) && !LosesMonth(ex)
    ensures g.Valid() && g.Seconds() == t && Returns(ex.ByWeekday(), now, t) && GreatestBefore(ex.ByWeekday(), now, t)
    ensures Latest(ex.ByWeekday(), Start(ex, now), g)
  {
    hide IsLeap, MonthStart, FromSeconds, Step;
    var byWeekday := ex.ByWeekday();
    LosesMonthMeans(ex);
    WeekdaysAreSatisfiable(ex);
    CronBackwardExact.FaultlessIsCorrect(byWeekday, now);
    t :| Returns(byWeekday, now, t);
    g := FromSeconds(t);
    StartTicksBack(byWeekday, now, g);
    forall f | byWeekday.Matches(f) && Ticks(ex, f) <= Ticks(ex, Start(ex, now)) ensures Ticks(ex, f) <= Ticks(ex, g) {
      StartTicksBack(byWeekday, now, f);
      RoundTrip(f);
      Order(g, f);
    }
  }

  lemma DaySearch(ex: Expanded, now: int) returns (r: DateTime, n: nat)
    requires Usable(ex) && EitherDay(ex) && !Forgets(ex)
    ensures var start := Start(ex, now);
      && Calm(ex.ByDay(), start) && Loose(ex.ByDay(), start, start)
      && Stops(ex.ByDay(), start, n) && r == Run(ex.ByDay(), start, start, n)
    ensures var start := Start(ex, now); Loose(ex.ByDay(), start, r) && Ticks(ex, r) <= Ticks(ex, start)
    ensures Returns(ex.ByDay(), now, Settle(ex, r).Seconds())
  {
    hide IsLeap, MonthStart, FromSeconds, Step, Forgets, Satisfiable;
    var byDay, start := ex.ByDay(), Start(ex, now);
    NoFaultHere(ex, start);
    var e := FirstDayMatch(byDay, start);
    Order(e, start);
    LaterDay(ex, e, start);
    n := LooseRun(byDay, start, start, e);
    RunLoose(byDay, start, start, n);
    r := Run(byDay, start, start, n);
    hide Run, Loose, Calm;
    assert Start(byDay, now) == start && Settle(byDay, r) == Settle(ex, r);
    assert Stops(byDay, start, n) && Settle(ex, r).Seconds() == Settle(byDay, Run(byDay, start, start, n)).Seconds();
  }

  /** A match of the day search is no later than one of the two results. */
  lemma DayMadeUp(ex: Expanded, now: int, r: DateTime, n: nat, g: DateTime, e: DateTime)
    requires ex.Valid() && EitherDay(ex) && !Forgets(ex) && Latest(ex.ByWeekday(), Start(ex, now), g)
    requires var start := Start(ex, now); Loose(ex.ByDay(), start, start) && r == Run(ex.ByDay(), start, start, n)
    requires ex.ByDay().Matches(e) && e.Seconds() < TickStart(ex, now)
    ensures e.Seconds() <= Settle(ex, r).Seconds() || e.Seconds() <= g.Seconds()
  {
    hide IsLeap, MonthStart, FromSeconds, Step, Forgets, Latest, Loose;
    var start := Start(ex, now);
    StartTicksBack(ex.ByDay(), now, e);
    if FullWeek(ex) {
      assert 0 <= e.Weekday() < 7 && ex.ByWeekday().Matches(e);
      LatestIs(ex, start, g, e);
    } else {
      RunMadeUp(ex, start, start, n, e, g);
    }
    Settled(ex, r);
    assert g.Valid() by {
      LatestIs(ex, start, g, g);
    }
    if Ticks(ex, e) <= Ticks(ex, g) {
      NotLater(ex, e, g);
    } else {
      NotLater(ex, e, Settle(ex, r));
    }
  }

  lemma LatestIs(ex: Expanded, start: DateTime, g: DateTime, f: DateTime)
    requires Latest(ex.ByWeekday(), start, g)
    ensures g.Valid() && Ticks(ex, g) <= Ticks(ex, start)
    ensures ex.ByWeekday().Matches(f) && Ticks(ex, f) <= Ticks(ex, start) ==> Ticks(ex, f) <= Ticks(ex, g)
  {
    hide IsLeap, MonthStart;
  }

  /** The later of the two results is a time at which the schedule fires. */
  lemma LaterFires(ex: Expanded, now: int, r: DateTime, t2: int, g: DateTime)
    requires ex.Valid() && EitherDay(ex) && !Forgets(ex) && Latest(ex.ByWeekday(), Start(ex, now), g)
    requires g.Valid() && g.Seconds() == t2 && GreatestBefore(ex.ByWeekday(), now, t2)
    requires var start := Start(ex, now);
      Loose(ex.ByDay(), start, r) && Ticks(ex, r) <= Ticks(ex, start) && Step(ex.ByDay(), start, r).None?
    ensures var t1 := Settle(ex, r).Seconds(); var t := if t1 > t2 then t1 else t2;
      t < TickStart(ex, now) && ex.Fires(FromSeconds(t))
  {
    hide IsLeap, MonthStart, FromSeconds, Step, Forgets, Latest;
    var start, d := Start(ex, now), Settle(ex, r);
    Settled(ex, r);
    RoundTrip(d);
    RoundTrip(g);
    StopMadeUp(ex, start, r, g);
    FiresIsUnion(ex, d);
    FiresIsUnion(ex, g);
    if Ticks(ex, r) <= Ticks(ex, g) {
      NotLater(ex, d, g);
    } else if ex.ByDay().Matches(d) {
      StartTicksBack(ex.ByDay(), now, d);
    } else {
      StartTicksBack(ex.ByWeekday(), now, d);
    }
  }

  lemma EitherFiredLast(ex: Expanded, now: int)
    requires Usable(ex) && EitherDay(ex) && !Forgets(ex)
    ensures PrevCorrect(ex, now)
  {
    hide IsLeap, MonthStart, FromSeconds, Step, Satisfiable, Run;
    assert !LosesMonth(ex);
    var t2, g := WeekdaySearch(ex, now);
    var r, n := DaySearch(ex, now);
    hide Forgets, Usable, Latest, Loose, Calm, Returns;
    var t1 := Settle(ex, r).Seconds();
    var t := if t1 > t2 then t1 else t2;
    LaterFires(ex, now, r, t2, g);
    forall u | t < u < TickStart(ex, now) ensures !ex.Fires(FromSeconds(u)) {
      var e := FromSeconds(u);
      FiresIsUnion(ex, e);
      if ex.ByDay().Matches(e) {
        DayMadeUp(ex, now, r, n, g, e);
      }
    }
    forall u | PrevReturns(ex, now, u) ensures u == t {
      var u1, u2 :| Returns(ex.ByDay(), now, u1) && Returns(ex.ByWeekday(), now, u2) && u == if u1 > u2 then u1 else u2;
      ReturnsOnce(ex.ByDay(), now, t1, u1);
      ReturnsOnce(ex.ByWeekday(), now, t2, u2);
    }
    assert PrevReturns(ex, now, t);
  }

  /** `get_prev` returns the greatest time before the current minute (or second) at which the
      schedule fires. */
  lemma PrevTimeFiredLast(ex: Expanded, now: int)
    requires Usable(ex) && !Forgets(ex)
    ensures PrevCorrect(ex, now)
  {
    hide FromSeconds;
    if EitherDay(ex) {
      EitherFiredLast(ex, now);
    } else {
      CronBackwardExact.FaultlessIsCorrect(ex, now);
      SameAsOne(ex, now);
    }
  }

  /** With at most one day column restricted there is one search. */
  lemma SameAsOne(ex: Expanded, now: int)
    requires ex.Valid() && !EitherDay(ex)
    ensures PrevCorrect(ex, now) <==> CronBackwardExact.Correct(ex, now)
  {
    hide FromSeconds, Returns;
    forall t ensures PrevReturns(ex, now, t) <==> Returns(ex, now, t) {
    }
    forall t: int ensures FiredLast(ex, now, t) <==> GreatestBefore(ex, now, t) {
      forall u: int ensures ex.Fires(FromSeconds(u)) <==> ex.Matches(FromSeconds(u)) {
        FiresIsUnion(ex, FromSeconds(u));
      }
    }
  }
}
