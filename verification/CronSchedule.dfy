/** What `get_next` returns, with the either-day rule of the `crontab` utility: the earlier
    of two searches when both day columns are restricted. */
module CronSchedule {
  import opened Calendar
  import opened CronFields
  import opened CronClock
  import opened CronNext
  import opened CronForward
  import opened CronYears

  predicate EitherDay(ex: Expanded) { ex.day.Values? && ex.weekday.Values? }

  /** The expressions whose searches end: every column pair that is searched has a match. */
  ghost predicate Usable(ex: Expanded) {
    && ex.Valid()
    && Satisfiable(if EitherDay(ex) then ex.ByDay() else ex)
  }

  lemma WeekdaysAreSatisfiable(ex: Expanded)
    requires ex.Valid()
    ensures Satisfiable(ex.ByWeekday())
  {
    if ex.month.Values? {
      assert ex.month.vs[0] in ex.month.vs;
    }
    assert ex.month.Allows(ex.month.First(1));
  }

  ghost function NextTime(ex: Expanded, now: int): int
    requires Usable(ex)
  {
    if EitherDay(ex) then
      WeekdaysAreSatisfiable(ex);
      var t1, t2 := Next(ex.ByDay(), now), Next(ex.ByWeekday(), now);
      if t1 < t2 then t1 else t2
    else
      Next(ex, now)
  }

  /** `t` is the least time after `now` at which the schedule fires. */
  ghost predicate FiresNext(ex: Expanded, now: int, t: int) {
    && now < t && ex.Fires(FromSeconds(t))
    && forall u :: now < u < t ==> !ex.Fires(FromSeconds(u))
  }

  // ---------------------------------------------------------------- which expressions are served wrongly

  /** The schedule's clock columns allow the last tick of a day. */
  predicate FiresLate(ex: Expanded) {
    ex.hour.Allows(23) && ex.minute.Allows(59) && (ex.second.Some? ==> ex.second.value.Allows(59))
  }

  /** When the last day of February has weekday `w`, the weekday column allows neither the end
      of that day nor any day of March up to the first listed one. */
  predicate Unguarded(ex: Expanded, w: int)
    requires ex.day.Values? && |ex.day.vs| > 0
  {
    && !(ex.weekday.Allows(w % 7) && FiresLate(ex))
    && !ex.weekday.Allows((w + 1) % 7)
    && (ex.day.vs[0] >= 2 ==> !ex.weekday.Allows((w + 2) % 7))
  }

  /** The expressions for which `get_next` can pass over a time at which the schedule fires. */
  predicate Misses(ex: Expanded)
    requires ex.Valid()
  {
    SkipsMarch(ex) && (EitherDay(ex) ==> exists w :: 0 <= w < 7 && Unguarded(ex, w))
  }

  /** Neither search passes `u` when the weekday search comes to a match on the way. */
  lemma GuardStops(ex: Expanded, now: int, g: DateTime, u: int)
    requires Usable(ex) && EitherDay(ex) && ex.ByWeekday().Matches(g) && now < g.Seconds() <= u
    ensures NextTime(ex, now) <= u
  {
    hide FromSeconds, IsLeap, MonthStart, SkipsMarch;
    WeekdaysAreSatisfiable(ex);
    RoundTrip(g);
    NextPassesNoMatch(ex.ByWeekday(), now, g.Seconds());
  }

  /** The days from the end of February on follow each other, and so do their weekdays. */
  lemma MarchFollows(ex: Expanded, year: int, day: int, second: int)
    requires ex.Valid() && 1 <= day <= 31 && 0 <= second < 60
    ensures FebruaryEnd(year).(second := second).Valid() && FirstAllowed(ex, year, 3, day).Valid()
    ensures FirstAllowed(ex, year, 3, day).Ordinal() == FebruaryEnd(year).(second := second).Ordinal() + day
    ensures FirstAllowed(ex, year, 3, day).Weekday() == (FebruaryEnd(year).(second := second).Weekday() + day) % 7
  {
    hide IsLeap, MonthStart;
    ClockBounds(ex);
    MonthFollows(year, 2);
    var x := FebruaryEnd(year).(second := second).Ordinal();
    assert (x + day) % 7 == (x % 7 + day) % 7;
  }

  /** A match of the day search that it skips is guarded by one of the weekday search. */
  lemma SkippedIsGuarded(ex: Expanded, now: int, u: int)
    requires Usable(ex) && EitherDay(ex) && !Misses(ex) && now < u && ex.ByDay().Matches(FromSeconds(u))
    requires Skipped(ex.ByDay(), FromSeconds(now + ex.Unit()), FromSeconds(u))
    ensures NextTime(ex, now) <= u
  {
    hide FromSeconds, IsLeap, MonthStart, NextTime, Skipped;
    var start, e := FromSeconds(now + ex.Unit()), FromSeconds(u);
    SkippedMeans(ex.ByDay(), start, e);
    StartsBefore(ex, now, start, e);
    var second := if ex.second.Some? then 59 else 0;
    var w := FebruaryEnd(e.year).(second := second).Weekday();
    assert !Unguarded(ex, w);
    hide SkipsAfter;
    MarchFollows(ex, e.year, 1, second);
    MarchFollows(ex, e.year, 2, second);
    if ex.weekday.Allows(w % 7) && FiresLate(ex) {
      FebruaryGuards(ex, now, start, e, second);
    } else if ex.weekday.Allows((w + 1) % 7) {
      MarchGuards(ex, now, start, e, 1);
    } else {
      MarchGuards(ex, now, start, e, 2);
    }
  }

  lemma StartsBefore(ex: Expanded, now: int, start: DateTime, e: DateTime)
    requires start == FromSeconds(now + ex.Unit()) && ex.ByDay().Matches(e) && now < e.Seconds()
    requires Skipped(ex.ByDay(), start, e)
    ensures start.MonthIndex() < e.MonthIndex()
  {
    hide IsLeap, MonthStart;
    StartTicks(ex.ByDay(), now, e);
    Order(e, start);
  }

  lemma FebruaryGuards(ex: Expanded, now: int, start: DateTime, e: DateTime, second: int)
    requires Usable(ex) && EitherDay(ex) && FiresLate(ex) && second == if ex.second.Some? then 59 else 0
    requires start == FromSeconds(now + ex.Unit()) && e.Valid() && e.month == 3 && start.MonthIndex() < e.MonthIndex()
    requires ex.month.Allows(2) && ex.weekday.Allows(FebruaryEnd(e.year).(second := second).Weekday())
    ensures NextTime(ex, now) <= e.Seconds()
  {
    hide FromSeconds, IsLeap, MonthStart, NextTime;
    var g := FebruaryEnd(e.year).(second := second);
    assert ex.ByWeekday().Matches(g);
    Order(g, e);
    Order(start, g);
    if start.MonthIndex() == g.MonthIndex() {
      Gap(start, g);
    }
    StartTicks(ex.ByWeekday(), now, g);
    GuardStops(ex, now, g, e.Seconds());
  }

  lemma MarchGuards(ex: Expanded, now: int, start: DateTime, e: DateTime, day: int)
    requires Usable(ex) && EitherDay(ex) && ex.ByDay().Matches(e)
    requires start == FromSeconds(now + ex.Unit()) && e.month == 3 && start.MonthIndex() < e.MonthIndex()
    requires 1 <= day <= e.day && ex.weekday.Allows(FirstAllowed(ex, e.year, 3, day).Weekday())
    ensures NextTime(ex, now) <= e.Seconds()
  {
    hide FromSeconds, IsLeap, MonthStart, NextTime;
    var g := FirstAllowed(ex, e.year, 3, day);
    ClockBounds(ex);
    FirstAndLast(ex.hour, 0, 23);
    FirstAndLast(ex.minute, 0, 59);
    FirstAndLast(ex.SecondField(), 0, 59);
    assert ex.ByWeekday().Matches(g);
    Gap(g, e);
    Order(start, g);
    StartTicks(ex.ByWeekday(), now, g);
    GuardStops(ex, now, g, e.Seconds());
  }

  lemma NextTimePasses(ex: Expanded, now: int, u: int)
    requires Usable(ex) && !Misses(ex) && now < u && ex.Fires(FromSeconds(u))
    ensures NextTime(ex, now) <= u
  {
    hide FromSeconds, IsLeap, MonthStart, SkipsMarch, Skipped, Unguarded;
    var start, e := FromSeconds(now + ex.Unit()), FromSeconds(u);
    FiresIsUnion(ex, e);
    if !EitherDay(ex) {
      NotSkipped(ex, start, e);
      NextPassesNoMatch(ex, now, u);
    } else if ex.ByWeekday().Matches(e) {
      GuardStops(ex, now, e, u);
    } else if Skipped(ex.ByDay(), start, e) {
      SkippedIsGuarded(ex, now, u);
    } else {
      NextPassesNoMatch(ex.ByDay(), now, u);
    }
  }

  /** `get_next` returns the least time at which the schedule fires. */
  lemma NextTimeFiresNext(ex: Expanded, now: int)
    requires Usable(ex) && !Misses(ex)
    ensures FiresNext(ex, now, NextTime(ex, now))
  {
    var t := NextTime(ex, now);
    FiresIsUnion(ex, FromSeconds(t));
    assert now < t && ex.Fires(FromSeconds(t));
    hide FromSeconds, NextTime, Misses, Usable;
    forall u | now < u < t ensures !ex.Fires(FromSeconds(u)) {
      if ex.Fires(FromSeconds(u)) {
        NextTimePasses(ex, now, u);
      }
    }
  }

  // ---------------------------------------------------------------- the family is exact

  /** An unguarded end of February lets the weekday search pass the skipped day of March. */
  lemma NoGuard(ex: Expanded, year: int, m: DateTime)
    requires ex.Valid() && EitherDay(ex) && Unguarded(ex, FebruaryEnd(year).Weekday()) && ex.day.vs[0] <= 2
    requires ex.ByWeekday().Matches(m) && FebruaryEnd(year).Valid()
    requires Ticks(ex, FebruaryEnd(year)) <= Ticks(ex, m)
    ensures m.Ordinal() > FebruaryEnd(year).Ordinal() + ex.day.vs[0]
  {
    hide IsLeap, MonthStart;
    var f := FebruaryEnd(year);
    Order(m, f);
    var k := m.Ordinal() - f.Ordinal();
    assert k == 0 ==> m.hour == 23 && m.minute == 59 && (ex.second.Some? ==> m.second == 59);
    DaysAhead(f.Ordinal(), m.Ordinal());
    assert m.Weekday() == (f.Weekday() + k) % 7;
    hide DateTime.Ordinal, DateTime.Weekday;
  }

  /** The weekday search that starts with the last tick of such a February. */
  lemma WeekdaysPass(ex: Expanded, year: int, now: int)
    requires ex.Valid() && EitherDay(ex) && Satisfiable(ex.ByWeekday())
    requires Unguarded(ex, FebruaryEnd(year).Weekday()) && 1 <= ex.day.vs[0] <= 2
    requires now == FebruaryEnd(year).Seconds() - ex.Unit()
    ensures FirstAllowed(ex, year, 3, ex.day.vs[0]).Seconds() < Next(ex.ByWeekday(), now)
  {
    hide FromSeconds, IsLeap, MonthStart, Unguarded, Satisfiable;
    var f, e, m := FebruaryEnd(year), FirstAllowed(ex, year, 3, ex.day.vs[0]), FromSeconds(Next(ex.ByWeekday(), now));
    MarchFollows(ex, year, ex.day.vs[0], 59);
    RoundTrip(f);
    StartTicks(ex.ByWeekday(), now, m);
    NoGuard(ex, year, m);
    LaterDay(ex, e, m);
  }

  lemma UnguardedYear(ex: Expanded) returns (year: int)
    requires ex.Valid() && EitherDay(ex) && Misses(ex)
    ensures SkipsAfter(ex.day.vs, MonthLength(year, 2)) && Unguarded(ex, FebruaryEnd(year).Weekday())
    ensures 1 <= ex.day.vs[0] <= 2
  {
    hide IsLeap, MonthStart, Unguarded;
    assert ex.day.vs[0] in ex.day.vs;
    var length := if SkipsAfter(ex.day.vs, 28) then 28 else 29;
    var w :| 0 <= w < 7 && Unguarded(ex, w);
    year := FebruaryEndsOn(length, w);
    Remainder(year, 1, 12);
    assert FebruaryEnd(year).Weekday() == w;
  }

  lemma MissWitness(ex: Expanded) returns (now: int, u: int)
    requires Usable(ex) && EitherDay(ex) && Misses(ex)
    ensures now < u < NextTime(ex, now) && ex.Fires(FromSeconds(u))
  {
    hide FromSeconds, IsLeap, MonthStart, Unguarded, Satisfiable, SkipsAfter, Expanded.Fires, Expanded.Matches;
    var year := UnguardedYear(ex);
    now, u := SkipWitness(ex.ByDay(), year);
    WeekdaysAreSatisfiable(ex);
    WeekdaysPass(ex, year, now);
    FiresIsUnion(ex, FromSeconds(u));
  }

  /** `get_next` is right at every moment exactly when the expression is not one of those. */
  lemma NextTimeFiresNextIff(ex: Expanded)
    requires Usable(ex)
    ensures (forall now: int :: FiresNext(ex, now, NextTime(ex, now))) <==> !Misses(ex)
  {
    if !Misses(ex) {
      forall now: int ensures FiresNext(ex, now, NextTime(ex, now)) {
        NextTimeFiresNext(ex, now);
      }
    } else if EitherDay(ex) {
      var now, u := MissWitness(ex);
      assert !FiresNext(ex, now, NextTime(ex, now));
    } else {
      var now, u := SkipWitness(ex, if SkipsAfter(ex.day.vs, 28) then 2001 else 2000);
      FiresIsUnion(ex, FromSeconds(u));
      assert !FiresNext(ex, now, NextTime(ex, now));
    }
  }
}
