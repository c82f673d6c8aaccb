/** What the forward search finds: the least match after now, exactly when the
    expression is not one that skips the start of March. */
module CronForward {
  import opened Wrappers
  import opened Calendar
  import opened CronFields
  import opened CronClock
  import opened CronNext

  // ---------------------------------------------------------------- which expressions ever match

  function LongestMonth(month: int): int { if month == 2 then 29 else Days(month) }

  /** Some allowed month is long enough for the first listed day. */
  predicate Satisfiable(ex: Expanded)
    requires ex.Valid()
  {
    exists m :: 1 <= m <= 12 && ex.month.Allows(m) && (ex.day.Values? ==> ex.day.vs[0] <= LongestMonth(m))
  }

  lemma MatchMeansSatisfiable(ex: Expanded, d: DateTime)
    requires Searchable(ex) && ex.Matches(d)
    ensures Satisfiable(ex)
  {
    assert ex.month.Allows(d.month) && (ex.day.Values? ==> ex.day.vs[0] <= d.day);
  }

  lemma {:induction false} MonthsPassDays(i: int)
    requires i >= 12
    ensures MonthStart(i) >= i - 11
  {
    if i > 12 {
      MonthsPassDays(i - 1);
    }
  }

  lemma AllowedDay(ex: Expanded, year: int) returns (m: int, day: int)
    requires Searchable(ex) && Satisfiable(ex)
    ensures 1 <= m <= 12 && ex.month.Allows(m)
    ensures 1 <= day <= LongestMonth(m) && ex.day.Allows(day) && (SkipsMarch(ex) ==> day > 2)
    ensures ex.weekday.Allows((MonthStart(12 * year + m - 1) + day - 1) % 7)
  {
    m :| 1 <= m <= 12 && ex.month.Allows(m) && (ex.day.Values? ==> ex.day.vs[0] <= LongestMonth(m));
    day := 1;
    if SkipsMarch(ex) {
      m, day := 3, AtLeast(ex.day.vs, if SkipsAfter(ex.day.vs, 28) then 28 else 29).value;
    } else if ex.day.Values? {
      day := ex.day.vs[0];
    } else if ex.weekday.Values? {
      assert ex.weekday.vs[0] in ex.weekday.vs;
      day := DayOnWeekday(12 * year + m - 1, ex.weekday.vs[0]);
    }
    if ex.day.Values? {
      assert ex.day.vs[0] in ex.day.vs;
    }
  }

  /** A satisfiable expression matches after every moment, and even on a day that no
      search can skip. */
  lemma LaterMatch(ex: Expanded, now: int) returns (e: DateTime)
    requires Searchable(ex) && Satisfiable(ex)
    ensures ex.Matches(e) && e.Seconds() > now && (SkipsMarch(ex) ==> e.day > 2)
  {
    hide IsLeap, MonthStart, SkipsMarch, Satisfiable;
    var year := 400 * ((if now > 0 then now else 0) + 1);
    LeapCentury((if now > 0 then now else 0) + 1);
    var m, day := AllowedDay(ex, year);
    ClockBounds(ex);
    FirstAllowedMatches(ex, year, m, day);
    e := FirstAllowed(ex, year, m, day);
    MonthsPassDays(e.MonthIndex());
  }

  lemma DayOnWeekday(i: int, w: int) returns (day: int)
    requires 0 <= w < 7
    ensures 1 <= day <= 7 && (MonthStart(i) + day - 1) % 7 == w
  {
    var x := MonthStart(i);
    day := 1 + (w - x) % 7;
    Remainder(-((w - x) / 7), w, 7);
  }

  ghost function Bound(ex: Expanded, now: int): (e: DateTime)
    requires Searchable(ex) && Satisfiable(ex)
    ensures ex.Matches(e) && e.Seconds() > now && (SkipsMarch(ex) ==> e.day > 2)
  {
    LaterMatchExists(ex, now);
    var e :| ex.Matches(e) && e.Seconds() > now && (SkipsMarch(ex) ==> e.day > 2);
    e
  }

  lemma LaterMatchExists(ex: Expanded, now: int)
    requires Searchable(ex) && Satisfiable(ex)
    ensures exists e :: ex.Matches(e) && e.Seconds() > now && (SkipsMarch(ex) ==> e.day > 2)
  {
    var e := LaterMatch(ex, now);
  }

  // ---------------------------------------------------------------- the search

  lemma NotSkipped(ex: Expanded, start: DateTime, e: DateTime)
    requires ex.Valid() && ex.Matches(e) && (SkipsMarch(ex) ==> e.day > 2)
    ensures !Skipped(ex, start, e)
  {
    hide Skipped, SkipsMarch, SkipsAfter, IsLeap, MonthStart;
    if Skipped(ex, start, e) {
      SkippedMeans(ex, start, e);
    }
  }

  /** The loop of `_calc`.  Its own guard never changes; that it ends at all is because
      no step passes `bound`, a match that cannot be skipped. */
  function Search(ex: Expanded, start: DateTime, d: DateTime, ghost bound: DateTime): (r: DateTime)
    requires Searchable(ex) && Inv(ex, start, d)
    requires ex.Matches(bound) && (SkipsMarch(ex) ==> bound.day > 2) && Ticks(ex, d) <= Ticks(ex, bound)
    ensures ex.Matches(r) && Ticks(ex, d) <= Ticks(ex, r)
    decreases Ticks(ex, bound) - Ticks(ex, d)
  {
    match Step(ex, start, d)
    case None =>
      StepStops(ex, start, d);
      Settle(ex, d)
    case Some(d') =>
      NotSkipped(ex, start, bound);
      StepAdvances(ex, start, d, d');
      StepReaches(ex, start, d, d', bound);
      Search(ex, start, d', bound)
  }

  lemma {:induction false} SearchReaches(ex: Expanded, start: DateTime, d: DateTime, bound: DateTime, e: DateTime)
    requires Searchable(ex) && Inv(ex, start, d)
    requires ex.Matches(bound) && (SkipsMarch(ex) ==> bound.day > 2) && Ticks(ex, d) <= Ticks(ex, bound)
    requires ex.Matches(e) && !Skipped(ex, start, e) && Ticks(ex, d) <= Ticks(ex, e)
    ensures Ticks(ex, Search(ex, start, d, bound)) <= Ticks(ex, e)
    decreases Ticks(ex, bound) - Ticks(ex, d)
  {
    match Step(ex, start, d)
    case None =>
      StepStops(ex, start, d);
    case Some(d') =>
      NotSkipped(ex, start, bound);
      StepAdvances(ex, start, d, d');
      StepReaches(ex, start, d, d', bound);
      StepReaches(ex, start, d, d', e);
      SearchReaches(ex, start, d', bound, e);
  }

  /** A match after `now` is no earlier, in ticks, than the moment the search starts
      from, and conversely. */
  lemma StartTicks(ex: Expanded, now: int, e: DateTime)
    requires ex.Matches(e)
    ensures e.Seconds() > now <==> Ticks(ex, FromSeconds(now + ex.Unit())) <= Ticks(ex, e)
  {
    hide IsLeap, MonthStart;
    var s := FromSeconds(now + ex.Unit());
    if ex.second.None? {
      assert s.Seconds() == 60 * MinuteCount(s) + s.second;
      assert e.Seconds() == 60 * MinuteCount(e);
    }
  }

  /** The time `_calc` returns for a forward search from `now`. */
  ghost function Next(ex: Expanded, now: int): (t: int)
    requires Searchable(ex) && Satisfiable(ex)
    ensures t > now && ex.Matches(FromSeconds(t))
  {
    var start, bound := FromSeconds(now + ex.Unit()), Bound(ex, now);
    StartTicks(ex, now, bound);
    var r := Search(ex, start, start, bound);
    StartTicks(ex, now, r);
    RoundTrip(r);
    r.Seconds()
  }

  /** `t` is the least match after `now`. */
  ghost predicate LeastAfter(ex: Expanded, now: int, t: int) {
    && now < t && ex.Matches(FromSeconds(t))
    && forall u :: now < u < t ==> !ex.Matches(FromSeconds(u))
  }

  lemma NextPassesNoMatch(ex: Expanded, now: int, u: int)
    requires Searchable(ex) && Satisfiable(ex)
    requires now < u && ex.Matches(FromSeconds(u)) && !Skipped(ex, FromSeconds(now + ex.Unit()), FromSeconds(u))
    ensures Next(ex, now) <= u
  {
    hide IsLeap, MonthStart;
    var start, bound, e := FromSeconds(now + ex.Unit()), Bound(ex, now), FromSeconds(u);
    StartTicks(ex, now, bound);
    StartTicks(ex, now, e);
    SearchReaches(ex, start, start, bound, e);
    var r := Search(ex, start, start, bound);
    Order(e, r);
  }

  /** For the expressions that skip nothing, the jumping search is the simple one. */
  lemma NextIsLeast(ex: Expanded, now: int)
    requires Searchable(ex) && Satisfiable(ex) && !SkipsMarch(ex)
    ensures LeastAfter(ex, now, Next(ex, now))
  {
    forall u | now < u < Next(ex, now) ensures !ex.Matches(FromSeconds(u)) {
      if ex.Matches(FromSeconds(u)) {
        NotSkipped(ex, FromSeconds(now + ex.Unit()), FromSeconds(u));
        NextPassesNoMatch(ex, now, u);
      }
    }
  }

  // ---------------------------------------------------------------- the failing family

  /** The last second of February. */
  function FebruaryEnd(year: int): DateTime { LastSecond(year, 2, MonthLength(year, 2)) }

  /** From the last second of February the first step passes a match in March. */
  lemma StepSkips(ex: Expanded, year: int) returns (d': DateTime)
    requires Searchable(ex) && SkipsMarch(ex) && SkipsAfter(ex.day.vs, MonthLength(year, 2))
    ensures var start, e := FebruaryEnd(year), FirstAllowed(ex, year, 3, ex.day.vs[0]);
      && start.Valid() && ex.Matches(e) && start.Ordinal() < e.Ordinal()
      && Step(ex, start, start) == Some(d') && e.Ordinal() < d'.Ordinal()
  {
    hide IsLeap, MonthStart;
    var start, e := FebruaryEnd(year), FirstAllowed(ex, year, 3, ex.day.vs[0]);
    assert ex.day.vs[0] in ex.day.vs;
    ClockBounds(ex);
    FirstAndLast(ex.hour, 0, 23);
    FirstAndLast(ex.minute, 0, 59);
    FirstAndLast(ex.SecondField(), 0, 59);
    Gap(start, e);
    NextMonthStart(start.MonthIndex());
    MonthAllowedStays(ex, start);
    d' := ProcDay(ex, start, start).value;
    DayStep(ex, start, start, d');
  }

  lemma NextAfterStep(ex: Expanded, now: int, start: DateTime, d': DateTime)
    requires Searchable(ex) && Satisfiable(ex)
    requires start == FromSeconds(now + ex.Unit()) && Step(ex, start, start) == Some(d')
    ensures d'.Valid() && Ticks(ex, d') <= Ticks(ex, FromSeconds(Next(ex, now)))
  {
    hide IsLeap, MonthStart, FromSeconds, Step;
    var bound := Bound(ex, now);
    StartTicks(ex, now, bound);
    NotSkipped(ex, start, bound);
    StepAdvances(ex, start, start, d');
    StepReaches(ex, start, start, d', bound);
    RoundTrip(Search(ex, start, d', bound));
  }

  /** So the search that starts there misses that match. */
  lemma SkipWitness(ex: Expanded, year: int) returns (now: int, u: int)
    requires Searchable(ex) && Satisfiable(ex) && SkipsMarch(ex) && SkipsAfter(ex.day.vs, MonthLength(year, 2))
    ensures now < u < Next(ex, now) && ex.Matches(FromSeconds(u))
    ensures now == FebruaryEnd(year).Seconds() - ex.Unit() && u == FirstAllowed(ex, year, 3, ex.day.vs[0]).Seconds()
  {
    hide IsLeap, MonthStart, FromSeconds, Step;
    var start, e := FebruaryEnd(year), FirstAllowed(ex, year, 3, ex.day.vs[0]);
    var d' := StepSkips(ex, year);
    now, u := start.Seconds() - ex.Unit(), e.Seconds();
    RoundTrip(start);
    RoundTrip(e);
    NextAfterStep(ex, now, start, d');
    LaterDay(ex, start, e);
    LaterDay(ex, e, d');
    LaterTicks(ex, e, FromSeconds(Next(ex, now)));
  }

  lemma MonthAllowedStays(ex: Expanded, d: DateTime)
    requires ex.Valid() && d.Valid() && ex.month.Allows(d.month)
    ensures ProcMonth(ex, d).None?
  {
  }

  /** `get_next` on a search with one restricted day column is right at every moment exactly
      when the expression does not skip the start of March. */
  lemma NextIsLeastIff(ex: Expanded)
    requires Searchable(ex) && Satisfiable(ex)
    ensures (forall now: int :: LeastAfter(ex, now, Next(ex, now))) <==> !SkipsMarch(ex)
  {
    if SkipsMarch(ex) {
      var now, u := SkipWitness(ex, if SkipsAfter(ex.day.vs, 28) then 2001 else 2000);
      assert !LeastAfter(ex, now, Next(ex, now));
    } else {
      forall now: int ensures LeastAfter(ex, now, Next(ex, now)) {
        NextIsLeast(ex, now);
      }
    }
  }

  /** `_calc`, searching forward. */
  method Calc(ex: Expanded, now: int) returns (t: int)
    requires Searchable(ex) && Satisfiable(ex)
    ensures t == Next(ex, now)
  {
    hide IsLeap, MonthStart, FromSeconds, Step;
    var offset := if ex.second.Some? then 1 else 60;
    var start := FromSeconds(now + offset);
    var dst := start;
    ghost var bound := Bound(ex, now);
    StartTicks(ex, now, bound);
    while true
      invariant Inv(ex, start, dst) && Ticks(ex, dst) <= Ticks(ex, bound)
      invariant Search(ex, start, dst, bound) == Search(ex, start, start, bound)
      decreases Ticks(ex, bound) - Ticks(ex, dst)
    {
      var moved := Step(ex, start, dst);
      if moved.None? {
        StepStops(ex, start, dst);
        return Settle(ex, dst).Seconds();
      }
      NotSkipped(ex, start, bound);
      StepAdvances(ex, start, dst, moved.value);
      StepReaches(ex, start, dst, moved.value, bound);
      dst := moved.value;
    }
  }
}
