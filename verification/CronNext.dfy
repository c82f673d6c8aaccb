/** The forward search of the cron engine: jump column by column until every
    column allows the time. */
module CronNext {
  import opened Wrappers
  import opened Calendar
  import opened CronFields
  import opened CronClock

  // ---------------------------------------------------------------- the steps

  function ProcMonth(ex: Expanded, d: DateTime): Option<DateTime>
    requires ex.Valid() && d.Valid()
  {
    if ex.month.Star? then None else
    var k := NextDiff(d.month, ex.month.vs, 12);
    Moved(k, d, RelativeDelta(months := k, day := Some(1), hour := Some(0), minute := Some(0), second := Some(0)))
  }

  /** The wrap-around length is that of the month the search started in. */
  function ProcDay(ex: Expanded, start: DateTime, d: DateTime): Option<DateTime>
    requires ex.Valid() && d.Valid()
  {
    if ex.day.Star? then None else
    var k := NextDiff(d.day, ex.day.vs, MonthLength(start.year, start.month));
    Moved(k, d, RelativeDelta(days := k, hour := Some(0), minute := Some(0), second := Some(0)))
  }

  function ProcWeekday(ex: Expanded, d: DateTime): Option<DateTime>
    requires ex.Valid() && d.Valid()
  {
    if ex.weekday.Star? then None else
    var k := NextDiff(d.Weekday(), ex.weekday.vs, 7);
    Moved(k, d, RelativeDelta(days := k, hour := Some(0), minute := Some(0), second := Some(0)))
  }

  function ProcHour(ex: Expanded, d: DateTime): Option<DateTime>
    requires ex.Valid() && d.Valid()
  {
    if ex.hour.Star? then None else
    var k := NextDiff(d.hour, ex.hour.vs, 24);
    Moved(k, d, RelativeDelta(hours := k, minute := Some(0), second := Some(0)))
  }

  function ProcMinute(ex: Expanded, d: DateTime): Option<DateTime>
    requires ex.Valid() && d.Valid()
  {
    if ex.minute.Star? then None else
    var k := NextDiff(d.minute, ex.minute.vs, 60);
    Moved(k, d, RelativeDelta(minutes := k, second := Some(0)))
  }

  function ProcSecond(ex: Expanded, d: DateTime): Option<DateTime>
    requires ex.Valid() && d.Valid()
  {
    if ex.second.None? || ex.second.value.Star? then None else
    var k := NextDiff(d.second, ex.second.value.vs, 60);
    Moved(k, d, RelativeDelta(seconds := k))
  }

  /** One turn of the search loop: the first column that moves the time. */
  function Step(ex: Expanded, start: DateTime, d: DateTime): (r: Option<DateTime>)
    requires ex.Valid() && d.Valid()
    ensures r.Some? ==> r.value.Valid()
  {
    var month := ProcMonth(ex, d);
    if month.Some? then month else
    var day := ProcDay(ex, start, d);
    if day.Some? then day else
    var weekday := ProcWeekday(ex, d);
    if weekday.Some? then weekday else
    var hour := ProcHour(ex, d);
    if hour.Some? then hour else
    var minute := ProcMinute(ex, d);
    if minute.Some? then minute else
    ProcSecond(ex, d)
  }

  // ---------------------------------------------------------------- what each step does

  lemma MonthStep(ex: Expanded, d: DateTime, d': DateTime)
    requires ex.Valid() && d.Valid() && ProcMonth(ex, d) == Some(d')
    ensures d'.Valid() && d'.MonthIndex() > d.MonthIndex() && d'.day == 1 && d'.TimeOfDay() == 0
    ensures forall i :: d.MonthIndex() <= i < d'.MonthIndex() ==> !ex.month.Allows(i % 12 + 1)
  {
    hide IsLeap, MonthStart;
    Residues(d);
    Residues(d');
    NextDiffIsLeast(d.MonthIndex(), ex.month.vs, 1, 12);
    var k := NextDiff(d.month, ex.month.vs, 12);
    var r := RelativeDelta(months := k, day := Some(1), hour := Some(0), minute := Some(0), second := Some(0));
    SecondsInjective(d', Replace(d, r));
  }

  lemma DayStep(ex: Expanded, start: DateTime, d: DateTime, d': DateTime)
    requires ex.Valid() && d.Valid() && ProcDay(ex, start, d) == Some(d')
    ensures d'.Valid() && d'.TimeOfDay() == 0
    ensures d'.Ordinal() == d.Ordinal() + NextDiff(d.day, ex.day.vs, MonthLength(start.year, start.month))
  {
    hide IsLeap, MonthStart;
    var r := RelativeDelta(hour := Some(0), minute := Some(0), second := Some(0));
    Replaced(d, r);
    AtMidnight(d', d.Ordinal() + NextDiff(d.day, ex.day.vs, MonthLength(start.year, start.month)));
  }

  lemma WeekdayStep(ex: Expanded, d: DateTime, d': DateTime)
    requires ex.Valid() && d.Valid() && ProcWeekday(ex, d) == Some(d')
    ensures d'.Valid() && d'.TimeOfDay() == 0 && d'.Ordinal() > d.Ordinal()
    ensures forall n :: d.Ordinal() <= n < d'.Ordinal() ==> !ex.weekday.Allows(n % 7)
  {
    hide IsLeap, MonthStart;
    var r := RelativeDelta(hour := Some(0), minute := Some(0), second := Some(0));
    Replaced(d, r);
    NextDiffIsLeast(d.Ordinal(), ex.weekday.vs, 0, 7);
    AtMidnight(d', d.Ordinal() + NextDiff(d.Weekday(), ex.weekday.vs, 7));
  }

  lemma HourStep(ex: Expanded, d: DateTime, d': DateTime)
    requires ex.Valid() && d.Valid() && ProcHour(ex, d) == Some(d')
    ensures d'.Valid() && d'.minute == 0 && d'.second == 0
    ensures HourCount(d') == HourCount(d) + NextDiff(d.hour, ex.hour.vs, 24) > HourCount(d)
    ensures forall n :: HourCount(d) <= n < HourCount(d') ==> !ex.hour.Allows(n % 24)
  {
    hide IsLeap, MonthStart;
    var r := RelativeDelta(minute := Some(0), second := Some(0));
    Replaced(d, r);
    Residues(d);
    Residues(d');
    NextDiffIsLeast(HourCount(d), ex.hour.vs, 0, 24);
    var n := HourCount(d) + NextDiff(d.hour, ex.hour.vs, 24);
    AtHour(d', n);
  }

  lemma MinuteStep(ex: Expanded, d: DateTime, d': DateTime)
    requires ex.Valid() && d.Valid() && ProcMinute(ex, d) == Some(d')
    ensures d'.Valid() && d'.second == 0
    ensures MinuteCount(d') == MinuteCount(d) + NextDiff(d.minute, ex.minute.vs, 60) > MinuteCount(d)
    ensures forall n :: MinuteCount(d) <= n < MinuteCount(d') ==> !ex.minute.Allows(n % 60)
  {
    hide IsLeap, MonthStart;
    var r := RelativeDelta(second := Some(0));
    Replaced(d, r);
    Residues(d);
    Residues(d');
    NextDiffIsLeast(MinuteCount(d), ex.minute.vs, 0, 60);
    var n := MinuteCount(d) + NextDiff(d.minute, ex.minute.vs, 60);
    AtMinute(d', n);
  }

  lemma SecondStep(ex: Expanded, d: DateTime, d': DateTime)
    requires ex.Valid() && d.Valid() && ProcSecond(ex, d) == Some(d')
    ensures d'.Valid()
    ensures d'.Seconds() == d.Seconds() + NextDiff(d.second, ex.second.value.vs, 60) > d.Seconds()
    ensures forall n :: d.Seconds() <= n < d'.Seconds() ==> !ex.SecondField().Allows(n % 60)
  {
    hide IsLeap, MonthStart;
    Replaced(d, RelativeDelta());
    Residues(d);
    Residues(d');
    NextDiffIsLeast(d.Seconds(), ex.second.value.vs, 0, 60);
  }

  lemma AtMidnight(d: DateTime, n: int)
    requires d.Valid() && d.Seconds() == DAY_SECONDS * n
    ensures d.Ordinal() == n && d.TimeOfDay() == 0
  {
    Counters(d);
  }

  lemma AtHour(d: DateTime, n: int)
    requires d.Valid() && d.Seconds() == 3600 * n
    ensures HourCount(d) == n && d.minute == 0 && d.second == 0
  {
    var rest := 60 * d.minute + d.second;
    assert d.Seconds() == 3600 * HourCount(d) + rest;
  }

  lemma AtMinute(d: DateTime, n: int)
    requires d.Valid() && d.Seconds() == 60 * n
    ensures MinuteCount(d) == n && d.second == 0
  {
    assert d.Seconds() == 60 * MinuteCount(d) + d.second;
  }

  // ---------------------------------------------------------------- order

  /** A time that is not before `d` is not before a later time at the start of
      an hour, a day, or a month, unless it is before it at that grain. */
  lemma NotBefore(ex: Expanded, d: DateTime, e: DateTime)
    requires d.Valid() && e.Valid()
    requires
      || (MinuteCount(d) <= MinuteCount(e) && d.second == 0)
      || (HourCount(d) <= HourCount(e) && d.minute == 0 && d.second == 0)
      || (d.Ordinal() <= e.Ordinal() && d.TimeOfDay() == 0)
      || (d.MonthIndex() <= e.MonthIndex() && d.day == 1 && d.TimeOfDay() == 0)
    ensures Ticks(ex, d) <= Ticks(ex, e)
  {
    hide IsLeap, MonthStart;
    InMonth(d);
    InMonth(e);
    if d.MonthIndex() < e.MonthIndex() {
      MonthOrder(d.MonthIndex(), e.MonthIndex());
    }
  }

  // ---------------------------------------------------------------- the invariant

  /** The search goes forward, and once it has left the month it started in, the day is no later than the
      last listed day and the time of day no later than the first allowed one.  So
      the wrap-around length, which is that of the starting month, is never wrong
      when it is used. */
  ghost predicate Inv(ex: Expanded, start: DateTime, d: DateTime)
    requires ex.Valid()
  {
    && start.Valid() && d.Valid() && start.MonthIndex() <= d.MonthIndex()
    && (ex.day.Values? && d.MonthIndex() != start.MonthIndex() ==>
          d.day <= ex.day.Last(31) && d.TimeOfDay() <= ex.Opening())
  }

  /** A February of `length` days runs out before the next listed day: the step to that day
      lands in March, after the first listed day of March. */
  predicate SkipsAfter(vs: seq<int>, length: int)
    requires |vs| > 0
  {
    var next := AtLeast(vs, length);
    next.Some? && length + vs[0] < next.value
  }

  /** The expressions for which a search can step over a matching day, the 1st or 2nd of March. */
  predicate SkipsMarch(ex: Expanded)
    requires ex.day.Values? ==> |ex.day.vs| > 0
  {
    && ex.day.Values? && ex.month.Allows(2) && ex.month.Allows(3)
    && (SkipsAfter(ex.day.vs, 28) || SkipsAfter(ex.day.vs, 29))
  }

  /** A match that a search begun in an earlier month can step over: a listed day of March, when
      the February before it runs out before the next listed day. */
  predicate Skipped(ex: Expanded, start: DateTime, e: DateTime) {
    && ex.day.Values? && ex.month.Allows(2) && e.month == 3 && start.MonthIndex() != e.MonthIndex()
    && var next := AtLeast(ex.day.vs, MonthLength(e.year, 2));
       next.Some? && MonthLength(e.year, 2) + e.day < next.value
  }

  lemma SkippedMeans(ex: Expanded, start: DateTime, e: DateTime)
    requires ex.Valid() && ex.Matches(e) && Skipped(ex, start, e)
    ensures SkipsMarch(ex) && SkipsAfter(ex.day.vs, MonthLength(e.year, 2)) && ex.day.vs[0] <= e.day <= 2 && e.month == 3
  {
    hide IsLeap, MonthStart;
    var vs := ex.day.vs;
    assert vs[0] <= e.day;
  }

  /** Up to a listed day of the month, counted on when the month is too short for it. */
  lemma DayUp(ex: Expanded, start: DateTime, d: DateTime, d': DateTime)
    requires ex.Valid() && d.Valid() && ProcDay(ex, start, d) == Some(d') && AtLeast(ex.day.vs, d.day).Some?
    ensures d'.Ordinal() > d.Ordinal() && d'.day <= ex.day.Last(31)
  {
    hide IsLeap, MonthStart;
    var vs, i := ex.day.vs, d.MonthIndex();
    assert vs[|vs| - 1] in vs;
    DayStep(ex, start, d, d');
    Gap(d, d);
    Landing(d', i, AtLeast(vs, d.day).value);
  }

  /** Around to the first listed day of the next month: only in the starting month, whose
      length is the right one. */
  lemma DayAround(ex: Expanded, start: DateTime, d: DateTime, d': DateTime)
    requires Searchable(ex) && Inv(ex, start, d) && ProcDay(ex, start, d) == Some(d') && AtLeast(ex.day.vs, d.day).None?
    ensures d'.Ordinal() > d.Ordinal() && d'.day <= ex.day.Last(31)
  {
    hide IsLeap, MonthStart;
    var vs, i := ex.day.vs, d.MonthIndex();
    assert vs[0] in vs && vs[|vs| - 1] in vs;
    assert i == start.MonthIndex();
    DayStep(ex, start, d, d');
    Gap(start, start);
    Gap(d, d);
    hide Length, MonthLength;
    Landing(d', i, Length(i) + vs[0]);
  }

  /** The distance `ProcDay` moves is positive and ends in this month or the next. */
  lemma DayDiff(ex: Expanded, start: DateTime, d: DateTime, d': DateTime)
    requires Searchable(ex) && Inv(ex, start, d) && ProcDay(ex, start, d) == Some(d')
    ensures d'.Ordinal() > d.Ordinal()
    ensures d'.day <= ex.day.Last(31)
  {
    hide IsLeap, MonthStart;
    if AtLeast(ex.day.vs, d.day).Some? {
      DayUp(ex, start, d, d');
    } else {
      DayAround(ex, start, d, d');
    }
  }

  // ---------------------------------------------------------------- one turn of the search

  /** A clock step that crosses midnight lands at or before the first allowed time of
      day; one taken at or before that time neither passes it nor crosses midnight. */
  ghost predicate KeepsOpening(ex: Expanded, d: DateTime, d': DateTime)
    requires ex.Valid()
  {
    && (d'.Ordinal() == d.Ordinal() || d'.Ordinal() == d.Ordinal() + 1)
    && (d'.Ordinal() > d.Ordinal() ==> d'.TimeOfDay() <= ex.Opening())
    && (d.TimeOfDay() <= ex.Opening() ==> d'.Ordinal() == d.Ordinal() && d'.TimeOfDay() <= ex.Opening())
  }

  /** Up from `x` in a column of values in `0 .. n - 1`: to a listed value, or around
      to the first one. */
  lemma UpOrAround(x: int, vs: seq<int>, n: int)
    requires Values(vs).Valid(0, n - 1) && 0 <= x < n
    ensures var k := NextDiff(x, vs, n);
      && 0 <= k < n
      && (x + k < n || x + k == vs[0] + n)
      && (x <= vs[0] ==> x + k == vs[0])
  {
    assert vs[0] in vs;
  }

  lemma HourKeepsOpening(ex: Expanded, d: DateTime, d': DateTime)
    requires ex.Valid() && d.Valid() && ProcHour(ex, d) == Some(d')
    ensures KeepsOpening(ex, d, d')
  {
    hide IsLeap, MonthStart;
    HourStep(ex, d, d');
    ClockBounds(ex);
    UpOrAround(d.hour, ex.hour.vs, 24);
  }

  lemma MinuteCarry(d: DateTime, d': DateTime, k: int)
    requires d.Valid() && d'.Valid() && 0 < k < 60 && MinuteCount(d') == MinuteCount(d) + k
    ensures if d.minute + k < 60 then d'.Ordinal() == d.Ordinal() && d'.hour == d.hour && d'.minute == d.minute + k
            else
              && d'.minute == d.minute + k - 60
              && (if d.hour < 23 then d'.Ordinal() == d.Ordinal() && d'.hour == d.hour + 1
                  else d'.Ordinal() == d.Ordinal() + 1 && d'.hour == 0)
  {
    hide IsLeap, MonthStart;
  }

  lemma MinuteKeepsOpening(ex: Expanded, d: DateTime, d': DateTime)
    requires ex.Valid() && d.Valid() && ProcHour(ex, d).None? && ProcMinute(ex, d) == Some(d')
    ensures KeepsOpening(ex, d, d')
  {
    hide IsLeap, MonthStart, DateTime.Ordinal;
    MinuteStep(ex, d, d');
    ClockBounds(ex);
    HourStays(ex, d);
    UpOrAround(d.minute, ex.minute.vs, 60);
    MinuteCarry(d, d', NextDiff(d.minute, ex.minute.vs, 60));
  }

  lemma AtOpening(ex: Expanded, d: DateTime)
    requires ex.Valid() && d.Valid() && d.TimeOfDay() <= ex.Opening()
    requires d.hour >= ex.hour.First(0) && d.minute >= ex.minute.First(0)
    ensures d.hour == ex.hour.First(0) && d.minute == ex.minute.First(0) && d.second <= ex.SecondField().First(0)
  {
    ClockBounds(ex);
  }

  lemma SecondKeepsOpening(ex: Expanded, d: DateTime, d': DateTime)
    requires ex.Valid() && d.Valid() && ProcHour(ex, d).None? && ProcMinute(ex, d).None? && ProcSecond(ex, d) == Some(d')
    ensures KeepsOpening(ex, d, d')
  {
    hide IsLeap, MonthStart;
    var k := NextDiff(d.second, ex.second.value.vs, 60);
    Replaced(d, RelativeDelta());
    ClockBounds(ex);
    HourStays(ex, d);
    MinuteStays(ex, d);
    UpOrAround(d.second, ex.second.value.vs, 60);
    Carry(d, d', k);
    if d.TimeOfDay() <= ex.Opening() {
      AtOpening(ex, d);
    }
  }

  lemma Carry(d: DateTime, d': DateTime, k: int)
    requires d.Valid() && d'.Valid() && 0 < k < 60 && d'.Seconds() == d.Seconds() + k
    ensures || (d'.Ordinal() == d.Ordinal() && d'.TimeOfDay() == d.TimeOfDay() + k)
            || (d'.Ordinal() == d.Ordinal() + 1 && d'.TimeOfDay() == d.second + k - 60)
  {
  }

  /** A step that changes nothing has found its column's value allowed. */
  lemma HourStays(ex: Expanded, d: DateTime)
    requires ex.Valid() && d.Valid() && ProcHour(ex, d).None?
    ensures ex.hour.Allows(d.hour) && ex.hour.First(0) <= d.hour
  {
    hide IsLeap, MonthStart;
    if ex.hour.Values? {
      NextDiffIsLeast(HourCount(d), ex.hour.vs, 0, 24);
      Residues(d);
    }
  }

  lemma MinuteStays(ex: Expanded, d: DateTime)
    requires ex.Valid() && d.Valid() && ProcMinute(ex, d).None?
    ensures ex.minute.Allows(d.minute) && ex.minute.First(0) <= d.minute
  {
    hide IsLeap, MonthStart;
    if ex.minute.Values? {
      NextDiffIsLeast(MinuteCount(d), ex.minute.vs, 0, 60);
      Residues(d);
    }
  }

  lemma ClockKeeps(ex: Expanded, start: DateTime, d: DateTime, d': DateTime)
    requires Searchable(ex) && Inv(ex, start, d) && d'.Valid()
    requires KeepsOpening(ex, d, d')
    ensures Inv(ex, start, d')
  {
    hide IsLeap, MonthStart;
    Residues(d);
    Landing(d', d.MonthIndex(), d.day + d'.Ordinal() - d.Ordinal());
    if ex.day.Values? {
      var vs := ex.day.vs;
      assert vs[|vs| - 1] in vs;
    }
  }

  /** Every step moves the search forward and keeps the invariant. */
  lemma StepAdvances(ex: Expanded, start: DateTime, d: DateTime, d': DateTime)
    requires Searchable(ex) && Inv(ex, start, d) && Step(ex, start, d) == Some(d')
    ensures Inv(ex, start, d') && Ticks(ex, d) < Ticks(ex, d')
  {
    hide IsLeap, MonthStart;
    ClockBounds(ex);
    if ex.day.Values? {
      assert ex.day.vs[|ex.day.vs| - 1] in ex.day.vs;
    }
    if ProcMonth(ex, d).Some? {
      MonthStep(ex, d, d');
      Order(d, d');
    } else if ProcDay(ex, start, d).Some? {
      DayStep(ex, start, d, d');
      DayDiff(ex, start, d, d');
      Order(d, d');
      Order(d', d);
    } else if ProcWeekday(ex, d).Some? {
      WeekdayStep(ex, d, d');
      Order(d, d');
      Order(d', d);
    } else if ProcHour(ex, d).Some? {
      HourStep(ex, d, d');
      HourKeepsOpening(ex, d, d');
      ClockKeeps(ex, start, d, d');
      Order(d, d');
    } else if ProcMinute(ex, d).Some? {
      MinuteStep(ex, d, d');
      MinuteKeepsOpening(ex, d, d');
      ClockKeeps(ex, start, d, d');
      Order(d, d');
    } else {
      SecondStep(ex, d, d');
      SecondKeepsOpening(ex, d, d');
      ClockKeeps(ex, start, d, d');
    }
  }

  lemma MonthStays(ex: Expanded, d: DateTime)
    requires ex.Valid() && d.Valid() && ProcMonth(ex, d).None?
    ensures ex.month.Allows(d.month)
  {
    if ex.month.Values? {
      NextDiffIsLeast(d.MonthIndex(), ex.month.vs, 1, 12);
      Residues(d);
    }
  }

  lemma DayStays(ex: Expanded, start: DateTime, d: DateTime)
    requires Searchable(ex) && Inv(ex, start, d) && ProcDay(ex, start, d).None?
    ensures ex.day.Allows(d.day)
  {
    hide IsLeap, MonthStart;
    if ex.day.Values? {
      var vs := ex.day.vs;
      assert vs[0] in vs && vs[|vs| - 1] in vs;
    }
  }

  lemma WeekdayStays(ex: Expanded, d: DateTime)
    requires ex.Valid() && d.Valid() && ProcWeekday(ex, d).None?
    ensures ex.weekday.Allows(d.Weekday())
  {
    if ex.weekday.Values? {
      NextDiffIsLeast(d.Ordinal(), ex.weekday.vs, 0, 7);
    }
  }

  lemma SecondStays(ex: Expanded, d: DateTime)
    requires ex.Valid() && d.Valid() && ProcSecond(ex, d).None?
    ensures ex.SecondField().Allows(Settle(ex, d).second)
  {
    Settled(ex, d);
    if ex.second.Some? && ex.second.value.Values? {
      NextDiffIsLeast(d.Seconds(), ex.second.value.vs, 0, 60);
      Residues(d);
    }
  }

  /** When no column moves the time, every column allows it. */
  lemma StepStops(ex: Expanded, start: DateTime, d: DateTime)
    requires Searchable(ex) && Inv(ex, start, d) && Step(ex, start, d).None?
    ensures ex.Matches(Settle(ex, d)) && Ticks(ex, Settle(ex, d)) == Ticks(ex, d)
  {
    hide IsLeap, MonthStart, Settle, NextDiff, ProcMonth, ProcDay, ProcWeekday, ProcHour, ProcMinute, ProcSecond;
    MonthStays(ex, d);
    DayStays(ex, start, d);
    WeekdayStays(ex, d);
    HourStays(ex, d);
    MinuteStays(ex, d);
    SecondStays(ex, d);
    Settled(ex, d);
  }

  lemma DayReaches(ex: Expanded, start: DateTime, d: DateTime, e: DateTime)
    requires Searchable(ex) && Inv(ex, start, d) && ex.day.Values?
    requires ProcMonth(ex, d).None?
    requires ex.Matches(e) && d.Ordinal() <= e.Ordinal() && d.MonthIndex() <= e.MonthIndex()
    requires !Skipped(ex, start, e)
    ensures d.Ordinal() + NextDiff(d.day, ex.day.vs, MonthLength(start.year, start.month)) <= e.Ordinal()
  {
    hide IsLeap, MonthStart;
    var vs, i, j := ex.day.vs, d.MonthIndex(), e.MonthIndex();
    Gap(d, e);
    assert vs[0] in vs && vs[|vs| - 1] in vs;
    assert vs[0] <= e.day;
    var next := AtLeast(vs, d.day);
    if i == j {
      assert next.Some? && next.value <= e.day;
    } else if next.None? {
      Gap(start, start);
      assert i == start.MonthIndex();
    } else if next.value > Length(i) && j == i + 1 {
      ShortMonth(ex, start, d, e);
    }
  }

  /** When the month of `d` runs out before the next listed day, a match in the month
      after it is still not before that day, counted on from the month of `d`. */
  lemma ShortMonth(ex: Expanded, start: DateTime, d: DateTime, e: DateTime)
    requires Searchable(ex) && Inv(ex, start, d) && ex.day.Values? && ProcMonth(ex, d).None?
    requires AtLeast(ex.day.vs, d.day).Some? && AtLeast(ex.day.vs, d.day).value > Length(d.MonthIndex())
    requires ex.Matches(e) && e.MonthIndex() == d.MonthIndex() + 1
    requires !Skipped(ex, start, e)
    ensures AtLeast(ex.day.vs, d.day).value <= Length(d.MonthIndex()) + e.day
  {
    hide IsLeap, MonthStart;
    var vs, n := ex.day.vs, Length(d.MonthIndex());
    Gap(d, d);
    MonthStays(ex, d);
    SameNext(vs, d.day, n);
    assert vs[0] <= e.day;
    if d.month == 2 {
      assert e.month == 3;
    }
  }

  lemma SameNext(vs: seq<int>, x: int, n: int)
    requires Ascending(vs) && x <= n && AtLeast(vs, x).Some? && AtLeast(vs, x).value > n
    ensures AtLeast(vs, n) == AtLeast(vs, x)
  {
  }

  lemma MonthReaches(ex: Expanded, d: DateTime, d': DateTime, e: DateTime)
    requires ex.Valid() && d.Valid() && ProcMonth(ex, d) == Some(d') && ex.Matches(e) && d.MonthIndex() <= e.MonthIndex()
    ensures Ticks(ex, d') <= Ticks(ex, e)
  {
    hide IsLeap, MonthStart, NextDiff;
    MonthStep(ex, d, d');
    Residues(e);
    assert d'.MonthIndex() <= e.MonthIndex();
    NotBefore(ex, d', e);
  }

  lemma WeekdayReaches(ex: Expanded, d: DateTime, d': DateTime, e: DateTime)
    requires ex.Valid() && d.Valid() && ProcWeekday(ex, d) == Some(d') && ex.Matches(e) && d.Ordinal() <= e.Ordinal()
    ensures Ticks(ex, d') <= Ticks(ex, e)
  {
    hide IsLeap, MonthStart, NextDiff, DateTime.Ordinal;
    WeekdayStep(ex, d, d');
    assert ex.weekday.Allows(e.Ordinal() % 7) && d'.Ordinal() <= e.Ordinal();
    NotBefore(ex, d', e);
  }

  lemma HourReaches(ex: Expanded, d: DateTime, d': DateTime, e: DateTime)
    requires ex.Valid() && d.Valid() && ProcHour(ex, d) == Some(d') && ex.Matches(e) && HourCount(d) <= HourCount(e)
    ensures Ticks(ex, d') <= Ticks(ex, e)
  {
    hide IsLeap, MonthStart, NextDiff, DateTime.Ordinal, HourCount;
    HourStep(ex, d, d');
    Residues(e);
    assert HourCount(d') <= HourCount(e);
    NotBefore(ex, d', e);
  }

  lemma MinuteReaches(ex: Expanded, d: DateTime, d': DateTime, e: DateTime)
    requires ex.Valid() && d.Valid() && ProcMinute(ex, d) == Some(d') && ex.Matches(e) && MinuteCount(d) <= MinuteCount(e)
    ensures Ticks(ex, d') <= Ticks(ex, e)
  {
    hide IsLeap, MonthStart, NextDiff, DateTime.Ordinal, HourCount, MinuteCount;
    MinuteStep(ex, d, d');
    Residues(e);
    assert MinuteCount(d') <= MinuteCount(e);
    NotBefore(ex, d', e);
  }

  lemma SecondReaches(ex: Expanded, d: DateTime, d': DateTime, e: DateTime)
    requires ex.Valid() && d.Valid() && ProcSecond(ex, d) == Some(d') && ex.Matches(e) && d.Seconds() <= e.Seconds()
    ensures Ticks(ex, d') <= Ticks(ex, e)
  {
    hide IsLeap, MonthStart, NextDiff, DateTime.Seconds;
    SecondStep(ex, d, d');
    Residues(e);
    assert d'.Seconds() <= e.Seconds();
  }

  /** No step passes a matching time, unless it is one that can be skipped. */
  lemma StepReaches(ex: Expanded, start: DateTime, d: DateTime, d': DateTime, e: DateTime)
    requires Searchable(ex) && Inv(ex, start, d) && Step(ex, start, d) == Some(d')
    requires ex.Matches(e) && Ticks(ex, d) <= Ticks(ex, e)
    requires !Skipped(ex, start, e)
    ensures Ticks(ex, d') <= Ticks(ex, e)
  {
    hide IsLeap, MonthStart, Skipped, NextDiff, Ticks, HourCount, MinuteCount, DateTime.Ordinal, DateTime.Seconds;
    NotLaterAtAny(ex, d, e);
    if ProcMonth(ex, d).Some? {
      MonthReaches(ex, d, d', e);
    } else if ProcDay(ex, start, d).Some? {
      DayStep(ex, start, d, d');
      DayReaches(ex, start, d, e);
      NotBefore(ex, d', e);
    } else if ProcWeekday(ex, d).Some? {
      WeekdayReaches(ex, d, d', e);
    } else if ProcHour(ex, d).Some? {
      HourReaches(ex, d, d', e);
    } else if ProcMinute(ex, d).Some? {
      MinuteReaches(ex, d, d', e);
    } else {
      SecondReaches(ex, d, d', e);
    }
  }
}
