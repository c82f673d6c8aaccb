/** The backward search of the cron engine, and the exact conditions under which
    its wrap-around rules step over a match. */
module CronPrev {
  import opened Wrappers
  import opened Calendar
  import opened CronFields
  import opened CronClock

  // ---------------------------------------------------------------- the steps

  function EndOfDay(k: int): RelativeDelta {
    RelativeDelta(days := k, hour := Some(23), minute := Some(59), second := Some(59))
  }

  /** The day the month is entered on comes from the common-year table. */
  function ProcMonth(ex: Expanded, d: DateTime): Option<DateTime>
    requires ex.Valid() && d.Valid()
  {
    if ex.month.Star? then None else
    var k := PrevDiff(d.month, ex.month.vs, 12);
    if k == 0 then None else
    var moved := Plus(d, RelativeDelta(months := k));
    Some(Plus(moved, EndOfDay(0).(day := Some(Days(moved.month)))))
  }

  function PrevMonth(month: int): int { (month - 2) % 12 + 1 }

  /** The wrap-around length is the common-year length of the month before the one
      the search started in. */
  function ProcDay(ex: Expanded, start: DateTime, d: DateTime): Option<DateTime>
    requires ex.Valid() && d.Valid()
  {
    if ex.day.Star? then None else
    var k := PrevDiff(d.day, ex.day.vs, Days(PrevMonth(start.month)));
    Moved(k, d, EndOfDay(k))
  }

  function ProcWeekday(ex: Expanded, d: DateTime): Option<DateTime>
    requires ex.Valid() && d.Valid()
  {
    if ex.weekday.Star? then None else
    var k := PrevDiff(d.Weekday(), ex.weekday.vs, 7);
    Moved(k, d, EndOfDay(k))
  }

  function ProcHour(ex: Expanded, d: DateTime): Option<DateTime>
    requires ex.Valid() && d.Valid()
  {
    if ex.hour.Star? then None else
    var k := PrevDiff(d.hour, ex.hour.vs, 24);
    Moved(k, d, RelativeDelta(hours := k, minute := Some(59), second := Some(59)))
  }

  function ProcMinute(ex: Expanded, d: DateTime): Option<DateTime>
    requires ex.Valid() && d.Valid()
  {
    if ex.minute.Star? then None else
    var k := PrevDiff(d.minute, ex.minute.vs, 60);
    Moved(k, d, RelativeDelta(minutes := k, second := Some(59)))
  }

  function ProcSecond(ex: Expanded, d: DateTime): Option<DateTime>
    requires ex.Valid() && d.Valid()
  {
    if ex.second.None? || ex.second.value.Star? then None else
    var k := PrevDiff(d.second, ex.second.value.vs, 60);
    Moved(k, d, RelativeDelta(seconds := k))
  }

  function Step(ex: Expanded, start: DateTime, d: DateTime): (r: Option<DateTime>)
    requires ex.Valid() && d.Valid()
    ensures r.Some? ==> r.value.Valid()
  {
    var month := ProcMonth(ex, d);
    if month.Some? then month else
    var day := ProcDay(ex, start, d);
    if day.Some? then day else
    var weekday := ProcWeekday(ex, d);
    if weekday.Some? then weekday else
    var hour := ProcHour(ex, d);
    if hour.Some? then hour else
    var minute := ProcMinute(ex, d);
    if minute.Some? then minute else
    ProcSecond(ex, d)
  }

  // ---------------------------------------------------------------- what each step does

  lemma MonthStep(ex: Expanded, d: DateTime, d': DateTime)
    requires ex.Valid() && d.Valid() && ProcMonth(ex, d) == Some(d')
    ensures d'.Valid() && d'.MonthIndex() == d.MonthIndex() + PrevDiff(d.month, ex.month.vs, 12) < d.MonthIndex()
    ensures d'.day == Days(d'.month) && d'.TimeOfDay() == DAY_SECONDS - 1
  {
    hide IsLeap, MonthStart;
    var k := PrevDiff(d.month, ex.month.vs, 12);
    var vs := ex.month.vs;
    assert vs[0] in vs && vs[|vs| - 1] in vs;
    var moved := Plus(d, RelativeDelta(months := k));
    SecondsInjective(moved, Replace(d, RelativeDelta(months := k)));
    var r := EndOfDay(0).(day := Some(Days(moved.month)));
    SecondsInjective(d', Replace(moved, r));
    Residues(moved);
  }

  /** A month step lands on an allowed month. */
  lemma MonthLands(ex: Expanded, d: DateTime, d': DateTime)
    requires ex.Valid() && d.Valid() && ProcMonth(ex, d) == Some(d')
    ensures ex.month.Allows(d'.month) && -12 <= d'.MonthIndex() - d.MonthIndex() < 0
  {
    hide IsLeap, MonthStart;
    MonthStep(ex, d, d');
    var vs, k := ex.month.vs, PrevDiff(d.month, ex.month.vs, 12);
    assert vs[0] in vs && vs[|vs| - 1] in vs;
    Residues(d);
    Residues(d');
    if k > -12 {
      Wrap(d.MonthIndex(), k, 12);
    }
  }

  /** It steps over no allowed month, December aside. */
  lemma MonthReaches(ex: Expanded, d: DateTime, d': DateTime, i: int)
    requires ex.Valid() && d.Valid() && ProcMonth(ex, d) == Some(d') && !SkipsDecember(ex)
    requires d'.MonthIndex() < i <= d.MonthIndex()
    ensures !ex.month.Allows(i % 12 + 1)
  {
    hide IsLeap, MonthStart;
    MonthStep(ex, d, d');
    MonthLands(ex, d, d');
    var vs := ex.month.vs;
    assert vs[0] in vs && vs[|vs| - 1] in vs;
    Residues(d);
    Wrap(d.MonthIndex(), i - d.MonthIndex(), 12);
  }

  lemma DayStep(ex: Expanded, start: DateTime, d: DateTime, d': DateTime)
    requires ex.Valid() && d.Valid() && ProcDay(ex, start, d) == Some(d')
    ensures d'.Valid() && d'.TimeOfDay() == DAY_SECONDS - 1
    ensures d'.Ordinal() == d.Ordinal() + PrevDiff(d.day, ex.day.vs, Days(PrevMonth(start.month)))
  {
    hide IsLeap, MonthStart;
    var k := PrevDiff(d.day, ex.day.vs, Days(PrevMonth(start.month)));
    Replaced(d, EndOfDay(k));
    BeforeMidnight(d', d.Ordinal() + k);
  }

  lemma WeekdayStep(ex: Expanded, d: DateTime, d': DateTime)
    requires ex.Valid() && d.Valid() && ProcWeekday(ex, d) == Some(d')
    ensures d'.Valid() && d'.TimeOfDay() == DAY_SECONDS - 1 && d'.Ordinal() < d.Ordinal()
    ensures forall n :: d'.Ordinal() < n <= d.Ordinal() ==> !ex.weekday.Allows(n % 7)
  {
    hide IsLeap, MonthStart;
    var k := PrevDiff(d.Weekday(), ex.weekday.vs, 7);
    Replaced(d, EndOfDay(k));
    PrevDiffIsLeast(d.Ordinal(), ex.weekday.vs, 7);
    BeforeMidnight(d', d.Ordinal() + k);
  }

  lemma HourStep(ex: Expanded, d: DateTime, d': DateTime)
    requires ex.Valid() && d.Valid() && ProcHour(ex, d) == Some(d')
    ensures d'.Valid() && d'.minute == 59 && d'.second == 59
    ensures HourCount(d') == HourCount(d) + PrevDiff(d.hour, ex.hour.vs, 24) < HourCount(d)
    ensures forall n :: HourCount(d') < n <= HourCount(d) ==> !ex.hour.Allows(n % 24)
  {
    hide IsLeap, MonthStart;
    var k := PrevDiff(d.hour, ex.hour.vs, 24);
    Replaced(d, RelativeDelta(hours := k, minute := Some(59), second := Some(59)));
    Residues(d);
    PrevDiffIsLeast(HourCount(d), ex.hour.vs, 24);
    EndOfHour(d', HourCount(d) + k);
  }

  lemma MinuteStep(ex: Expanded, d: DateTime, d': DateTime)
    requires ex.Valid() && d.Valid() && ProcMinute(ex, d) == Some(d')
    ensures d'.Valid() && d'.second == 59
    ensures MinuteCount(d') == MinuteCount(d) + PrevDiff(d.minute, ex.minute.vs, 60) < MinuteCount(d)
    ensures forall n :: MinuteCount(d') < n <= MinuteCount(d) ==> !ex.minute.Allows(n % 60)
  {
    hide IsLeap, MonthStart;
    var k := PrevDiff(d.minute, ex.minute.vs, 60);
    Replaced(d, RelativeDelta(minutes := k, second := Some(59)));
    Residues(d);
    PrevDiffIsLeast(MinuteCount(d), ex.minute.vs, 60);
    EndOfMinute(d', MinuteCount(d) + k);
  }

  lemma SecondStep(ex: Expanded, d: DateTime, d': DateTime)
    requires ex.Valid() && d.Valid() && ProcSecond(ex, d) == Some(d')
    ensures d'.Valid()
    ensures d'.Seconds() == d.Seconds() + PrevDiff(d.second, ex.second.value.vs, 60) < d.Seconds()
    ensures forall n :: d'.Seconds() < n <= d.Seconds() ==> !ex.SecondField().Allows(n % 60)
  {
    hide IsLeap, MonthStart;
    Replaced(d, RelativeDelta());
    Residues(d);
    PrevDiffIsLeast(d.Seconds(), ex.second.value.vs, 60);
  }

  lemma BeforeMidnight(d: DateTime, n: int)
    requires d.Valid() && d.Seconds() == DAY_SECONDS * n + DAY_SECONDS - 1
    ensures d.Ordinal() == n && d.TimeOfDay() == DAY_SECONDS - 1
  {
    Counters(d);
  }

  lemma EndOfHour(d: DateTime, n: int)
    requires d.Valid() && d.Seconds() == 3600 * n + 3599
    ensures HourCount(d) == n && d.minute == 59 && d.second == 59
  {
    var rest := 60 * d.minute + d.second;
    assert d.Seconds() == 3600 * HourCount(d) + rest;
  }

  lemma EndOfMinute(d: DateTime, n: int)
    requires d.Valid() && d.Seconds() == 60 * n + 59
    ensures MinuteCount(d) == n && d.second == 59
  {
    assert d.Seconds() == 60 * MinuteCount(d) + d.second;
  }

  // ---------------------------------------------------------------- the wrap-around rules

  /** Wrapping back from before the first listed month prefers a month below December. */
  predicate SkipsDecember(ex: Expanded)
    requires ex.Valid()
  {
    ex.month.Values? && 12 in ex.month.vs && 1 !in ex.month.vs && ex.month.vs[0] < 12
  }

  /** Moving back into February enters it on the 28th. */
  predicate SkipsLeapDay(ex: Expanded) {
    ex.month.Values? && 2 in ex.month.vs && 3 !in ex.month.vs && ex.day.Allows(29)
  }

  /** No listed day is below `length` but some are above it: the distance back is not negative
      for the first days of a month. */
  predicate Sticks(vs: seq<int>, length: int)
    requires |vs| > 0
  {
    length <= vs[0] && length < vs[|vs| - 1]
  }

  /** Wrapping from the first day of month `s` steps over the last days of the month before,
      of which one is listed. */
  predicate DropsLastDay(vs: seq<int>, month: Field, s: int)
    requires |vs| > 0
  {
    var p := PrevMonth(s);
    1 !in vs && vs[0] < Days(p) && month.Allows(p) && (Days(p) in vs || (p == 2 && 29 in vs))
  }

  /** Searches from within month `s` lose a day: they stick at its start, or find no listed day
      on entering it, or step over the last days of the month before. */
  predicate LosesDay(vs: seq<int>, month: Field, s: int)
    requires |vs| > 0
  {
    Sticks(vs, Days(PrevMonth(s))) || Days(s) < vs[0] || DropsLastDay(vs, month, s)
  }

  /** The expressions for which a backward search can miss the previous match. */
  predicate PrevMisses(ex: Expanded)
    requires ex.Valid()
  {
    || SkipsDecember(ex)
    || SkipsLeapDay(ex)
    || (ex.day.Values? && exists s :: 1 <= s <= 12 && ex.month.Allows(s) && LosesDay(ex.day.vs, ex.month, s))
  }

  // ---------------------------------------------------------------- the clock steps

  /** A clock step that crosses midnight lands at or after the last allowed time of day;
      one taken at or after that time neither passes it nor crosses midnight. */
  ghost predicate KeepsClosing(ex: Expanded, d: DateTime, d': DateTime)
    requires ex.Valid()
  {
    && (d'.Ordinal() == d.Ordinal() || d'.Ordinal() == d.Ordinal() - 1)
    && (d'.Ordinal() < d.Ordinal() ==> d'.TimeOfDay() >= ex.Closing())
    && (d.TimeOfDay() >= ex.Closing() ==> d'.Ordinal() == d.Ordinal() && d'.TimeOfDay() >= ex.Closing())
  }

  lemma HourStays(ex: Expanded, d: DateTime)
    requires ex.Valid() && d.Valid() && ProcHour(ex, d).None?
    ensures ex.hour.Allows(d.hour) && d.hour <= ex.hour.Last(23)
  {
    hide IsLeap, MonthStart;
    FirstAndLast(ex.hour, 0, 23);
    if ex.hour.Values? {
      PrevDiffIsLeast(HourCount(d), ex.hour.vs, 24);
      Residues(d);
    }
  }

  lemma MinuteStays(ex: Expanded, d: DateTime)
    requires ex.Valid() && d.Valid() && ProcMinute(ex, d).None?
    ensures ex.minute.Allows(d.minute) && d.minute <= ex.minute.Last(59)
  {
    hide IsLeap, MonthStart;
    FirstAndLast(ex.minute, 0, 59);
    if ex.minute.Values? {
      PrevDiffIsLeast(MinuteCount(d), ex.minute.vs, 60);
      Residues(d);
    }
  }

  /** Back from `x` in a column of values in `0 .. n - 1`: down to a listed value, or
      around to the last one. */
  lemma BackOrAround(x: int, vs: seq<int>, n: int)
    requires Values(vs).Valid(0, n - 1) && 0 <= x < n
    ensures var k := PrevDiff(x, vs, n); var last := vs[|vs| - 1];
      && -n < k <= 0
      && (0 <= x + k || x + k == last - n)
      && (x >= last ==> x + k == last)
  {
    assert vs[|vs| - 1] in vs && vs[0] in vs;
  }

  lemma HourKeepsClosing(ex: Expanded, d: DateTime, d': DateTime)
    requires ex.Valid() && d.Valid() && ProcHour(ex, d) == Some(d')
    ensures KeepsClosing(ex, d, d')
  {
    hide IsLeap, MonthStart;
    HourStep(ex, d, d');
    ClockBounds(ex);
    BackOrAround(d.hour, ex.hour.vs, 24);
  }

  lemma MinuteBorrow(d: DateTime, d': DateTime, k: int)
    requires d.Valid() && d'.Valid() && 0 < k < 60 && MinuteCount(d') == MinuteCount(d) - k
    ensures if d.minute >= k then d'.Ordinal() == d.Ordinal() && d'.hour == d.hour && d'.minute == d.minute - k
            else
              && d'.minute == d.minute - k + 60
              && (if d.hour > 0 then d'.Ordinal() == d.Ordinal() && d'.hour == d.hour - 1
                  else d'.Ordinal() == d.Ordinal() - 1 && d'.hour == 23)
  {
    hide IsLeap, MonthStart;
  }

  lemma MinuteKeepsClosing(ex: Expanded, d: DateTime, d': DateTime)
    requires ex.Valid() && d.Valid() && ProcHour(ex, d).None? && ProcMinute(ex, d) == Some(d')
    ensures KeepsClosing(ex, d, d')
  {
    hide IsLeap, MonthStart, DateTime.Ordinal;
    MinuteStep(ex, d, d');
    ClockBounds(ex);
    HourStays(ex, d);
    BackOrAround(d.minute, ex.minute.vs, 60);
    MinuteBorrow(d, d', -PrevDiff(d.minute, ex.minute.vs, 60));
  }

  lemma AtClosing(ex: Expanded, d: DateTime)
    requires ex.Valid() && d.Valid() && d.TimeOfDay() >= ex.Closing()
    requires d.hour <= ex.hour.Last(23) && d.minute <= ex.minute.Last(59)
    ensures d.hour == ex.hour.Last(23) && d.minute == ex.minute.Last(59) && d.second >= ex.SecondField().Last(59)
  {
    ClockBounds(ex);
  }

  lemma SecondKeepsClosing(ex: Expanded, d: DateTime, d': DateTime)
    requires ex.Valid() && d.Valid() && ProcHour(ex, d).None? && ProcMinute(ex, d).None? && ProcSecond(ex, d) == Some(d')
    ensures KeepsClosing(ex, d, d')
  {
    hide IsLeap, MonthStart;
    var k := PrevDiff(d.second, ex.second.value.vs, 60);
    Replaced(d, RelativeDelta());
    ClockBounds(ex);
    HourStays(ex, d);
    MinuteStays(ex, d);
    BackOrAround(d.second, ex.second.value.vs, 60);
    Borrow(d, d', -k);
    if d.TimeOfDay() >= ex.Closing() {
      AtClosing(ex, d);
    }
  }

  lemma Borrow(d: DateTime, d': DateTime, k: int)
    requires d.Valid() && d'.Valid() && 0 < k < 60 && d'.Seconds() == d.Seconds() - k
    ensures || (d'.Ordinal() == d.Ordinal() && d'.TimeOfDay() == d.TimeOfDay() - k)
            || (d'.Ordinal() == d.Ordinal() - 1 && d'.TimeOfDay() == DAY_SECONDS + d.second - k)
  {
  }

  // ---------------------------------------------------------------- one turn of the search

  function Wraparound(start: DateTime): int { Days(PrevMonth(start.month)) }

  lemma DayRetreats(ex: Expanded, start: DateTime, d: DateTime)
    requires ex.Valid() && d.Valid() && ProcDay(ex, start, d).Some?
    requires !Sticks(ex.day.vs, Wraparound(start))
    ensures PrevDiff(d.day, ex.day.vs, Wraparound(start)) < 0
  {
    hide IsLeap, MonthStart;
    var vs := ex.day.vs;
    assert vs[0] in vs && vs[|vs| - 1] in vs;
  }

  /** Unless the day column sticks, every step moves the search back. */
  lemma StepRetreats(ex: Expanded, start: DateTime, d: DateTime, d': DateTime)
    requires ex.Valid() && d.Valid() && Step(ex, start, d) == Some(d')
    requires ex.day.Values? ==> !Sticks(ex.day.vs, Wraparound(start))
    ensures d'.Valid() && Ticks(ex, d') < Ticks(ex, d)
  {
    hide IsLeap, MonthStart;
    if ProcMonth(ex, d).Some? {
      MonthStep(ex, d, d');
      Order(d', d);
    } else if ProcDay(ex, start, d).Some? {
      DayStep(ex, start, d, d');
      DayRetreats(ex, start, d);
      LaterDay(ex, d', d);
    } else if ProcWeekday(ex, d).Some? {
      WeekdayStep(ex, d, d');
      LaterDay(ex, d', d);
    } else if ProcHour(ex, d).Some? {
      HourStep(ex, d, d');
      Order(d', d);
    } else if ProcMinute(ex, d).Some? {
      MinuteStep(ex, d, d');
      Order(d', d);
    } else {
      SecondStep(ex, d, d');
    }
  }

  /** Once the search has left the month it started in, the day is no earlier than the
      first listed day and the time of day no earlier than the last allowed one. */
  ghost predicate Inv(ex: Expanded, start: DateTime, d: DateTime)
    requires ex.Valid()
  {
    && start.Valid() && d.Valid()
    && (ex.day.Values? && d.MonthIndex() != start.MonthIndex() ==>
          d.day >= ex.day.vs[0] && d.TimeOfDay() >= ex.Closing())
  }

  lemma MonthStays(ex: Expanded, d: DateTime)
    requires ex.Valid() && d.Valid() && ProcMonth(ex, d).None?
    ensures ex.month.Allows(d.month)
  {
    hide IsLeap, MonthStart;
    if ex.month.Values? {
      var vs := ex.month.vs;
      assert vs[0] in vs && vs[|vs| - 1] in vs;
    }
  }

  /** The month before that of `d`, whose length the common-year table gives except
      for a leap February. */
  lemma MonthBefore(d: DateTime)
    requires d.Valid()
    ensures var i, p := d.MonthIndex() - 1, PrevMonth(d.month);
      && 1 <= p <= 12 && i % 12 + 1 == p
      && (Length(i) == Days(p) || (p == 2 && Length(i) == 29))
      && MonthStart(i) + Length(i) == d.Ordinal() - d.day + 1
  {
    hide IsLeap, MonthStart;
    Residues(d);
    Wrap(d.MonthIndex(), -1, 12);
    NextMonthStart(d.MonthIndex() - 1);
  }

  /** The day of the month before that a wrapping day step from day `x` of month `s` reaches. */
  lemma WrapTarget(vs: seq<int>, month: Field, s: int, x: int, length: int)
    requires Values(vs).Valid(1, 31) && 1 <= s <= 12 && 1 <= x < vs[0] && !LosesDay(vs, month, s)
    requires var p := PrevMonth(s); 1 <= p <= 12 && (length == Days(p) || (p == 2 && length == 29))
    ensures var n := length + x + PrevDiff(x, vs, Days(PrevMonth(s)));
      && vs[0] <= n <= length
      && forall day :: day in vs && day <= length && month.Allows(PrevMonth(s)) ==> day <= n
  {
    assert vs[0] in vs && vs[|vs| - 1] in vs;
  }

  /** A wrapping day step, from before the first listed day of the starting month. */
  lemma DayWraps(ex: Expanded, start: DateTime, d: DateTime, d': DateTime)
    requires Searchable(ex) && !PrevMisses(ex) && Inv(ex, start, d)
    requires ProcMonth(ex, d).None? && ProcDay(ex, start, d) == Some(d') && d.day < ex.day.vs[0]
    ensures d'.MonthIndex() == d.MonthIndex() - 1 && d'.day >= ex.day.vs[0]
    ensures forall day :: day in ex.day.vs && day <= Length(d.MonthIndex() - 1) && ex.month.Allows(d'.month) ==> day <= d'.day
  {
    hide IsLeap, MonthStart;
    var i := d.MonthIndex() - 1;
    MonthStays(ex, d);
    MonthBefore(d);
    DayStep(ex, start, d, d');
    SameMonth(d, start);
    WrapTarget(ex.day.vs, ex.month, d.month, d.day, Length(i));
    SameDay(d', i, d'.Ordinal() - MonthStart(i) + 1);
    Residues(d');
  }

  lemma SameMonth(d: DateTime, e: DateTime)
    requires d.Valid() && e.Valid() && d.MonthIndex() == e.MonthIndex()
    ensures d.month == e.month
  {
    hide IsLeap, MonthStart;
    Residues(d);
    Residues(e);
  }

  /** A plain day step, down to a listed day of the same month. */
  lemma DayFalls(ex: Expanded, start: DateTime, d: DateTime, d': DateTime)
    requires ex.Valid() && d.Valid() && ProcDay(ex, start, d) == Some(d') && ex.day.vs[0] <= d.day
    ensures AtMost(ex.day.vs, d.day).Some?
    ensures d'.MonthIndex() == d.MonthIndex() && d'.day == AtMost(ex.day.vs, d.day).value < d.day
  {
    hide IsLeap, MonthStart;
    var vs := ex.day.vs;
    assert vs[0] in vs;
    DayStep(ex, start, d, d');
    Gap(d, d);
    SameDay(d', d.MonthIndex(), AtMost(vs, d.day).value);
  }

  lemma DayKeeps(ex: Expanded, start: DateTime, d: DateTime, d': DateTime)
    requires Searchable(ex) && !PrevMisses(ex) && Inv(ex, start, d)
    requires ProcMonth(ex, d).None? && ProcDay(ex, start, d) == Some(d')
    ensures Inv(ex, start, d') && d'.Ordinal() < d.Ordinal()
  {
    hide IsLeap, MonthStart;
    var vs := ex.day.vs;
    assert vs[0] in vs;
    DayStep(ex, start, d, d');
    ClockBounds(ex);
    if d.day < vs[0] {
      DayWraps(ex, start, d, d');
      Order(d', d);
    } else {
      DayFalls(ex, start, d, d');
      Gap(d', d);
    }
  }

  /** A day column that does not move the time allows it. */
  lemma DayStays(ex: Expanded, start: DateTime, d: DateTime)
    requires Searchable(ex) && !PrevMisses(ex) && Inv(ex, start, d)
    requires ProcMonth(ex, d).None? && ProcDay(ex, start, d).None?
    ensures ex.day.Allows(d.day) && (ex.day.Values? ==> ex.day.vs[0] <= d.day)
  {
    hide IsLeap, MonthStart;
    if ex.day.Values? {
      var vs := ex.day.vs;
      assert vs[0] in vs && vs[|vs| - 1] in vs;
      if d.day < vs[0] {
        MonthStays(ex, d);
        SameMonth(d, start);
      }
    }
  }

  lemma ClockKeeps(ex: Expanded, start: DateTime, d: DateTime, d': DateTime)
    requires Searchable(ex) && !PrevMisses(ex) && Inv(ex, start, d)
    requires ProcMonth(ex, d).None? && ProcDay(ex, start, d).None?
    requires d'.Valid() && KeepsClosing(ex, d, d')
    ensures Inv(ex, start, d')
  {
    hide IsLeap, MonthStart;
    DayStays(ex, start, d);
    if ex.day.Values? {
      Gap(d, d);
      if d'.Ordinal() == d.Ordinal() {
        SameDay(d', d.MonthIndex(), d.day);
      } else if d.day > 1 {
        SameDay(d', d.MonthIndex(), d.day - 1);
      }
    }
  }

  /** Every step moves the search back and keeps the invariant. */
  lemma StepKeeps(ex: Expanded, start: DateTime, d: DateTime, d': DateTime)
    requires Searchable(ex) && !PrevMisses(ex) && Inv(ex, start, d) && Step(ex, start, d) == Some(d')
    ensures Inv(ex, start, d') && Ticks(ex, d') < Ticks(ex, d)
  {
    hide IsLeap, MonthStart;
    if ProcMonth(ex, d).Some? {
      MonthStep(ex, d, d');
      MonthLands(ex, d, d');
      ClockBounds(ex);
      Order(d', d);
      assert ex.day.Values? ==> !LosesDay(ex.day.vs, ex.month, d'.month);
    } else if ProcDay(ex, start, d).Some? {
      DayKeeps(ex, start, d, d');
      LaterDay(ex, d', d);
    } else if ProcWeekday(ex, d).Some? {
      WeekdayStep(ex, d, d');
      LaterDay(ex, d', d);
    } else if ProcHour(ex, d).Some? {
      HourStep(ex, d, d');
      HourKeepsClosing(ex, d, d');
      ClockKeeps(ex, start, d, d');
      Order(d', d);
    } else if ProcMinute(ex, d).Some? {
      MinuteStep(ex, d, d');
      MinuteKeepsClosing(ex, d, d');
      ClockKeeps(ex, start, d, d');
      Order(d', d);
    } else {
      SecondStep(ex, d, d');
      SecondKeepsClosing(ex, d, d');
      ClockKeeps(ex, start, d, d');
    }
  }

  lemma WeekdayStays(ex: Expanded, d: DateTime)
    requires ex.Valid() && d.Valid() && ProcWeekday(ex, d).None?
    ensures ex.weekday.Allows(d.Weekday())
  {
    if ex.weekday.Values? {
      PrevDiffIsLeast(d.Ordinal(), ex.weekday.vs, 7);
    }
  }

  lemma SecondStays(ex: Expanded, d: DateTime)
    requires ex.Valid() && d.Valid() && ProcSecond(ex, d).None?
    ensures ex.SecondField().Allows(Settle(ex, d).second)
  {
    Settled(ex, d);
    if ex.second.Some? && ex.second.value.Values? {
      PrevDiffIsLeast(d.Seconds(), ex.second.value.vs, 60);
      Residues(d);
    }
  }

  /** When no column moves the time, every column allows it. */
  lemma StepStops(ex: Expanded, start: DateTime, d: DateTime)
    requires Searchable(ex) && !PrevMisses(ex) && Inv(ex, start, d) && Step(ex, start, d).None?
    ensures ex.Matches(Settle(ex, d)) && Ticks(ex, Settle(ex, d)) == Ticks(ex, d)
  {
    hide IsLeap, MonthStart;
    MonthStays(ex, d);
    DayStays(ex, start, d);
    WeekdayStays(ex, d);
    HourStays(ex, d);
    MinuteStays(ex, d);
    SecondStays(ex, d);
    Settled(ex, d);
  }

  // ---------------------------------------------------------------- no step passes a match

  /** A time that is not after `d` is not after an earlier time at the end of a minute,
      an hour or a day, unless it is after it at that grain. */
  lemma NotAfter(ex: Expanded, d: DateTime, e: DateTime)
    requires d.Valid() && e.Valid()
    requires
      || (MinuteCount(e) <= MinuteCount(d) && d.second == 59)
      || (HourCount(e) <= HourCount(d) && d.minute == 59 && d.second == 59)
      || (e.Ordinal() <= d.Ordinal() && d.TimeOfDay() == DAY_SECONDS - 1)
    ensures Ticks(ex, e) <= Ticks(ex, d)
  {
    hide IsLeap, MonthStart;
  }

  lemma MonthPasses(ex: Expanded, d: DateTime, d': DateTime, e: DateTime)
    requires Searchable(ex) && !PrevMisses(ex) && d.Valid() && ProcMonth(ex, d) == Some(d')
    requires ex.Matches(e) && e.MonthIndex() <= d.MonthIndex()
    ensures e.Ordinal() <= d'.Ordinal()
  {
    hide IsLeap, MonthStart;
    MonthStep(ex, d, d');
    Residues(e);
    if e.MonthIndex() > d'.MonthIndex() {
      MonthReaches(ex, d, d', e.MonthIndex());
    }
    Order(e, d');
    Gap(e, d');
    if e.MonthIndex() == d'.MonthIndex() {
      SameMonth(e, d');
      EntersFebruary(ex, d, d');
    }
  }

  /** February is entered from later months only when March is no stop on the way, so when
      the 29th is not wanted. */
  lemma EntersFebruary(ex: Expanded, d: DateTime, d': DateTime)
    requires ex.Valid() && !PrevMisses(ex) && d.Valid() && ProcMonth(ex, d) == Some(d')
    ensures d'.month == 2 ==> !ex.day.Allows(29)
  {
    hide IsLeap, MonthStart, PrevDiff;
    MonthStep(ex, d, d');
    MonthLands(ex, d, d');
    if d'.month == 2 && 3 in ex.month.vs {
      Residues(d);
      Residues(d');
      MonthBefore(d);
      var i := d'.MonthIndex() + 1;
      Wrap(d'.MonthIndex(), 1, 12);
      if i <= d.MonthIndex() {
        MonthReaches(ex, d, d', i);
      }
    }
  }

  lemma DayPasses(ex: Expanded, start: DateTime, d: DateTime, d': DateTime, e: DateTime)
    requires Searchable(ex) && !PrevMisses(ex) && Inv(ex, start, d)
    requires ProcMonth(ex, d).None? && ProcDay(ex, start, d) == Some(d')
    requires ex.Matches(e) && e.Ordinal() <= d.Ordinal() && e.MonthIndex() <= d.MonthIndex()
    ensures e.Ordinal() <= d'.Ordinal()
  {
    hide IsLeap, MonthStart;
    var vs := ex.day.vs;
    assert vs[0] in vs && vs[0] <= e.day;
    Gap(e, d);
    if d.day < vs[0] {
      DayWraps(ex, start, d, d');
      Order(e, d');
      Gap(e, d');
      if e.MonthIndex() == d'.MonthIndex() {
        SameMonth(e, d');
      }
    } else {
      DayFalls(ex, start, d, d');
      Order(e, d');
      Gap(e, d');
    }
  }

  lemma WeekdayReaches(ex: Expanded, d: DateTime, d': DateTime, e: DateTime)
    requires ex.Valid() && d.Valid() && ProcWeekday(ex, d) == Some(d') && ex.Matches(e) && e.Ordinal() <= d.Ordinal()
    ensures Ticks(ex, e) <= Ticks(ex, d')
  {
    hide IsLeap, MonthStart, PrevDiff, DateTime.Ordinal;
    WeekdayStep(ex, d, d');
    assert ex.weekday.Allows(e.Ordinal() % 7) && e.Ordinal() <= d'.Ordinal();
    NotAfter(ex, d', e);
  }

  lemma HourReaches(ex: Expanded, d: DateTime, d': DateTime, e: DateTime)
    requires ex.Valid() && d.Valid() && ProcHour(ex, d) == Some(d')
    requires e.Valid() && ex.ClockMatches(e) && HourCount(e) <= HourCount(d)
    ensures Ticks(ex, e) <= Ticks(ex, d')
  {
    hide IsLeap, MonthStart, PrevDiff, DateTime.Ordinal, HourCount;
    HourStep(ex, d, d');
    Residues(e);
    assert HourCount(e) <= HourCount(d');
    NotAfter(ex, d', e);
  }

  lemma MinuteReaches(ex: Expanded, d: DateTime, d': DateTime, e: DateTime)
    requires ex.Valid() && d.Valid() && ProcMinute(ex, d) == Some(d')
    requires e.Valid() && ex.ClockMatches(e) && MinuteCount(e) <= MinuteCount(d)
    ensures Ticks(ex, e) <= Ticks(ex, d')
  {
    hide IsLeap, MonthStart, PrevDiff, DateTime.Ordinal, HourCount, MinuteCount;
    MinuteStep(ex, d, d');
    Residues(e);
    assert MinuteCount(e) <= MinuteCount(d');
    NotAfter(ex, d', e);
  }

  lemma SecondReaches(ex: Expanded, d: DateTime, d': DateTime, e: DateTime)
    requires ex.Valid() && d.Valid() && ProcSecond(ex, d) == Some(d')
    requires e.Valid() && ex.ClockMatches(e) && e.Seconds() <= d.Seconds()
    ensures Ticks(ex, e) <= Ticks(ex, d')
  {
    hide IsLeap, MonthStart, PrevDiff, DateTime.Seconds;
    SecondStep(ex, d, d');
    Residues(e);
    assert e.Seconds() <= d'.Seconds();
  }

  /** No step of the clock columns passes a time that they allow. */
  lemma ClockReaches(ex: Expanded, start: DateTime, d: DateTime, d': DateTime, e: DateTime)
    requires ex.Valid() && d.Valid() && Step(ex, start, d) == Some(d')
    requires ProcMonth(ex, d).None? && ProcDay(ex, start, d).None? && ProcWeekday(ex, d).None?
    requires e.Valid() && ex.ClockMatches(e) && Ticks(ex, e) <= Ticks(ex, d)
    ensures Ticks(ex, e) <= Ticks(ex, d')
  {
    hide IsLeap, MonthStart, PrevDiff, Ticks, HourCount, MinuteCount, DateTime.Ordinal, DateTime.Seconds;
    NotLaterAtAny(ex, e, d);
    if ProcHour(ex, d).Some? {
      HourReaches(ex, d, d', e);
    } else if ProcMinute(ex, d).Some? {
      MinuteReaches(ex, d, d', e);
    } else {
      SecondReaches(ex, d, d', e);
    }
  }

  /** No step of an expression without the faults above passes a matching time. */
  lemma StepReaches(ex: Expanded, start: DateTime, d: DateTime, d': DateTime, e: DateTime)
    requires Searchable(ex) && !PrevMisses(ex) && Inv(ex, start, d) && Step(ex, start, d) == Some(d')
    requires ex.Matches(e) && Ticks(ex, e) <= Ticks(ex, d)
    ensures Ticks(ex, e) <= Ticks(ex, d')
  {
    hide IsLeap, MonthStart, PrevDiff, Ticks, HourCount, MinuteCount, DateTime.Ordinal, DateTime.Seconds, PrevMisses;
    NotLaterAtAny(ex, e, d);
    if ProcMonth(ex, d).Some? {
      MonthStep(ex, d, d');
      MonthPasses(ex, d, d', e);
      NotAfter(ex, d', e);
    } else if ProcDay(ex, start, d).Some? {
      DayStep(ex, start, d, d');
      DayPasses(ex, start, d, d', e);
      NotAfter(ex, d', e);
    } else if ProcWeekday(ex, d).Some? {
      WeekdayReaches(ex, d, d', e);
    } else {
      ClockReaches(ex, start, d, d', e);
    }
  }
}
