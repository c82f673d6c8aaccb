/** Counting the hours, minutes and seconds of the calendar along one line, and the
    pieces that the forward and the backward search share. */
module CronClock {
  import opened Wrappers
  import opened Calendar
  import opened CronFields

  function Moved(k: int, d: DateTime, r: RelativeDelta): Option<DateTime>
    requires d.Valid() && r.Valid()
  {
    if k != 0 then Some(Plus(d, r)) else None
  }

  function HourCount(d: DateTime): int { 24 * d.Ordinal() + d.hour }

  function MinuteCount(d: DateTime): int { 60 * HourCount(d) + d.minute }

  /** The fields are the residues of the counters. */
  lemma Residues(d: DateTime)
    requires d.Valid()
    ensures d.month == 1 + d.MonthIndex() % 12
    ensures d.hour == HourCount(d) % 24
    ensures d.minute == MinuteCount(d) % 60
    ensures d.second == d.Seconds() % 60
  {
    hide IsLeap;
    Remainder(d.year, d.month - 1, 12);
    Remainder(d.Ordinal(), d.hour, 24);
    Remainder(HourCount(d), d.minute, 60);
    Remainder(MinuteCount(d), d.second, 60);
  }

  /** With no month or day to set, `Replace` keeps the date. */
  lemma Replaced(d: DateTime, r: RelativeDelta)
    requires d.Valid() && r.Valid() && r.months == 0 && r.day.None?
    ensures Replace(d, r) == d.(hour := OrElse(r.hour, d.hour), minute := OrElse(r.minute, d.minute),
                                second := OrElse(r.second, d.second))
  {
    hide IsLeap;
  }

  /** The position of a time in the schedule's own grain. */
  function Ticks(ex: Expanded, d: DateTime): int {
    if ex.second.Some? then d.Seconds() else MinuteCount(d)
  }

  /** Being later at one grain carries over to the finer ones, and being no
      earlier carries over to the coarser ones. */
  lemma Order(d: DateTime, e: DateTime)
    requires d.Valid() && e.Valid()
    ensures d.MonthIndex() < e.MonthIndex() ==> d.Ordinal() < e.Ordinal()
    ensures d.Ordinal() < e.Ordinal() ==> HourCount(d) < HourCount(e)
    ensures HourCount(d) < HourCount(e) ==> MinuteCount(d) < MinuteCount(e)
    ensures MinuteCount(d) < MinuteCount(e) ==> d.Seconds() < e.Seconds()
  {
    hide IsLeap;
    InMonth(d);
    InMonth(e);
    if d.MonthIndex() < e.MonthIndex() {
      MonthOrder(d.MonthIndex(), e.MonthIndex());
    }
  }

  /** A time that is not later is not later at any coarser grain. */
  lemma NotLaterAtAny(ex: Expanded, d: DateTime, e: DateTime)
    requires d.Valid() && e.Valid() && Ticks(ex, d) <= Ticks(ex, e)
    ensures d.MonthIndex() <= e.MonthIndex() && d.Ordinal() <= e.Ordinal()
    ensures HourCount(d) <= HourCount(e) && MinuteCount(d) <= MinuteCount(e)
    ensures ex.second.Some? ==> d.Seconds() <= e.Seconds()
  {
    hide IsLeap, MonthStart;
    Order(e, d);
  }

  lemma LaterDay(ex: Expanded, d: DateTime, e: DateTime)
    requires d.Valid() && e.Valid() && d.Ordinal() < e.Ordinal()
    ensures Ticks(ex, d) < Ticks(ex, e) && d.Seconds() < e.Seconds()
  {
    hide IsLeap, MonthStart;
  }

  lemma LaterTicks(ex: Expanded, d: DateTime, e: DateTime)
    requires d.Valid() && e.Valid() && Ticks(ex, d) < Ticks(ex, e)
    ensures d.Seconds() < e.Seconds()
  {
    hide IsLeap, MonthStart;
  }

  lemma InMonth(d: DateTime)
    requires d.Valid()
    ensures MonthStart(d.MonthIndex()) <= d.Ordinal() < MonthStart(d.MonthIndex()) + Length(d.MonthIndex())
  {
    Residues(d);
  }

  /** At most one of the two day columns is restricted in any one search. */
  ghost predicate Searchable(ex: Expanded) {
    ex.Valid() && (ex.day.Star? || ex.weekday.Star?)
  }

  /** Day `n` of month `i`, counted on into the next month when the month is too short. */
  lemma Landing(d: DateTime, i: int, n: int)
    requires d.Valid() && d.Ordinal() == MonthStart(i) + n - 1 && 1 <= n <= Length(i) + 31
    ensures n > Length(i) ==> d.MonthIndex() > i && d.day <= n - Length(i)
    ensures n <= Length(i) ==> d.MonthIndex() == i && d.day == n
    ensures Length(i) < n <= Length(i) + 28 ==> d.MonthIndex() == i + 1 && d.day == n - Length(i)
  {
    hide IsLeap, MonthStart;
    NextMonthStart(i);
    if n <= Length(i) {
      SameDay(d, i, n);
    } else if n - Length(i) <= Length(i + 1) {
      SameDay(d, i + 1, n - Length(i));
    } else {
      NextMonthStart(i + 1);
      SameDay(d, i + 2, n - Length(i) - Length(i + 1));
    }
  }

  /** The distance in days between two times, month by month. */
  lemma Gap(d: DateTime, e: DateTime)
    requires d.Valid() && e.Valid() && d.MonthIndex() <= e.MonthIndex()
    ensures var i, j := d.MonthIndex(), e.MonthIndex();
      && d.day <= Length(i) == MonthLength(d.year, d.month)
      && (i == j ==> e.Ordinal() - d.Ordinal() == e.day - d.day)
      && (i < j ==> e.Ordinal() - d.Ordinal() >= Length(i) - d.day + e.day)
      && (i + 1 < j ==> e.Ordinal() - d.Ordinal() >= Length(i) + 28 - d.day + e.day)
  {
    hide IsLeap;
    var i, j := d.MonthIndex(), e.MonthIndex();
    Residues(d);
    if i < j {
      MonthOrder(i, j);
      if i + 1 < j {
        NextMonthStart(i);
        MonthOrder(i + 1, j);
      }
    }
  }

  /** With five columns the last step clears the seconds without reporting a change. */
  function Settle(ex: Expanded, d: DateTime): (r: DateTime)
    requires d.Valid()
    ensures r.Valid()
  {
    if ex.second.Some? then d else
    Plus(d, RelativeDelta(second := Some(0)))
  }

  lemma Settled(ex: Expanded, d: DateTime)
    requires d.Valid()
    ensures Settle(ex, d) == if ex.second.Some? then d else d.(second := 0)
    ensures Ticks(ex, Settle(ex, d)) == Ticks(ex, d)
  {
    hide IsLeap;
    if ex.second.None? {
      Replaced(d, RelativeDelta(second := Some(0)));
      SecondsInjective(Settle(ex, d), d.(second := 0));
    }
  }

  /** The clock columns' first and last values are times of day. */
  lemma ClockBounds(ex: Expanded)
    requires ex.Valid()
    ensures 0 <= ex.hour.First(0) <= ex.hour.Last(23) <= 23
    ensures 0 <= ex.minute.First(0) <= ex.minute.Last(59) <= 59
    ensures 0 <= ex.SecondField().First(0) <= ex.SecondField().Last(59) <= 59
  {
    FirstAndLast(ex.hour, 0, 23);
    FirstAndLast(ex.minute, 0, 59);
    FirstAndLast(ex.SecondField(), 0, 59);
  }

  lemma FirstAndLast(f: Field, lo: int, hi: int)
    requires f.Valid(lo, hi) && lo <= hi
    ensures lo <= f.First(lo) <= f.Last(hi) <= hi
    ensures f.Allows(f.First(lo)) && f.Allows(f.Last(hi))
    ensures forall x :: lo <= x <= hi && f.Allows(x) ==> f.First(lo) <= x <= f.Last(hi)
  {
    if f.Values? {
      assert f.vs[0] in f.vs && f.vs[|f.vs| - 1] in f.vs;
    }
  }

  /** Weekdays go round as days go on. */
  lemma DaysAhead(x: int, y: int)
    ensures y % 7 == (x % 7 + (y - x)) % 7
  {
    var q := x / 7;
    assert y == 7 * q + (x % 7 + (y - x));
  }

  // ---------------------------------------------------------------- two moments of a day

  function LastSecond(year: int, month: int, day: int): DateTime {
    DateTime(year, month, day, 23, 59, 59)
  }

  /** The first time of a day that the clock columns allow. */
  function FirstAllowed(ex: Expanded, year: int, month: int, day: int): DateTime
    requires ex.Valid()
  {
    DateTime(year, month, day, ex.hour.First(0), ex.minute.First(0), ex.SecondField().First(0))
  }

  lemma FirstAllowedMatches(ex: Expanded, year: int, month: int, day: int)
    requires ex.Valid() && 1 <= month <= 12 && 1 <= day <= MonthLength(year, month)
    requires ex.month.Allows(month) && ex.day.Allows(day)
    requires ex.weekday.Allows((MonthStart(12 * year + month - 1) + day - 1) % 7)
    ensures ex.Matches(FirstAllowed(ex, year, month, day))
  {
    hide IsLeap, MonthStart;
    ClockBounds(ex);
    FirstAndLast(ex.hour, 0, 23);
    FirstAndLast(ex.minute, 0, 59);
    FirstAndLast(ex.SecondField(), 0, 59);
  }
}
