/** The days of the Gregorian calendar in closed form: what the month-by-month calendar counts,
    without leap years or month lengths. */
module CivilDays {
  import opened Calendar
  import opened CronYears

  /** The first of the `k`-th month after March of year `y`, counted from 1 January of year 1,
      which is day 1. */
  function FirstOf(y: int, k: int): int {
    365 * y + y / 4 - y / 100 + y / 400 - 305 + (153 * k + 2) / 5
  }

  /** A date in the same count.  January and February belong to the year before. */
  function DayNumber(year: int, month: int, day: int): int {
    (if month < 3 then FirstOf(year - 1, month + 9) else FirstOf(year, month - 3)) + day - 1
  }

  lemma Quotients(y: int)
    ensures (y + 1) / 4 == y / 4 + if (y + 1) % 4 == 0 then 1 else 0
    ensures (y + 1) / 100 == y / 100 + if (y + 1) % 100 == 0 then 1 else 0
    ensures (y + 1) / 400 == y / 400 + if (y + 1) % 400 == 0 then 1 else 0
  {
  }

  lemma Hundreds(q: int)
    ensures (100 * q) % 100 == 0
  {
  }

  lemma Fours(q: int)
    ensures (4 * q) % 4 == 0
  {
  }

  lemma Divides(y: int)
    ensures y % 400 == 0 ==> y % 100 == 0
    ensures y % 100 == 0 ==> y % 4 == 0
  {
    if y % 400 == 0 {
      Hundreds(4 * (y / 400));
    }
    if y % 100 == 0 {
      Fours(25 * (y / 100));
    }
  }

  /** From one March to the next there is the leap day of the later year, if any. */
  lemma MarchToMarch(y: int)
    ensures MonthStart(12 * y + 14) == MonthStart(12 * y + 2) + (if IsLeap(y + 1) then 366 else 365)
  {
    hide IsLeap, MonthStart;
    FebruaryToFebruary(y);
    MonthFollows(y, 2);
    MonthFollows(y + 1, 2);
  }

  lemma FirstOfMoves(y: int)
    ensures FirstOf(y + 1, 0) == FirstOf(y, 0) + (if IsLeap(y + 1) then 366 else 365)
  {
    Quotients(y);
    Divides(y + 1);
  }

  lemma {:induction false} MarchCounts(y: int)
    ensures MonthStart(12 * y + 2) == FirstOf(y, 0)
    decreases if y < 1 then 2 - y else y
  {
    hide *;
    if y == 1 {
      MarchOfYearOne();
    } else if y < 1 {
      MarchToMarch(y);
      FirstOfMoves(y);
      MarchCounts(y + 1);
      assert 12 * y + 14 == 12 * (y + 1) + 2;
    } else {
      MarchToMarch(y - 1);
      FirstOfMoves(y - 1);
      MarchCounts(y - 1);
      assert 12 * (y - 1) + 14 == 12 * y + 2;
    }
  }

  lemma MarchOfYearOne()
    ensures MonthStart(14) == 60 == FirstOf(1, 0)
  {
    assert MonthStart(12) == 1 && MonthStart(13) == 32;
  }

  lemma MonthsCount(s: int)
    requires 1 <= s <= 12
    ensures FromMarch(s) == (153 * (if s < 3 then s + 9 else s - 3) + 2) / 5
  {
    assert FromMarch(3) == 0 && FromMarch(4) == 31 && FromMarch(5) == 61;
    assert FromMarch(6) == 92 && FromMarch(7) == 122 && FromMarch(8) == 153;
    assert FromMarch(9) == 184 && FromMarch(10) == 214 && FromMarch(11) == 245;
    assert FromMarch(12) == 275 && FromMarch(1) == 306 && FromMarch(2) == 337;
  }

  /** Every month of every year begins where the closed form says. */
  lemma MonthStartIs(year: int, month: int)
    requires 1 <= month <= 12
    ensures MonthStart(12 * year + month - 1) == DayNumber(year, month, 1)
  {
    hide MonthStart, FromMarch, IsLeap;
    MonthsFromMarch(year, month);
    MonthsCount(month);
    MarchCounts(if month < 3 then year - 1 else year);
  }

  /** The same for `k` months after March, with the form spelt out. */
  lemma MonthStartClosed(y: int, k: int)
    requires 0 <= k < 12
    ensures MonthStart(12 * y + 2 + k) == 365 * y + y / 4 - y / 100 + y / 400 - 305 + (153 * k + 2) / 5
  {
    hide MonthStart;
    if k < 10 {
      MonthStartIs(y, k + 3);
    } else {
      MonthStartIs(y + 1, k - 9);
    }
  }

  /** A record is valid exactly when its clock is, and its day comes before the first day of
      the next month. */
  lemma ValidIs(d: DateTime)
    ensures d.Valid() <==>
      && 1 <= d.month <= 12 && 0 <= d.hour < 24 && 0 <= d.minute < 60 && 0 <= d.second < 60
      && 1 <= d.day
      && DayNumber(d.year, d.month, d.day)
         < if d.month == 12 then DayNumber(d.year + 1, 1, 1) else DayNumber(d.year, d.month + 1, 1)
  {
    hide MonthStart, IsLeap, FirstOf;
    if 1 <= d.month <= 12 {
      MonthStartIs(d.year, d.month);
      MonthFollows(d.year, d.month);
      if d.month == 12 {
        MonthStartIs(d.year + 1, 1);
      } else {
        MonthStartIs(d.year, d.month + 1);
      }
    }
  }

  /** So the count of seconds of a record is that of the closed form, and its weekday is
      that number modulo 7, Sunday being 0. */
  lemma SecondsAre(d: DateTime)
    requires d.Valid()
    ensures var n := DayNumber(d.year, d.month, d.day);
      d.Seconds() == 86400 * n + 3600 * d.hour + 60 * d.minute + d.second && d.Weekday() == n % 7
  {
    hide MonthStart, IsLeap;
    MonthStartIs(d.year, d.month);
  }

  /** And a count of seconds is read as the one date and time with that number. */
  lemma ReadsAs(t: int)
    ensures var d := FromSeconds(t);
      DayNumber(d.year, d.month, d.day) == t / 86400 && 3600 * d.hour + 60 * d.minute + d.second == t % 86400
  {
    hide MonthStart, IsLeap, FromSeconds;
    var d := FromSeconds(t);
    SecondsAre(d);
    Counters(d);
  }
}
