/** Leap years, common years, and the weekdays on which their Februaries end. */
module CronYears {
  import opened Calendar
  import opened CronFields
  import opened CronClock

  lemma MonthFollows(year: int, month: int)
    requires 1 <= month <= 12
    ensures MonthStart(12 * year + month) == MonthStart(12 * year + month - 1) + MonthLength(year, month)
  {
    hide IsLeap, MonthStart;
    NextMonthStart(12 * year + month - 1);
    Remainder(year, month - 1, 12);
    assert (12 * year + month - 1) / 12 == year;
  }

  /** A year of 365 or 366 days, from one February to the next. */
  lemma FebruaryToFebruary(year: int)
    ensures MonthStart(12 * year + 13) == MonthStart(12 * year + 1) + (if IsLeap(year) then 366 else 365)
  {
    hide IsLeap, MonthStart;
    MonthFollows(year, 2);
    MonthFollows(year, 3);
    MonthFollows(year, 4);
    MonthFollows(year, 5);
    MonthFollows(year, 6);
    MonthFollows(year, 7);
    MonthFollows(year, 8);
    MonthFollows(year, 9);
    MonthFollows(year, 10);
    MonthFollows(year, 11);
    MonthFollows(year, 12);
    MonthFollows(year + 1, 1);
  }

  lemma {:induction false} FourYearsOn(year: int, j: nat)
    requires year == 2000 || year == 2001
    requires j <= 6
    ensures IsLeap(year + 4 * j) <==> year == 2000
    ensures MonthStart(12 * (year + 4 * j) + 1) == MonthStart(12 * year + 1) + 1461 * j
  {
    hide MonthStart;
    if j > 0 {
      FourYearsOn(year, j - 1);
      var y := year + 4 * (j - 1);
      FebruaryToFebruary(y);
      FebruaryToFebruary(y + 1);
      FebruaryToFebruary(y + 2);
      FebruaryToFebruary(y + 3);
    }
  }

  /** Short and long Februaries end on every weekday. */
  lemma FebruaryEndsOn(length: int, w: int) returns (year: int)
    requires (length == 28 || length == 29) && 0 <= w < 7
    ensures MonthLength(year, 2) == length && (MonthStart(12 * year + 1) + length - 1) % 7 == w
  {
    hide IsLeap, MonthStart;
    var first := if length == 29 then 2000 else 2001;
    var x := MonthStart(12 * first + 1) + length - 1;
    var q, z := (w - x) / 7, (w - x) % 7;
    var j, k := 3 * z % 7, (1461 * (3 * z % 7) - z) / 7;
    assert 1461 * j - z == 7 * k;
    FourYearsOn(first, j);
    year := first + 4 * j;
    Remainder(k - q, w, 7);
  }

  /** The days from the beginning of the last March to that of month `s`. */
  function FromMarch(s: int): int
    requires 1 <= s <= 12
    decreases if s < 3 then s + 9 else s - 3
  {
    if s == 3 then 0
    else if s == 1 then FromMarch(12) + 31
    else FromMarch(s - 1) + Days(s - 1)
  }

  lemma {:induction false} MonthsFromMarch(year: int, s: int)
    requires 1 <= s <= 12
    ensures MonthStart(12 * year + s - 1) == MonthStart(12 * (if s < 3 then year - 1 else year) + 2) + FromMarch(s)
    decreases if s < 3 then s + 9 else s - 3
  {
    hide IsLeap, MonthStart;
    if s == 1 {
      MonthFollows(year - 1, 12);
      MonthsFromMarch(year - 1, 12);
    } else if s != 3 {
      MonthFollows(year, s - 1);
      MonthsFromMarch(year, s - 1);
    }
  }

  /** Every month begins on every weekday. */
  lemma MonthBeginsOn(s: int, w: int) returns (year: int)
    requires 1 <= s <= 12 && 0 <= w < 7
    ensures MonthStart(12 * year + s - 1) % 7 == w
  {
    hide IsLeap, MonthStart, FromMarch;
    var k := FromMarch(s);
    var y := FebruaryEndsOn(28, (w - k - 1) % 7);
    year := if s < 3 then y + 1 else y;
    MonthFollows(y, 2);
    MonthsFromMarch(year, s);
    DaysAhead(MonthStart(12 * y + 1) + 27, MonthStart(12 * year + s - 1));
    DaysAhead(w - k - 1, w);
  }
}
