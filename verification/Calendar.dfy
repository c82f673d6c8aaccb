/** The proleptic Gregorian calendar, and the part of `datetime` and
    `relativedelta` that the cron engine uses.  A point in time is either a
    calendar record (`DateTime`) or a count of seconds (`Seconds`); the two views
    are connected by `FromSeconds`, which inverts `Seconds` on valid records. */
module Calendar {
  import opened Wrappers

  const DAY_SECONDS := 86400

  predicate IsLeap(year: int) {
    year % 400 == 0 || (year % 4 == 0 && year % 100 != 0)
  }

  lemma LeapCentury(n: int)
    ensures IsLeap(400 * n)
  {
  }

  /** The common-year month lengths. */
  function Days(month: int): int {
    if month == 2 then 28
    else if month == 4 || month == 6 || month == 9 || month == 11 then 30
    else 31
  }

  function MonthLength(year: int, month: int): int {
    if month == 2 && IsLeap(year) then 29 else Days(month)
  }

  // ---------------------------------------------------------------- month line

  /** Months are also numbered along one line: month `i % 12 + 1` of year `i / 12`. */
  function Length(i: int): int {
    MonthLength(i / 12, i % 12 + 1)
  }

  /** The ordinal of the first day of month `i`.  Months follow each other without
      gaps, and 1 January of year 1 (month 12 of the line) is day 1, a Monday. */
  function MonthStart(i: int): int
    decreases if i < 12 then 12 - i else i - 12
  {
    if i == 12 then 1
    else if i > 12 then MonthStart(i - 1) + Length(i - 1)
    else MonthStart(i + 1) - Length(i)
  }

  lemma NextMonthStart(i: int)
    ensures MonthStart(i + 1) == MonthStart(i) + Length(i)
  {
  }

  /** Months tile the line of days: a later month starts after an earlier one ends. */
  lemma {:induction false} MonthOrder(i: int, j: int)
    requires i < j
    ensures MonthStart(i) + Length(i) <= MonthStart(j)
    decreases j - i
  {
    NextMonthStart(j - 1);
    if i < j - 1 {
      MonthOrder(i, j - 1);
    }
  }

  // ---------------------------------------------------------------- records

  datatype DateTime = DateTime(year: int, month: int, day: int, hour: int, minute: int, second: int) {
    predicate Valid() {
      && 1 <= month <= 12
      && 1 <= day <= MonthLength(year, month)
      && 0 <= hour < 24
      && 0 <= minute < 60
      && 0 <= second < 60
    }

    function MonthIndex(): int { 12 * year + month - 1 }

    function Ordinal(): int { MonthStart(MonthIndex()) + day - 1 }

    /** Sunday is 0: `isoweekday() % 7`. */
    function Weekday(): int { Ordinal() % 7 }

    function TimeOfDay(): int { 3600 * hour + 60 * minute + second }

    function Seconds(): int { DAY_SECONDS * Ordinal() + TimeOfDay() }
  }

  /** The month holding day `n`, searched from month `i`. */
  function MonthHolding(n: int, i: int): (j: int)
    ensures MonthStart(j) <= n < MonthStart(j) + Length(j)
    decreases n < MonthStart(i), if n < MonthStart(i) then MonthStart(i) - n else n - MonthStart(i)
  {
    NextMonthStart(i);
    NextMonthStart(i - 1);
    if n < MonthStart(i) then MonthHolding(n, i - 1)
    else if n >= MonthStart(i + 1) then MonthHolding(n, i + 1)
    else i
  }

  lemma ClockReading(s: int)
    requires 0 <= s < DAY_SECONDS
    ensures 0 <= s / 3600 < 24 && 0 <= s / 60 % 60 < 60
    ensures s == 3600 * (s / 3600) + 60 * (s / 60 % 60) + s % 60
  {
    var m := s / 60;
    assert s == 60 * m + s % 60 && m == 60 * (m / 60) + m % 60;
    assert s / 3600 == m / 60;
  }

  lemma InMonthLine(i: int)
    ensures 12 * (i / 12) + (i % 12 + 1) - 1 == i
  {
  }

  function FromSeconds(t: int): (d: DateTime)
    ensures d.Valid() && d.Seconds() == t
  {
    var n, s := t / DAY_SECONDS, t % DAY_SECONDS;
    var i := MonthHolding(n, 12 * (n / 366));
    ClockReading(s);
    InMonthLine(i);
    DateTime(i / 12, i % 12 + 1, n - MonthStart(i) + 1, s / 3600, s / 60 % 60, s % 60)
  }

  /** A day number determines its month and its day of the month. */
  lemma SameDay(d: DateTime, i: int, day: int)
    requires d.Valid() && 1 <= day <= Length(i) && d.Ordinal() == MonthStart(i) + day - 1
    ensures d.MonthIndex() == i && d.day == day
  {
    var j := d.MonthIndex();
    assert Length(j) == MonthLength(d.year, d.month);
    if i < j {
      MonthOrder(i, j);
    } else if j < i {
      MonthOrder(j, i);
    }
  }

  /** The coarser counters read off the count of seconds. */
  lemma Counters(d: DateTime)
    requires d.Valid()
    ensures d.Seconds() / 60 == 1440 * d.Ordinal() + 60 * d.hour + d.minute
    ensures d.Seconds() / 3600 == 24 * d.Ordinal() + d.hour
    ensures d.Seconds() / DAY_SECONDS == d.Ordinal()
  {
    var m := 1440 * d.Ordinal() + 60 * d.hour + d.minute;
    assert d.Seconds() == 60 * m + d.second;
    var h := 24 * d.Ordinal() + d.hour;
    assert d.Seconds() == 3600 * h + (60 * d.minute + d.second);
  }

  /** The count of seconds determines the record, so `FromSeconds` is the inverse of `Seconds`. */
  lemma SecondsInjective(d: DateTime, e: DateTime)
    requires d.Valid() && e.Valid() && d.Seconds() == e.Seconds()
    ensures d == e
  {
    Counters(d);
    Counters(e);
    SameDay(d, e.MonthIndex(), e.day);
  }

  lemma RoundTrip(d: DateTime)
    requires d.Valid()
    ensures FromSeconds(d.Seconds()) == d
  {
    SecondsInjective(FromSeconds(d.Seconds()), d);
  }

  // ---------------------------------------------------------------- relativedelta

  datatype RelativeDelta = RelativeDelta(
    months: int := 0, days: int := 0, hours: int := 0, minutes: int := 0, seconds: int := 0,
    day: Option<int> := None, hour: Option<int> := None,
    minute: Option<int> := None, second: Option<int> := None)
  {
    predicate Valid() {
      && (day.Some? ==> 1 <= day.value)
      && (hour.Some? ==> 0 <= hour.value < 24)
      && (minute.Some? ==> 0 <= minute.value < 60)
      && (second.Some? ==> 0 <= second.value < 60)
    }
  }

  function OrElse(o: Option<int>, default: int): int {
    if o.Some? then o.value else default
  }

  /** The absolute part of a delta: move by whole months, replace the given
      fields, and clip the day to the length of the month reached. */
  function Replace(d: DateTime, r: RelativeDelta): (e: DateTime)
    requires d.Valid() && r.Valid()
    ensures e.Valid() && e.MonthIndex() == d.MonthIndex() + r.months
  {
    var i := d.MonthIndex() + r.months;
    var day := OrElse(r.day, d.day);
    DateTime(i / 12, i % 12 + 1, if day <= Length(i) then day else Length(i),
             OrElse(r.hour, d.hour), OrElse(r.minute, d.minute), OrElse(r.second, d.second))
  }

  /** `d + r`: set the absolute fields first, then add the relative ones. */
  function Plus(d: DateTime, r: RelativeDelta): (e: DateTime)
    requires d.Valid() && r.Valid()
    ensures e.Valid()
    ensures e.Seconds() == Replace(d, r).Seconds()
                           + DAY_SECONDS * r.days + 3600 * r.hours + 60 * r.minutes + r.seconds
  {
    FromSeconds(Replace(d, r).Seconds()
                + DAY_SECONDS * r.days + 3600 * r.hours + 60 * r.minutes + r.seconds)
  }
}
