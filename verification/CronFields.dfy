/** Expanded cron expressions, what it means for a time to match one, and the
    nearest-value searches that the engine's steps are built on. */
module CronFields {
  import opened Wrappers
  import opened Calendar

  /** One expanded column: `['*']`, or the listed values in ascending order. */
  datatype Field = Star | Values(vs: seq<int>) {
    predicate Allows(x: int) { Star? || x in vs }

    ghost predicate Valid(lo: int, hi: int) {
      Values? ==> |vs| > 0 && Ascending(vs) && forall v :: v in vs ==> lo <= v <= hi
    }

    /** The least allowed value, when `lo` is the least of all. */
    function First(lo: int): int
      requires Values? ==> |vs| > 0
    {
      if Star? then lo else vs[0]
    }

    function Last(hi: int): int
      requires Values? ==> |vs| > 0
    {
      if Star? then hi else vs[|vs| - 1]
    }
  }

  ghost predicate Ascending(vs: seq<int>) {
    forall i, j :: 0 <= i < j < |vs| ==> vs[i] <= vs[j]
  }

  /** The five columns of a cron expression and the optional sixth, for seconds. */
  datatype Expanded = Expanded(minute: Field, hour: Field, day: Field, month: Field,
                               weekday: Field, second: Option<Field>)
  {
    ghost predicate Valid() {
      && minute.Valid(0, 59) && hour.Valid(0, 23) && day.Valid(1, 31)
      && month.Valid(1, 12) && weekday.Valid(0, 6)
      && (second.Some? ==> second.value.Valid(0, 59))
    }

    /** The grain of the schedule: a second with six columns, a minute with five. */
    function Unit(): (u: int)
      ensures u == 1 || u == 60
    {
      if second.Some? then 1 else 60
    }

    function SecondField(): Field {
      if second.Some? then second.value else Values([0])
    }

    predicate ClockMatches(d: DateTime) {
      hour.Allows(d.hour) && minute.Allows(d.minute) && SecondField().Allows(d.second)
    }

    /** Every column allows the time. */
    predicate Matches(d: DateTime) {
      && d.Valid()
      && month.Allows(d.month) && day.Allows(d.day) && weekday.Allows(d.Weekday())
      && ClockMatches(d)
    }

    /** The schedule of the `crontab` utility: when both day columns are
        restricted, a day may match either of them. */
    predicate Fires(d: DateTime) {
      && d.Valid()
      && month.Allows(d.month)
      && (if day.Values? && weekday.Values?
          then day.Allows(d.day) || weekday.Allows(d.Weekday())
          else day.Allows(d.day) && weekday.Allows(d.Weekday()))
      && ClockMatches(d)
    }

    function ByDay(): Expanded { this.(weekday := Star) }

    function ByWeekday(): Expanded { this.(day := Star) }

    /** The earliest time of day, in seconds, that the clock columns allow. */
    function Opening(): int
      requires Valid()
    {
      3600 * hour.First(0) + 60 * minute.First(0) + SecondField().First(0)
    }

    /** The latest one. */
    function Closing(): int
      requires Valid()
    {
      3600 * hour.Last(23) + 60 * minute.Last(59) + SecondField().Last(59)
    }
  }

  lemma FiresIsUnion(ex: Expanded, d: DateTime)
    ensures ex.day.Values? && ex.weekday.Values? ==>
      (ex.Fires(d) <==> ex.ByDay().Matches(d) || ex.ByWeekday().Matches(d))
    ensures !(ex.day.Values? && ex.weekday.Values?) ==> (ex.Fires(d) <==> ex.Matches(d))
  {
  }

  // ---------------------------------------------------------------- forward search in a column

  function AtLeast(vs: seq<int>, x: int): (r: Option<int>)
    ensures r.None? ==> forall v :: v in vs ==> v < x
    ensures r.Some? ==> r.value in vs && r.value >= x
    ensures r.Some? && Ascending(vs) ==> forall v :: v in vs && v >= x ==> r.value <= v
  {
    if vs == [] then None
    else if vs[0] >= x then Some(vs[0])
    else
      assert vs == [vs[0]] + vs[1..];
      AtLeast(vs[1..], x)
  }

  /** `_get_next_nearest_diff`: the distance up to the next listed value, wrapping
      past the end of a cycle of `range` values. */
  function NextDiff(x: int, vs: seq<int>, range: int): int
    requires |vs| > 0
  {
    match AtLeast(vs, x)
    case Some(v) => v - x
    case None => vs[0] - x + range
  }

  method NextNearestDiff(x: int, toCheck: seq<int>, range: int) returns (diff: int)
    requires |toCheck| > 0
    ensures diff == NextDiff(x, toCheck, range)
  {
    for i := 0 to |toCheck|
      invariant AtLeast(toCheck, x) == AtLeast(toCheck[i..], x)
    {
      if toCheck[i] >= x {
        return toCheck[i] - x;
      }
    }
    return toCheck[0] - x + range;
  }

  predicate Cycle(n: int) { n == 7 || n == 12 || n == 24 || n == 60 }

  lemma RemainderOf7(q: int, r: int)
    requires 0 <= r < 7
    ensures (7 * q + r) % 7 == r
  {
  }

  lemma RemainderOf12(q: int, r: int)
    requires 0 <= r < 12
    ensures (12 * q + r) % 12 == r
  {
  }

  lemma RemainderOf24(q: int, r: int)
    requires 0 <= r < 24
    ensures (24 * q + r) % 24 == r
  {
  }

  lemma RemainderOf60(q: int, r: int)
    requires 0 <= r < 60
    ensures (60 * q + r) % 60 == r
  {
  }

  lemma Remainder(q: int, r: int, n: int)
    requires Cycle(n) && 0 <= r < n
    ensures (n * q + r) % n == r
  {
    if n == 7 {
      RemainderOf7(q, r);
    } else if n == 12 {
      RemainderOf12(q, r);
    } else if n == 24 {
      RemainderOf24(q, r);
    } else {
      RemainderOf60(q, r);
    }
  }

  lemma Borrow(q: int, r: int, n: int)
    ensures n * q + r == n * (q - 1) + (r + n) == n * (q + 1) + (r - n)
  {
  }

  lemma Divide(c: int, n: int)
    requires Cycle(n)
    ensures c == n * (c / n) + c % n && 0 <= c % n < n
  {
  }

  lemma Wrap(c: int, k: int, n: int)
    requires Cycle(n) && -n < k < n
    ensures (c + k) % n == (var r := c % n + k; if r < 0 then r + n else if r < n then r else r - n)
  {
    var q, r := c / n, c % n + k;
    Divide(c, n);
    Borrow(q, r, n);
    if r < 0 {
      Remainder(q - 1, r + n, n);
    } else if r < n {
      Remainder(q, r, n);
    } else {
      Remainder(q + 1, r - n, n);
    }
  }

  /** On a counter that cycles through `n` values from `lo` up, `NextDiff` is the
      least number of ticks to a listed value. */
  lemma NextDiffIsLeast(c: int, vs: seq<int>, lo: int, n: int)
    requires Cycle(n) && Values(vs).Valid(lo, lo + n - 1)
    ensures var k := NextDiff(lo + c % n, vs, n);
      && 0 <= k < n
      && lo + (c + k) % n in vs
      && forall e :: c <= e < c + k ==> lo + e % n !in vs
  {
    var x := lo + c % n;
    var k := NextDiff(x, vs, n);
    assert vs[0] in vs;
    Wrap(c, k, n);
    forall e | c <= e < c + k ensures lo + e % n !in vs {
      Wrap(c, e - c, n);
    }
  }

  // ---------------------------------------------------------------- backward search in a column

  function AtMost(vs: seq<int>, x: int): (r: Option<int>)
    ensures r.None? ==> forall v :: v in vs ==> v > x
    ensures r.Some? ==> r.value in vs && r.value <= x
    ensures r.Some? && Ascending(vs) ==> forall v :: v in vs && v <= x ==> v <= r.value
  {
    if vs == [] then None
    else if vs[|vs| - 1] <= x then Some(vs[|vs| - 1])
    else
      assert vs == vs[..|vs| - 1] + [vs[|vs| - 1]];
      AtMost(vs[..|vs| - 1], x)
  }

  /** `_get_prev_nearest_diff`: the (non-positive, as intended) distance down to the
      previous listed value.  When every value is above `x` the search wraps to the
      greatest value strictly below `range`, or failing that to the greatest of all. */
  function PrevDiff(x: int, vs: seq<int>, range: int): int
    requires |vs| > 0
  {
    match AtMost(vs, x)
    case Some(v) => v - x
    case None =>
      (match AtMost(vs, range - 1)
       case Some(c) => c
       case None => vs[|vs| - 1]) - x - range
  }

  function Reverse(vs: seq<int>): (r: seq<int>)
    ensures |r| == |vs|
    ensures forall i :: 0 <= i < |vs| ==> r[i] == vs[|vs| - 1 - i]
  {
    if vs == [] then [] else Reverse(vs[1..]) + [vs[0]]
  }

  method PrevNearestDiff(x: int, toCheck: seq<int>, range: int) returns (diff: int)
    requires |toCheck| > 0
    ensures diff == PrevDiff(x, toCheck, range)
  {
    var candidates := Reverse(toCheck);
    var n := |toCheck|;
    assert toCheck[..n] == toCheck;
    for i := 0 to n
      invariant AtMost(toCheck, x) == AtMost(toCheck[..n - i], x)
    {
      if candidates[i] <= x {
        return candidates[i] - x;
      }
      assert toCheck[..n - i][..n - i - 1] == toCheck[..n - i - 1];
    }
    assert AtMost(toCheck, x).None?;
    var candidate := candidates[0];
    for i := 0 to n
      invariant candidate == candidates[0]
      invariant AtMost(toCheck, range - 1) == AtMost(toCheck[..n - i], range - 1)
    {
      if candidates[i] < range {
        candidate := candidates[i];
        break;
      }
      assert toCheck[..n - i][..n - i - 1] == toCheck[..n - i - 1];
    }
    return candidate - x - range;
  }

  /** On a cycle counted from `lo`, every listed value of which is below the wrap-around
      limit `n`, `PrevDiff` is the least number of ticks back to a listed value. */
  lemma PrevDiffIsLeast(c: int, vs: seq<int>, n: int)
    requires Cycle(n) && Values(vs).Valid(0, n - 1)
    ensures var k := PrevDiff(c % n, vs, n);
      && -n < k <= 0
      && (c + k) % n in vs
      && forall e :: c + k < e <= c ==> e % n !in vs
  {
    var x := c % n;
    var k := PrevDiff(x, vs, n);
    assert vs[0] in vs && vs[|vs| - 1] in vs;
    assert AtMost(vs, n - 1).Some?;
    Wrap(c, k, n);
    forall e | c + k < e <= c ensures e % n !in vs {
      Wrap(c, e - c, n);
    }
  }
}
