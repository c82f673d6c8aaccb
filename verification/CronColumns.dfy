/** What the parts of a column denote, in numbers: ranges, steps, names, and the values that
    stand for another one.  Nothing here is said through the tables of the expansion. */
module CronColumns {
  import opened Wrappers
  import opened CronExpand

  const MONTH_NAMES := ["jan", "feb", "mar", "apr", "may", "jun", "jul", "aug", "sep", "oct", "nov", "dec"]
  const WEEKDAY_NAMES := ["sun", "mon", "tue", "wed", "thu", "fri", "sat"]

  /** `w` is the name of `n` in column `i`. */
  predicate Named(i: nat, w: string, n: int) {
    || (i == 3 && 1 <= n <= 12 && w == MONTH_NAMES[n - 1])
    || (i == 4 && 0 <= n <= 6 && w == WEEKDAY_NAMES[n])
  }

  /** The numbers that can be written in a column: minute, hour, day, month, weekday, second.
      Day 0, month 0 and weekday 7 stand for others. */
  predicate Writable(i: nat, n: int) {
    match i
    case 1 => 0 <= n <= 23
    case 2 => 0 <= n <= 31
    case 3 => 0 <= n <= 12
    case 4 => 0 <= n <= 7
    case _ => 0 <= n <= 59
  }

  /** The value that a number written in a column stands for. */
  function Meant(i: nat, n: int): int {
    if n == 0 && (i == 2 || i == 3) then 1 else if n == 7 && i == 4 then 0 else n
  }

  // ---------------------------------------------------------------- names and single numbers

  lemma LookupMonth(w: string, n: int)
    ensures Lookup(3, w) == Ok(Num(n)) <==> 1 <= n <= 12 && w == MONTH_NAMES[n - 1]
  {
  }

  lemma LookupWeekday(w: string, n: int)
    ensures Lookup(4, w) == Ok(Num(n)) <==> 0 <= n <= 6 && w == WEEKDAY_NAMES[n]
  {
  }

  /** A name is found exactly when the column has it. */
  lemma LookupIs(i: nat, w: string, n: int)
    ensures Lookup(i, w) == Ok(Num(n)) <==> Named(i, w, n)
    ensures Lookup(i, w) == Ok(LastDay) <==> i == 2 && w == "l"
    ensures Lookup(i, w).Ok? ==> Lookup(i, w).value.Num? || Lookup(i, w).value.LastDay?
    ensures Lookup(i, w).Err? ==> Lookup(i, w).error == KeyError
  {
    if i == 3 {
      LookupMonth(w, n);
    } else if i == 4 {
      LookupWeekday(w, n);
    }
  }

  lemma NamedOnce(i: nat, w: string, m: int, n: int)
    requires Named(i, w, m) && Named(i, w, n)
    ensures m == n
  {
    LookupIs(i, w, m);
    LookupIs(i, w, n);
  }

  lemma MapsTo(i: nat, n: int)
    ensures LowMap(i, n) == Meant(i, n)
    ensures Low(i) <= LowMap(i, n) <= High(i) <==> Writable(i, n)
  {
  }

  /** A number stands for itself, but for day 0 and month 0, which stand for 1, and weekday 7,
      which stands for 0; any other one out of the column's range is refused. */
  lemma NumberMeans(i: nat, n: int)
    ensures Refused(i, Number(n)) <==> !Writable(i, n)
    ensures forall item :: Denotes(i, Number(n), item) <==> item == Num(Meant(i, n))
  {
    MapsTo(i, n);
    assert Denotes(i, Number(n), Num(Meant(i, n)));
  }

  /** A name stands for its number; `l` is a name in the column of days. */
  lemma NameMeans(i: nat, w: string, item: Item)
    ensures Refused(i, Name(w)) <==> !(i == 2 && w == "l") && forall n: int :: !Named(i, w, n)
    ensures Denotes(i, Name(w), item) <==> (item.Num? && Named(i, w, item.n)) || (item.LastDay? && i == 2 && w == "l")
  {
    if Lookup(i, w).Ok? && Lookup(i, w).value.Num? {
      var n := Lookup(i, w).value.n;
      LookupIs(i, w, n);
      MapsTo(i, n);
      assert Meant(i, n) == n;
      if item.Num? && Named(i, w, item.n) {
        NamedOnce(i, w, item.n, n);
      }
    } else {
      forall n: int ensures !Named(i, w, n) {
        LookupIs(i, w, n);
      }
      LookupIs(i, w, 0);
    }
  }

  // ---------------------------------------------------------------- ranges

  /** A bound is written as digits or by name; Sunday's name is not taken, nor is `l`. */
  predicate BoundIs(i: nat, b: Bound, n: int) {
    n >= 0 && (b == Digits(n) || (b.Word? && n > 0 && Named(i, b.w, n)))
  }

  /** No step is a step of one. */
  predicate StrideIs(s: Stride, k: int) { k > 0 && (s == Every(k) || (s.Default? && k == 1)) }

  /** The least and the greatest value of a column. */
  function Least(i: nat): int { if i == 2 || i == 3 then 1 else 0 }

  function Greatest(i: nat): int { match i case 1 => 23 case 2 => 31 case 3 => 12 case 4 => 6 case _ => 59 }

  /** The part is a range from `a` to `b` in steps of `k`; `*` spans the column. */
  predicate Spans(i: nat, part: Part, a: int, b: int, k: int)
    requires part.Range? || part.WildRange?
  {
    && StrideIs(part.stride, k) && a <= b
    && (if part.Range? then BoundIs(i, part.low, a) && BoundIs(i, part.high, b) else a == Least(i) && b == Greatest(i))
  }

  lemma BoundMeans(i: nat, b: Bound, n: nat)
    ensures BoundValue(i, b) == Ok(Some(n)) <==> BoundIs(i, b, n)
  {
    if b.Word? {
      LookupIs(i, b.w, n);
    }
  }

  /** A range that the expansion takes for one is one, and conversely. */
  lemma SpanMeans(i: nat, part: Part, a: nat, b: nat, k: nat)
    requires part.Range? || part.WildRange?
    ensures Span(i, part) == Some((a, b, k)) <==> Spans(i, part, a, b, k)
  {
    if part.Range? {
      BoundMeans(i, part.low, a);
      BoundMeans(i, part.high, b);
    }
    hide BoundValue, BoundIs;
  }

  lemma CountedIs(low: int, high: int, k: nat, x: int)
    requires k > 0
    ensures Counted(low, high, k, x) <==> low <= x <= high && (x - low) % k == 0
  {
    if Counted(low, high, k, x) {
      var m: nat :| x == low + m * k;
      Multiple(m, k);
    }
    if low <= x <= high && (x - low) % k == 0 {
      Quotient(x - low, k);
      assert x == low + ((x - low) / k) * k;
    }
  }

  lemma Monotone(q: int, r: int, k: nat)
    ensures q <= r ==> q * k <= r * k
  {
    if q <= r {
      assert (r - q) * k >= 0;
    }
  }

  /** More multiples than `q` of them are at least one more. */
  lemma OneMore(q: int, r: int, k: nat)
    requires r * k > q * k
    ensures r * k >= q * k + k
  {
    Monotone(r, q, k);
    Monotone(q + 1, r, k);
  }

  lemma Multiple(m: nat, k: nat)
    requires k > 0
    ensures m * k >= 0 && (m * k) % k == 0
  {
    var q, r := (m * k) / k, (m * k) % k;
    assert m * k == q * k + r;
    if r > 0 {
      OneMore(q, m, k);
    }
  }

  lemma Quotient(y: int, k: nat)
    requires k > 0 && y >= 0 && y % k == 0
    ensures y == (y / k) * k && y / k >= 0
  {
  }

  /** The value that the last full step reaches. */
  function LastValue(a: int, b: int, k: int): int
    requires k > 0
  {
    b - (b - a) % k
  }

  lemma LastIsCounted(a: int, b: int, k: nat, x: int)
    requires k > 0 && a <= b
    ensures Counted(a, b, k, LastValue(a, b, k)) && (Counted(a, b, k, x) ==> a <= x <= LastValue(a, b, k))
  {
    var last, q := LastValue(a, b, k), (b - a) / k;
    assert last - a == q * k;
    Multiple(q, k);
    CountedIs(a, b, k, last);
    CountedIs(a, b, k, x);
    hide Counted;
    if a <= x <= b && (x - a) % k == 0 && x > last {
      Quotient(x - a, k);
      OneMore(q, (x - a) / k, k);
    }
  }

  /** A range denotes its first value and every `k`-th one after it, up to its last bound; it is
      refused exactly when the last of these cannot be written in the column. */
  lemma RangeMeans(i: nat, part: Part, a: int, b: int, k: int)
    requires (part.Range? || part.WildRange?) && Spans(i, part, a, b, k)
    ensures Refused(i, part) <==> !Writable(i, LastValue(a, b, k))
    ensures forall item :: Denotes(i, part, item)
              <==> exists x :: a <= x <= b && (x - a) % k == 0 && item == Num(Meant(i, x))
  {
    SpanMeans(i, part, a, b, k);
    forall item ensures Denotes(i, part, item) <==> exists x :: a <= x <= b && (x - a) % k == 0 && item == Num(Meant(i, x)) {
      RangeDenotes(i, part, a, b, k, item);
    }
    var last := LastValue(a, b, k);
    LastIsCounted(a, b, k, a);
    CountedIs(a, b, k, last);
    MapsTo(i, last);
    hide Span, Counted, Writable, LowMap, Low, High;
    assert Denotes(i, part, Num(Meant(i, last)));
    forall x | a <= x <= b && (x - a) % k == 0 ensures Writable(i, last) ==> InRange(i, Num(Meant(i, x))) {
      CountedIs(a, b, k, x);
      LastIsCounted(a, b, k, x);
      if Writable(i, last) {
        WritableBelow(i, x, last);
      }
      MapsTo(i, x);
      InRangeIs(i, x);
    }
    InRangeIs(i, last);
  }

  lemma InRangeIs(i: nat, x: int)
    ensures InRange(i, Num(Meant(i, x))) <==> Writable(i, x)
  {
    MapsTo(i, x);
  }

  lemma WritableBelow(i: nat, x: int, y: int)
    requires 0 <= x <= y && Writable(i, y)
    ensures Writable(i, x)
  {
  }

  lemma RangeDenotes(i: nat, part: Part, a: int, b: int, k: int, item: Item)
    requires (part.Range? || part.WildRange?) && a >= 0 && b >= 0 && k > 0 && Span(i, part) == Some((a, b, k as nat))
    ensures Denotes(i, part, item) <==> exists x :: a <= x <= b && (x - a) % k == 0 && item == Num(Meant(i, x))
  {
    forall x ensures Counted(a, b, k, x) <==> a <= x <= b && (x - a) % k == 0 {
      CountedIs(a, b, k, x);
    }
    forall x ensures LowMap(i, x) == Meant(i, x) {
      MapsTo(i, x);
    }
    hide Span, Counted, LowMap, Meant;
  }

  /** Anything else that looks like a range is refused: a bound that is no number or name of the
      column, or Sunday's name; bounds in the wrong order; a step that is no number, or 0. */
  lemma ImproperRange(i: nat, part: Part)
    requires (part.Range? || part.WildRange?) && forall a, b, k :: !Spans(i, part, a, b, k)
    ensures Refused(i, part)
  {
    if Span(i, part).Some? {
      var (a, b, k) := Span(i, part).value;
      if part.WildRange? {
        assert a == Least(i) && b == Greatest(i);
      }
      SpanMeans(i, part, a, b, k);
    }
  }

  /** Within the column's own range every value stands for itself: `a-b` denotes the values from
      `a` to `b`, and `a-b/k` every `k`-th one of them. */
  lemma PlainRangeMeans(i: nat, a: nat, b: nat, s: Stride, k: int, x: int)
    requires Least(i) <= a <= b <= Greatest(i) && StrideIs(s, k)
    ensures var part := Range(Digits(a), Digits(b), s);
      !Refused(i, part) && (Denotes(i, part, Num(x)) <==> a <= x <= b && (x - a) % k == 0)
  {
    var part := Range(Digits(a), Digits(b), s);
    RangeMeans(i, part, a, b, k);
    LastIsCounted(a, b, k, a);
    CountedIs(a, b, k, LastValue(a, b, k));
    WithinColumn(i, a, b);
    hide Denotes, Refused, Counted, Meant, Writable;
    if a <= x <= b {
      assert Meant(i, x) == x;
    }
  }

  lemma WithinColumn(i: nat, a: int, b: int)
    requires Least(i) <= a <= b <= Greatest(i)
    ensures forall x :: a <= x <= b ==> Writable(i, x) && Meant(i, x) == x
  {
  }

  /** `*` with a step `k` denotes every `k`-th value of the column, from its least. */
  lemma WildRangeMeans(i: nat, k: nat, x: int)
    requires k > 0
    ensures var part := WildRange(Every(k));
      !Refused(i, part) && (Denotes(i, part, Num(x)) <==> Least(i) <= x <= Greatest(i) && (x - Least(i)) % k == 0)
  {
    var part, a, b := WildRange(Every(k)), Least(i), Greatest(i);
    RangeMeans(i, part, a, b, k);
    LastIsCounted(a, b, k, a);
    CountedIs(a, b, k, LastValue(a, b, k));
    WithinColumn(i, a, b);
    hide Denotes, Refused, Counted, Meant, Writable;
    if a <= x <= b {
      assert Meant(i, x) == x;
    }
  }

  // ---------------------------------------------------------------- which error is raised

  ghost predicate Unknown(i: nat, w: string) { !(i == 2 && w == "l") && forall n: int :: !Named(i, w, n) }

  /** A name that the column does not have is a missing key; anything else that is refused has
      the wrong value. */
  ghost predicate MissesKey(i: nat, part: Part) {
    || (part.Name? && Unknown(i, part.w))
    || (part.Range? && ((part.low.Word? && Unknown(i, part.low.w)) || (part.high.Word? && Unknown(i, part.high.w))))
  }

  lemma LookupFails(i: nat, w: string)
    ensures Lookup(i, w).Err? <==> Unknown(i, w)
    ensures Lookup(i, w).Err? ==> Lookup(i, w).error == KeyError
  {
    if Lookup(i, w).Ok? && Lookup(i, w).value.Num? {
      LookupIs(i, w, Lookup(i, w).value.n);
    } else {
      forall n: int ensures !Named(i, w, n) {
        LookupIs(i, w, n);
      }
      LookupIs(i, w, 0);
    }
  }

  lemma TurnError(i: nat, part: Part)
    ensures TurnOf(i, part).Err? ==> (TurnOf(i, part).error == KeyError <==> MissesKey(i, part))
    ensures TurnOf(i, part).Ok? ==> !MissesKey(i, part)
  {
    if part.Name? {
      LookupFails(i, part.w);
    } else if part.Range? {
      if part.low.Word? {
        LookupFails(i, part.low.w);
      }
      if part.high.Word? {
        LookupFails(i, part.high.w);
      }
    }
    hide Lookup, Unknown, Counting;
  }

  /** The parts are taken from the last to the first, and the first one that is refused then
      decides which error is raised. */
  ghost predicate Blamed(i: nat, parts: seq<Part>, k: nat, e: Error) {
    && k < |parts| && Refused(i, parts[k]) && (forall j :: k < j < |parts| ==> !Refused(i, parts[j]))
    && (e == KeyError <==> MissesKey(i, parts[k]))
  }

  lemma {:induction false} ErrorIsOfLastRefused(i: nat, parts: seq<Part>)
    requires Items(i, parts).Err?
    ensures exists k: nat :: Blamed(i, parts, k, Items(i, parts).error)
    decreases Weight(i, parts)
  {
    hide TurnOf, Denotes, Refused, MissesKey;
    var n, e := |parts| - 1, Items(i, parts).error;
    var before, part := parts[..n], parts[n];
    PopShrinks(i, parts);
    TurnError(i, part);
    match TurnOf(i, part) {
      case Err(_) =>
        ErrorMeans(i, part);
        assert Blamed(i, parts, n, e);
      case Ok(Entry(item)) =>
        EntryMeans(i, part, item);
        ErrorIsOfLastRefused(i, before);
        var k: nat :| Blamed(i, before, k, e);
        assert Blamed(i, parts, k, e);
      case Ok(Unroll(numbers)) =>
        UnrollMeans(i, part, numbers);
        ErrorIsOfLastRefused(i, before + numbers);
        var k: nat :| Blamed(i, before + numbers, k, e);
        BlamedOn(i, before, part, numbers, k, e);
        assert parts == before + [part];
    }
  }

  /** What is blamed on a range's numbers is blamed on the range. */
  lemma BlamedOn(i: nat, before: seq<Part>, part: Part, numbers: seq<Part>, k: nat, e: Error)
    requires Blamed(i, before + numbers, k, e) && !MissesKey(i, part) && forall p :: p in numbers ==> p.Number?
    requires Refused(i, part) <==> exists q :: q in numbers && Refused(i, q)
    ensures exists m: nat :: Blamed(i, before + [part], m, e)
  {
    hide Refused;
    var all := before + numbers;
    if k < |before| {
      forall q | q in numbers ensures !Refused(i, q) {
        var j :| 0 <= j < |numbers| && numbers[j] == q;
        assert all[|before| + j] == q;
      }
      var out := before + [part];
      forall j | k < j < |out| ensures !Refused(i, out[j]) {
        assert j < |before| ==> all[j] == out[j];
      }
      assert out[k] == all[k];
      assert Blamed(i, out, k, e);
    } else {
      assert all[k] in numbers;
      assert Blamed(i, before + [part], |before|, e);
    }
  }
}
