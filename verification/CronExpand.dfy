/** Expanding the columns of a cron expression: a worklist of list parts becomes a
    sorted list of the values they denote. */
module CronExpand {
  import opened Wrappers

  // ---------------------------------------------------------------- the parts of a column

  /** One end of a range: digits, a name, or digits followed by something else. */
  datatype Bound = Digits(n: nat) | Word(w: string) | Garbled

  /** The step of a range: absent, digits, or anything else. */
  datatype Stride = Default | Every(n: nat) | BadStride

  /** One part of a comma list.  Names are in lower case; a text that is none of the other
      forms is a `Name` too, one that no table holds. */
  datatype Part = Wildcard | Number(n: int) | Name(w: string)
                | Range(low: Bound, high: Bound, stride: Stride) | WildRange(stride: Stride)

  /** An entry of an expanded column, in sorting order: numbers, then `*`, then `l`. */
  datatype Item = Num(n: int) | Asterisk | LastDay {
    function Rank(): int { if Num? then 0 else if Asterisk? then 1 else 2 }

    predicate Before(other: Item) {
      Rank() < other.Rank() || (Num? && other.Num? && n <= other.n) || (Rank() == other.Rank() && !Num?)
    }
  }

  datatype Error = KeyError | ValueError

  datatype Result<+T> = Ok(value: T) | Err(error: Error)

  function Low(i: nat): int { if i == 2 || i == 3 then 1 else 0 }

  function High(i: nat): int {
    if i == 1 then 23 else if i == 2 then 31 else if i == 3 then 12 else if i == 4 then 6 else 59
  }

  const MONTHS := map["jan" := 1, "feb" := 2, "mar" := 3, "apr" := 4, "may" := 5, "jun" := 6,
                      "jul" := 7, "aug" := 8, "sep" := 9, "oct" := 10, "nov" := 11, "dec" := 12]
  const WEEKDAYS := map["sun" := 0, "mon" := 1, "tue" := 2, "wed" := 3, "thu" := 4, "fri" := 5, "sat" := 6]

  function Lookup(i: nat, w: string): Result<Item> {
    if i == 2 && w == "l" then Ok(LastDay)
    else if i == 3 && w in MONTHS then Ok(Num(MONTHS[w]))
    else if i == 4 && w in WEEKDAYS then Ok(Num(WEEKDAYS[w]))
    else Err(KeyError)
  }

  /** `LOWMAP`: day 0 and month 0 stand for 1, weekday 7 for 0. */
  function LowMap(i: nat, n: int): int {
    if (i == 2 || i == 3) && n == 0 then 1 else if i == 4 && n == 7 then 0 else n
  }

  function Checked(i: nat, n: int): Result<Item> {
    var v := LowMap(i, n);
    if v < Low(i) || v > High(i) then Err(ValueError) else Ok(Num(v))
  }

  /** A part that is not a range. */
  function Single(i: nat, part: Part): Result<Item>
    requires !part.Range? && !part.WildRange?
  {
    match part
    case Wildcard => Ok(Asterisk)
    case Number(n) => Checked(i, n)
    case Name(w) =>
      match Lookup(i, w)
      case Err(e) => Err(e)
      case Ok(Num(n)) => Checked(i, n)
      case Ok(item) => Ok(item)
  }

  /** A bound's number.  `None` stands for a text that `int` refuses; a name whose value is
      0 (Sunday) is refused as well, because the check for it takes 0 to be missing. */
  function BoundValue(i: nat, b: Bound): Result<Option<nat>> {
    match b
    case Digits(n) => Ok(Some(n))
    case Garbled => Ok(None)
    case Word(w) =>
      match Lookup(i, w)
      case Err(e) => Err(e)
      case Ok(Num(n)) => Ok(if n > 0 then Some(n) else None)
      case Ok(_) => Ok(None)
  }

  function StrideValue(s: Stride): Option<nat> {
    match s
    case Default => Some(1)
    case Every(n) => Some(n)
    case BadStride => None
  }

  /** `range(low, high + 1, step)`. */
  function Counting(low: int, high: int, step: nat): (r: seq<Part>)
    requires step > 0
    ensures forall p :: p in r ==> p.Number?
    decreases high - low
  {
    if low > high then [] else [Number(low)] + Counting(low + step, high, step)
  }

  /** The numbers a range puts back on the worklist. */
  function Unrolled(i: nat, part: Part): (r: Result<seq<Part>>)
    requires part.Range? || part.WildRange?
    ensures r.Ok? ==> r.value != [] && forall p :: p in r.value ==> p.Number?
  {
    match part
    case WildRange(s) => Stepped(Low(i), High(i), s)
    case Range(l, h, s) =>
      match BoundValue(i, l)
      case Err(e) => Err(e)
      case Ok(low) =>
        match BoundValue(i, h)
        case Err(e) => Err(e)
        case Ok(high) =>
          if low.None? || high.None? then Err(ValueError) else Stepped(low.value, high.value, s)
  }

  function Stepped(low: int, high: int, s: Stride): (r: Result<seq<Part>>)
    ensures r.Ok? ==> r.value != [] && forall p :: p in r.value ==> p.Number?
  {
    var step := StrideValue(s);
    if low > high || step.None? || step.value == 0 then Err(ValueError)
    else Ok(Counting(low, high, step.value))
  }

  /** One turn of the worklist: a part is either an entry, or a range that goes back on
      the list as its numbers. */
  datatype Turn = Entry(item: Item) | Unroll(numbers: seq<Part>)

  function TurnOf(i: nat, part: Part): (r: Result<Turn>)
    ensures r.Ok? && r.value.Unroll? ==> r.value.numbers != [] && forall p :: p in r.value.numbers ==> p.Number?
    ensures part.Number? && r.Ok? ==> r.value.Entry?
  {
    if part.Range? || part.WildRange? then
      match Unrolled(i, part)
      case Err(e) => Err(e)
      case Ok(numbers) => Ok(Unroll(numbers))
    else
      match Single(i, part)
      case Err(e) => Err(e)
      case Ok(item) => Ok(Entry(item))
  }

  // ---------------------------------------------------------------- the worklist

  /** The size of a worklist in which every range counts for its numbers as well. */
  function Weight(i: nat, parts: seq<Part>): nat {
    if parts == [] then 0 else Weight(i, parts[..|parts| - 1]) + PartWeight(i, parts[|parts| - 1])
  }

  function PartWeight(i: nat, part: Part): nat {
    match TurnOf(i, part)
    case Ok(Unroll(numbers)) => 1 + |numbers|
    case _ => 1
  }

  lemma {:induction false} WeightSplits(i: nat, a: seq<Part>, b: seq<Part>)
    ensures Weight(i, a + b) == Weight(i, a) + Weight(i, b)
    decreases |b|
  {
    if b == [] {
      assert a + b == a;
    } else {
      assert (a + b)[..|a + b| - 1] == a + b[..|b| - 1];
      WeightSplits(i, a, b[..|b| - 1]);
    }
  }

  lemma {:induction false} WeightOfNumbers(i: nat, numbers: seq<Part>)
    requires forall p :: p in numbers ==> p.Number?
    ensures Weight(i, numbers) == |numbers|
    decreases |numbers|
  {
    hide TurnOf;
    if numbers != [] {
      WeightOfNumbers(i, numbers[..|numbers| - 1]);
    }
  }

  lemma PopShrinks(i: nat, parts: seq<Part>)
    requires parts != []
    ensures var before, turn := parts[..|parts| - 1], TurnOf(i, parts[|parts| - 1]);
      && Weight(i, before) < Weight(i, parts)
      && (turn.Ok? && turn.value.Unroll? ==> Weight(i, before + turn.value.numbers) < Weight(i, parts))
  {
    hide TurnOf;
    var before, turn := parts[..|parts| - 1], TurnOf(i, parts[|parts| - 1]);
    if turn.Ok? && turn.value.Unroll? {
      WeightSplits(i, before, turn.value.numbers);
      WeightOfNumbers(i, turn.value.numbers);
    }
  }

  /** What a column's list comes to: the entries of its parts, or the first failure met
      when the parts are taken from the last to the first. */
  function Items(i: nat, parts: seq<Part>): Result<multiset<Item>>
    decreases Weight(i, parts)
  {
    if parts == [] then Ok(multiset{}) else
    var before := parts[..|parts| - 1];
    PopShrinks(i, parts);
    match TurnOf(i, parts[|parts| - 1])
    case Err(e) => Err(e)
    case Ok(Unroll(numbers)) => Items(i, before + numbers)
    case Ok(Entry(item)) => With(Items(i, before), multiset{item})
  }

  function With(r: Result<multiset<Item>>, extra: multiset<Item>): Result<multiset<Item>> {
    match r
    case Err(e) => Err(e)
    case Ok(m) => Ok(m + extra)
  }

  lemma WithMore(r: Result<multiset<Item>>, a: multiset<Item>, b: multiset<Item>)
    ensures With(r, multiset{}) == r
    ensures With(With(r, a), b) == With(r, b + a)
    ensures With(Ok(multiset{}), a) == Ok(a)
  {
    assert multiset{} + a == a;
    if r.Ok? {
      assert r.value + multiset{} == r.value;
      assert r.value + a + b == r.value + (b + a);
    }
  }

  // ---------------------------------------------------------------- sorting

  ghost predicate Ordered(items: seq<Item>) {
    forall i, j :: 0 <= i < j < |items| ==> items[i].Before(items[j])
  }

  function Insert(item: Item, items: seq<Item>): (r: seq<Item>)
    ensures multiset(r) == multiset(items) + multiset{item}
  {
    if items == [] then [item]
    else if item.Before(items[0]) then [item] + items
    else
      assert items == [items[0]] + items[1..];
      [items[0]] + Insert(item, items[1..])
  }

  lemma {:induction false} InsertKeepsOrder(item: Item, items: seq<Item>)
    requires Ordered(items)
    ensures Ordered(Insert(item, items))
  {
    if items != [] && !item.Before(items[0]) {
      var rest := Insert(item, items[1..]);
      InsertKeepsOrder(item, items[1..]);
      forall j | 0 <= j < |rest| ensures items[0].Before(rest[j]) {
        assert rest[j] in multiset(rest);
      }
    }
  }

  /** `res.sort()`. */
  function Sort(items: seq<Item>): (r: seq<Item>)
    ensures multiset(r) == multiset(items) && Ordered(r)
  {
    if items == [] then [] else
      assert items == [items[0]] + items[1..];
      InsertKeepsOrder(items[0], Sort(items[1..]));
      Insert(items[0], Sort(items[1..]))
  }

  /** The expansion loop of one column. */
  method ExpandColumn(i: nat, parts: seq<Part>) returns (r: Result<seq<Item>>)
    ensures r.Ok? ==> Ordered(r.value) && Items(i, parts) == Ok(multiset(r.value))
    ensures r.Err? ==> Items(i, parts) == Err(r.error)
  {
    hide TurnOf;
    var eList, res := parts, [];
    WithMore(Items(i, parts), multiset{}, multiset{});
    while |eList| > 0
      invariant Items(i, parts) == With(Items(i, eList), multiset(res))
      decreases Weight(i, eList)
    {
      var before := eList[..|eList| - 1];
      PopShrinks(i, eList);
      match TurnOf(i, eList[|eList| - 1]) {
        case Err(e) => return Err(e);
        case Ok(Unroll(numbers)) => eList := before + numbers;
        case Ok(Entry(item)) =>
          WithMore(Items(i, before), multiset{item}, multiset(res));
          eList := before;
          res := res + [item];
      }
    }
    WithMore(Items(i, eList), multiset(res), multiset{});
    return Ok(Sort(res));
  }

  // ---------------------------------------------------------------- meaning

  /** `x` is one of `low`, `low + step`, `low + 2 * step`, ... up to `high`. */
  ghost predicate Counted(low: int, high: int, step: nat, x: int) {
    x <= high && exists k: nat :: x == low + k * step
  }

  /** The range a part stands for, if it is a proper one. */
  function Span(i: nat, part: Part): Option<(int, int, nat)>
    requires part.Range? || part.WildRange?
  {
    var low := if part.WildRange? then Ok(Some(Low(i))) else BoundValue(i, part.low);
    var high := if part.WildRange? then Ok(Some(High(i))) else BoundValue(i, part.high);
    var step := StrideValue(part.stride);
    if low.Ok? && high.Ok? && low.value.Some? && high.value.Some? && step.Some?
       && low.value.value <= high.value.value && step.value > 0
    then Some((low.value.value, high.value.value, step.value))
    else None
  }

  /** What a part of a column denotes. */
  ghost predicate Denotes(i: nat, part: Part, item: Item) {
    match part
    case Wildcard => item == Asterisk
    case Number(n) => item == Num(LowMap(i, n))
    case Name(w) =>
      (match Lookup(i, w)
       case Ok(Num(n)) => item == Num(LowMap(i, n))
       case Ok(other) => item == other
       case Err(_) => false)
    case _ =>
      var span := Span(i, part);
      span.Some? && exists x :: Counted(span.value.0, span.value.1, span.value.2, x) && item == Num(LowMap(i, x))
  }

  predicate InRange(i: nat, item: Item) { item.Num? ==> Low(i) <= item.n <= High(i) }

  /** A part the column cannot take: an unknown name, an improper range, or a value out
      of the column's range. */
  ghost predicate Refused(i: nat, part: Part) {
    || (part.Name? && Lookup(i, part.w).Err?)
    || ((part.Range? || part.WildRange?) && Span(i, part).None?)
    || exists item :: Denotes(i, part, item) && !InRange(i, item)
  }

  lemma {:induction false} CountingIsCounted(low: int, high: int, step: nat, x: int)
    requires step > 0
    ensures Number(x) in Counting(low, high, step) <==> Counted(low, high, step, x)
    decreases high - low
  {
    if low <= high {
      CountingIsCounted(low + step, high, step, x);
      if Counted(low, high, step, x) {
        var k: nat :| x == low + k * step;
        if k > 0 {
          assert x == (low + step) + (k - 1) * step;
        }
      }
      if Counted(low + step, high, step, x) {
        var k: nat :| x == (low + step) + k * step;
        assert x == low + (k + 1) * step;
      }
      if x == low {
        assert x == low + 0 * step;
      }
    } else {
      forall k: nat ensures low + k * step >= low {
        assert k * step >= 0;
      }
    }
  }

  /** Everything the worklist accepts is what its parts denote, and it fails exactly when a
      part is refused. */
  ghost predicate Sound(i: nat, parts: seq<Part>, r: Result<multiset<Item>>) {
    && (r.Err? <==> exists p :: p in parts && Refused(i, p))
    && (r.Ok? ==> forall item :: item in r.value <==> exists p :: p in parts && Denotes(i, p, item))
  }

  lemma ErrorMeans(i: nat, part: Part)
    requires TurnOf(i, part).Err?
    ensures Refused(i, part)
  {
    if part.Number? {
      assert Denotes(i, part, Num(LowMap(i, part.n)));
    } else if part.Name? && Lookup(i, part.w).Ok? {
      assert Denotes(i, part, Num(LowMap(i, Lookup(i, part.w).value.n)));
    }
  }

  lemma EntryMeans(i: nat, part: Part, item: Item)
    requires TurnOf(i, part) == Ok(Entry(item))
    ensures !Refused(i, part)
    ensures forall x :: Denotes(i, part, x) <==> x == item
  {
  }

  lemma UnrollMeans(i: nat, part: Part, numbers: seq<Part>)
    requires TurnOf(i, part) == Ok(Unroll(numbers))
    ensures forall x :: Denotes(i, part, x) <==> exists q :: q in numbers && Denotes(i, q, x)
    ensures Refused(i, part) <==> exists q :: q in numbers && Refused(i, q)
  {
    var (low, high, step) := Span(i, part).value;
    assert numbers == Counting(low, high, step);
    forall x ensures Denotes(i, part, x) <==> exists q :: q in numbers && Denotes(i, q, x) {
      if Denotes(i, part, x) {
        var n :| Counted(low, high, step, n) && x == Num(LowMap(i, n));
        CountingIsCounted(low, high, step, n);
        assert Denotes(i, Number(n), x);
      }
      if q :| q in numbers && Denotes(i, q, x) {
        CountingIsCounted(low, high, step, q.n);
      }
    }
  }

  /** The expansion is the union of the parts, and fails exactly when a part is refused. */
  lemma {:induction false} ItemsAreTheUnion(i: nat, parts: seq<Part>)
    ensures Sound(i, parts, Items(i, parts))
    decreases Weight(i, parts)
  {
    hide TurnOf, Denotes, Refused;
    if parts != [] {
      var before, part := parts[..|parts| - 1], parts[|parts| - 1];
      assert parts == before + [part];
      PopShrinks(i, parts);
      match TurnOf(i, part) {
        case Err(e) =>
          ErrorMeans(i, part);
        case Ok(Entry(item)) =>
          EntryMeans(i, part, item);
          ItemsAreTheUnion(i, before);
          assert forall p :: p in parts <==> p in before || p == part;
          var r := Items(i, parts);
          forall x | r.Ok? ensures x in r.value <==> exists p :: p in parts && Denotes(i, p, x) {
            assert x in r.value <==> x in Items(i, before).value || x == item;
            assert x == item ==> part in parts && Denotes(i, part, x);
          }
        case Ok(Unroll(numbers)) =>
          UnrollMeans(i, part, numbers);
          ItemsAreTheUnion(i, before + numbers);
      }
    }
  }
}
