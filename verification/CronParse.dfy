/** From the columns of an expression to the expanded fields that the search uses. */
module CronParse {
  import opened Wrappers
  import opened Calendar
  import opened CronFields
  import opened CronExpand

  /** The expanded column as the search reads it: any list whose first entry is `*` means
      every value.  A list with an `l`, or with a `*` behind a number, has no such reading. */
  function ToField(items: seq<Item>): Option<Field> {
    if items == [] then None
    else if items[0] == Asterisk then Some(Star)
    else if forall item :: item in items ==> item.Num? then Some(Values(Numbers(items)))
    else None
  }

  function Numbers(items: seq<Item>): (ns: seq<int>)
    requires forall item :: item in items ==> item.Num?
    ensures |ns| == |items| && forall k :: 0 <= k < |ns| ==> items[k] == Num(ns[k])
  {
    if items == [] then [] else [items[0].n] + Numbers(items[1..])
  }

  /** A part of the column allows the value. */
  ghost predicate ColumnAllows(i: nat, parts: seq<Part>, x: int) {
    exists p :: p in parts && (p == Wildcard || Denotes(i, p, Num(x)))
  }

  lemma EntryMeans(i: nat, parts: seq<Part>, items: seq<Item>, item: Item)
    requires Items(i, parts) == CronExpand.Ok(multiset(items))
    ensures item in items <==> exists p :: p in parts && Denotes(i, p, item)
    ensures item in items ==> InRange(i, item)
  {
    ItemsAreTheUnion(i, parts);
    assert item in items <==> item in multiset(items);
    if item in items {
      var p :| p in parts && Denotes(i, p, item);
      assert !Refused(i, p);
    }
  }

  lemma WildcardMeans(i: nat, parts: seq<Part>, items: seq<Item>)
    requires Items(i, parts) == CronExpand.Ok(multiset(items))
    ensures Wildcard in parts <==> Asterisk in items
  {
    EntryMeans(i, parts, items, Asterisk);
    assert Denotes(i, Wildcard, Asterisk);
  }

  lemma NumbersMembers(items: seq<Item>)
    requires forall item :: item in items ==> item.Num?
    ensures forall x :: x in Numbers(items) <==> Num(x) in items
  {
    var ns := Numbers(items);
    forall x | Num(x) in items ensures x in ns {
      var k :| 0 <= k < |items| && items[k] == Num(x);
      assert ns[k] == x;
    }
  }

  lemma ColumnMeans(i: nat, parts: seq<Part>, items: seq<Item>)
    requires Ordered(items) && Items(i, parts) == CronExpand.Ok(multiset(items)) && ToField(items).Some?
    ensures var f := ToField(items).value;
      && f.Valid(Low(i), High(i))
      && forall x :: Low(i) <= x <= High(i) ==> (f.Allows(x) <==> ColumnAllows(i, parts, x))
  {
    hide Denotes, Refused, Items;
    var f := ToField(items).value;
    WildcardMeans(i, parts, items);
    if f.Values? {
      NumbersMembers(items);
      forall x ensures x in f.vs <==> ColumnAllows(i, parts, x) {
        EntryMeans(i, parts, items, Num(x));
      }
      forall x | x in f.vs ensures Low(i) <= x <= High(i) {
        EntryMeans(i, parts, items, Num(x));
      }
      forall j, k | 0 <= j < k < |items| ensures f.vs[j] <= f.vs[k] {
        assert items[j].Before(items[k]);
      }
    }
  }

  lemma DenotesSome(i: nat, part: Part)
    requires !Refused(i, part)
    ensures exists item :: Denotes(i, part, item)
  {
    match part
    case Wildcard => assert Denotes(i, part, Asterisk);
    case Number(n) => assert Denotes(i, part, Num(LowMap(i, n)));
    case Name(w) =>
      var item := Lookup(i, w).value;
      assert Denotes(i, part, if item.Num? then Num(LowMap(i, item.n)) else item);
    case _ =>
      var low := Span(i, part).value.0;
      assert low == low + 0 * Span(i, part).value.2;
      assert Denotes(i, part, Num(LowMap(i, low)));
  }

  /** Some part denotes the entry. */
  ghost predicate Listed(i: nat, parts: seq<Part>, item: Item) { exists p :: p in parts && Denotes(i, p, item) }

  /** Which expanded columns the search can read: those with a `*` and no number, and those with
      numbers alone. */
  lemma ReadableIff(i: nat, parts: seq<Part>, items: seq<Item>)
    requires Ordered(items) && Items(i, parts) == CronExpand.Ok(multiset(items))
    ensures ToField(items).Some? <==>
      && parts != []
      && (if Wildcard in parts then forall n :: !Listed(i, parts, Num(n)) else !Listed(i, parts, LastDay))
  {
    hide Denotes, Refused, Items, Numbers;
    WildcardMeans(i, parts, items);
    forall item ensures item in items <==> Listed(i, parts, item) {
      EntryMeans(i, parts, items, item);
    }
    if parts == [] {
      assert forall item :: item in items <==> Listed(i, parts, item);
      SomeEntry(items);
    } else {
      ItemsAreTheUnion(i, parts);
      assert parts[0] in parts;
      DenotesSome(i, parts[0]);
      var first :| Denotes(i, parts[0], first);
      assert Listed(i, parts, first);
      FirstDecides(items);
    }
  }

  lemma SomeEntry(items: seq<Item>)
    ensures items == [] || exists item :: item in items
  {
    if items != [] {
      assert items[0] in items;
    }
  }

  lemma FirstDecides(items: seq<Item>)
    requires Ordered(items) && items != []
    ensures ToField(items).Some? <==>
      if Asterisk in items then forall n :: Num(n) !in items else LastDay !in items
  {
    if Asterisk in items {
      var k :| 0 <= k < |items| && items[k] == Asterisk;
      assert k > 0 ==> items[0].Before(items[k]);
      if n :| Num(n) in items {
        var j :| 0 <= j < |items| && items[j] == Num(n);
        assert j > 0 ==> items[0].Before(items[j]);
      } else {
        assert items[0] in items;
      }
    }
  }

  /** The constructor: five or six columns, expanded from the first to the last. */
  method ParseExpression(columns: seq<seq<Part>>) returns (r: CronExpand.Result<seq<seq<Item>>>)
    ensures r.Ok? <==> (|columns| == 5 || |columns| == 6) && forall i :: 0 <= i < |columns| ==> Items(i, columns[i]).Ok?
    ensures |columns| != 5 && |columns| != 6 ==> r == Err(ValueError)
    ensures r.Ok? ==> |r.value| == |columns|
    ensures r.Ok? ==> forall i :: 0 <= i < |columns| ==>
      Ordered(r.value[i]) && Items(i, columns[i]) == CronExpand.Ok(multiset(r.value[i]))
    ensures r.Err? && (|columns| == 5 || |columns| == 6) ==>
      exists i :: 0 <= i < |columns| && Items(i, columns[i]) == Err(r.error)
                  && (forall j :: 0 <= j < i ==> Items(j, columns[j]).Ok?)
  {
    if |columns| != 5 && |columns| != 6 {
      return Err(ValueError);
    }
    var expanded := [];
    for i := 0 to |columns|
      invariant |expanded| == i
      invariant forall j :: 0 <= j < i ==>
        Ordered(expanded[j]) && Items(j, columns[j]) == CronExpand.Ok(multiset(expanded[j]))
    {
      var column := ExpandColumn(i, columns[i]);
      if column.Err? {
        return Err(column.error);
      }
      expanded := expanded + [column.value];
    }
    return CronExpand.Ok(expanded);
  }

  function ToExpanded(lists: seq<seq<Item>>): Option<Expanded>
    requires |lists| == 5 || |lists| == 6
  {
    var m, h, d, mo, w := ToField(lists[0]), ToField(lists[1]), ToField(lists[2]), ToField(lists[3]), ToField(lists[4]);
    if m.None? || h.None? || d.None? || mo.None? || w.None? then None
    else if |lists| == 5 then Some(Expanded(m.value, h.value, d.value, mo.value, w.value, None))
    else if ToField(lists[5]).None? then None
    else Some(Expanded(m.value, h.value, d.value, mo.value, w.value, ToField(lists[5])))
  }

  /** Parsing and matching together: a time matches the expanded expression when each of its
      fields is denoted by a part of the column, and its seconds are 0 if there is no column
      for them. */
  lemma ParsedMatches(columns: seq<seq<Part>>, lists: seq<seq<Item>>, t: DateTime)
    requires |columns| == |lists| && (|columns| == 5 || |columns| == 6) && t.Valid()
    requires forall i :: 0 <= i < |columns| ==> Ordered(lists[i]) && Items(i, columns[i]) == CronExpand.Ok(multiset(lists[i]))
    requires ToExpanded(lists).Some?
    ensures var ex := ToExpanded(lists).value;
      && ex.Valid()
      && (ex.Matches(t) <==>
            && ColumnAllows(0, columns[0], t.minute) && ColumnAllows(1, columns[1], t.hour)
            && ColumnAllows(2, columns[2], t.day) && ColumnAllows(3, columns[3], t.month)
            && ColumnAllows(4, columns[4], t.Weekday())
            && (if |columns| == 6 then ColumnAllows(5, columns[5], t.second) else t.second == 0))
  {
    hide ToField, ColumnAllows, Field.Valid, IsLeap, MonthStart;
    ColumnMeans(0, columns[0], lists[0]);
    ColumnMeans(1, columns[1], lists[1]);
    ColumnMeans(2, columns[2], lists[2]);
    ColumnMeans(3, columns[3], lists[3]);
    ColumnMeans(4, columns[4], lists[4]);
    if |columns| == 6 {
      ColumnMeans(5, columns[5], lists[5]);
    }
  }

  lemma StarMeans(i: nat, parts: seq<Part>, items: seq<Item>)
    requires Ordered(items) && Items(i, parts) == CronExpand.Ok(multiset(items)) && ToField(items).Some?
    ensures ToField(items).value.Star? <==> Wildcard in parts
  {
    hide Denotes, Refused, Items, Numbers;
    WildcardMeans(i, parts, items);
    if Asterisk in items {
      assert !(forall item :: item in items ==> item.Num?);
    }
  }

  /** Parsing and firing together: unless one of the two day columns has a `*`, a day that a
      part of either column denotes is enough. */
  lemma ParsedFires(columns: seq<seq<Part>>, lists: seq<seq<Item>>, t: DateTime)
    requires |columns| == |lists| && (|columns| == 5 || |columns| == 6) && t.Valid()
    requires forall i :: 0 <= i < |columns| ==> Ordered(lists[i]) && Items(i, columns[i]) == CronExpand.Ok(multiset(lists[i]))
    requires ToExpanded(lists).Some?
    ensures var ex := ToExpanded(lists).value;
      var byDay, byWeekday := ColumnAllows(2, columns[2], t.day), ColumnAllows(4, columns[4], t.Weekday());
      && ex.Valid()
      && (ex.Fires(t) <==>
            && ColumnAllows(0, columns[0], t.minute) && ColumnAllows(1, columns[1], t.hour)
            && ColumnAllows(3, columns[3], t.month)
            && (if Wildcard in columns[2] || Wildcard in columns[4] then byDay && byWeekday else byDay || byWeekday)
            && (if |columns| == 6 then ColumnAllows(5, columns[5], t.second) else t.second == 0))
  {
    hide ToField, ColumnAllows, Field.Valid, IsLeap, MonthStart;
    ColumnMeans(0, columns[0], lists[0]);
    ColumnMeans(1, columns[1], lists[1]);
    ColumnMeans(2, columns[2], lists[2]);
    ColumnMeans(3, columns[3], lists[3]);
    ColumnMeans(4, columns[4], lists[4]);
    StarMeans(2, columns[2], lists[2]);
    StarMeans(4, columns[4], lists[4]);
    if |columns| == 6 {
      ColumnMeans(5, columns[5], lists[5]);
    }
  }
}
