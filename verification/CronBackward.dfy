/** What the backward search finds: the greatest match before the current minute (or
    second), exactly when none of its wrap-around faults applies. */
module CronBackward {
  import opened Calendar
  import opened CronFields
  import opened CronClock
  import opened CronPrev
  import opened CronForward

  lemma {:induction false} MonthsPrecedeDays(i: int)
    requires i <= 12
    ensures MonthStart(i) <= i - 11
    decreases 12 - i
  {
    if i < 12 {
      MonthsPrecedeDays(i + 1);
    }
  }

  lemma EarlierMatch(ex: Expanded, now: int) returns (e: DateTime)
    requires Searchable(ex) && Satisfiable(ex)
    ensures ex.Matches(e) && e.Seconds() < now
  {
    hide IsLeap, MonthStart, Satisfiable;
    var year := 400 * ((if now < 0 then now else 0) - 1);
    LeapCentury((if now < 0 then now else 0) - 1);
    var m, day := AllowedDay(ex, year);
    ClockBounds(ex);
    FirstAllowedMatches(ex, year, m, day);
    e := FirstAllowed(ex, year, m, day);
    MonthsPrecedeDays(e.MonthIndex());
  }

  ghost function Bound(ex: Expanded, start: DateTime): (e: DateTime)
    requires Searchable(ex) && Satisfiable(ex) && start.Valid()
    ensures ex.Matches(e) && Ticks(ex, e) <= Ticks(ex, start)
  {
    EarlierMatchExists(ex, start);
    var e :| ex.Matches(e) && Ticks(ex, e) <= Ticks(ex, start);
    e
  }

  lemma EarlierMatchExists(ex: Expanded, start: DateTime)
    requires Searchable(ex) && Satisfiable(ex) && start.Valid()
    ensures exists e :: ex.Matches(e) && Ticks(ex, e) <= Ticks(ex, start)
  {
    var e := EarlierMatch(ex, start.Seconds());
    if Ticks(ex, start) < Ticks(ex, e) {
      LaterTicks(ex, start, e);
    }
  }

  // ---------------------------------------------------------------- runs of the loop

  /** Where the minute (or second) of `now` begins. */
  function TickStart(ex: Expanded, now: int): int { ex.Unit() * (now / ex.Unit()) }

  function Start(ex: Expanded, now: int): (d: DateTime)
    ensures d.Valid() && d.Seconds() == now - ex.Unit()
  {
    FromSeconds(now - ex.Unit())
  }

  /** The time held after `n` turns of the loop, which may go on for ever. */
  function Run(ex: Expanded, start: DateTime, d: DateTime, n: nat): (r: DateTime)
    requires ex.Valid() && d.Valid()
    ensures r.Valid()
    decreases n
  {
    if n == 0 then d else
    match Step(ex, start, d)
    case None => d
    case Some(d') => Run(ex, start, d', n - 1)
  }

  lemma RunTurns(ex: Expanded, start: DateTime, d: DateTime, n: nat)
    requires ex.Valid() && d.Valid()
    ensures Run(ex, start, d, n)
      == if n == 0 || Step(ex, start, d).None? then d else Run(ex, start, Step(ex, start, d).value, n - 1)
  {
    hide Step;
  }

  ghost predicate Stops(ex: Expanded, start: DateTime, n: nat)
    requires ex.Valid() && start.Valid()
  {
    Step(ex, start, Run(ex, start, start, n)).None?
  }

  ghost predicate Returns(ex: Expanded, now: int, t: int)
    requires ex.Valid()
  {
    var start := Start(ex, now);
    exists n: nat :: Stops(ex, start, n) && t == Settle(ex, Run(ex, start, start, n)).Seconds()
  }

  /** Once stopped, a run stays where it is, so it stops at one time only. */
  lemma {:induction false} RunStopsOnce(ex: Expanded, start: DateTime, d: DateTime, m: nat, n: nat)
    requires ex.Valid() && d.Valid()
    requires Step(ex, start, Run(ex, start, d, m)).None? && Step(ex, start, Run(ex, start, d, n)).None?
    ensures Run(ex, start, d, m) == Run(ex, start, d, n)
    decreases m
  {
    hide Step, Run, Expanded.Valid, DateTime.Valid;
    RunTurns(ex, start, d, m);
    RunTurns(ex, start, d, n);
    if Step(ex, start, d).Some? {
      assert m > 0 && n > 0;
      RunStopsOnce(ex, start, Step(ex, start, d).value, m - 1, n - 1);
    }
  }

  lemma ReturnsOnce(ex: Expanded, now: int, t: int, u: int)
    requires ex.Valid() && Returns(ex, now, t) && Returns(ex, now, u)
    ensures t == u
  {
    hide IsLeap, MonthStart, FromSeconds, Step;
    var start := Start(ex, now);
    var m: nat :| Stops(ex, start, m) && t == Settle(ex, Run(ex, start, start, m)).Seconds();
    var n: nat :| Stops(ex, start, n) && u == Settle(ex, Run(ex, start, start, n)).Seconds();
    RunStopsOnce(ex, start, start, m, n);
  }

  // ---------------------------------------------------------------- the search

  function SearchBack(ex: Expanded, start: DateTime, d: DateTime, ghost bound: DateTime): (r: DateTime)
    requires Searchable(ex) && !PrevMisses(ex) && Inv(ex, start, d)
    requires ex.Matches(bound) && Ticks(ex, bound) <= Ticks(ex, d)
    ensures ex.Matches(r) && Ticks(ex, r) <= Ticks(ex, d)
    decreases Ticks(ex, d) - Ticks(ex, bound)
  {
    match Step(ex, start, d)
    case None =>
      StepStops(ex, start, d);
      Settle(ex, d)
    case Some(d') =>
      StepKeeps(ex, start, d, d');
      StepReaches(ex, start, d, d', bound);
      SearchBack(ex, start, d', bound)
  }

  lemma {:induction false} SearchBackReaches(ex: Expanded, start: DateTime, d: DateTime, bound: DateTime, e: DateTime)
    requires Searchable(ex) && !PrevMisses(ex) && Inv(ex, start, d)
    requires ex.Matches(bound) && Ticks(ex, bound) <= Ticks(ex, d)
    requires ex.Matches(e) && Ticks(ex, e) <= Ticks(ex, d)
    ensures Ticks(ex, e) <= Ticks(ex, SearchBack(ex, start, d, bound))
    decreases Ticks(ex, d) - Ticks(ex, bound)
  {
    match Step(ex, start, d)
    case None =>
      StepStops(ex, start, d);
    case Some(d') =>
      StepKeeps(ex, start, d, d');
      StepReaches(ex, start, d, d', bound);
      StepReaches(ex, start, d, d', e);
      SearchBackReaches(ex, start, d', bound, e);
  }

  /** A match before the current tick is no later, in ticks, than the moment the search
      starts from, and conversely. */
  lemma StartTicksBack(ex: Expanded, now: int, e: DateTime)
    requires ex.Matches(e)
    ensures e.Seconds() < TickStart(ex, now) <==> Ticks(ex, e) <= Ticks(ex, Start(ex, now))
  {
    hide IsLeap, MonthStart;
    var s := Start(ex, now);
    if ex.second.None? {
      Minutes(now, MinuteCount(s) + 1, s.second);
      assert e.Seconds() == 60 * MinuteCount(e);
    }
  }

  lemma Minutes(now: int, q: int, r: int)
    requires now == 60 * q + r && 0 <= r < 60
    ensures now / 60 == q
  {
  }

  /** `t` is the greatest match before the current tick. */
  ghost predicate GreatestBefore(ex: Expanded, now: int, t: int) {
    && t < TickStart(ex, now) && ex.Matches(FromSeconds(t))
    && forall u :: t < u < TickStart(ex, now) ==> !ex.Matches(FromSeconds(u))
  }

  /** The time `_calc` returns for a backward search from `now`. */
  ghost function Prev(ex: Expanded, now: int): int
    requires Searchable(ex) && Satisfiable(ex) && !PrevMisses(ex)
  {
    var start := Start(ex, now);
    SearchBack(ex, start, start, Bound(ex, start)).Seconds()
  }

  lemma PrevIsGreatest(ex: Expanded, now: int)
    requires Searchable(ex) && Satisfiable(ex) && !PrevMisses(ex)
    ensures GreatestBefore(ex, now, Prev(ex, now))
  {
    hide IsLeap, MonthStart, FromSeconds;
    var start := Start(ex, now);
    var r := SearchBack(ex, start, start, Bound(ex, start));
    RoundTrip(r);
    StartTicksBack(ex, now, r);
    forall u | r.Seconds() < u < TickStart(ex, now) ensures !ex.Matches(FromSeconds(u)) {
      var e := FromSeconds(u);
      if ex.Matches(e) {
        StartTicksBack(ex, now, e);
        SearchBackReaches(ex, start, start, Bound(ex, start), e);
        Order(r, e);
        if Ticks(ex, e) == Ticks(ex, r) {
          SameTick(ex, r, e);
        }
      }
    }
  }

  lemma SameTick(ex: Expanded, d: DateTime, e: DateTime)
    requires ex.Matches(d) && ex.Matches(e) && Ticks(ex, d) == Ticks(ex, e)
    ensures d.Seconds() == e.Seconds()
  {
    hide IsLeap, MonthStart;
  }

  /** `_calc`, searching backward.  With one of the faults the original may loop for ever, so
      the method asks that it does not from this moment. */
  method CalcBack(ex: Expanded, now: int) returns (t: int)
    requires ex.Valid() && exists r :: Returns(ex, now, r)
    ensures Returns(ex, now, t)
  {
    hide IsLeap, MonthStart, FromSeconds, Step;
    var offset := if ex.second.Some? then 1 else 60;
    var start := FromSeconds(now - offset);
    var dst := start;
    ghost var r :| Returns(ex, now, r);
    ghost var turns: nat :| Stops(ex, start, turns) && r == Settle(ex, Run(ex, start, start, turns)).Seconds();
    ghost var left: nat := turns;
    while true
      invariant dst.Valid() && Run(ex, start, dst, left) == Run(ex, start, start, turns)
      decreases left
    {
      var moved := Step(ex, start, dst);
      if moved.None? {
        return Settle(ex, dst).Seconds();
      }
      assert left > 0;
      dst, left := moved.value, left - 1;
    }
  }
}
