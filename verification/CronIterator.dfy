/** The cron iterator: repeated `get_next` and `get_prev` over an expanded expression,
    with the either-day rule of the `crontab` utility. */
module CronIterator {
  import opened Calendar
  import opened CronFields
  import opened CronClock
  import opened CronForward
  import opened CronBackward
  import opened CronSchedule
  import opened CronRetrace

  /** The first `n` times of the schedule after `now`: each is the next after the one before. */
  ghost function Schedule(ex: Expanded, now: int, n: nat): (ts: seq<int>)
    requires Usable(ex)
    ensures |ts| == n
    decreases n
  {
    if n == 0 then [] else [NextTime(ex, now)] + Schedule(ex, NextTime(ex, now), n - 1)
  }

  /** Repeated `get_next` enumerates the schedule: in increasing order, and up to the last
      time produced, exactly the times at which it fires. */
  lemma {:induction false} ScheduleEnumerates(ex: Expanded, now: int, n: nat)
    requires Usable(ex) && !Misses(ex)
    ensures Enumerates(ex, now, Schedule(ex, now, n))
    decreases n
  {
    hide FromSeconds, NextTime;
    if n > 0 {
      var t := NextTime(ex, now);
      NextTimeFiresNext(ex, now);
      ScheduleEnumerates(ex, t, n - 1);
      EnumeratesOnward(ex, now, t, Schedule(ex, t, n - 1));
    }
  }

  /** `ts` lists, in increasing order, the times after `now` at which the schedule fires. */
  ghost predicate Enumerates(ex: Expanded, now: int, ts: seq<int>) {
    && (forall i :: 0 <= i < |ts| ==> now < ts[i])
    && (forall i, j :: 0 <= i < j < |ts| ==> ts[i] < ts[j])
    && (forall u :: ts != [] && now < u <= ts[|ts| - 1] ==> (u in ts <==> ex.Fires(FromSeconds(u))))
  }

  lemma EnumeratesOnward(ex: Expanded, now: int, t: int, rest: seq<int>)
    requires FiresNext(ex, now, t) && Enumerates(ex, t, rest)
    ensures Enumerates(ex, now, [t] + rest)
  {
    hide FromSeconds;
    var ts := [t] + rest;
    forall u | now < u <= ts[|ts| - 1] ensures u in ts <==> ex.Fires(FromSeconds(u)) {
      assert u in ts <==> u == t || u in rest;
      if u > t {
        assert rest != [] && ts[|ts| - 1] == rest[|rest| - 1];
      }
    }
  }

  // ---------------------------------------------------------------- get_prev

  /** Stepping back undoes stepping on from a time at which the schedule fires. */
  lemma PrevUndoesNext(ex: Expanded, now: int, t: int)
    requires Usable(ex) && !Forgets(ex) && !Misses(ex) && ex.Fires(FromSeconds(now))
    ensures PrevReturns(ex, NextTime(ex, now), t) <==> t == now
  {
    hide FromSeconds, NextTime, PrevReturns, Forgets, Misses;
    var next := NextTime(ex, now);
    NextTimeFiresNext(ex, now);
    PrevTimeFiredLast(ex, next);
    FiresOnTick(ex, next);
    forall r | PrevReturns(ex, next, r) ensures r == now {
      assert FiredLast(ex, next, r);
    }
    var r :| PrevReturns(ex, next, r);
  }

  lemma FiresOnTick(ex: Expanded, t: int)
    requires ex.Fires(FromSeconds(t))
    ensures TickStart(ex, t) == t
  {
    hide FromSeconds, IsLeap, MonthStart;
    var d := FromSeconds(t);
    if ex.second.None? {
      Minutes(t, MinuteCount(d), 0);
    }
  }

  // ---------------------------------------------------------------- the iterator

  class Croniter {
    var cur: int
    const expanded: Expanded

    constructor (expanded: Expanded, startTime: int)
      ensures this.expanded == expanded && cur == startTime
    {
      this.expanded := expanded;
      cur := startTime;
    }

    method GetNext() returns (result: int)
      requires Usable(expanded)
      modifies `cur
      ensures result == cur == NextTime(expanded, old(cur))
    {
      if EitherDay(expanded) {
        WeekdaysAreSatisfiable(expanded);
        var t1 := Calc(expanded.ByDay(), cur);
        var t2 := Calc(expanded.ByWeekday(), cur);
        result := if t1 < t2 then t1 else t2;
      } else {
        result := Calc(expanded, cur);
      }
      cur := result;
    }

    /** From this moment the searches of the original must not go on for ever. */
    method GetPrev() returns (result: int)
      requires expanded.Valid() && exists t :: PrevReturns(expanded, cur, t)
      modifies `cur
      ensures result == cur && PrevReturns(expanded, old(cur), result)
    {
      hide Returns;
      if EitherDay(expanded) {
        var t1 := CalcBack(expanded.ByDay(), cur);
        var t2 := CalcBack(expanded.ByWeekday(), cur);
        result := if t1 > t2 then t1 else t2;
      } else {
        result := CalcBack(expanded, cur);
      }
      cur := result;
    }

    /** The first `n` values of the generator `all_next`. */
    method AllNext(n: nat) returns (ts: seq<int>)
      requires Usable(expanded)
      modifies `cur
      ensures ts == Schedule(expanded, old(cur), n)
    {
      hide NextTime, Usable;
      ts := [];
      for i := 0 to n
        invariant Schedule(expanded, old(cur), n) == ts + Schedule(expanded, cur, n - i)
      {
        ghost var rest := Schedule(expanded, cur, n - i);
        var t := GetNext();
        assert ts + rest == (ts + [t]) + Schedule(expanded, t, n - i - 1);
        ts := ts + [t];
      }
    }
  }
}
