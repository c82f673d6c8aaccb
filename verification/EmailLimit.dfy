/** The limit on error mails: a table of recent mails that is pruned at every check. */
module EmailLimit {
  import opened Wrappers

  type Time = int

  /** The rows that a prune at `cutoff` keeps. */
  function Kept(rows: seq<Time>, cutoff: Time): seq<Time> {
    if rows == [] then []
    else Kept(rows[..|rows| - 1], cutoff) + if rows[|rows| - 1] < cutoff then [] else [rows[|rows| - 1]]
  }

  /** The table after the mails of `asked` have been checked, each at its time. */
  function Table(asked: seq<Time>, lookback: nat): seq<Time> {
    if asked == [] then []
    else
      var now := asked[|asked| - 1];
      Kept(Table(asked[..|asked| - 1], lookback) + [now], now - lookback)
  }

  datatype Level = ErrorLevel | OtherLevel

  /** Test and spike mails are always sent. */
  datatype Mail = Mail(level: Level, exempt: bool)

  predicate Limited(mail: Mail) { mail.level.ErrorLevel? && !mail.exempt }

  class EmailLimiter {
    const lookback: nat
    const max: nat
    var rows: seq<Time>
    var adminAlerts: bool
    var publisherAlerts: bool
    var spikeDisabledAlerts: bool
    var spikeEvents: nat
    ghost var asked: seq<Time>

    ghost predicate Valid()
      reads this
    {
      rows == Table(asked, lookback)
    }

    constructor (lookback: nat, max: nat)
      ensures Valid() && asked == [] && this.lookback == lookback && this.max == max
      ensures adminAlerts && publisherAlerts && !spikeDisabledAlerts && spikeEvents == 0
    {
      this.lookback, this.max, rows, asked := lookback, max, [], [];
      adminAlerts, publisherAlerts, spikeDisabledAlerts, spikeEvents := true, true, false, 0;
    }

    /** `email_limit_reached`: the number of recent mails when it is over the limit. */
    method LimitReached(mail: Mail, now: Time) returns (reached: Option<nat>)
      requires Valid()
      modifies this
      ensures Valid() && asked == if mail.level.ErrorLevel? && !mail.exempt then old(asked) + [now] else old(asked)
      ensures reached.Some? <==> Limited(mail) && !Permitted(asked, |asked| - 1, lookback, max)
      ensures reached.Some? ==> reached.value == |rows| && spikeEvents == old(spikeEvents) + 1
                                && !adminAlerts && !publisherAlerts && spikeDisabledAlerts
      ensures reached.None? ==> unchanged(`adminAlerts, `publisherAlerts, `spikeDisabledAlerts, `spikeEvents)
      ensures !Limited(mail) ==> unchanged(this)
    {
      if !Limited(mail) {
        return None;
      }
      asked := asked + [now];
      assert asked[..|asked| - 1] == old(asked);
      rows := rows + [now];
      rows := Kept(rows, now - lookback);
      assert asked[..|asked|] == asked;
      if |rows| > max {
        spikeEvents := spikeEvents + 1;
        adminAlerts, publisherAlerts, spikeDisabledAlerts := false, false, true;
        return Some(|rows|);
      }
      return None;
    }

    /** `remove_all`, when the limit is lifted. */
    method RemoveAll()
      modifies this
      ensures Valid() && asked == []
      ensures unchanged(`adminAlerts, `publisherAlerts, `spikeDisabledAlerts, `spikeEvents)
    {
      rows, asked := [], [];
    }
  }

  /** The check of mail `i` finds the table within the limit. */
  predicate Permitted(asked: seq<Time>, i: int, lookback: nat, max: nat)
    requires 0 <= i < |asked|
  {
    |Table(asked[..i + 1], lookback)| <= max
  }

  // ---------------------------------------------------------------- pruning forgets nothing that counts

  ghost predicate Rising(asked: seq<Time>) {
    forall i, j :: 0 <= i < j < |asked| ==> asked[i] <= asked[j]
  }

  lemma KeptAppend(rows: seq<Time>, t: Time, cutoff: Time)
    ensures Kept(rows + [t], cutoff) == Kept(rows, cutoff) + if t < cutoff then [] else [t]
  {
    assert (rows + [t])[..|rows|] == rows;
  }

  lemma {:induction false} KeptTwice(rows: seq<Time>, early: Time, late: Time)
    requires early <= late
    ensures Kept(Kept(rows, early), late) == Kept(rows, late)
  {
    if rows != [] {
      var front, last := rows[..|rows| - 1], rows[|rows| - 1];
      KeptTwice(front, early, late);
      KeptAppend(Kept(front, early), last, late);
      assert last < early ==> Kept(rows, early) == Kept(front, early);
    }
  }

  /** However often it has been pruned, the table holds exactly the mails of the lookback
      period. */
  lemma {:induction false} TableIsWindow(asked: seq<Time>, lookback: nat)
    requires Rising(asked) && asked != []
    ensures Table(asked, lookback) == Kept(asked, asked[|asked| - 1] - lookback)
  {
    var front, now := asked[..|asked| - 1], asked[|asked| - 1];
    assert Table(asked, lookback) == Kept(Table(front, lookback) + [now], now - lookback);
    assert front == [] ==> Table(front, lookback) == front;
    hide Table, Kept;
    KeptAppend(Table(front, lookback), now, now - lookback);
    KeptAppend(front, now, now - lookback);
    assert asked == front + [now];
    if front != [] {
      TableIsWindow(front, lookback);
      KeptTwice(front, front[|front| - 1] - lookback, now - lookback);
    }
  }

  // ---------------------------------------------------------------- no window holds more than the limit

  function Inside(t: Time, from: Time, lookback: nat): nat { if from <= t <= from + lookback then 1 else 0 }

  /** How many of the mails that were let through lie in the closed window. */
  function LetThrough(asked: seq<Time>, n: nat, from: Time, lookback: nat, max: nat): nat
    requires n <= |asked|
  {
    if n == 0 then 0
    else
      LetThrough(asked, n - 1, from, lookback, max)
      + if Permitted(asked, n - 1, lookback, max) then Inside(asked[n - 1], from, lookback) else 0
  }

  lemma {:induction false} AllKept(asked: seq<Time>, n: nat, from: Time, lookback: nat, max: nat, cutoff: Time)
    requires n <= |asked| && cutoff <= from
    ensures LetThrough(asked, n, from, lookback, max) <= |Kept(asked[..n], cutoff)|
  {
    if n > 0 {
      AllKept(asked, n - 1, from, lookback, max, cutoff);
      assert asked[..n][..n - 1] == asked[..n - 1];
    }
  }

  /** No closed window of the lookback length ever holds more permitted error mails than the
      limit allows. */
  lemma {:induction false} WindowIsLimited(asked: seq<Time>, n: nat, from: Time, lookback: nat, max: nat)
    requires Rising(asked) && n <= |asked|
    ensures LetThrough(asked, n, from, lookback, max) <= max
  {
    hide Table, Kept;
    if n > 0 {
      var now := asked[n - 1];
      if Permitted(asked, n - 1, lookback, max) && from <= now <= from + lookback {
        TableIsWindow(asked[..n], lookback);
        AllKept(asked, n, from, lookback, max, now - lookback);
      } else {
        WindowIsLimited(asked, n - 1, from, lookback, max);
      }
    }
  }

  /** A mail is held back exactly when more than the limit were asked for, let through or not,
      in the lookback period that ends with it. */
  lemma PermittedIff(asked: seq<Time>, i: nat, lookback: nat, max: nat)
    requires Rising(asked) && i < |asked|
    ensures Permitted(asked, i, lookback, max) <==> |Kept(asked[..i + 1], asked[i] - lookback)| <= max
  {
    TableIsWindow(asked[..i + 1], lookback);
  }
}
