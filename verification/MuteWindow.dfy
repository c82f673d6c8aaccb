/** Muting the mails of short outages: the "disconnected" mail waits for M seconds and looks
    again, the "reconnected" mail looks back. */
module MuteWindow {
  import opened Wrappers

  type Time = int

  /** What the agent's row says, in whole seconds. */
  datatype Row = Row(lastConnection: Time, lastDisconnect: Option<Time>)

  predicate Connected(r: Row) { r.lastDisconnect.None? || r.lastDisconnect.value < r.lastConnection }

  /** The row, as connections come and go. */
  class AgentRow {
    var lastConnection: Time
    var lastDisconnect: Option<Time>

    function Value(): Row
      reads this
    {
      Row(lastConnection, lastDisconnect)
    }

    constructor (now: Time)
      ensures Value() == Row(now, None)
    {
      lastConnection, lastDisconnect := now, None;
    }

    method Connect(now: Time)
      modifies this
      ensures Value() == old(Value()).(lastConnection := now)
    {
      lastConnection := now;
    }

    method Disconnect(now: Time)
      modifies this
      ensures Value() == old(Value()).(lastDisconnect := Some(now))
    {
      lastDisconnect := Some(now);
    }
  }

  /** The same outage is still on. */
  predicate StillDown(found: Option<Time>, r: Row) { !Connected(r) && r.lastDisconnect == found }

  predicate LongAgo(r: Row, now: Time, mute: nat) { r.lastDisconnect.None? || now - r.lastDisconnect.value > mute }

  // ---------------------------------------------------------------- a history of outages

  datatype Outage = Outage(down: Time, up: Time)

  /** The agent connects at `first`; every outage has a positive length. */
  ghost predicate IsHistory(first: Time, outages: seq<Outage>) {
    && (forall i :: 0 <= i < |outages| ==> first <= outages[i].down < outages[i].up)
    && (forall i, j :: 0 <= i < j < |outages| ==> outages[i].up <= outages[j].down)
  }

  /** An event of the very second is seen or not, as `seen` tells. */
  predicate Visible(event: Time, t: Time, seen: bool) { event < t || (event == t && seen) }

  /** The row at time `t`. */
  function RowAt(first: Time, outages: seq<Outage>, t: Time, seen: bool): Row {
    if outages == [] then Row(first, None)
    else
      var r, o := RowAt(first, outages[..|outages| - 1], t, seen), outages[|outages| - 1];
      Row(if Visible(o.up, t, seen) then o.up else r.lastConnection,
          if Visible(o.down, t, seen) then Some(o.down) else r.lastDisconnect)
  }

  /** The "disconnected" mail of outage `i` goes out: at once, or after the wait. */
  predicate DisconnectSent(first: Time, outages: seq<Outage>, i: nat, mute: nat, seen: bool)
    requires i < |outages|
  {
    var down := outages[i].down;
    mute == 0 || StillDown(RowAt(first, outages[..i + 1], down, true).lastDisconnect, RowAt(first, outages, down + mute, seen))
  }

  /** The "reconnected" mail of outage `i` goes out. */
  predicate ReconnectSent(first: Time, outages: seq<Outage>, i: nat, mute: nat)
    requires i < |outages|
  {
    mute == 0 || LongAgo(RowAt(first, outages[..i + 1], outages[i].up, true), outages[i].up, mute)
  }

  /** Nothing of outage `n` or later is visible before outage `n` begins. */
  lemma {:induction false} NotYet(first: Time, outages: seq<Outage>, n: nat, t: Time, seen: bool)
    requires IsHistory(first, outages) && n <= |outages|
    requires n < |outages| ==> !Visible(outages[n].down, t, seen)
    ensures RowAt(first, outages, t, seen) == RowAt(first, outages[..n], t, seen)
  {
    if n < |outages| {
      var front := outages[..|outages| - 1];
      NotYet(first, front, n, t, seen);
      assert front[..n] == outages[..n];
    } else {
      assert outages[..n] == outages;
    }
  }

  lemma {:induction false} LastConnection(first: Time, outages: seq<Outage>, t: Time, seen: bool, bound: Time)
    requires first <= bound && forall i :: 0 <= i < |outages| ==> outages[i].up <= bound
    ensures RowAt(first, outages, t, seen).lastConnection <= bound
  {
    if outages != [] {
      LastConnection(first, outages[..|outages| - 1], t, seen, bound);
    }
  }

  /** Once outage `i` is seen to be over, the row shows a connection or a later outage. */
  lemma {:induction false} OverAndDone(first: Time, outages: seq<Outage>, i: nat, t: Time, seen: bool)
    requires IsHistory(first, outages) && i < |outages| && Visible(outages[i].up, t, seen)
    ensures var r := RowAt(first, outages, t, seen);
      && r.lastDisconnect.Some? && outages[i].down <= r.lastDisconnect.value
      && (r.lastDisconnect.value == outages[i].down ==> r.lastConnection == outages[i].up)
  {
    if i < |outages| - 1 {
      OverAndDone(first, outages[..|outages| - 1], i, t, seen);
    }
  }

  /** While outage `i` is on, the row shows it. */
  lemma Ongoing(first: Time, outages: seq<Outage>, i: nat, t: Time, seen: bool)
    requires IsHistory(first, outages) && i < |outages|
    requires Visible(outages[i].down, t, seen) && !Visible(outages[i].up, t, seen)
    ensures var r := RowAt(first, outages, t, seen); r.lastDisconnect == Some(outages[i].down) && !Connected(r)
  {
    NotYet(first, outages, i + 1, t, seen);
    assert outages[..i + 1][..i] == outages[..i];
    LastConnection(first, outages[..i], t, seen, outages[i].down);
  }

  /** The outage is longer than `mute` seconds, or, with `tie`, just as long. */
  predicate Outlasts(o: Outage, mute: nat, tie: bool) { o.up - o.down > mute || (o.up - o.down == mute && tie) }

  lemma DisconnectSentIff(first: Time, outages: seq<Outage>, i: nat, mute: nat, seen: bool)
    requires IsHistory(first, outages) && i < |outages|
    ensures DisconnectSent(first, outages, i, mute, seen) <==> Outlasts(outages[i], mute, !seen)
  {
    var down := outages[i].down;
    assert outages[..i + 1][i] == outages[i];
    Ongoing(first, outages[..i + 1], i, down, true);
    if mute > 0 {
      if Visible(outages[i].up, down + mute, seen) {
        OverAndDone(first, outages, i, down + mute, seen);
      } else {
        Ongoing(first, outages, i, down + mute, seen);
      }
    }
  }

  lemma ReconnectSentIff(first: Time, outages: seq<Outage>, i: nat, mute: nat)
    requires IsHistory(first, outages) && i < |outages|
    ensures ReconnectSent(first, outages, i, mute) <==> Outlasts(outages[i], mute, false)
  {
    assert outages[..i + 1][|outages[..i + 1]| - 1] == outages[i];
  }

  /** In every history, the two mails of an outage go out or stay muted together exactly when
      the reconnection does not fall, unseen, on the very second of the delayed look. */
  lemma TogetherIff(first: Time, outages: seq<Outage>, i: nat, mute: nat, seen: bool)
    requires IsHistory(first, outages) && i < |outages|
    ensures (DisconnectSent(first, outages, i, mute, seen) <==> ReconnectSent(first, outages, i, mute))
      <==> seen || outages[i].up - outages[i].down != mute
  {
    DisconnectSentIff(first, outages, i, mute, seen);
    ReconnectSentIff(first, outages, i, mute);
  }

  // ---------------------------------------------------------------- the two checks

  /** `r` is the row that the thread of outage `i` finds, having slept for `mute` seconds. */
  ghost predicate FoundAfter(r: Row, found: Option<Time>, first: Time, outages: seq<Outage>, i: nat, mute: nat, seen: bool) {
    && IsHistory(first, outages) && i < |outages| && found == Some(outages[i].down) && mute > 0
    && r == RowAt(first, outages, outages[i].down + mute, seen)
  }

  /** `r` is the row found when outage `i` ends. */
  ghost predicate FoundAtEnd(r: Row, now: Time, first: Time, outages: seq<Outage>, i: nat) {
    && IsHistory(first, outages) && i < |outages| && now == outages[i].up
    && r == RowAt(first, outages[..i + 1], now, true)
  }

  lemma StillDownMeans(r: Row, found: Option<Time>)
    ensures forall first, outages: seq<Outage>, i: nat, mute: nat, seen :: FoundAfter(r, found, first, outages, i, mute, seen) ==>
              (StillDown(found, r) <==> Outlasts(outages[i], mute, !seen))
  {
    forall first, outages: seq<Outage>, i: nat, mute: nat, seen | FoundAfter(r, found, first, outages, i, mute, seen)
      ensures StillDown(found, r) <==> Outlasts(outages[i], mute, !seen)
    {
      DisconnectSentIff(first, outages, i, mute, seen);
      assert outages[..i + 1][i] == outages[i];
      Ongoing(first, outages[..i + 1], i, outages[i].down, true);
    }
  }

  lemma LongAgoMeans(r: Row, now: Time, mute: nat)
    ensures forall first, outages: seq<Outage>, i: nat :: FoundAtEnd(r, now, first, outages, i) ==>
              (LongAgo(r, now, mute) <==> Outlasts(outages[i], mute, false))
  {
    forall first, outages: seq<Outage>, i: nat | FoundAtEnd(r, now, first, outages, i)
      ensures LongAgo(r, now, mute) <==> Outlasts(outages[i], mute, false)
    {
      assert outages[..i + 1][|outages[..i + 1]| - 1] == outages[i];
    }
  }

  /** The thread that holds a "disconnected" mail back. */
  class DisconnectThread {
    const found: Option<Time>

    constructor (row: AgentRow)
      ensures found == row.Value().lastDisconnect
    {
      found := row.lastDisconnect;
    }

    /** After the sleep: whether to send.  In a history, that is by the length of the outage. */
    method Wake(row: AgentRow) returns (send: bool)
      ensures send <==> StillDown(found, row.Value())
      ensures forall first, outages: seq<Outage>, i: nat, mute: nat, seen :: FoundAfter(row.Value(), found, first, outages, i, mute, seen) ==>
                (send <==> Outlasts(outages[i], mute, !seen))
    {
      StillDownMeans(row.Value(), found);
      if Connected(row.Value()) {
        return false;
      }
      if found != row.lastDisconnect {
        return false;
      }
      return true;
    }
  }

  /** Whether to send a "reconnected" mail now.  In a history, that is by the length of the
      outage. */
  method MuteReconnectCheck(row: AgentRow, now: Time, mute: nat) returns (send: bool)
    ensures send <==> LongAgo(row.Value(), now, mute)
    ensures forall first, outages: seq<Outage>, i: nat :: FoundAtEnd(row.Value(), now, first, outages, i) ==>
              (send <==> Outlasts(outages[i], mute, false))
  {
    LongAgoMeans(row.Value(), now, mute);
    if row.lastDisconnect.None? {
      return true;
    }
    var elapsed := now - row.lastDisconnect.value;
    if elapsed <= mute {
      return false;
    }
    return true;
  }
}
