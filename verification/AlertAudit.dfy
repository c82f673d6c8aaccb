/** Alert settings and their audit trail: which row of the trail is open, and which one
    covers a time in the past. */
module AlertAudit {
  import opened Wrappers

  type Time = int

  datatype Key = Key(alertType: string, process: string)

  datatype Values = Values(warning: Option<int>, error: Option<int>, periodWarning: Option<int>, periodError: Option<int>)

  /** A setting as it is submitted: any of the four values may be left out. */
  datatype Setting = Setting(process: string, warning: Option<Option<int>>, error: Option<Option<int>>,
                             periodWarning: Option<Option<int>>, periodError: Option<Option<int>>)

  datatype Row = Row(key: Key, userid: nat, values: Values, from: Time, to: Option<Time>)

  /** The two tables. */
  datatype Db = Db(entries: map<Key, Values>, rows: seq<Row>)

  // ---------------------------------------------------------------- one setting

  function Given(v: Option<Option<int>>): Option<int> { if v.Some? then v.value else None }

  function Fill(s: Setting): Values {
    Values(Given(s.warning), Given(s.error), Given(s.periodWarning), Given(s.periodError))
  }

  predicate Differs(v: Option<Option<int>>, old_: Option<int>) { v.Some? && v.value != old_ }

  /** Only the values that the setting gives are compared. */
  predicate HasChanges(s: Setting, entry: Values) {
    || Differs(s.warning, entry.warning) || Differs(s.error, entry.error)
    || Differs(s.periodWarning, entry.periodWarning) || Differs(s.periodError, entry.periodError)
  }

  /** The row of a key with the greatest `from`. */
  function Latest(rows: seq<Row>, key: Key): (i: Option<nat>)
    ensures i.Some? ==> i.value < |rows| && rows[i.value].key == key
  {
    if rows == [] then None
    else
      var i, r := Latest(rows[..|rows| - 1], key), rows[|rows| - 1];
      if r.key != key || (i.Some? && rows[i.value].from >= r.from) then i else Some(|rows| - 1)
  }

  function Log(rows: seq<Row>, key: Key, userid: nat, values: Values, now: Time): seq<Row> {
    var i := Latest(rows, key);
    (if i.Some? then rows[i.value := rows[i.value].(to := Some(now))] else rows) + [Row(key, userid, values, now, None)]
  }

  function UpdateOne(db: Db, s: Setting, alertType: string, userid: nat, now: Time): Db
    requires Key(alertType, s.process) in db.entries
  {
    var key := Key(alertType, s.process);
    Db(db.entries[key := Fill(s)],
       if HasChanges(s, db.entries[key]) then Log(db.rows, key, userid, Fill(s), now) else db.rows)
  }

  predicate AllKnown(entries: map<Key, Values>, settings: seq<Setting>, alertType: string) {
    forall s :: s in settings ==> Key(alertType, s.process) in entries
  }

  function Update(db: Db, settings: seq<Setting>, alertType: string, userid: nat, now: Time): (db': Db)
    requires AllKnown(db.entries, settings, alertType)
    ensures db'.entries.Keys == db.entries.Keys
  {
    if settings == [] then db
    else
      var rest := settings[..|settings| - 1];
      assert AllKnown(db.entries, rest, alertType);
      UpdateOne(Update(db, rest, alertType, userid, now), settings[|settings| - 1], alertType, userid, now)
  }

  class AlertSettings {
    var entries: map<Key, Values>
    var rows: seq<Row>

    constructor (entries: map<Key, Values>)
      ensures this.entries == entries && rows == []
    {
      this.entries, rows := entries, [];
    }

    /** `update_all`, in one transaction: a process without an entry undoes all of it. */
    method UpdateAll(settings: seq<Setting>, alertType: string, userid: nat, now: Time) returns (ok: bool)
      modifies this
      ensures ok <==> AllKnown(old(entries), settings, alertType)
      ensures ok ==> Db(entries, rows) == Update(Db(old(entries), old(rows)), settings, alertType, userid, now)
      ensures !ok ==> entries == old(entries) && rows == old(rows)
    {
      hide HasChanges, Fill;
      var pending, trail := entries, rows;
      for n := 0 to |settings|
        invariant AllKnown(entries, settings[..n], alertType)
        invariant Db(pending, trail) == Update(Db(entries, rows), settings[..n], alertType, userid, now)
      {
        var s := settings[n];
        var key := Key(alertType, s.process);
        if key !in pending {
          return false;
        }
        assert settings[..n + 1][..n] == settings[..n];
        if HasChanges(s, pending[key]) {
          var previous := Latest(trail, key);
          if previous.Some? {
            trail := trail[previous.value := trail[previous.value].(to := Some(now))];
          }
          trail := trail + [Row(key, userid, Fill(s), now, None)];
        }
        pending := pending[key := Fill(s)];
      }
      assert settings[..|settings|] == settings;
      entries, rows := pending, trail;
      return true;
    }
  }

  // ---------------------------------------------------------------- the chain of rows of one key

  /** The rows of a key, oldest first. */
  function History(rows: seq<Row>, key: Key): seq<Row> {
    if rows == [] then []
    else History(rows[..|rows| - 1], key) + if rows[|rows| - 1].key == key then [rows[|rows| - 1]] else []
  }

  /** No gap and no overlap: each row ends, after it began, where the next one begins, and the
      last one is open. */
  ghost predicate Chain(h: seq<Row>) {
    && (forall i :: 0 <= i < |h| - 1 ==> h[i].to.Some? && h[i].from < h[i].to.value)
    && (forall i, j :: 0 <= i < |h| - 1 && j == i + 1 ==> h[i].to == Some(h[j].from))
    && (h != [] ==> h[|h| - 1].to.None?)
  }

  predicate Covers(r: Row, t: Time) { r.from <= t && (r.to.Some? ==> t < r.to.value) }

  lemma {:induction false} Ordered(h: seq<Row>, i: nat, j: nat)
    requires Chain(h) && i < j < |h|
    ensures h[i].from < h[i].to.value <= h[j].from
  {
    if i < j - 1 {
      Ordered(h, i, j - 1);
      assert h[j - 1].to == Some(h[j - 1 + 1].from);
    }
  }

  // ---------------------------------------------------------------- logging a change extends the chain

  ghost predicate Rising(h: seq<Row>) {
    forall i, j :: 0 <= i < j < |h| ==> h[i].from < h[j].from
  }

  lemma ChainRises(h: seq<Row>)
    requires Chain(h)
    ensures Rising(h)
  {
    forall i, j | 0 <= i < j < |h| ensures h[i].from < h[j].from {
      Ordered(h, i, j);
    }
  }

  /** The row that was latest ends where `r` begins. */
  function Extended(h: seq<Row>, r: Row): seq<Row> {
    (if h == [] then [] else h[..|h| - 1] + [h[|h| - 1].(to := Some(r.from))]) + [r]
  }

  ghost predicate LastOf(rows: seq<Row>, key: Key, i: Option<nat>) {
    var h := History(rows, key);
    if i.None? then h == []
    else
      && i.value < |rows| && h != [] && rows[i.value] == h[|h| - 1]
      && forall j :: i.value < j < |rows| ==> rows[j].key != key
  }

  /** With rising times, the greatest `from` is that of the last row. */
  lemma {:induction false} LatestIsLast(rows: seq<Row>, key: Key)
    requires Rising(History(rows, key))
    ensures LastOf(rows, key, Latest(rows, key))
  {
    if rows != [] {
      var front, last := rows[..|rows| - 1], rows[|rows| - 1];
      var h, h0 := History(rows, key), History(front, key);
      assert forall i :: 0 <= i < |h0| ==> h[i] == h0[i];
      LatestIsLast(front, key);
      var i := Latest(front, key);
      if last.key == key {
        assert h[|h0|] == last;
        assert i.Some? ==> h[|h0| - 1].from < h[|h0|].from;
        assert Latest(rows, key) == Some(|rows| - 1);
      }
    }
  }

  lemma {:induction false} HistoryOfUpdate(rows: seq<Row>, i: nat, r: Row, key: Key)
    requires i < |rows| && r.key == rows[i].key && (rows[i].key == key ==> forall j :: i < j < |rows| ==> rows[j].key != key)
    ensures var h := History(rows, key);
      if rows[i].key == key then h != [] && History(rows[i := r], key) == h[..|h| - 1] + [r] else History(rows[i := r], key) == h
    decreases |rows|
  {
    var n := |rows| - 1;
    if i == n {
      assert rows[i := r][..n] == rows[..n];
    } else {
      assert rows[i := r][..n] == rows[..n][i := r];
      HistoryOfUpdate(rows[..n], i, r, key);
    }
  }

  lemma HistoryOfLog(rows: seq<Row>, key: Key, userid: nat, values: Values, now: Time, other: Key)
    requires Rising(History(rows, key))
    ensures History(Log(rows, key, userid, values, now), other)
      == if other == key then Extended(History(rows, key), Row(key, userid, values, now, None)) else History(rows, other)
  {
    LatestIsLast(rows, key);
    var i, r := Latest(rows, key), Row(key, userid, values, now, None);
    var closed := if i.Some? then rows[i.value := rows[i.value].(to := Some(now))] else rows;
    assert (closed + [r])[..|closed|] == closed;
    if i.Some? {
      HistoryOfUpdate(rows, i.value, rows[i.value].(to := Some(now)), other);
    }
  }

  lemma ChainExtends(h: seq<Row>, r: Row)
    requires Chain(h) && r.to.None? && forall i :: 0 <= i < |h| ==> h[i].from < r.from
    ensures Chain(Extended(h, r))
  {
  }

  // ---------------------------------------------------------------- one call

  predicate Distinct(settings: seq<Setting>) {
    forall i, j :: 0 <= i < j < |settings| ==> settings[i].process != settings[j].process
  }

  function Find(settings: seq<Setting>, process: string): (s: Option<Setting>)
    ensures s.Some? ==> s.value in settings && s.value.process == process
    ensures s.None? ==> forall t :: t in settings ==> t.process != process
  {
    if settings == [] then None
    else if settings[|settings| - 1].process == process then Some(settings[|settings| - 1])
    else Find(settings[..|settings| - 1], process)
  }

  /** What a call makes of one entry, and of its history. */
  function EntryAfter(entry: Values, s: Option<Setting>): Values { if s.Some? then Fill(s.value) else entry }

  function HistoryAfter(h: seq<Row>, key: Key, entry: Values, s: Option<Setting>, userid: nat, now: Time): seq<Row> {
    if s.Some? && HasChanges(s.value, entry) then Extended(h, Row(key, userid, Fill(s.value), now, None)) else h
  }

  function Relevant(settings: seq<Setting>, alertType: string, key: Key): Option<Setting> {
    if key.alertType == alertType then Find(settings, key.process) else None
  }

  /** One setting, as its own key sees it. */
  lemma OneForItself(db: Db, s: Setting, alertType: string, userid: nat, now: Time)
    requires var key := Key(alertType, s.process); key in db.entries && Rising(History(db.rows, key))
    ensures var db', key := UpdateOne(db, s, alertType, userid, now), Key(alertType, s.process);
      && db'.entries[key] == EntryAfter(db.entries[key], Some(s))
      && History(db'.rows, key) == HistoryAfter(History(db.rows, key), key, db.entries[key], Some(s), userid, now)
  {
    hide History, Log, HasChanges, Fill, Extended;
    var key := Key(alertType, s.process);
    HistoryOfLog(db.rows, key, userid, Fill(s), now, key);
  }

  /** One setting, as the other keys see it. */
  lemma OneForOthers(db: Db, s: Setting, alertType: string, userid: nat, now: Time, other: Key)
    requires var key := Key(alertType, s.process); key in db.entries && Rising(History(db.rows, key)) && other != key
    ensures var db' := UpdateOne(db, s, alertType, userid, now);
      && History(db'.rows, other) == History(db.rows, other)
      && (other in db.entries ==> db'.entries[other] == db.entries[other])
  {
    hide History, Log, HasChanges, Fill, Extended;
    HistoryOfLog(db.rows, Key(alertType, s.process), userid, Fill(s), now, other);
  }

  lemma RelevantOfFront(settings: seq<Setting>, alertType: string, key: Key)
    requires settings != [] && Distinct(settings)
    ensures var rest, last := settings[..|settings| - 1], settings[|settings| - 1];
      if key == Key(alertType, last.process) then Relevant(rest, alertType, key) == None && Relevant(settings, alertType, key) == Some(last)
      else Relevant(settings, alertType, key) == Relevant(rest, alertType, key)
  {
    var rest, last := settings[..|settings| - 1], settings[|settings| - 1];
    assert Find(rest, last.process).None?;
  }

  /** A call with distinct process names touches each key for itself. */
  lemma {:induction false} UpdateByKey(db: Db, settings: seq<Setting>, alertType: string, userid: nat, now: Time, key: Key)
    requires AllKnown(db.entries, settings, alertType) && Distinct(settings) && key in db.entries
    requires forall k :: k in db.entries ==> Rising(History(db.rows, k))
    ensures var db', s := Update(db, settings, alertType, userid, now), Relevant(settings, alertType, key);
      && db'.entries[key] == EntryAfter(db.entries[key], s)
      && History(db'.rows, key) == HistoryAfter(History(db.rows, key), key, db.entries[key], s, userid, now)
  {
    hide History, Log, HasChanges, Fill, Extended, Rising, UpdateOne, Relevant;
    if settings != [] {
      var rest, last := settings[..|settings| - 1], settings[|settings| - 1];
      assert AllKnown(db.entries, rest, alertType);
      assert last in settings;
      var db1, k := Update(db, rest, alertType, userid, now), Key(alertType, last.process);
      UpdateByKey(db, rest, alertType, userid, now, key);
      UpdateByKey(db, rest, alertType, userid, now, k);
      RelevantOfFront(settings, alertType, k);
      RelevantOfFront(settings, alertType, key);
      assert db1.entries[k] == db.entries[k] && History(db1.rows, k) == History(db.rows, k);
      if key == k {
        OneForItself(db1, last, alertType, userid, now);
      } else {
        OneForOthers(db1, last, alertType, userid, now, key);
      }
    } else {
      NoneRelevant(alertType, key);
    }
  }

  lemma NoneRelevant(alertType: string, key: Key)
    ensures Relevant([], alertType, key) == None
  {
  }

  /** One setting logs a row exactly when some value that it gives is not the present one: a
      full setting that changes nothing logs none.  The row holds the new setting. */
  lemma LogsIff(db: Db, s: Setting, alertType: string, userid: nat, now: Time)
    requires Key(alertType, s.process) in db.entries
    ensures var key := Key(alertType, s.process);
      var db', entry := UpdateOne(db, s, alertType, userid, now), db.entries[key];
      && (db'.rows == db.rows <==>
            && (s.warning.Some? ==> s.warning.value == entry.warning)
            && (s.error.Some? ==> s.error.value == entry.error)
            && (s.periodWarning.Some? ==> s.periodWarning.value == entry.periodWarning)
            && (s.periodError.Some? ==> s.periodError.value == entry.periodError))
      && (db'.rows != db.rows ==> db'.rows[|db'.rows| - 1] == Row(key, userid, db'.entries[key], now, None))
      && db'.entries[key] == Values(if s.warning.Some? then s.warning.value else None,
                                    if s.error.Some? then s.error.value else None,
                                    if s.periodWarning.Some? then s.periodWarning.value else None,
                                    if s.periodError.Some? then s.periodError.value else None)
  {
    var key := Key(alertType, s.process);
    assert |Log(db.rows, key, userid, Fill(s), now)| == |db.rows| + 1;
  }

  // ---------------------------------------------------------------- the trail and the setting

  /** The open row of a history is the current setting. */
  ghost predicate Current(h: seq<Row>, entry: Values) {
    Chain(h) && (h != [] ==> h[|h| - 1].values == entry)
  }

  /** The setting changes by what it leaves out alone, and nothing is logged. */
  predicate Silent(s: Setting, entry: Values) { !HasChanges(s, entry) && Fill(s) != entry }

  /** A submitted setting keeps the trail current exactly when it is not silent, or the
      process has no trail yet. */
  lemma StaysCurrentIff(h: seq<Row>, key: Key, entry: Values, s: Setting, userid: nat, now: Time)
    requires Current(h, entry) && forall i :: 0 <= i < |h| ==> h[i].from < now
    ensures Current(HistoryAfter(h, key, entry, Some(s), userid, now), EntryAfter(entry, Some(s)))
      <==> h == [] || !Silent(s, entry)
  {
    ChainExtends(h, Row(key, userid, Fill(s), now, None));
  }

  datatype Call = Call(settings: seq<Setting>, alertType: string, userid: nat, now: Time)

  /** A call that commits, with distinct process names. */
  ghost predicate Applies(db: Db, c: Call, db': Db) {
    && AllKnown(db.entries, c.settings, c.alertType) && Distinct(c.settings)
    && db' == Update(db, c.settings, c.alertType, c.userid, c.now)
  }

  /** It has no silent setting. */
  ghost predicate Speaks(db: Db, c: Call)
    requires AllKnown(db.entries, c.settings, c.alertType)
  {
    forall s :: s in c.settings ==> !Silent(s, db.entries[Key(c.alertType, s.process)])
  }

  ghost predicate Commits(db: Db, c: Call, db': Db) { Applies(db, c, db') && Speaks(db, c) }

  predicate Before(c: Call, d: Call) { c.now < d.now }

  /** Any calls one after the other. */
  ghost predicate AreCalls(run: seq<Db>, calls: seq<Call>) {
    && |run| == |calls| + 1 && run[0].rows == []
    && (forall i :: 0 <= i < |calls| ==> Applies(run[i], calls[i], run[i + 1]))
    && (forall i, j :: 0 <= i < j < |calls| ==> Before(calls[i], calls[j]))
  }

  ghost predicate IsRun(run: seq<Db>, calls: seq<Call>) {
    && |run| == |calls| + 1 && run[0].rows == []
    && (forall i :: 0 <= i < |calls| ==> Commits(run[i], calls[i], run[i + 1]))
    && (forall i, j :: 0 <= i < j < |calls| ==> Before(calls[i], calls[j]))
  }

  ghost predicate Inv(db: Db) {
    forall key :: key in db.entries ==> Current(History(db.rows, key), db.entries[key])
  }

  ghost predicate NotAfter(h: seq<Row>, t: Time) { forall i :: 0 <= i < |h| ==> h[i].from <= t }

  /** All rows were made by the calls so far. */
  ghost predicate MadeBy(db: Db, calls: seq<Call>) {
    forall key :: key in db.entries ==>
      if calls == [] then History(db.rows, key) == [] else NotAfter(History(db.rows, key), calls[|calls| - 1].now)
  }

  ghost predicate AllBefore(db: Db, now: Time) {
    forall key :: key in db.entries ==> Earlier(History(db.rows, key), now)
  }

  ghost predicate Earlier(h: seq<Row>, now: Time) { forall i :: 0 <= i < |h| ==> h[i].from < now }

  lemma KeepsOne(h: seq<Row>, key: Key, entry: Values, s: Option<Setting>, userid: nat, now: Time)
    requires Current(h, entry) && Earlier(h, now) && (s.Some? ==> !Silent(s.value, entry))
    ensures var h' := HistoryAfter(h, key, entry, s, userid, now);
      Current(h', EntryAfter(entry, s)) && NotAfter(h', now)
  {
    if s.Some? {
      StaysCurrentIff(h, key, entry, s.value, userid, now);
    }
  }

  lemma CallKeeps(db: Db, c: Call, db': Db, key: Key)
    requires Inv(db) && Commits(db, c, db') && key in db.entries && AllBefore(db, c.now)
    ensures db'.entries.Keys == db.entries.Keys
    ensures var s, h := Relevant(c.settings, c.alertType, key), History(db.rows, key);
      && History(db'.rows, key) == HistoryAfter(h, key, db.entries[key], s, c.userid, c.now)
      && Current(History(db'.rows, key), db'.entries[key]) && NotAfter(History(db'.rows, key), c.now)
  {
    forall k | k in db.entries ensures Rising(History(db.rows, k)) {
      ChainRises(History(db.rows, k));
    }
    UpdateByKey(db, c.settings, c.alertType, c.userid, c.now, key);
    var s := Relevant(c.settings, c.alertType, key);
    assert s.Some? ==> Key(c.alertType, s.value.process) == key && s.value in c.settings;
    hide Current, Rising, Silent, HasChanges, Relevant, HistoryAfter, EntryAfter, Update, History, Earlier;
    KeepsOne(History(db.rows, key), key, db.entries[key], s, c.userid, c.now);
  }

  lemma {:induction false} RunKeeps(run: seq<Db>, calls: seq<Call>, i: nat)
    requires IsRun(run, calls) && i <= |calls|
    ensures Inv(run[i]) && MadeBy(run[i], calls[..i]) && run[i].entries.Keys == run[0].entries.Keys
  {
    if i > 0 {
      RunKeeps(run, calls, i - 1);
      assert Commits(run[i - 1], calls[i - 1], run[i - 1 + 1]);
      assert i > 1 ==> Before(calls[i - 2], calls[i - 1]);
      assert AllBefore(run[i - 1], calls[i - 1].now);
      forall key | key in run[i].entries
        ensures Current(History(run[i].rows, key), run[i].entries[key]) && NotAfter(History(run[i].rows, key), calls[i - 1].now)
      {
        CallKeeps(run[i - 1], calls[i - 1], run[i], key);
      }
    }
  }

  // ---------------------------------------------------------------- asking the trail about the past

  /** Exactly one row covers `t`, and it holds `v`. */
  ghost predicate Says(h: seq<Row>, t: Time, v: Values) {
    exists k :: 0 <= k < |h| && h[k].values == v && OnlyCover(h, t, k)
  }

  ghost predicate OnlyCover(h: seq<Row>, t: Time, k: nat) {
    k < |h| && Covers(h[k], t) && forall j :: 0 <= j < |h| && Covers(h[j], t) ==> j == k
  }

  lemma LastSays(h: seq<Row>, t: Time, entry: Values)
    requires Current(h, entry) && h != [] && NotAfter(h, t)
    ensures Says(h, t, entry)
  {
    forall j | 0 <= j < |h| - 1 ensures !Covers(h[j], t) {
      Ordered(h, j, |h| - 1);
    }
    assert OnlyCover(h, t, |h| - 1);
  }

  lemma StillSays(h: seq<Row>, r: Row, t: Time, v: Values)
    requires Says(h, t, v) && t < r.from
    requires forall i :: 0 <= i < |h| - 1 ==> h[i].to.Some?
    requires h[|h| - 1].to.None?
    ensures Says(Extended(h, r), t, v)
  {
    var k :| 0 <= k < |h| && h[k].values == v && OnlyCover(h, t, k);
    var h' := Extended(h, r);
    assert forall j :: 0 <= j < |h| ==> Covers(h'[j], t) == Covers(h[j], t);
    assert OnlyCover(h', t, k) && h'[k].values == v;
  }

  /** A call before which `t` lies leaves what the trail says about `t`, or says nothing. */
  lemma SaysAfter(h: seq<Row>, key: Key, entry: Values, s: Option<Setting>, userid: nat, now: Time, t: Time, v: Values)
    requires Chain(h) && t < now && (Says(h, t, v) || h == [] || t < h[0].from)
    ensures var h' := HistoryAfter(h, key, entry, s, userid, now); Says(h', t, v) || h' == [] || t < h'[0].from
  {
    var h' := HistoryAfter(h, key, entry, s, userid, now);
    if Says(h, t, v) && h' != h {
      StillSays(h, Row(key, userid, Fill(s.value), now, None), t, v);
    }
  }

  lemma RowsAreEarlier(run: seq<Db>, calls: seq<Call>, i: nat)
    requires IsRun(run, calls) && i < |calls|
    ensures Inv(run[i]) && AllBefore(run[i], calls[i].now) && Commits(run[i], calls[i], run[i + 1])
  {
    RunKeeps(run, calls, i);
    assert i > 0 ==> Before(calls[i - 1], calls[i]) && calls[..i][|calls[..i]| - 1] == calls[i - 1];
    hide Inv, Commits;
  }

  /** Between calls `i - 1` and `i` the trail says what the setting is. */
  lemma SaysNow(run: seq<Db>, calls: seq<Call>, i: nat, key: Key, t: Time)
    requires IsRun(run, calls) && i <= |calls| && key in run[0].entries && (i > 0 ==> calls[i - 1].now <= t)
    ensures key in run[i].entries
    ensures var h := History(run[i].rows, key); Says(h, t, run[i].entries[key]) || h == []
  {
    RunKeeps(run, calls, i);
    hide IsRun, History, Says, Current;
    assert i > 0 ==> calls[..i][|calls[..i]| - 1] == calls[i - 1];
    var h := History(run[i].rows, key);
    if h != [] {
      LastSays(h, t, run[i].entries[key]);
    }
  }

  lemma SaysNext(run: seq<Db>, calls: seq<Call>, n: nat, key: Key, t: Time, v: Values)
    requires IsRun(run, calls) && n < |calls| && key in run[n].entries && t < calls[n].now
    requires var h := History(run[n].rows, key); Says(h, t, v) || h == [] || t < h[0].from
    ensures var h := History(run[n + 1].rows, key); Says(h, t, v) || h == [] || t < h[0].from
  {
    RowsAreEarlier(run, calls, n);
    assert Current(History(run[n].rows, key), run[n].entries[key]);
    hide IsRun, Inv, History, Commits, AllBefore, HistoryAfter, Says;
    var c, db := calls[n], run[n];
    CallKeeps(db, c, run[n + 1], key);
    SaysAfter(History(db.rows, key), key, db.entries[key], Relevant(c.settings, c.alertType, key), c.userid, c.now, t, v);
  }

  lemma InOrder(run: seq<Db>, calls: seq<Call>, i: nat, n: nat, key: Key)
    requires IsRun(run, calls) && i <= n < |calls| && key in run[0].entries
    ensures calls[i].now <= calls[n].now && key in run[n].entries && |run| == |calls| + 1
  {
    RunKeeps(run, calls, n);
    assert i < n ==> Before(calls[i], calls[n]);
  }

  /** From call `i` on, the trail says of a time before the next call what the setting was. */
  lemma {:induction false} SaysOn(run: seq<Db>, calls: seq<Call>, i: nat, n: nat, key: Key, t: Time)
    requires IsRun(run, calls) && i <= n <= |calls| && key in run[0].entries
    requires (i > 0 ==> calls[i - 1].now <= t) && (i < |calls| ==> t < calls[i].now)
    ensures key in run[i].entries
    ensures var h := History(run[n].rows, key); Says(h, t, run[i].entries[key]) || h == [] || t < h[0].from
  {
    hide *;
    SaysNow(run, calls, i, key, t);
    if n > i {
      SaysOn(run, calls, i, n - 1, key, t);
      InOrder(run, calls, i, n - 1, key);
      SaysNext(run, calls, n - 1, key, t, run[i].entries[key]);
    }
  }

  /** Any time after the first change of a process is covered by exactly one row of its trail,
      and that row holds the setting that was then in force. */
  lemma InForce(run: seq<Db>, calls: seq<Call>, i: nat, key: Key, t: Time)
    requires IsRun(run, calls) && i <= |calls| && key in run[0].entries && key in run[i].entries
    requires (i > 0 ==> calls[i - 1].now <= t) && (i < |calls| ==> t < calls[i].now)
    requires var h := History(run[|calls|].rows, key); h != [] && h[0].from <= t
    ensures Says(History(run[|calls|].rows, key), t, run[i].entries[key])
  {
    SaysOn(run, calls, i, |calls|, key, t);
  }

  // ---------------------------------------------------------------- with and without silent settings

  /** All four values are given. */
  predicate Full(s: Setting) { s.warning.Some? && s.error.Some? && s.periodWarning.Some? && s.periodError.Some? }

  lemma FullIsNotSilent(s: Setting, entry: Values)
    requires Full(s)
    ensures !Silent(s, entry)
  {
  }

  predicate AllFull(c: Call) { forall s :: s in c.settings ==> Full(s) }

  lemma FullCallsSpeak(run: seq<Db>, calls: seq<Call>)
    requires AreCalls(run, calls) && forall c :: c in calls ==> AllFull(c)
    ensures IsRun(run, calls)
  {
    hide Silent, Full;
    forall i | 0 <= i < |calls| ensures Commits(run[i], calls[i], run[i + 1]) {
      var db, c := run[i], calls[i];
      assert Applies(db, c, run[i + 1]);
      assert c in calls && AllFull(c);
      forall s | s in c.settings ensures !Silent(s, db.entries[Key(c.alertType, s.process)]) {
        FullIsNotSilent(s, db.entries[Key(c.alertType, s.process)]);
      }
      hide Applies;
      assert Speaks(db, c);
    }
  }

  /** When every setting gives all four values, the trail is right about every time after the
      first change, and its open row is the current setting. */
  lemma FullInForce(run: seq<Db>, calls: seq<Call>, i: nat, key: Key, t: Time)
    requires AreCalls(run, calls) && (forall c :: c in calls ==> AllFull(c))
    requires i <= |calls| && key in run[0].entries
    requires (i > 0 ==> calls[i - 1].now <= t) && (i < |calls| ==> t < calls[i].now)
    ensures key in run[i].entries && key in run[|calls|].entries
    ensures Current(History(run[|calls|].rows, key), run[|calls|].entries[key])
    ensures var h := History(run[|calls|].rows, key); h != [] && h[0].from <= t ==> Says(h, t, run[i].entries[key])
  {
    FullCallsSpeak(run, calls);
    RunKeeps(run, calls, i);
    RunKeeps(run, calls, |calls|);
    hide IsRun, AreCalls, AllFull, Current, Says, MadeBy;
    var h := History(run[|calls|].rows, key);
    if h != [] && h[0].from <= t {
      InForce(run, calls, i, key, t);
    }
  }

  lemma UpdateSingle(db: Db, s: Setting, alertType: string, userid: nat, now: Time)
    requires Key(alertType, s.process) in db.entries
    ensures AllKnown(db.entries, [s], alertType)
    ensures Update(db, [s], alertType, userid, now) == UpdateOne(db, s, alertType, userid, now)
  {
    assert [s][..0] == [];
  }

  /** A first setting is logged. */
  lemma FirstIsLogged(key: Key, s: Setting, now: Time)
    requires s.process == key.process && HasChanges(s, Values(None, None, None, None))
    ensures UpdateOne(Db(map[key := Values(None, None, None, None)], []), s, key.alertType, 0, now)
      == Db(map[key := Fill(s)], [Row(key, 0, Fill(s), now, None)])
    ensures History([Row(key, 0, Fill(s), now, None)], key) == [Row(key, 0, Fill(s), now, None)]
  {
    hide Fill, HasChanges;
    assert [Row(key, 0, Fill(s), now, None)][..0] == [];
  }

  /** A silent one is not. */
  lemma SilentIsNot(db: Db, key: Key, s: Setting, now: Time)
    requires db.entries.Keys == {key} && s.process == key.process && Silent(s, db.entries[key])
    ensures UpdateOne(db, s, key.alertType, 0, now) == Db(map[key := Fill(s)], db.rows)
  {
    hide Fill, HasChanges;
  }

  /** Silent settings come about: an error limit that is set and then left out is gone, and
      the trail's open row still has it. */
  lemma SilentReachable() returns (run: seq<Db>, calls: seq<Call>, key: Key)
    ensures AreCalls(run, calls) && |calls| == 2 && key in run[1].entries && key in run[2].entries
    ensures |calls[1].settings| == 1 && Silent(calls[1].settings[0], run[1].entries[key])
    ensures Current(History(run[1].rows, key), run[1].entries[key])
    ensures !Current(History(run[2].rows, key), run[2].entries[key])
  {
    key := Key("cpu", "tabadmin");
    var given, none := Some(Some(80)), Values(None, None, None, None);
    var full, partial := Setting(key.process, given, given, given, given), Setting(key.process, given, None, given, given);
    var v, w := Fill(full), Fill(partial);
    assert v == Values(Some(80), Some(80), Some(80), Some(80)) && w == v.(error := None);
    assert HasChanges(full, none) && Silent(partial, v);
    var row := Row(key, 0, v, 1, None);
    var db0, db1, db2 := Db(map[key := none], []), Db(map[key := v], [row]), Db(map[key := w], [row]);
    calls := [Call([full], key.alertType, 0, 1), Call([partial], key.alertType, 0, 2)];
    run := [db0, db1, db2];
    hide Update, UpdateOne, History, Fill, HasChanges, Silent;
    UpdateSingle(db0, full, key.alertType, 0, 1);
    UpdateSingle(db1, partial, key.alertType, 0, 2);
    FirstIsLogged(key, full, 1);
    SilentIsNot(db1, key, partial, 2);
    assert Applies(db0, calls[0], db1) && Applies(db1, calls[1], db2);
    hide Applies;
  }
}
