/** What every run of the command protocol keeps, and what a thread may conclude when its
    command returns without an error. */
module CliSafety {
  import opened Wrappers
  import opened ProcessManager
  import opened CliProtocol

  /** What the agent has done with one xid. */
  function Trace(log: seq<Event>, x: nat): seq<Event> {
    if log == [] then []
    else if log[|log| - 1].xid == x then Trace(log[..|log| - 1], x) + [log[|log| - 1]]
    else Trace(log[..|log| - 1], x)
  }

  /** Started, then only ever polled. */
  ghost predicate PollTrace(tr: seq<Event>, x: nat) {
    && tr != [] && tr[0] == WasStarted(x)
    && forall i :: 0 < i < |tr| ==> tr[i] == WasPolled(x)
  }

  /** The body carries how the thread's own process ended. */
  ghost predicate Carries(s: State, th: Thread) {
    && th.body.Success? && th.xid in s.ended
    && s.ended[th.xid].exitStatus == th.body.exitStatus && s.ended[th.xid].stdout == th.body.stdout
  }

  /** A body to return after the cleanup. */
  ghost predicate PolledBody(s: State, th: Thread, tr: seq<Event>) {
    th.body.Error? || (Carries(s, th) && th.body.exitStatus == 0 && PollTrace(tr, th.xid) && |tr| > 1)
  }

  ghost predicate CleanedTrace(s: State, th: Thread) {
    var tr := Trace(s.log, th.xid);
    && tr != [] && tr[|tr| - 1] == WasCleaned(th.xid) && th.xid !in s.dirs
    && th.xid in s.rows && s.rows[th.xid] == RowFinished && PolledBody(s, th, tr[..|tr| - 1])
  }

  /** A command that was found ended when it was started. */
  ghost predicate StartedOnly(s: State, th: Thread) {
    && |th.heard| == 1 && th.heard[0].Read? && ReportsEnd(s, th.xid, th.heard[0].reply)
    && Carries(s, th) && Trace(s.log, th.xid) == [WasStarted(th.xid)]
    && (th.xid in s.dirs <==> !th.immediate)
    && th.xid in s.rows && s.rows[th.xid] == RowStarted
  }

  /** The start was answered with a process still running. */
  ghost predicate FoundRunning(th: Thread) {
    th.heard != [] && th.heard[0] == Read(Starting, Running(th.xid))
  }

  ghost predicate ThreadInv(s: State, th: Thread)
  {
    if th.pc == Want(Starting) then th.body.Pending? && th.heard == []
    else
      var x, tr := th.xid, Trace(s.log, th.xid);
      && 0 < x < s.nextXid && x in s.rows
      && match th.pc
         case Returned => th.body.Error? || (th.body.Success? && (StartedOnly(s, th) || (FoundRunning(th) && CleanedTrace(s, th))))
         case Want(Cleaning) => FoundRunning(th) && x in s.dirs && PolledBody(s, th, tr)
         case Locked(Cleaning) => FoundRunning(th) && x in s.dirs && s.rows[x] == RowFinished && PolledBody(s, th, tr)
         case Sent(Cleaning) => FoundRunning(th) && CleanedTrace(s, th)
         case Locked(Starting) =>
           && x !in s.dirs && x !in s.ended && tr == [] && s.rows[x] == RowStarted
           && th.body.Pending? && th.heard == []
         case Sent(Starting) =>
           && tr == [WasStarted(x)] && s.rows[x] == RowStarted && (x in s.dirs <==> !th.immediate)
           && th.body.Pending? && th.heard == []
         case Want(Killing) => FoundRunning(th) && x in s.dirs
         case Locked(Killing) => FoundRunning(th) && x in s.dirs
         case Sent(Killing) => FoundRunning(th) && x in s.dirs
         case Sent(Polling) => FoundRunning(th) && x in s.dirs && PollTrace(tr, x) && |tr| > 1
         case _ => FoundRunning(th) && x in s.dirs && PollTrace(tr, x)
  }

  /** The reply to the request a thread has sent. */
  ghost predicate Fits(s: State, th: Thread, r: Reply)
    requires th.pc.Sent?
  {
    match th.pc.op
    case Starting => (r == Running(th.xid) && !th.immediate) || ReportsEnd(s, th.xid, r)
    case Polling => r == Running(th.xid) || ReportsEnd(s, th.xid, r)
    case Killing => r.Refused?
    case Cleaning => r == CleanedUp(th.xid)
  }

  ghost predicate ReportsEnd(s: State, x: nat, r: Reply) {
    x in s.ended && r == Finished(x, s.ended[x].exitStatus, s.ended[x].stdout, s.ended[x].stderr)
  }

  predicate Holding(pc: Pc) { pc.Locked? || pc.Sent? }

  /** At most one request is out on a live connection, and its reply is its own. */
  ghost predicate WireInv(s: State) {
    && (forall t :: t in s.threads && Holding(s.threads[t].pc) ==> s.lock == Some(t))
    && (s.lock.Some? ==> s.lock.value in s.threads && Holding(s.threads[s.lock.value].pc))
    && (s.alive ==>
          if s.lock.Some? && s.threads[s.lock.value].pc.Sent?
          then |s.wire| == 1 && Fits(s, s.threads[s.lock.value], s.wire[0])
          else s.wire == [])
  }

  ghost predicate DirInv(s: State) {
    && (forall x :: x in s.dirs ==>
          x < s.nextXid
          && (if s.dirs[x].returncode.None? then x !in s.ended else x in s.ended && s.dirs[x] == Complete(s.ended[x])))
    && (forall x :: x in s.ended ==> x < s.nextXid)
    && (forall e :: e in s.log ==> e.xid < s.nextXid)
    && 0 < s.nextXid
  }

  ghost predicate Distinct(s: State) {
    forall t, u :: t in s.threads && u in s.threads && t != u && s.threads[t].pc != Want(Starting)
      ==> s.threads[u].pc == Want(Starting) || s.threads[t].xid != s.threads[u].xid
  }

  ghost predicate Inv(s: State) {
    && (forall t :: t in s.threads ==> ThreadInv(s, s.threads[t]))
    && WireInv(s) && DirInv(s) && Distinct(s)
  }

  // ---------------------------------------------------------------- frames

  lemma TraceAppend(log: seq<Event>, e: Event, x: nat)
    ensures Trace(log + [e], x) == if e.xid == x then Trace(log, x) + [e] else Trace(log, x)
  {
    assert (log + [e])[..|log|] == log;
  }

  lemma {:induction false} NoTrace(log: seq<Event>, x: nat)
    requires forall e :: e in log ==> e.xid != x
    ensures Trace(log, x) == []
  {
    if log != [] {
      NoTrace(log[..|log| - 1], x);
    }
  }

  /** Nothing that concerns `x` has changed. */
  ghost predicate SameFor(s: State, s': State, x: nat) {
    && (x in s.dirs <==> x in s'.dirs) && Trace(s.log, x) == Trace(s'.log, x)
    && (x in s.ended <==> x in s'.ended) && (x in s.ended ==> s.ended[x] == s'.ended[x])
    && (x in s.rows ==> x in s'.rows && s.rows[x] == s'.rows[x])
    && s.nextXid <= s'.nextXid
  }

  lemma ThreadFrame(s: State, s': State, th: Thread)
    requires ThreadInv(s, th) && (th.pc != Want(Starting) ==> SameFor(s, s', th.xid))
    ensures ThreadInv(s', th)
  {
    hide PollTrace, Trace;
  }

  /** Only thread `t` moves, and only what concerns its xid changes. */
  ghost predicate OnlyMoves(s: State, s': State, t: Tid, x: nat) {
    && s'.threads.Keys == s.threads.Keys + {t}
    && (forall u :: u in s.threads && u != t ==> s'.threads[u] == s.threads[u])
    && (forall u :: u in s.threads && u != t && s.threads[u].pc != Want(Starting) ==> s.threads[u].xid != x)
    && (forall u :: u in s.threads && u != t && s.threads[u].pc != Want(Starting) ==> SameFor(s, s', s.threads[u].xid))
    && (s'.threads[t].pc != Want(Starting) ==> s'.threads[t].xid == x)
  }

  lemma OthersStay(s: State, s': State, t: Tid, x: nat)
    requires Inv(s) && OnlyMoves(s, s', t, x) && ThreadInv(s', s'.threads[t])
    ensures forall u :: u in s'.threads ==> ThreadInv(s', s'.threads[u])
    ensures Distinct(s')
  {
    hide ThreadInv, SameFor;
    forall u | u in s'.threads ensures ThreadInv(s', s'.threads[u]) {
      if u != t {
        ThreadFrame(s, s', s.threads[u]);
      }
    }
  }

  // ---------------------------------------------------------------- the steps keep the invariant

  lemma AcquireMoves(s: State, t: Tid)
    requires Inv(s) && Enabled(s, Acquire(t))
    ensures var s' := Apply(s, Acquire(t)); ThreadInv(s', s'.threads[t])
  {
    hide Trace, PollTrace, WireInv, Distinct;
    assert ThreadInv(s, s.threads[t]);
    if s.threads[t].pc.op.Starting? {
      NoTrace(s.log, s.nextXid);
    }
  }

  /** No other thread uses xid `x`. */
  ghost predicate Alone(s: State, t: Tid, x: nat) {
    forall u :: u in s.threads && u != t && s.threads[u].pc != Want(Starting) ==> s.threads[u].xid != x
  }

  lemma OneXidEach(s: State, t: Tid)
    requires Inv(s) && t in s.threads
    ensures s.threads[t].pc != Want(Starting) ==> Alone(s, t, s.threads[t].xid)
    ensures Alone(s, t, s.nextXid)
  {
    assert Distinct(s);
    forall u | u in s.threads && s.threads[u].pc != Want(Starting) ensures s.threads[u].xid < s.nextXid {
      assert ThreadInv(s, s.threads[u]);
    }
    hide Inv, ThreadInv;
  }

  /** A step that leaves the agent alone, and all but one row. */
  lemma QuietFrame(s: State, s': State, t: Tid, th': Thread)
    requires t in s.threads && s'.threads == s.threads[t := th'] && Alone(s, t, th'.xid)
    requires s'.dirs == s.dirs && s'.ended == s.ended && s'.log == s.log && s.nextXid <= s'.nextXid
    requires forall x :: x in s.rows && x != th'.xid ==> x in s'.rows && s'.rows[x] == s.rows[x]
    ensures OnlyMoves(s, s', t, th'.xid)
  {
  }

  lemma AcquireFrame(s: State, t: Tid)
    requires Inv(s) && Enabled(s, Acquire(t))
    ensures var s' := Apply(s, Acquire(t)); OnlyMoves(s, s', t, s'.threads[t].xid)
  {
    hide Inv, OnlyMoves, Alone;
    OneXidEach(s, t);
    var s' := Apply(s, Acquire(t));
    QuietFrame(s, s', t, s'.threads[t]);
  }

  lemma AcquireWire(s: State, t: Tid)
    requires WireInv(s) && Enabled(s, Acquire(t))
    ensures WireInv(Apply(s, Acquire(t)))
  {
    hide Fits;
  }

  lemma AcquireKeeps(s: State, t: Tid)
    requires Inv(s) && Enabled(s, Acquire(t))
    ensures Inv(Apply(s, Acquire(t)))
  {
    hide ThreadInv, Trace, Distinct, SameFor, WireInv, OnlyMoves;
    var s' := Apply(s, Acquire(t));
    AcquireWire(s, t);
    AcquireMoves(s, t);
    AcquireFrame(s, t);
    OthersStay(s, s', t, s'.threads[t].xid);
  }

  /** What `t` finds when it may send: a quiet wire, and its own state in order. */
  lemma Ready(s: State, t: Tid)
    requires Inv(s) && t in s.threads && s.threads[t].pc.Locked? && s.alive
    ensures ThreadInv(s, s.threads[t]) && s.wire == [] && s.lock == Some(t)
    ensures var x := s.threads[t].xid;
      x in s.dirs ==> if s.dirs[x].returncode.None? then x !in s.ended else x in s.ended && s.dirs[x] == Complete(s.ended[x])
  {
    hide Trace, Distinct, ThreadInv;
  }

  /** What a step of sending is to leave. */
  ghost predicate SentWell(s: State, t: Tid) {
    t in s.threads && s.threads[t].pc.Sent? && ThreadInv(s, s.threads[t]) && |s.wire| == 1 && Fits(s, s.threads[t], s.wire[0])
  }

  lemma StartSent(s: State, t: Tid, ended: Option<Outcome>)
    requires Inv(s) && Enabled(s, Send(t, ended)) && s.threads[t].pc.op.Starting?
    ensures SentWell(Apply(s, Send(t, ended)), t)
  {
    hide Trace, Inv, PollTrace;
    Ready(s, t);
    TraceAppend(s.log, WasStarted(s.threads[t].xid), s.threads[t].xid);
  }

  lemma PollSent(s: State, t: Tid)
    requires Inv(s) && Enabled(s, Send(t, None)) && s.threads[t].pc.op.Polling?
    ensures SentWell(Apply(s, Send(t, None)), t)
  {
    hide Trace, Inv;
    Ready(s, t);
    TraceAppend(s.log, WasPolled(s.threads[t].xid), s.threads[t].xid);
  }

  lemma KillSent(s: State, t: Tid)
    requires Inv(s) && Enabled(s, Send(t, None)) && s.threads[t].pc.op.Killing?
    ensures SentWell(Apply(s, Send(t, None)), t)
  {
    hide Trace, Inv, PollTrace;
    Ready(s, t);
  }

  lemma CleanupSent(s: State, t: Tid)
    requires Inv(s) && Enabled(s, Send(t, None)) && s.threads[t].pc.op.Cleaning?
    ensures SentWell(Apply(s, Send(t, None)), t)
  {
    hide Trace, Inv, PollTrace;
    Ready(s, t);
    var x := s.threads[t].xid;
    var tr := Trace(s.log, x);
    TraceAppend(s.log, WasCleaned(x), x);
    assert (tr + [WasCleaned(x)])[..|tr|] == tr;
  }

  /** Sending: the agent's directory and trace for the xid, and the reply. */
  lemma SendMoves(s: State, t: Tid, ended: Option<Outcome>)
    requires Inv(s) && Enabled(s, Send(t, ended))
    ensures SentWell(Apply(s, Send(t, ended)), t)
  {
    hide Inv, Apply, SentWell;
    match s.threads[t].pc.op
    case Starting => StartSent(s, t, ended);
    case Polling => PollSent(s, t);
    case Killing => KillSent(s, t);
    case Cleaning => CleanupSent(s, t);
  }

  lemma SendFrame(s: State, t: Tid, ended: Option<Outcome>)
    requires Inv(s) && Enabled(s, Send(t, ended))
    ensures OnlyMoves(s, Apply(s, Send(t, ended)), t, s.threads[t].xid)
  {
    hide Trace, ThreadInv, WireInv, DirInv;
    var s', th := Apply(s, Send(t, ended)), s.threads[t];
    forall u | u in s.threads && u != t && s.threads[u].pc != Want(Starting) ensures SameFor(s, s', s.threads[u].xid) {
      TraceAppend(s.log, EventOf(th.pc.op, th.xid), s.threads[u].xid);
    }
  }

  lemma SendKeepsDirs(s: State, t: Tid, ended: Option<Outcome>)
    requires Inv(s) && Enabled(s, Send(t, ended))
    ensures DirInv(Apply(s, Send(t, ended)))
  {
    hide WireInv, Distinct, Trace, PollTrace, PolledBody;
    assert DirInv(s);
    var s', th := Apply(s, Send(t, ended)), s.threads[t];
    assert th.xid < s.nextXid && (th.pc.op.Starting? ==> th.xid !in s.dirs && th.xid !in s.ended) by {
      assert ThreadInv(s, th);
    }
    hide Inv, ThreadInv;
    assert forall e :: e in s'.log ==> e in s.log || e == EventOf(th.pc.op, th.xid);
  }

  lemma SendKeeps(s: State, t: Tid, ended: Option<Outcome>)
    requires Inv(s) && Enabled(s, Send(t, ended))
    ensures Inv(Apply(s, Send(t, ended)))
  {
    hide Trace, ThreadInv, Distinct, Fits, DirInv, SameFor;
    var s' := Apply(s, Send(t, ended));
    SendMoves(s, t, ended);
    SendFrame(s, t, ended);
    SendKeepsDirs(s, t, ended);
    OthersStay(s, s', t, s.threads[t].xid);
  }

  /** What `t` finds when it may read. */
  lemma Replies(s: State, t: Tid)
    requires Inv(s) && Enabled(s, Receive(t))
    ensures ThreadInv(s, s.threads[t]) && |s.wire| == 1 && Fits(s, s.threads[t], s.wire[0])
  {
    hide ThreadInv, Fits, Distinct;
    assert s.lock == Some(t);
  }

  lemma StartRead(s: State, t: Tid)
    requires Inv(s) && Enabled(s, Receive(t)) && s.threads[t].pc.op.Starting?
    ensures ThreadInv(Apply(s, Receive(t)), Apply(s, Receive(t)).threads[t])
  {
    hide Inv, Trace;
    Replies(s, t);
  }

  lemma PollRead(s: State, t: Tid)
    requires Inv(s) && Enabled(s, Receive(t)) && s.threads[t].pc.op.Polling?
    ensures ThreadInv(Apply(s, Receive(t)), Apply(s, Receive(t)).threads[t])
  {
    hide Inv, Trace, PollTrace;
    Replies(s, t);
  }

  lemma LastRead(s: State, t: Tid)
    requires Inv(s) && Enabled(s, Receive(t)) && (s.threads[t].pc.op.Killing? || s.threads[t].pc.op.Cleaning?)
    ensures ThreadInv(Apply(s, Receive(t)), Apply(s, Receive(t)).threads[t])
  {
    hide Inv, Trace, PollTrace;
    Replies(s, t);
  }

  /** Reading: the reply is the thread's own, so what it takes from it is so too. */
  lemma ReceiveMoves(s: State, t: Tid)
    requires Inv(s) && Enabled(s, Receive(t))
    ensures var s' := Apply(s, Receive(t)); ThreadInv(s', s'.threads[t]) && s'.wire == []
  {
    hide Inv, ThreadInv;
    Replies(s, t);
    match s.threads[t].pc.op
    case Starting => StartRead(s, t);
    case Polling => PollRead(s, t);
    case Killing => LastRead(s, t);
    case Cleaning => LastRead(s, t);
  }

  lemma ReceiveFrame(s: State, t: Tid)
    requires Inv(s) && Enabled(s, Receive(t))
    ensures OnlyMoves(s, Apply(s, Receive(t)), t, s.threads[t].xid)
  {
    hide Inv, OnlyMoves, Alone;
    OneXidEach(s, t);
    QuietFrame(s, Apply(s, Receive(t)), t, Replied(s.threads[t], s.wire[0]));
  }

  lemma ReceiveKeeps(s: State, t: Tid)
    requires Inv(s) && Enabled(s, Receive(t))
    ensures Inv(Apply(s, Receive(t)))
  {
    hide Trace, ThreadInv, Distinct, Fits, SameFor;
    ReceiveMoves(s, t);
    ReceiveFrame(s, t);
    OthersStay(s, Apply(s, Receive(t)), t, s.threads[t].xid);
  }

  /** The remaining moves of a thread touch nothing but the thread, the lock and the link. */
  lemma MoveFrame(s: State, a: Action, t: Tid)
    requires Inv(s) && Enabled(s, a) && (a == Fail(t) || a == TimeOut(t) || a == NoticeLoss(t))
    ensures OnlyMoves(s, Apply(s, a), t, s.threads[t].xid)
  {
    hide Inv, OnlyMoves, Alone;
    OneXidEach(s, t);
    QuietFrame(s, Apply(s, a), t, Apply(s, a).threads[t]);
  }

  lemma BrokenKeeps(s: State, th: Thread)
    requires ThreadInv(s, th) && (th.pc.Locked? || th.pc.Sent?)
    ensures ThreadInv(s, Broken(th.Hears(Lost(th.pc.op))))
  {
    hide Trace, PollTrace;
  }

  lemma GivenUpKeeps(s: State, th: Thread)
    requires ThreadInv(s, th) && th.pc == Want(Polling)
    ensures ThreadInv(s, th.Hears(TooLate).(pc := Want(Killing)))
    ensures ThreadInv(s, th.Hears(Gone).(pc := Want(Cleaning), body := Error))
  {
    hide Trace, PollTrace;
  }

  lemma MoveMoves(s: State, a: Action, t: Tid)
    requires Inv(s) && Enabled(s, a) && (a == Fail(t) || a == TimeOut(t) || a == NoticeLoss(t))
    ensures ThreadInv(Apply(s, a), Apply(s, a).threads[t])
  {
    assert ThreadInv(s, s.threads[t]);
    hide Inv, ThreadInv, Broken;
    if a.Fail? {
      BrokenKeeps(s, s.threads[t]);
    } else {
      GivenUpKeeps(s, s.threads[t]);
    }
    ThreadFrame(s, Apply(s, a), Apply(s, a).threads[t]);
  }

  lemma MoveWire(s: State, a: Action, t: Tid)
    requires WireInv(s) && Enabled(s, a) && (a == Fail(t) || a == TimeOut(t) || a == NoticeLoss(t))
    ensures WireInv(Apply(s, a))
  {
  }

  lemma MoveKeeps(s: State, a: Action, t: Tid)
    requires Inv(s) && Enabled(s, a) && (a == Fail(t) || a == TimeOut(t) || a == NoticeLoss(t))
    ensures Inv(Apply(s, a))
  {
    hide Trace, Distinct, PollTrace, OnlyMoves, ThreadInv, WireInv;
    var s' := Apply(s, a);
    MoveMoves(s, a, t);
    MoveWire(s, a, t);
    MoveFrame(s, a, t);
    OthersStay(s, s', t, s.threads[t].xid);
  }

  lemma SpawnKeeps(s: State, t: Tid, immediate: bool)
    requires Inv(s) && Enabled(s, Spawn(t, immediate))
    ensures Inv(Apply(s, Spawn(t, immediate)))
  {
    hide Trace, PollTrace, Distinct, DirInv;
    var s' := Apply(s, Spawn(t, immediate));
    assert ThreadInv(s', s'.threads[t]);
    hide ThreadInv;
    OthersStay(s, s', t, 0);
    assert DirInv(s') by {
      DirFrame(s, s');
    }
  }

  lemma DirFrame(s: State, s': State)
    requires DirInv(s) && s'.dirs == s.dirs && s'.ended == s.ended && s'.log == s.log && s'.nextXid == s.nextXid
    ensures DirInv(s')
  {
  }

  /** A process ends: its own thread has nothing yet that depends on how. */
  lemma EndMoves(s: State, x: nat, how: Outcome, th: Thread)
    requires ThreadInv(s, th) && DirInv(s) && Enabled(s, End(x, how))
    ensures ThreadInv(Apply(s, End(x, how)), th)
  {
    hide Trace, PollTrace;
    if th.xid != x {
      ThreadFrame(s, Apply(s, End(x, how)), th);
    }
  }

  lemma EndWire(s: State, x: nat, how: Outcome)
    requires WireInv(s) && DirInv(s) && Enabled(s, End(x, how))
    ensures WireInv(Apply(s, End(x, how)))
  {
  }

  lemma EndKeeps(s: State, x: nat, how: Outcome)
    requires Inv(s) && Enabled(s, End(x, how))
    ensures Inv(Apply(s, End(x, how)))
  {
    hide ThreadInv, WireInv;
    var s' := Apply(s, End(x, how));
    EndWire(s, x, how);
    forall u | u in s'.threads ensures ThreadInv(s', s'.threads[u]) {
      EndMoves(s, x, how, s.threads[u]);
    }
  }

  lemma StepKeeps(s: State, a: Action)
    requires Inv(s) && Enabled(s, a)
    ensures Inv(Apply(s, a))
  {
    hide Inv, Enabled, Apply;
    match a
    case Spawn(t, immediate) => SpawnKeeps(s, t, immediate);
    case Acquire(t) => AcquireKeeps(s, t);
    case Send(t, ended) => SendKeeps(s, t, ended);
    case Receive(t) => ReceiveKeeps(s, t);
    case Fail(t) => MoveKeeps(s, a, t);
    case TimeOut(t) => MoveKeeps(s, a, t);
    case NoticeLoss(t) => MoveKeeps(s, a, t);
    case End(x, how) => EndKeeps(s, x, how);
    case Lose => LoseKeeps(s);
  }

  lemma LoseKeeps(s: State)
    requires Inv(s)
    ensures Inv(Apply(s, Lose))
  {
    hide ThreadInv;
    forall u | u in s.threads ensures ThreadInv(Apply(s, Lose), s.threads[u]) {
      ThreadFrame(s, Apply(s, Lose), s.threads[u]);
    }
  }

  lemma {:induction false} RunKeeps(run: seq<State>, i: nat)
    requires IsRun(run) && i < |run|
    ensures Inv(run[i])
  {
    hide Inv;
    if i == 0 {
      InitHolds(run[0]);
    } else {
      RunKeeps(run, i - 1);
      var a :| Enabled(run[i - 1], a) && run[i] == Apply(run[i - 1], a);
      StepKeeps(run[i - 1], a);
    }
  }

  lemma InitHolds(s: State)
    requires Init(s)
    ensures Inv(s)
  {
  }

  // ---------------------------------------------------------------- the theorems

  /** In every run, a thread whose command was polled and has returned without an error carries
      the output of its own process, which exited with status 0; its directory is gone; the agent
      started it once, polled it, and cleaned it up once, after the last poll. */
  lemma PolledSuccess(run: seq<State>, t: Tid)
    requires IsRun(run)
    requires var s := run[|run| - 1];
      t in s.threads && s.threads[t].pc == Returned && s.threads[t].body.Success?
      && WasPolled(s.threads[t].xid) in Trace(s.log, s.threads[t].xid)
    ensures var s := run[|run| - 1]; var th := s.threads[t]; var tr := Trace(s.log, th.xid);
      && th.xid in s.ended && s.ended[th.xid].exitStatus == 0 == th.body.exitStatus
      && s.ended[th.xid].stdout == th.body.stdout
      && th.xid !in s.dirs && th.xid in s.rows && s.rows[th.xid] == RowFinished
      && |tr| > 2 && PollTrace(tr[..|tr| - 1], th.xid) && tr[|tr| - 1] == WasCleaned(th.xid)
  {
    hide Trace;
    RunKeeps(run, |run| - 1);
    var s := run[|run| - 1];
    assert ThreadInv(s, s.threads[t]);
  }

  /** Reading the answer to a start.  The command returns at once, without an error, exactly
      when that answer is that the process has ended, whatever its exit status; its directory
      is then still there exactly when the command was not an immediate one. */
  lemma AnsweredAtStart(s: State, t: Tid)
    requires Inv(s) && Enabled(s, Receive(t)) && s.threads[t].pc == Sent(Starting)
    ensures var s' := Apply(s, Receive(t)); var th, r := s'.threads[t], s.wire[0];
      && (th.pc == Returned && th.body.Success? <==> r.Finished?)
      && (r.Finished? ==> th.body == Success(r.exitStatus, r.stdout) && (th.xid in s'.dirs <==> !th.immediate))
      && (!r.Finished? ==> th.pc == Want(Polling) && th.xid in s'.dirs)
  {
    hide Inv, Trace, PollTrace;
    Replies(s, t);
  }

  /** In every run, a command that has returned without an error has left its directory behind
      exactly when it was not an immediate one and the agent answered its start with a process
      that had ended.  Such a command was neither polled nor cleaned up. */
  lemma LeftBehind(run: seq<State>, t: Tid)
    requires IsRun(run)
    requires var s := run[|run| - 1]; t in s.threads && s.threads[t].pc == Returned && s.threads[t].body.Success?
    ensures var s := run[|run| - 1]; var th := s.threads[t];
      && Carries(s, th) && th.heard != [] && th.heard[0].Read?
      && (th.xid in s.dirs <==> !th.immediate && th.heard[0].reply.Finished?)
      && (if th.heard[0].reply.Finished? then Trace(s.log, th.xid) == [WasStarted(th.xid)]
          else th.heard[0].reply == Running(th.xid) && WasPolled(th.xid) in Trace(s.log, th.xid))
      && (th.xid in s.dirs ==> s.dirs[th.xid] == Complete(s.ended[th.xid]) && th.xid in s.rows && s.rows[th.xid] == RowStarted)
  {
    hide Trace;
    RunKeeps(run, |run| - 1);
    var s := run[|run| - 1];
    var th := s.threads[t];
    assert ThreadInv(s, th);
    if FoundRunning(th) && CleanedTrace(s, th) {
      var tr := Trace(s.log, th.xid);
      assert tr[1] == tr[..|tr| - 1][1] == WasPolled(th.xid);
    }
  }

  /** A run goes on with any step that is enabled. */
  lemma Extends(run: seq<State>, a: Action)
    requires IsRun(run) && Enabled(run[|run| - 1], a)
    ensures IsRun(run + [Apply(run[|run| - 1], a)])
  {
    hide Init, Apply, Enabled;
    var next := run + [Apply(run[|run| - 1], a)];
    forall i | 0 <= i < |next| - 1 ensures Next(next[i], next[i + 1]) {
      if i < |run| - 1 {
        assert Next(run[i], run[i + 1]);
      } else {
        assert Enabled(next[i], a) && next[i + 1] == Apply(next[i], a);
      }
    }
  }

  /** One thread has the lock and its first xid. */
  lemma FirstLocked(immediate: bool) returns (run: seq<State>)
    ensures IsRun(run) && run != []
    ensures var s := run[|run| - 1];
      && s.alive && s.wire == [] && s.dirs == map[]
      && s.threads == map[0 := Thread(Locked(Starting), 1, immediate, [], Pending)]
  {
    var s0 := State(map[], map[], map[], 1, true, None, [], map[], []);
    run := [s0];
    Extends(run, Spawn(0, immediate));
    var s1 := Apply(s0, Spawn(0, immediate));
    run := run + [s1];
    Extends(run, Acquire(0));
    run := run + [Apply(s1, Acquire(0))];
  }

  lemma FirstAnswered(how: Outcome, immediate: bool) returns (run: seq<State>)
    ensures IsRun(run) && run != []
    ensures var s := run[|run| - 1];
      && s.alive && s.wire == [Finished(1, how.exitStatus, how.stdout, how.stderr)]
      && (1 in s.dirs <==> !immediate) && s.threads == map[0 := Thread(Sent(Starting), 1, immediate, [], Pending)]
  {
    hide IsRun;
    run := FirstLocked(immediate);
    var s := run[|run| - 1];
    Extends(run, Send(0, Some(how)));
    run := run + [Apply(s, Send(0, Some(how)))];
  }

  /** Both happen: however its process ended, with exit status 1 for one, a command found ended
      at its start returns without an error, and unless it was immediate its directory stays. */
  lemma AnyStatusReturns(how: Outcome, immediate: bool) returns (run: seq<State>)
    ensures IsRun(run)
    ensures var s := run[|run| - 1];
      && 0 in s.threads && s.threads[0].pc == Returned && s.threads[0].body == Success(how.exitStatus, how.stdout)
      && s.threads[0].immediate == immediate && (s.threads[0].xid in s.dirs <==> !immediate)
  {
    hide IsRun;
    run := FirstAnswered(how, immediate);
    var s := run[|run| - 1];
    Extends(run, Receive(0));
    run := run + [Apply(s, Receive(0))];
  }

  /** A step changes at most one directory: that of the thread whose request the agent
      handles, or of the process that ends; and while one thread holds the lock no
      other thread's request is handled. */
  lemma StepsStayApart(s: State, a: Action, x: nat)
    requires Inv(s) && Enabled(s, a)
    requires (x in s.dirs) != (x in Apply(s, a).dirs) || (x in s.dirs && s.dirs[x] != Apply(s, a).dirs[x])
    ensures (a.End? && a.xid == x) || (a.Send? && s.threads[a.t].xid == x && s.lock == Some(a.t))
    ensures a.Send? ==> forall u :: u in s.threads && u != a.t && s.threads[u].pc != Want(Starting) ==> s.threads[u].xid != x
  {
    hide Trace, ThreadInv;
  }
}
