/** When a command succeeds: exactly when everything a thread hears from its start to its
    cleanup is well, for every run; and every output does come back in some run. */
module CliOutcome {
  import opened Wrappers
  import opened ProcessManager
  import opened CliProtocol
  import opened CliSafety

  // ---------------------------------------------------------------- one reply

  /** Reading the answer to a poll: a process that has ended with status 0 gives the body to
      return, its own output; any other status an error; one that is running is polled again. */
  lemma PollAnswered(s: State, t: Tid)
    requires Inv(s) && Enabled(s, Receive(t)) && s.threads[t].pc == Sent(Polling)
    ensures var s', r := Apply(s, Receive(t)), s.wire[0]; var th, th' := s.threads[t], s'.threads[t];
      && s'.alive && s'.lock == None && s'.wire == []
      && (r.Running? || r.Finished?) && r.xid == th.xid
      && (r.Running? ==> th'.pc == Want(Polling) && th'.body == th.body)
      && (r.Finished? ==> th'.pc == Want(Cleaning) && th'.body == if r.exitStatus == 0 then Success(0, r.stdout) else Error)
  {
    hide Inv, Trace, PollTrace;
    Replies(s, t);
  }

  /** Reading the answer to a cleanup: the body that was to be returned is. */
  lemma CleanupAnswered(s: State, t: Tid)
    requires Inv(s) && Enabled(s, Receive(t)) && s.threads[t].pc == Sent(Cleaning)
    ensures var s' := Apply(s, Receive(t)); var th, th' := s.threads[t], s'.threads[t];
      && s'.alive && s'.lock == None && s'.wire == []
      && s.wire[0] == CleanedUp(th.xid) && th'.pc == Returned && th'.body == th.body && th.xid !in s'.dirs
  {
    hide Inv, Trace, PollTrace;
    Replies(s, t);
  }

  // ---------------------------------------------------------------- what a thread has heard

  predicate Trouble(h: Heard) { !h.Read? || h.reply.Refused? }

  /** The process was found running at its start and by every poll so far. */
  predicate FoundRunningOn(hs: seq<Heard>) {
    && hs != [] && hs[0].Read? && hs[0].op.Starting? && hs[0].reply.Running?
    && forall i :: 0 < i < |hs| ==> hs[i].Read? && hs[i].op.Polling? && hs[i].reply.Running?
  }

  predicate FoundEnded(h: Heard, exitStatus: int, stdout: string) {
    h.Read? && h.op.Polling? && h.reply.Finished? && h.reply.exitStatus == exitStatus && h.reply.stdout == stdout
  }

  /** The polls are over, and this is the body they leave. */
  predicate PollsOver(hs: seq<Heard>, body: Body) {
    && |hs| > 1 && var front, last := hs[..|hs| - 1], hs[|hs| - 1];
      || (FoundRunningOn(front) && last.Read? && last.op.Polling? && last.reply.Finished?
          && body == if last.reply.exitStatus == 0 then Success(0, last.reply.stdout) else Error)
      || (FoundRunningOn(front) && Trouble(last) && body.Error?)
      || (|front| > 1 && FoundRunningOn(front[..|front| - 1]) && front[|front| - 1].TooLate? && body.Error?)
  }

  ghost predicate Over(th: Thread) {
    && th.heard != [] && var front, last := th.heard[..|th.heard| - 1], th.heard[|th.heard| - 1];
      if front == [] then
        || (last == Lost(Starting) && th.body.Error?)
        || (last.Read? && last.op.Starting? && last.reply.Finished? && th.body == Success(last.reply.exitStatus, last.reply.stdout))
      else
        || (last.Read? && last.op.Cleaning? && last.reply.CleanedUp? && PollsOver(front, th.body))
        || (last == Lost(Cleaning) && th.body.Error? && exists body :: PollsOver(front, body))
  }

  /** A thread has got where it is by what it has heard. */
  ghost predicate Tells(th: Thread) {
    match th.pc
    case Returned => Over(th)
    case _ =>
      match th.pc.op
      case Starting => th.heard == []
      case Polling => FoundRunningOn(th.heard)
      case Killing => |th.heard| > 1 && FoundRunningOn(th.heard[..|th.heard| - 1]) && th.heard[|th.heard| - 1].TooLate?
      case Cleaning => PollsOver(th.heard, th.body)
  }

  lemma Append(th: Thread, h: Heard)
    ensures var hs := th.Hears(h).heard; |hs| == |th.heard| + 1 && hs[..|hs| - 1] == th.heard && hs[|hs| - 1] == h
  {
  }

  lemma RunningStill(hs: seq<Heard>, h: Heard)
    requires FoundRunningOn(hs) && h.Read? && h.op.Polling? && h.reply.Running?
    ensures FoundRunningOn(hs + [h])
  {
  }

  lemma TroubledPoll(hs: seq<Heard>, h: Heard)
    requires FoundRunningOn(hs) && Trouble(h)
    ensures PollsOver(hs + [h], Error)
  {
    NotEmpty(hs);
    hide FoundRunningOn;
    assert (hs + [h])[..|hs|] == hs;
  }

  lemma LastPoll(hs: seq<Heard>, h: Heard)
    requires FoundRunningOn(hs) && h.Read? && h.op.Polling? && h.reply.Finished?
    ensures PollsOver(hs + [h], if h.reply.exitStatus == 0 then Success(0, h.reply.stdout) else Error)
  {
    NotEmpty(hs);
    hide FoundRunningOn;
    assert (hs + [h])[..|hs|] == hs;
  }

  lemma AfterKill(hs: seq<Heard>, h: Heard)
    requires |hs| > 1 && FoundRunningOn(hs[..|hs| - 1]) && hs[|hs| - 1].TooLate?
    ensures PollsOver(hs + [h], Error)
  {
    hide FoundRunningOn;
    assert (hs + [h])[..|hs|] == hs;
  }

  /** The replies that fit, whatever else the state is. */
  predicate Usual(th: Thread, r: Reply)
    requires th.pc.Sent?
  {
    match th.pc.op
    case Starting => (r.Running? || r.Finished?) && r.xid == th.xid
    case Polling => r.Running? || r.Finished?
    case Killing => r.Refused?
    case Cleaning => r.CleanedUp?
  }

  lemma RepliedTells(th: Thread, r: Reply)
    requires th.pc.Sent? && Tells(th) && Usual(th, r)
    ensures Tells(Replied(th, r))
  {
    hide FoundRunningOn, PollsOver;
    Append(th, Read(th.pc.op, r));
    match th.pc.op
    case Starting => OnlyOne(Read(Starting, r));
    case Polling =>
      if r.Running? {
        RunningStill(th.heard, Read(Polling, r));
      } else {
        LastPoll(th.heard, Read(Polling, r));
      }
    case Killing => AfterKill(th.heard, Read(Killing, r));
    case Cleaning => OverIsNotEmpty(th.heard, th.body);
  }

  lemma ReceiveTells(s: State, t: Tid)
    requires Inv(s) && Enabled(s, Receive(t)) && Tells(s.threads[t])
    ensures Tells(Apply(s, Receive(t)).threads[t])
  {
    hide Inv, ThreadInv, Tells, Replied;
    Replies(s, t);
    RepliedTells(s.threads[t], s.wire[0]);
  }

  lemma OverIsNotEmpty(hs: seq<Heard>, body: Body)
    requires PollsOver(hs, body)
    ensures hs != []
  {
  }

  lemma OnlyOne(h: Heard)
    ensures h.Read? && h.op.Starting? && h.reply.Running? ==> FoundRunningOn([h])
  {
  }

  lemma FailTells(th: Thread)
    requires (th.pc.Locked? || th.pc.Sent?) && Tells(th)
    ensures Tells(Broken(th.Hears(Lost(th.pc.op))))
  {
    hide FoundRunningOn, PollsOver;
    Append(th, Lost(th.pc.op));
    match th.pc.op
    case Starting =>
    case Polling => TroubledPoll(th.heard, Lost(Polling));
    case Killing => AfterKill(th.heard, Lost(Killing));
    case Cleaning =>
      OverIsNotEmpty(th.heard, th.body);
      assert PollsOver(th.heard, th.body);
  }

  lemma MoveTells(s: State, a: Action, t: Tid)
    requires Enabled(s, a) && (a == Fail(t) || a == TimeOut(t) || a == NoticeLoss(t)) && Tells(s.threads[t])
    ensures Tells(Apply(s, a).threads[t])
  {
    hide FoundRunningOn, Over, PollsOver;
    var th := s.threads[t];
    if a.Fail? {
      FailTells(th);
    } else if a.TimeOut? {
      NotEmpty(th.heard);
      Append(th, TooLate);
    } else {
      TroubledPoll(th.heard, Gone);
    }
  }

  lemma NotEmpty(hs: seq<Heard>)
    requires FoundRunningOn(hs)
    ensures hs != []
  {
  }

  lemma {:induction false} RunTells(run: seq<State>, i: nat)
    requires IsRun(run) && i < |run|
    ensures forall t :: t in run[i].threads ==> Tells(run[i].threads[t])
  {
    if i > 0 {
      RunTells(run, i - 1);
      RunKeeps(run, i - 1);
      assert Next(run[i - 1], run[i - 1 + 1]);
      var a :| Enabled(run[i - 1], a) && run[i] == Apply(run[i - 1], a);
      StepTells(run[i - 1], a);
    }
  }

  /** The action is a step of thread `t`. */
  predicate Owns(a: Action, t: Tid) {
    match a
    case Spawn(_, _) => false
    case End(_, _) => false
    case Lose => false
    case _ => a.t == t
  }

  lemma OthersStand(s: State, a: Action, t: Tid)
    requires Enabled(s, a) && !Owns(a, t) && t in Apply(s, a).threads
    ensures if t in s.threads then Apply(s, a).threads[t] == s.threads[t] else Tells(Apply(s, a).threads[t])
  {
    hide Handle, Replied, Broken, Over, PollsOver, FoundRunningOn;
  }

  lemma QuietTells(s: State, a: Action, t: Tid)
    requires Enabled(s, a) && (a.Acquire? || a.Send?) && a.t == t && Tells(s.threads[t])
    ensures Tells(Apply(s, a).threads[t])
  {
    hide Handle, Over, PollsOver, FoundRunningOn;
  }

  lemma StepTells(s: State, a: Action)
    requires Inv(s) && Enabled(s, a) && forall t :: t in s.threads ==> Tells(s.threads[t])
    ensures forall t :: t in Apply(s, a).threads ==> Tells(Apply(s, a).threads[t])
  {
    hide Inv, Tells, Apply;
    forall t | t in Apply(s, a).threads ensures Tells(Apply(s, a).threads[t]) {
      if !Owns(a, t) {
        OthersStand(s, a, t);
      } else if a.Receive? {
        ReceiveTells(s, t);
      } else if a.Acquire? || a.Send? {
        QuietTells(s, a, t);
      } else {
        MoveTells(s, a, t);
      }
    }
  }

  // ---------------------------------------------------------------- the theorem

  /** The agent answered the last poll with a process that had ended with status 0. */
  predicate EndedWellAtLastPoll(hs: seq<Heard>, stdout: string) {
    |hs| > 2 && FoundEnded(hs[|hs| - 2], 0, stdout)
  }

  predicate Untroubled(hs: seq<Heard>) { forall i :: 0 <= i < |hs| ==> !Trouble(hs[i]) }

  lemma RunningIsUntroubled(hs: seq<Heard>)
    requires FoundRunningOn(hs)
    ensures Untroubled(hs) && forall i :: 0 <= i < |hs| ==> !hs[i].Read? || hs[i].reply.Running?
  {
  }

  /** In every run, a command that was found running at its start and has returned is a
      success exactly when the last poll found its process ended with status 0, and every
      request, the cleanup too, was answered; it then carries the output so reported. */
  lemma PolledSuccessIff(run: seq<State>, t: Tid, stdout: string)
    requires IsRun(run)
    requires var s := run[|run| - 1]; t in s.threads && s.threads[t].pc == Returned
    requires var hs := run[|run| - 1].threads[t].heard; hs != [] && hs[0].Read? && hs[0].reply.Running?
    ensures var th := run[|run| - 1].threads[t];
      && (th.body == Success(0, stdout) <==> Untroubled(th.heard) && EndedWellAtLastPoll(th.heard, stdout))
      && (th.body.Success? ==> th.body.exitStatus == 0)
  {
    RunTells(run, |run| - 1);
    var th := run[|run| - 1].threads[t];
    OverMeans(th, stdout);
  }

  lemma OverMeans(th: Thread, stdout: string)
    requires Over(th) && th.heard[0].Read? && th.heard[0].reply.Running?
    ensures th.body == Success(0, stdout) <==> Untroubled(th.heard) && EndedWellAtLastPoll(th.heard, stdout)
    ensures th.body.Success? ==> th.body.exitStatus == 0
  {
    var hs := th.heard;
    var n := |hs| - 1;
    var front, last := hs[..n], hs[n];
    assert front != [];
    if last == Lost(Cleaning) {
      assert Trouble(hs[n]);
    } else {
      PollsOverMeans(front, th.body, stdout);
      assert hs[n - 1] == front[n - 1];
      assert Untroubled(hs) <==> Untroubled(front) by {
        assert forall i :: 0 <= i < n ==> hs[i] == front[i];
      }
    }
  }

  lemma PollsOverMeans(hs: seq<Heard>, body: Body, stdout: string)
    requires PollsOver(hs, body)
    ensures body == Success(0, stdout) <==> Untroubled(hs) && FoundEnded(hs[|hs| - 1], 0, stdout)
    ensures body.Success? ==> body.exitStatus == 0
  {
    var n := |hs| - 1;
    var front, last := hs[..n], hs[n];
    if FoundRunningOn(front) {
      RunningIsUntroubled(front);
      assert forall i :: 0 <= i < n ==> hs[i] == front[i];
    } else {
      assert Trouble(hs[n - 1]) by {
        assert hs[n - 1] == front[n - 1];
      }
    }
  }

  // ---------------------------------------------------------------- giving up

  /** Reading the answer to a kill, which no agent knows: it costs the connection. */
  lemma KillAnswered(s: State, t: Tid)
    requires Inv(s) && Enabled(s, Receive(t)) && s.threads[t].pc == Sent(Killing)
    ensures var s' := Apply(s, Receive(t)); var th, th' := s.threads[t], s'.threads[t];
      && s.wire[0] == Refused && !s'.alive && s'.lock == None && s'.wire == []
      && th'.pc == Want(Cleaning) && th'.body == Error && th.xid in s'.dirs
  {
    hide Trace, PollTrace, CleanedTrace, StartedOnly, DirInv, Distinct;
    assert ThreadInv(s, s.threads[t]);
    hide ThreadInv, Inv;
    Replies(s, t);
  }

  /** A command that ran out of time: it is killed, and then there is no connection over which
      to clean up. */
  ghost predicate GivesUp(s: State, th: Thread) {
    TooLate in th.heard ==>
      if th.pc == Returned then !s.alive && th.body.Error? && th.xid in s.dirs && th.heard[|th.heard| - 1] == Lost(Cleaning)
      else th.pc.op.Killing? || (th.pc.op.Cleaning? && !th.pc.Sent? && !s.alive)
  }

  lemma NeverTooLate(hs: seq<Heard>)
    requires FoundRunningOn(hs)
    ensures TooLate !in hs
  {
  }

  lemma OwnDirectory(s: State, t: Tid)
    requires Inv(s) && t in s.threads && s.threads[t].pc == Locked(Cleaning)
    ensures s.threads[t].xid in s.dirs
  {
    hide Trace, PollTrace, DirInv, Distinct, WireInv;
    assert ThreadInv(s, s.threads[t]);
  }

  /** A lost connection stays lost, and nothing is removed without one. */
  lemma LostForGood(s: State, a: Action, x: nat)
    requires Enabled(s, a) && !s.alive
    ensures !Apply(s, a).alive && (x in s.dirs ==> x in Apply(s, a).dirs)
  {
    hide Handle, Replied;
  }

  lemma OthersGiveUp(s: State, a: Action, t: Tid)
    requires Enabled(s, a) && t in s.threads && !Owns(a, t) && GivesUp(s, s.threads[t])
    ensures t in Apply(s, a).threads && GivesUp(Apply(s, a), Apply(s, a).threads[t])
  {
    hide Handle, Replied, Broken;
    if !s.alive {
      LostForGood(s, a, s.threads[t].xid);
    }
  }

  lemma AnswerGivesUp(s: State, t: Tid)
    requires Inv(s) && Enabled(s, Receive(t)) && Tells(s.threads[t]) && GivesUp(s, s.threads[t])
    ensures GivesUp(Apply(s, Receive(t)), Apply(s, Receive(t)).threads[t])
  {
    hide Inv, Over, PollsOver, FoundRunningOn;
    var th := s.threads[t];
    if th.pc.op.Polling? {
      NeverTooLate(th.heard);
    } else if th.pc.op.Killing? {
      KillAnswered(s, t);
    }
  }

  lemma FailureGivesUp(s: State, t: Tid)
    requires Inv(s) && Enabled(s, Fail(t)) && Tells(s.threads[t]) && GivesUp(s, s.threads[t])
    ensures GivesUp(Apply(s, Fail(t)), Apply(s, Fail(t)).threads[t])
  {
    hide Inv, Over, PollsOver, FoundRunningOn;
    var th := s.threads[t];
    if th.pc.op.Polling? {
      NeverTooLate(th.heard);
    } else if th.pc == Locked(Cleaning) {
      OwnDirectory(s, t);
    }
  }

  lemma OwnGivesUp(s: State, a: Action, t: Tid)
    requires Enabled(s, a) && Owns(a, t) && !a.Receive? && !a.Fail? && Tells(s.threads[t]) && GivesUp(s, s.threads[t])
    ensures GivesUp(Apply(s, a), Apply(s, a).threads[t])
  {
    hide Over, PollsOver, FoundRunningOn, Handle, Replied, Broken;
    if s.threads[t].pc.op.Polling? {
      NeverTooLate(s.threads[t].heard);
    }
  }

  lemma StepGivesUp(s: State, a: Action, t: Tid)
    requires Inv(s) && Enabled(s, a) && t in s.threads && Tells(s.threads[t]) && GivesUp(s, s.threads[t])
    ensures GivesUp(Apply(s, a), Apply(s, a).threads[t])
  {
    hide Inv, Tells, GivesUp, Apply, Enabled;
    if a == Receive(t) {
      AnswerGivesUp(s, t);
    } else if a == Fail(t) {
      FailureGivesUp(s, t);
    } else if Owns(a, t) {
      OwnGivesUp(s, a, t);
    } else {
      OthersGiveUp(s, a, t);
    }
  }

  lemma {:induction false} RunGivesUp(run: seq<State>, i: nat)
    requires IsRun(run) && i < |run|
    ensures forall t :: t in run[i].threads ==> GivesUp(run[i], run[i].threads[t])
  {
    hide Inv, Tells, GivesUp, Apply, Enabled;
    if i == 0 {
      assert run[0].threads == map[];
    } else {
      RunGivesUp(run, i - 1);
      RunTells(run, i - 1);
      RunKeeps(run, i - 1);
      assert Next(run[i - 1], run[i - 1 + 1]);
      var a :| Enabled(run[i - 1], a) && run[i] == Apply(run[i - 1], a);
      AllGiveUp(run[i - 1], a);
    }
  }

  lemma AllGiveUp(s: State, a: Action)
    requires Inv(s) && Enabled(s, a)
    requires forall t :: t in s.threads ==> Tells(s.threads[t]) && GivesUp(s, s.threads[t])
    ensures forall t :: t in Apply(s, a).threads ==> GivesUp(Apply(s, a), Apply(s, a).threads[t])
  {
    hide Inv, Tells, GivesUp, Apply, Enabled;
    forall t | t in Apply(s, a).threads ensures GivesUp(Apply(s, a), Apply(s, a).threads[t]) {
      if t in s.threads {
        StepGivesUp(s, a, t);
      } else {
        NewThread(s, a, t);
      }
    }
  }

  lemma NewThread(s: State, a: Action, t: Tid)
    requires Enabled(s, a) && t !in s.threads && t in Apply(s, a).threads
    ensures GivesUp(Apply(s, a), Apply(s, a).threads[t])
  {
  }

  /** In every run, a command that ran out of time and has returned is an error, has cost the
      connection, and has left its directory behind: its cleanup was never sent. */
  lemma TimedOutStays(run: seq<State>, t: Tid)
    requires IsRun(run)
    requires var s := run[|run| - 1]; t in s.threads && s.threads[t].pc == Returned && TooLate in s.threads[t].heard
    ensures var s := run[|run| - 1]; var th := s.threads[t];
      th.body == Error && !s.alive && th.xid in s.dirs && th.heard[|th.heard| - 1] == Lost(Cleaning)
  {
    RunGivesUp(run, |run| - 1);
  }

  // ---------------------------------------------------------------- it does happen

  /** One thread, between two requests over a live connection. */
  ghost predicate Idle(s: State, th: Thread) {
    s.alive && s.wire == [] && s.lock.None? && s.threads == map[0 := th]
  }

  /** The thread takes the lock, sends its request, and reads the reply. */
  lemma AsksOnce(run: seq<State>, th: Thread) returns (run': seq<State>)
    requires IsRun(run) && Idle(run[|run| - 1], th) && th.pc.Want? && !th.pc.op.Starting?
    requires !Drops(th.(pc := Sent(th.pc.op)), Handle(run[|run| - 1].dirs, RequestOf(th.(pc := Locked(th.pc.op)), None)).1)
    ensures IsRun(run') && run' != []
    ensures var s, s' := run[|run| - 1], run'[|run'| - 1];
      var (dirs, r) := Handle(s.dirs, RequestOf(th.(pc := Locked(th.pc.op)), None));
      s'.dirs == dirs && Idle(s', Replied(th.(pc := Sent(th.pc.op)), r))
  {
    assert run != [];
    hide IsRun, Handle, Replied, Drops;
    var s := run[|run| - 1];
    var s1 := Apply(s, Acquire(0));
    Extends(run, Acquire(0));
    run' := run + [s1];
    Extends(run', Send(0, None));
    var s2 := Apply(s1, Send(0, None));
    run' := run' + [s2];
    Extends(run', Receive(0));
    run' := run' + [Apply(s2, Receive(0))];
    assert Apply(s2, Receive(0)).threads.Keys == {0};
  }

  /** A command is started, and found running. */
  lemma StartsRunning() returns (run: seq<State>, th: Thread)
    ensures IsRun(run) && run != [] && Idle(run[|run| - 1], th) && run[|run| - 1].dirs == map[1 := Dir(None, "", "")]
    ensures th == Thread(Want(Polling), 1, false, [Read(Starting, Running(1))], Pending)
  {
    hide IsRun;
    run := FirstLocked(false);
    var s := run[|run| - 1];
    Extends(run, Send(0, None));
    var s1 := Apply(s, Send(0, None));
    run := run + [s1];
    Extends(run, Receive(0));
    run := run + [Apply(s1, Receive(0))];
    th := Thread(Want(Polling), 1, false, [Read(Starting, Running(1))], Pending);
    assert run[|run| - 1].threads[0] == th && run[|run| - 1].threads.Keys == {0};
  }

  /** It is polled, ends as `how` says, and is polled again. */
  lemma PolledTwice(how: Outcome) returns (run: seq<State>, th: Thread)
    ensures IsRun(run) && run != [] && Idle(run[|run| - 1], th) && run[|run| - 1].dirs == map[1 := Complete(how)]
    ensures th.pc == Want(Cleaning) && th.xid == 1
    ensures th.body == if how.exitStatus == 0 then Success(0, how.stdout) else Error
  {
    hide IsRun;
    run, th := StartsRunning();
    run := AsksOnce(run, th);
    th := th.Hears(Read(Polling, Running(1)));
    assert Idle(run[|run| - 1], th);
    Extends(run, End(1, how));
    run := run + [Apply(run[|run| - 1], End(1, how))];
    assert run[|run| - 1].dirs == map[1 := Complete(how)];
    run := AsksOnce(run, th);
    th := run[|run| - 1].threads[0];
  }

  /** However its process ends, there is a run in which a command is polled and returns: with
      its output for exit status 0, with an error for any other. */
  lemma AnyOutputReturns(how: Outcome) returns (run: seq<State>)
    ensures IsRun(run)
    ensures var s := run[|run| - 1];
      && 0 in s.threads && s.threads[0].pc == Returned && s.threads[0].xid !in s.dirs
      && s.threads[0].body == if how.exitStatus == 0 then Success(0, how.stdout) else Error
  {
    hide IsRun;
    var th;
    run, th := PolledTwice(how);
    run := AsksOnce(run, th);
  }

  lemma OneStep(run: seq<State>, a: Action) returns (run': seq<State>)
    requires IsRun(run) && run != [] && Enabled(run[|run| - 1], a)
    ensures IsRun(run') && run' != [] && run'[|run'| - 1] == Apply(run[|run| - 1], a)
  {
    hide IsRun, Apply, Enabled;
    Extends(run, a);
    run' := run + [Apply(run[|run| - 1], a)];
  }

  lemma RunsOutOfTime() returns (run: seq<State>, th: Thread)
    ensures IsRun(run) && run != [] && Idle(run[|run| - 1], th) && run[|run| - 1].dirs == map[1 := Dir(None, "", "")]
    ensures th.pc == Want(Killing) && TooLate in th.heard
  {
    hide IsRun;
    run, th := StartsRunning();
    var heard := th.heard;
    run := OneStep(run, TimeOut(0));
    th := run[|run| - 1].threads[0];
    assert th.heard == heard + [TooLate] && th.heard[1] == TooLate;
    assert run[|run| - 1].threads.Keys == {0};
  }

  /** A command that runs out of time is killed, which loses the connection. */
  lemma KilledWhileRunning() returns (run: seq<State>, th: Thread)
    ensures IsRun(run) && run != []
    ensures th.pc == Want(Cleaning) && TooLate in th.heard
    ensures var s := run[|run| - 1]; s.lock == None && s.threads == map[0 := th] && s.dirs == map[1 := Dir(None, "", "")]
  {
    hide IsRun;
    run, th := RunsOutOfTime();
    var heard := th.heard;
    run := OneStep(run, Acquire(0));
    run := OneStep(run, Send(0, None));
    run := OneStep(run, Receive(0));
    th := run[|run| - 1].threads[0];
    assert th.heard == heard + [Read(Killing, Refused)];
    assert run[|run| - 1].threads.Keys == {0};
  }

  /** So commands do run out of time: this one returns while its process still runs. */
  lemma TimedOutReachable() returns (run: seq<State>)
    ensures IsRun(run)
    ensures var s := run[|run| - 1];
      && 0 in s.threads && s.threads[0].pc == Returned && TooLate in s.threads[0].heard
      && s.dirs == map[1 := Dir(None, "", "")]
  {
    hide IsRun;
    var th;
    run, th := KilledWhileRunning();
    run := OneStep(run, Acquire(0));
    run := OneStep(run, Fail(0));
  }
}
