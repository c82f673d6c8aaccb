/** What every interleaving of user actions on one agent keeps. */
module UserSafety {
  import opened Wrappers
  import opened UserActions

  // ---------------------------------------------------------------- what is promised

  /** The action that a main state shows at work. */
  predicate Doing(kind: Kind, m: MainState) {
    match m
    case Starting => kind.Start?
    case Stopping => kind.Stop?
    case Restarting => kind.Restart?
    case StoppingRestore => kind.Restore?
    case StartingRestore => kind.Restore?
    case StartedBackup => kind.Backup?
    case StoppedBackup => kind.Backup?
    case StartedFiledel => kind.DeleteFile?
    case StoppedFiledel => kind.DeleteFile?
    case StartedZiplogs => kind.ZipLogs?
    case StoppedZiplogs => kind.ZipLogs?
    case StartedCleanup => kind.Cleanup?
    case StoppedCleanup => kind.Cleanup?
    case StartedBackupRestore => kind.Restore?
    case StoppedBackupRestore => kind.Restore?
    case StartedBackupStop => kind.Stop?
    case StartedBackupRestart => kind.Restart?
    case _ => false
  }

  /** A state that only a status check after the action would have replaced. */
  predicate Unsettled(kind: Kind, m: MainState) {
    (m.Stopping? && kind.Stop?) || (m.Restarting? && kind.Restart?) || (m.StartingRestore? && kind.Restore?)
  }

  /** The action ended in the step whose state only a status check replaces: a stop, whether it
      succeeded or not, a restart that failed, or a restore that succeeded. */
  predicate EndsUnsettled(kind: Kind, sent: seq<Sent>) {
    sent != [] && var last := sent[|sent| - 1];
      match kind
      case Stop => last.command.RunStop?
      case Restart => last == Sent(RunRestart, false)
      case Restore => last == Sent(RunRestore, true)
      case _ => false
  }

  predicate Settled(m: MainState) { Up(m) || Down(m) }

  function If(b: bool, c: Command): seq<Command> { if b then [c] else [] }

  function Opening(req: Request): seq<Command> { If(req.licenseCheck, CheckLicense) + If(req.backupFirst, RunBackup) }

  /** The commands of an action that succeeds throughout, in order. */
  function Plan(req: Request, running: bool): seq<Command> {
    match req.kind
    case Backup => [RunBackup]
    case DeleteFile => [RunDelete]
    case ZipLogs => [RunZipLogs]
    case Cleanup => [RunCleanup]
    case Start => [RunStart]
    case Stop => Opening(req) + [RunStop]
    case Restart => Opening(req) + [RunRestart]
    case Restore => Opening(req) + If(running, RunStop) + [RunRestore]
    case StatusCheck => []
  }

  /** The agent is sent a plan's commands from the first, and nothing after one that failed. */
  predicate Follows(plan: seq<Command>, sent: seq<Sent>) {
    && |sent| <= |plan|
    && (forall i :: 0 <= i < |sent| ==> sent[i].command == plan[i])
    && (forall i :: 0 <= i < |sent| - 1 ==> sent[i].ok)
  }

  /** The main state an action leaves, given the one it found and what it sent. */
  predicate Leaves(req: Request, found: MainState, main: MainState, sent: seq<Sent>) {
    var last := if sent == [] then Sent(CheckLicense, false) else sent[|sent| - 1];
    match req.kind
    case Start =>
      if sent == [] then main == found
      else Down(found) && main == if last.ok then Started else Stopped
    case Stop =>
      if last.command.RunStop? then Up(found) && (main.Stopping? || Settled(main)) else main == found
    case Restart =>
      if last.command.RunRestart? then Settled(found) && (if last.ok then main.Started? else main.Restarting? || Settled(main))
      else main == found
    case Restore =>
      if last.command.RunRestore? && last.ok then Settled(found) && (main.StartingRestore? || Settled(main))
      else
        || main == found
        || (Settled(found) && Settled(main) && (last.ok || last.command.RunStop? || last.command.RunRestore? || sent == []))
    case StatusCheck => main == found || Settled(main)
    case _ => main == found
  }

  /** The lock's history: taken and let go of in turn, by one session at a time; nobody
      moves the main state in between; each action leaves what it is to leave. */
  ghost predicate Bracketed(log: seq<Event>) {
    forall i :: 0 <= i < |log| ==> Bracket(log[..i], log[i])
  }

  ghost predicate Bracket(before: seq<Event>, e: Event) {
    if |before| % 2 == 0 then e.Took? && (before != [] ==> e.main == before[|before| - 1].main)
    else
      var took := before[|before| - 1];
      && e.LetGo? && took.Took? && e.sid == took.sid && e.req == took.req
      && Leaves(e.req, took.main, e.main, e.sent) && RestsUnless(took.main, e)
      && (Follows(Plan(e.req, true), e.sent) || Follows(Plan(e.req, false), e.sent))
  }

  /** Something is left under way by an action exactly when its status check recorded nothing
      and it either ended in such a step or found something left under way. */
  predicate RestsUnless(found: MainState, e: Event)
    requires e.LetGo?
  {
    !AtRest(e.main) <==> e.recorded.None? && (EndsUnsettled(e.req.kind, e.sent) || !AtRest(found))
  }

  /** The last action to end unsettled was not followed by a status check that recorded
      anything, its own or another's. */
  predicate LeftUnsettled(log: seq<Event>) {
    log != [] && var front, e := log[..|log| - 1], log[|log| - 1];
      if e.Took? then LeftUnsettled(front)
      else e.recorded.None? && (EndsUnsettled(e.req.kind, e.sent) || LeftUnsettled(front))
  }

  // ---------------------------------------------------------------- the invariant

  /** `sent` is all of the plan but for its last `n` commands, and all of it succeeded. */
  predicate Before(plan: seq<Command>, sent: seq<Sent>, n: nat) {
    |sent| + n == |plan| && forall i :: 0 <= i < |sent| ==> sent[i] == Sent(plan[i], true)
  }

  predicate Restored(me: Memory, main: MainState) {
    main.StartingRestore? && me.sent != [] && me.sent[|me.sent| - 1] == Sent(RunRestore, true)
  }

  /** The action may leave any state that a status check sets. */
  predicate Rechecks(me: Memory) {
    && Leaves(me.req, me.found, Started, me.sent) && Leaves(me.req, me.found, Degraded, me.sent)
    && Leaves(me.req, me.found, Stopped, me.sent) && Leaves(me.req, me.found, StoppedUnexpected, me.sent)
  }

  /** Nothing has been done yet. */
  predicate AtReading(me: Memory, main: MainState) { me.recorded.None? && main == me.found && me.sent == [] }

  predicate AtLicense(me: Memory, main: MainState) {
    && me.recorded.None? && me.sent == [] && me.req.licenseCheck && Admits(me.req.kind, me.found)
    && (if me.req.kind.Restore? then Doing(Restore, main) else main == me.found && (me.req.kind.Stop? || me.req.kind.Restart?))
  }

  predicate AtBackup(me: Memory, main: MainState) {
    && me.recorded.None? && me.req.backupFirst && Admits(me.req.kind, me.found) && Doing(me.req.kind, main)
    && (me.req.kind.Stop? || me.req.kind.Restart? || me.req.kind.Restore?)
    && Before(If(me.req.licenseCheck, CheckLicense), me.sent, 0)
  }

  predicate AtRestoring(me: Memory, main: MainState) {
    && me.recorded.None? && me.req.kind.Restore? && Settled(me.found) && Doing(Restore, main)
    && Before(Opening(me.req), me.sent, 0)
  }

  predicate AtStop(me: Memory, main: MainState) {
    && me.recorded.None? && me.req.kind.Restore? && Settled(me.found) && main.StoppingRestore? && me.sawRunning
    && Before(Plan(me.req, true), me.sent, 2)
  }

  predicate AtWork(me: Memory, main: MainState) {
    && me.recorded.None? && !me.req.kind.StatusCheck? && Admits(me.req.kind, me.found) && WorksIn(me.req.kind, me.found, main)
    && Before(Plan(me.req, me.sawRunning), me.sent, 1)
  }

  predicate AtCheck(me: Memory, main: MainState) {
    && me.recorded.None? && (me.req.kind.Restore? ==> main == me.found || Restored(me, main))
    && (me.req.kind.StatusCheck? ==> main == me.found) && (EndsUnsettled(me.req.kind, me.sent) ==> Unsettled(me.req.kind, main))
  }

  predicate AtRelease(me: Memory, main: MainState) {
    && Leaves(me.req, me.found, main, me.sent) && Follows(Plan(me.req, me.sawRunning), me.sent)
    && (if me.recorded.Some? then AtRest(main)
        else (EndsUnsettled(me.req.kind, me.sent) ==> Unsettled(me.req.kind, main)) && (me.req.kind.StatusCheck? ==> main == me.found))
  }

  /** A session at `pc` may find the main state to be `main`. */
  predicate Fits(me: Memory, pc: Pc, main: MainState) {
    match pc
    case ReadState => AtReading(me, main) && !me.req.kind.StatusCheck?
    case CheckFile => AtReading(me, main) && me.req.kind.Restore? && Settled(me.found)
    case ReadStatus => AtReading(me, main) && ReadsStatus(me.req.kind) && Admits(me.req.kind, me.found)
    case License => AtLicense(me, main)
    case BackupFirst => AtBackup(me, main)
    case FetchFile => AtRestoring(me, main)
    case ReadStatusAgain => AtRestoring(me, main)
    case StopFirst => AtStop(me, main)
    case Work => AtWork(me, main)
    case Put(to, next) => Fits(me, next, to) && !next.Put? && AtRest(me.found) && (AtRest(to) || Doing(me.req.kind, to))
    case Check(next) => AtCheck(me, main) && ChecksOnto(me, next, main)
    case Release => AtRelease(me, main)
  }

  predicate ReadsStatus(kind: Kind) { kind.Backup? || kind.Start? || kind.Stop? || kind.Restart? || kind.Restore? }

  /** After a status check comes the release, or the state a start ends in. */
  predicate ChecksOnto(me: Memory, next: Pc, main: MainState) {
    if next.Put? then next.next.Release? && AtRest(next.to) && AtRest(me.found) && AtRelease(me, next.to)
    else next.Release? && Rechecks(me) && AtRelease(me, main)
  }

  /** The main state while an action does its main work. */
  predicate WorksIn(kind: Kind, found: MainState, main: MainState) {
    match kind
    case Backup => main.StartedBackup? || main.StoppedBackup?
    case DeleteFile => if Up(found) then main.StartedFiledel? else main.StoppedFiledel?
    case ZipLogs => if Up(found) then main.StartedZiplogs? else main.StoppedZiplogs?
    case Cleanup => if Up(found) then main.StartedCleanup? else main.StoppedCleanup?
    case Start => main.Starting?
    case Stop => main.Stopping?
    case Restart => main.Restarting?
    case Restore => main.StartingRestore?
    case StatusCheck => false
  }

  /** Between the steps of a session: the main state is at rest, or that of the action, or what
      the action found; and a status check has put it to rest. */
  predicate Shows(me: Memory, main: MainState) {
    && (AtRest(main) || Doing(me.req.kind, main) || main == me.found)
    && (if me.recorded.Some? then AtRest(main) else !AtRest(me.found) ==> main == me.found)
  }

  ghost predicate Held(s: State, sid: Sid) {
    && s.lock == Lock(Some(sid), 1) && s.sessions.Keys == {sid} && |s.log| % 2 == 1
    && var se := s.sessions[sid];
       && s.log[|s.log| - 1] == Took(sid, se.me.req, se.me.found)
       && Fits(se.me, se.pc, s.main) && Shows(se.me, s.main)
       && (AtRest(se.me.found) <==> !LeftUnsettled(s.log))
  }

  ghost predicate Free(s: State) {
    && s.lock == Lock(None, 0) && s.sessions == map[] && |s.log| % 2 == 0
    && (s.log != [] ==> s.log[|s.log| - 1].main == s.main)
    && (AtRest(s.main) <==> !LeftUnsettled(s.log))
  }

  ghost predicate Inv(s: State) {
    && (if s.lock.owner.Some? then Held(s, s.lock.owner.value) else Free(s))
    && Bracketed(s.log)
  }

  // ---------------------------------------------------------------- one step of a session

  lemma SendNext(plan: seq<Command>, sent: seq<Sent>, n: nat, ok: bool)
    requires Before(plan, sent, n + 1)
    ensures var sent' := sent + [Sent(plan[|sent|], ok)]; Follows(plan, sent') && (ok ==> Before(plan, sent', n))
  {
  }

  lemma Extend(plan: seq<Command>, more: seq<Command>, sent: seq<Sent>)
    requires Before(plan, sent, 0)
    ensures Before(plan + more, sent, |more|) && Follows(plan + more, sent)
  {
  }

  lemma FollowsMore(plan: seq<Command>, more: seq<Command>, sent: seq<Sent>)
    requires Follows(plan, sent)
    ensures Follows(plan + more, sent)
  {
  }

  lemma LastCommand(req: Request, running: bool)
    requires !req.kind.StatusCheck?
    ensures var plan := Plan(req, running); |plan| > 0 && plan[|plan| - 1] == CommandOf(req.kind)
  {
  }

  /** The last command, if any, does not leave a state behind that needs a status check. */
  predicate Plainly(me: Memory) { me.recorded.None? && !EndsUnsettled(me.req.kind, me.sent) && !me.req.kind.StatusCheck? }

  lemma PutsBack(me: Memory, main: MainState)
    requires Plainly(me) && AtRest(me.found)
    requires Leaves(me.req, me.found, me.found, me.sent) && Follows(Plan(me.req, me.sawRunning), me.sent)
    ensures Fits(me, Put(me.found, Release), main)
  {
    hide Leaves, Plan, Follows, EndsUnsettled;
  }

  /** A restore that fails. */
  predicate Failed(me: Memory) {
    && me.req.kind.Restore? && Plainly(me) && Settled(me.found) && Follows(Plan(me.req, me.sawRunning), me.sent)
    && (me.sent == [] || me.sent[|me.sent| - 1].ok
        || me.sent[|me.sent| - 1].command.RunStop? || me.sent[|me.sent| - 1].command.RunRestore?)
  }

  lemma FailedLeaves(me: Memory, m: MainState)
    requires Failed(me) && Settled(m)
    ensures Leaves(me.req, me.found, m, me.sent)
  {
    hide Follows, Plan;
  }

  /** It puts the main state back and checks the status. */
  lemma PutsBackAndChecks(me: Memory, main: MainState)
    requires Failed(me)
    ensures Fits(me, Put(me.found, Check(Release)), main)
  {
    FailedLeaves(me, Started);
    FailedLeaves(me, Degraded);
    FailedLeaves(me, Stopped);
    FailedLeaves(me, StoppedUnexpected);
    FailedLeaves(me, me.found);
    hide Leaves, Plan, Follows, EndsUnsettled, Restored;
  }

  lemma Refused(me: Memory, main: MainState)
    requires AtReading(me, main) && !me.req.kind.StatusCheck?
    ensures AtRelease(me, main)
  {
  }

  lemma FitsReading(se: Session, main: MainState, status: Reported, ok: bool, settled: Option<MainState>)
    requires Fits(se.me, se.pc, main) && (se.pc.ReadState? || se.pc.CheckFile?)
    ensures var se' := Advance(se, main, status, ok, settled); Fits(se'.me, se'.pc, main)
  {
    Refused(se.me, main);
    hide AtRelease;
    if se.pc.ReadState? {
      AfterReading(se.me, main);
    }
    hide AfterState;
  }

  lemma AfterReading(me: Memory, main: MainState)
    requires AtReading(me, main) && !me.req.kind.StatusCheck?
    ensures Fits(me, AfterState(me.req.kind, main), main)
  {
    Refused(me, main);
    hide AtRelease;
    if me.req.kind.DeleteFile? || me.req.kind.ZipLogs? || me.req.kind.Cleanup? {
      WorkAhead(me, Marker(me.req.kind, Up(main)));
      hide AtWork, AtCheck, AtLicense, AtBackup, AtRestoring, AtStop;
    }
  }

  /** A plan of one command is about to be carried out. */
  lemma WorkAhead(me: Memory, marker: MainState)
    requires me.recorded.None? && me.sent == [] && (me.req.kind.DeleteFile? || me.req.kind.ZipLogs? || me.req.kind.Cleanup?)
    requires Admits(me.req.kind, me.found) ==> WorksIn(me.req.kind, me.found, marker)
    ensures Admits(me.req.kind, me.found) ==> AtWork(me, marker)
  {
  }

  lemma AfterRestoreStatus(me: Memory, status: Reported)
    requires Fits(me, ReadStatus, me.found) && me.req.kind.Restore?
    ensures Fits(me, AfterStatus(me.req, status), me.found)
  {
    hide Plan, WorksIn, Follows, Leaves, EndsUnsettled;
    RefusedStatus(me);
  }

  lemma RefusedStatus(me: Memory)
    requires Fits(me, ReadStatus, me.found)
    ensures AtRelease(me, me.found)
  {
    Refused(me, me.found);
  }

  lemma AfterOtherStatus(me: Memory, status: Reported)
    requires Fits(me, ReadStatus, me.found) && (me.req.kind.Stop? || me.req.kind.Restart?)
    ensures Fits(me, AfterStatus(me.req, status), me.found)
  {
    RefusedStatus(me);
    hide Follows, Leaves, EndsUnsettled, AtRelease;
  }

  lemma AfterPlainStatus(me: Memory, status: Reported)
    requires Fits(me, ReadStatus, me.found) && (me.req.kind.Backup? || me.req.kind.Start?)
    ensures Fits(me, AfterStatus(me.req, status), me.found)
  {
    RefusedStatus(me);
    hide Follows, Leaves, EndsUnsettled, AtRelease, If, Opening;
  }

  lemma FitsStatus(se: Session, main: MainState, status: Reported, ok: bool, settled: Option<MainState>)
    requires Fits(se.me, se.pc, main) && se.pc.ReadStatus?
    ensures var se' := Advance(se, main, status, ok, settled); Fits(se'.me, se'.pc, main)
  {
    var me := Recall(se, main, status, ok, settled);
    assert Fits(me, ReadStatus, main) && me.found == main;
    assert ReadsStatus(me.req.kind);
    hide Fits, AfterStatus;
    if me.req.kind.Restore? {
      AfterRestoreStatus(me, status);
    } else if me.req.kind.Stop? || me.req.kind.Restart? {
      AfterOtherStatus(me, status);
    } else {
      AfterPlainStatus(me, status);
    }
  }

  /** The license check is over, and `me` says how it ended. */
  predicate Licensed(me: Memory, ok: bool) {
    && me.recorded.None? && me.req.licenseCheck && Admits(me.req.kind, me.found) && me.sent == [Sent(CheckLicense, ok)]
    && (me.req.kind.Restore? || me.req.kind.Stop? || me.req.kind.Restart?)
  }

  lemma AfterRefusal(me: Memory, main: MainState)
    requires Licensed(me, false)
    ensures Fits(me, Put(me.found, Release), main)
  {
    assert Follows(Plan(me.req, me.sawRunning), me.sent);
    PutsBack(me, main);
    hide Fits;
  }

  lemma AfterLicensed(me: Memory, main: MainState)
    requires Licensed(me, true) && (if me.req.kind.Restore? then Doing(Restore, main) else main == me.found)
    ensures Fits(me, AfterLicense(me.req), main)
  {
    hide AtRelease, AtCheck, AtReading, AtLicense, AtStop;
  }

  lemma FitsLicense(se: Session, main: MainState, status: Reported, ok: bool, settled: Option<MainState>)
    requires Fits(se.me, se.pc, main) && se.pc.License?
    ensures var se' := Advance(se, main, status, ok, settled); Fits(se'.me, se'.pc, main)
  {
    var me := Recall(se, main, status, ok, settled);
    assert Licensed(me, ok);
    hide Fits, Licensed;
    if ok {
      AfterLicensed(me, main);
    } else {
      AfterRefusal(me, main);
    }
  }

  /** The opening is over, and `me` says how its last command ended. */
  predicate Opened(me: Memory, ok: bool) {
    && me.recorded.None? && Follows(Opening(me.req), me.sent) && (ok ==> Before(Opening(me.req), me.sent, 0))
    && me.sent != [] && me.sent[|me.sent| - 1].command.RunBackup? && me.sent[|me.sent| - 1].ok == ok
    && Admits(me.req.kind, me.found) && (me.req.kind.Restore? || me.req.kind.Stop? || me.req.kind.Restart?)
  }

  lemma AfterFailedBackup(me: Memory, main: MainState)
    requires Opened(me, false)
    ensures Fits(me, Put(me.found, Release), main)
  {
    var rest := if me.req.kind.Restore? then If(me.sawRunning, RunStop) + [RunRestore] else [CommandOf(me.req.kind)];
    assert Plan(me.req, me.sawRunning) == Opening(me.req) + rest;
    FollowsMore(Opening(me.req), rest, me.sent);
    hide Follows, Before, Opening, If, Fits, Plan;
    PutsBack(me, main);
  }

  lemma AfterBackup(me: Memory, main: MainState)
    requires Opened(me, true) && Doing(me.req.kind, main)
    ensures Fits(me, if me.req.kind.Restore? then FetchFile else Put(Marker(me.req.kind, true), Work), main)
  {
    if !me.req.kind.Restore? {
      var rest := [CommandOf(me.req.kind)];
      assert Plan(me.req, me.sawRunning) == Opening(me.req) + rest;
      Extend(Opening(me.req), rest, me.sent);
    }
    hide Follows, Before, Opening, If, Plan, AtRelease, AtCheck, AtReading, AtLicense, AtStop;
  }

  lemma FitsBackup(se: Session, main: MainState, status: Reported, ok: bool, settled: Option<MainState>)
    requires Fits(se.me, se.pc, main) && se.pc.BackupFirst?
    ensures var se' := Advance(se, main, status, ok, settled); Fits(se'.me, se'.pc, main)
  {
    var me := Recall(se, main, status, ok, settled);
    assert Opening(me.req) == If(me.req.licenseCheck, CheckLicense) + [RunBackup];
    assert me.sent == se.me.sent + [Sent(RunBackup, ok)];
    assert Opened(me, ok);
    assert Doing(me.req.kind, main);
    hide Fits, Opened, Marker;
    if ok {
      AfterBackup(me, main);
    } else {
      AfterFailedBackup(me, main);
    }
  }

  /** Without the file, a restore has failed. */
  lemma FetchFails(me: Memory, main: MainState)
    requires AtRestoring(me, main)
    ensures Failed(me)
  {
    assert me.sent == [] || me.sent[|me.sent| - 1].ok;
    assert Plainly(me);
    var opening, rest := Opening(me.req), If(me.sawRunning, RunStop) + [RunRestore];
    Extend(opening, rest, me.sent);
    assert opening + rest == Plan(me.req, me.sawRunning);
  }

  lemma FitsFetch(se: Session, main: MainState, status: Reported, ok: bool, settled: Option<MainState>)
    requires Fits(se.me, se.pc, main) && se.pc.FetchFile?
    ensures var se' := Advance(se, main, status, ok, settled); Fits(se'.me, se'.pc, main)
  {
    hide AtRestoring, Failed;
    if !ok {
      FetchFails(se.me, main);
      PutsBackAndChecks(se.me, main);
    }
    hide AtRelease, AtCheck, AtReading, AtLicense, AtStop, AtWork, AtBackup;
  }

  lemma FitsStatusAgain(se: Session, main: MainState, status: Reported, ok: bool, settled: Option<MainState>)
    requires Fits(se.me, se.pc, main) && se.pc.ReadStatusAgain?
    ensures var se' := Advance(se, main, status, ok, settled); Fits(se'.me, se'.pc, main)
  {
    var opening, rest := Opening(se.me.req), If(status.ReportedRunning?, RunStop) + [RunRestore];
    Extend(opening, rest, se.me.sent);
    assert opening + rest == Plan(se.me.req, status.ReportedRunning?);
    assert |rest| == if status.ReportedRunning? then 2 else 1;
    hide Before, Follows, Opening, Plan, If, AtRelease, AtCheck, AtReading, AtLicense, AtBackup;
  }

  lemma FitsStopFirst(se: Session, main: MainState, status: Reported, ok: bool, settled: Option<MainState>)
    requires Fits(se.me, se.pc, main) && se.pc.StopFirst?
    ensures var se' := Advance(se, main, status, ok, settled); Fits(se'.me, se'.pc, main)
  {
    var plan, me := Plan(se.me.req, true), Recall(se, main, status, ok, settled);
    assert plan == Opening(se.me.req) + [RunStop] + [RunRestore];
    assert plan[|se.me.sent|] == RunStop;
    SendNext(plan, se.me.sent, 1, ok);
    assert me.sent[|me.sent| - 1] == Sent(RunStop, ok);
    assert Plainly(me);
    if !ok {
      PutsBackAndChecks(me, main);
    }
    hide Before, Follows, Opening, Plan, If, AtRelease, AtCheck, AtReading, AtLicense, AtBackup;
  }

  /** The main work is over, and `me` says how it ended. */
  predicate Worked(me: Memory, ok: bool) {
    && me.recorded.None? && Admits(me.req.kind, me.found) && Follows(Plan(me.req, me.sawRunning), me.sent)
    && me.sent != [] && me.sent[|me.sent| - 1] == Sent(CommandOf(me.req.kind), ok)
  }

  lemma AfterRestore(me: Memory, main: MainState, ok: bool)
    requires Worked(me, ok) && me.req.kind.Restore? && main.StartingRestore?
    ensures Fits(me, AfterWork(Restore, me.found, ok), main)
  {
    hide Follows, Plan;
    if ok {
      assert Rechecks(me) && AtCheck(me, main) && AtRelease(me, main);
    } else {
      PutsBackAndChecks(me, main);
    }
    hide Rechecks, AtCheck, AtRelease;
  }

  lemma AfterStopping(me: Memory, main: MainState, ok: bool)
    requires Worked(me, ok) && (me.req.kind.Stop? || me.req.kind.Restart?) && WorksIn(me.req.kind, me.found, main)
    ensures Fits(me, AfterWork(me.req.kind, me.found, ok), main)
  {
    hide Follows, Plan;
    assert AtRelease(me, if me.req.kind.Restart? && ok then Started else main);
    assert (me.req.kind.Restart? && ok) || (Rechecks(me) && AtCheck(me, main));
    hide Rechecks, AtCheck, AtRelease, WorksIn, Leaves;
  }

  lemma AfterStarting(me: Memory, main: MainState, ok: bool)
    requires Worked(me, ok) && me.req.kind.Start?
    ensures Fits(me, AfterWork(me.req.kind, me.found, ok), main)
  {
    hide Follows, Plan, WorksIn;
    assert AtRelease(me, if ok then Started else Stopped) && AtCheck(me, main);
    hide AtCheck, AtRelease, Leaves;
  }

  lemma AfterPlain(me: Memory, main: MainState, ok: bool)
    requires Worked(me, ok) && !me.req.kind.StatusCheck?
    requires !me.req.kind.Restore? && !me.req.kind.Stop? && !me.req.kind.Restart? && !me.req.kind.Start?
    ensures Fits(me, AfterWork(me.req.kind, me.found, ok), main)
  {
    hide Follows, Plan, Fits;
    PutsBack(me, main);
  }

  lemma FitsWork(se: Session, main: MainState, status: Reported, ok: bool, settled: Option<MainState>)
    requires Fits(se.me, se.pc, main) && se.pc.Work?
    ensures var se' := Advance(se, main, status, ok, settled); Fits(se'.me, se'.pc, main)
  {
    var plan := Plan(se.me.req, se.me.sawRunning);
    var me := Recall(se, main, status, ok, settled);
    LastCommand(se.me.req, se.me.sawRunning);
    SendNext(plan, se.me.sent, 0, ok);
    assert me.sent[|me.sent| - 1] == Sent(CommandOf(se.me.req.kind), ok);
    assert Worked(me, ok);
    assert WorksIn(me.req.kind, me.found, main) && !me.req.kind.StatusCheck?;
    hide Fits, Worked, AfterWork, CommandOf;
    match me.req.kind
    case Restore => AfterRestore(me, main, ok);
    case Stop => AfterStopping(me, main, ok);
    case Restart => AfterStopping(me, main, ok);
    case Start => AfterStarting(me, main, ok);
    case _ => AfterPlain(me, main, ok);
  }

  lemma Rechecked(me: Memory, m: MainState)
    requires Rechecks(me) && Settled(m)
    ensures Leaves(me.req, me.found, m, me.sent)
  {
    hide Leaves;
  }

  /** What a status check leaves to the release. */
  lemma CheckReleases(me: Memory, main: MainState, next: Pc, settled: Option<MainState>)
    requires AtCheck(me, main) && ChecksOnto(me, next, main) && (settled.Some? ==> Settled(settled.value))
    ensures AtRelease(me.(recorded := settled), if next.Put? then next.to else if settled.Some? then settled.value else main)
  {
    hide Leaves, Rechecks, Plan, Follows, Restored, EndsUnsettled, Unsettled;
    if next.Release? && settled.Some? {
      Rechecked(me, settled.value);
    }
  }

  lemma CheckFits(me: Memory, next: Pc, main: MainState)
    ensures Fits(me, Check(next), main) <==> AtCheck(me, main) && ChecksOnto(me, next, main)
    ensures Fits(me, Release, main) <==> AtRelease(me, main)
  {
    hide AtRelease, AtCheck, ChecksOnto;
  }

  lemma PutFits(me: Memory, to: MainState, main: MainState)
    requires AtRelease(me, to) && AtRest(me.found) && AtRest(to)
    ensures Fits(me, Put(to, Release), main)
  {
    hide AtRelease;
  }

  lemma FitsCheck(se: Session, main: MainState, status: Reported, ok: bool, settled: Option<MainState>)
    requires Fits(se.me, se.pc, main) && se.pc.Check? && (settled.Some? ==> Settled(settled.value))
    ensures var se' := Advance(se, main, status, ok, settled);
      Fits(se'.me, se'.pc, if settled.Some? then settled.value else main)
  {
    hide Fits, AtRelease, AtCheck, Rechecks, Settled, AtRest;
    var me', main' := se.me.(recorded := settled), if settled.Some? then settled.value else main;
    CheckFits(se.me, se.pc.next, main);
    CheckReleases(se.me, main, se.pc.next, settled);
    if se.pc.next.Put? {
      PutFits(me', se.pc.next.to, main');
    } else {
      CheckFits(me', Release, main');
    }
  }

  lemma FitsPut(se: Session, main: MainState, status: Reported, ok: bool, settled: Option<MainState>)
    requires Fits(se.me, se.pc, main) && se.pc.Put?
    ensures var se' := Advance(se, main, status, ok, settled); Fits(se'.me, se'.pc, se.pc.to)
  {
    hide AtRelease, AtCheck, ChecksOnto, AtReading, AtLicense, AtBackup, AtRestoring, AtStop, AtWork;
  }

  lemma FitsAdvance(se: Session, main: MainState, status: Reported, ok: bool, settled: Option<MainState>)
    requires Fits(se.me, se.pc, main) && !se.pc.Put? && !se.pc.Check? && !se.pc.Release?
    ensures var se' := Advance(se, main, status, ok, settled); Fits(se'.me, se'.pc, main)
  {
    hide Fits, Advance;
    match se.pc
    case ReadState => FitsReading(se, main, status, ok, settled);
    case CheckFile => FitsReading(se, main, status, ok, settled);
    case ReadStatus => FitsStatus(se, main, status, ok, settled);
    case License => FitsLicense(se, main, status, ok, settled);
    case BackupFirst => FitsBackup(se, main, status, ok, settled);
    case FetchFile => FitsFetch(se, main, status, ok, settled);
    case ReadStatusAgain => FitsStatusAgain(se, main, status, ok, settled);
    case StopFirst => FitsStopFirst(se, main, status, ok, settled);
    case Work => FitsWork(se, main, status, ok, settled);
  }

  /** Whatever its environment makes of a step, a session's next one finds what it expects. */
  lemma FitsNext(se: Session, main: MainState, status: Reported, ok: bool, settled: Option<MainState>)
    requires Fits(se.me, se.pc, main) && !se.pc.Release? && (settled.Some? ==> Settled(settled.value))
    ensures var se' := Advance(se, main, status, ok, settled);
      Fits(se'.me, se'.pc, if se.pc.Put? then se.pc.to else if se.pc.Check? && settled.Some? then settled.value else main)
    ensures var me := Recall(se, main, status, ok, settled); me.req == se.me.req && me.found == se.me.found
  {
    assert se.pc.ReadState? ==> se.me.found == main;
    hide Fits, NextPc;
    if se.pc.Put? {
      FitsPut(se, main, status, ok, settled);
    } else if se.pc.Check? {
      FitsCheck(se, main, status, ok, settled);
    } else {
      FitsAdvance(se, main, status, ok, settled);
    }
  }

  /** What a step shows: only `Put` and `Check` move the main state, and a status check that
      records something puts it to rest. */
  lemma ShowsNext(se: Session, main: MainState, status: Reported, ok: bool, settled: Option<MainState>)
    requires Fits(se.me, se.pc, main) && Shows(se.me, main) && !se.pc.Release? && (settled.Some? ==> Settled(settled.value))
    ensures Shows(Recall(se, main, status, ok, settled),
                  if se.pc.Put? then se.pc.to else if se.pc.Check? && settled.Some? then settled.value else main)
  {
    hide Leaves, Plan, Follows, Before, Opening, WorksIn, Doing, Sends;
  }

  lemma FitsGo(s: State, a: Action, sid: Sid)
    requires Held(s, sid) && a.Go? && a.sid == sid && Enabled(s, a) && !s.sessions[sid].pc.Release?
    ensures Held(Apply(s, a), sid)
  {
    hide Fits, NextPc, LeftUnsettled, Recall, Shows;
    FitsNext(s.sessions[sid], s.main, s.status, a.ok, a.settled);
    ShowsNext(s.sessions[sid], s.main, s.status, a.ok, a.settled);
  }

  // ---------------------------------------------------------------- every step keeps the invariant

  lemma LogGrows(log: seq<Event>, e: Event)
    requires Bracketed(log) && Bracket(log, e)
    ensures Bracketed(log + [e])
  {
    hide Bracket;
    var log' := log + [e];
    forall i | 0 <= i < |log'| ensures Bracket(log'[..i], log'[i]) {
      assert log'[..i] == if i < |log| then log[..i] else log;
    }
  }

  lemma UnsettledGrows(log: seq<Event>, e: Event)
    ensures LeftUnsettled(log + [e])
      == if e.Took? then LeftUnsettled(log)
         else e.recorded.None? && (EndsUnsettled(e.req.kind, e.sent) || LeftUnsettled(log))
  {
    assert (log + [e])[..|log|] == log;
  }

  lemma FreshRelease(me: Memory, main: MainState)
    requires me.req.kind.StatusCheck? && me.sent == [] && me.recorded.None? && main == me.found
    ensures AtRelease(me, main)
  {
  }

  lemma FreshRechecks(me: Memory)
    requires me.req.kind.StatusCheck? && me.sent == []
    ensures Rechecks(me)
  {
  }

  lemma FitsFirst(req: Request, main: MainState)
    ensures Fits(Memory(req, main, false, [], None), FirstPc(req.kind), main)
  {
    var me := Memory(req, main, false, [], None);
    if req.kind.StatusCheck? {
      FreshRelease(me, main);
      FreshRechecks(me);
    }
    hide AtRelease, Rechecks, AtLicense, AtBackup, AtRestoring, AtStop, AtWork, Unsettled;
  }

  lemma AskKeeps(s: State, sid: Sid, req: Request)
    requires Inv(s) && Enabled(s, Ask(sid, req))
    ensures Inv(Apply(s, Ask(sid, req)))
  {
    hide Fits, Bracketed, Doing, LeftUnsettled;
    if s.lock.owner.None? {
      assert Bracket(s.log, Took(sid, req, s.main));
      LogGrows(s.log, Took(sid, req, s.main));
      UnsettledGrows(s.log, Took(sid, req, s.main));
      FitsFirst(req, s.main);
    }
  }

  /** What an action that lets go has left. */
  lemma ReleaseRests(me: Memory, main: MainState)
    requires Fits(me, Release, main)
    ensures !AtRest(main) <==> me.recorded.None? && (EndsUnsettled(me.req.kind, me.sent) || !AtRest(me.found))
  {
    hide Plan, Follows;
  }

  lemma ReleaseBracket(s: State, sid: Sid)
    requires Held(s, sid) && s.sessions[sid].pc.Release?
    ensures var me := s.sessions[sid].me; Bracket(s.log, LetGo(sid, me.req, s.main, me.sent, me.recorded))
  {
    hide Leaves, Plan, Follows, LeftUnsettled, EndsUnsettled, Unsettled, Shows;
    var me := s.sessions[sid].me;
    ReleaseRests(me, s.main);
    assert Follows(Plan(me.req, true), me.sent) || Follows(Plan(me.req, false), me.sent);
  }

  lemma ReleaseKeeps(s: State, a: Action)
    requires Inv(s) && Enabled(s, a) && a.Go? && s.sessions[a.sid].pc.Release?
    ensures Inv(Apply(s, a))
  {
    hide Fits, Doing, Bracketed, Bracket, LeftUnsettled, EndsUnsettled, Shows;
    var s', me := Apply(s, a), s.sessions[a.sid].me;
    var e := LetGo(a.sid, me.req, s.main, me.sent, me.recorded);
    ReleaseBracket(s, a.sid);
    ReleaseRests(me, s.main);
    LogGrows(s.log, e);
    UnsettledGrows(s.log, e);
    assert s'.log[|s'.log| - 1] == e;
  }

  lemma GoKeeps(s: State, a: Action)
    requires Inv(s) && Enabled(s, a) && a.Go? && !s.sessions[a.sid].pc.Release?
    ensures Inv(Apply(s, a))
  {
    FitsGo(s, a, a.sid);
  }

  lemma StepKeeps(s: State, a: Action)
    requires Inv(s) && Enabled(s, a)
    ensures Inv(Apply(s, a))
  {
    hide Inv, Apply;
    match a
    case Ask(sid, req) => AskKeeps(s, sid, req);
    case Go(sid, _, _, _) => if s.sessions[sid].pc.Release? { ReleaseKeeps(s, a); } else { GoKeeps(s, a); }
  }

  lemma {:induction false} RunKeeps(run: seq<State>, i: nat)
    requires IsRun(run) && i < |run|
    ensures Inv(run[i])
  {
    if i > 0 {
      RunKeeps(run, i - 1);
      assert Next(run[i - 1], run[i - 1 + 1]);
      var a :| Enabled(run[i - 1], a) && run[i] == Apply(run[i - 1], a);
      hide Inv;
      StepKeeps(run[i - 1], a);
    }
  }

  // ---------------------------------------------------------------- the theorems

  ghost predicate Reachable(s: State) {
    exists run :: IsRun(run) && run[|run| - 1] == s
  }

  lemma ReachableKeeps(s: State)
    requires Reachable(s)
    ensures Inv(s)
  {
    hide Inv;
    var run :| IsRun(run) && run[|run| - 1] == s;
    RunKeeps(run, |run| - 1);
  }

  lemma HeldBy(s: State, sid: Sid)
    requires Reachable(s) && sid in s.sessions
    ensures Held(s, sid)
  {
    hide Reachable, Bracketed, Fits, LeftUnsettled;
    ReachableKeeps(s);
    assert sid in s.sessions.Keys;
  }

  /** At most one session is between taking the lock and letting go of it; it owns the lock,
      once, so that its release frees it. */
  lemma OneAtATime(s: State, t: Sid, u: Sid)
    requires Reachable(s) && t in s.sessions && u in s.sessions
    ensures t == u && s.lock == Lock(Some(t), 1) && Unlock(s.lock, t) == Lock(None, 0)
  {
    hide Reachable, Fits;
    HeldBy(s, t);
    assert u in s.sessions.Keys;
  }

  /** The lock is taken and let go of in turn.  Whoever lets go is who took it, having sent
      the agent the start of its plan, and leaves the main state that its action is to leave;
      the next one finds that state. */
  lemma TakenInTurn(s: State, i: nat)
    requires Reachable(s) && i < |s.log|
    ensures Bracket(s.log[..i], s.log[i])
    ensures |s.log| % 2 == 0 <==> s.sessions == map[]
  {
    hide Reachable, Fits, Bracket, LeftUnsettled;
    ReachableKeeps(s);
    assert s.lock.owner.Some? ==> s.lock.owner.value in s.sessions.Keys;
  }

  /** Backing up, deleting a file, collecting logs and cleaning up leave the main state as
      they found it, whether they succeed or not. */
  lemma PutBack(s: State, i: nat)
    requires Reachable(s) && i < |s.log| && s.log[i].LetGo?
    requires var kind := s.log[i].req.kind; kind.Backup? || kind.DeleteFile? || kind.ZipLogs? || kind.Cleanup?
    ensures i > 0 && s.log[i - 1].Took? && s.log[i - 1].sid == s.log[i].sid && s.log[i].main == s.log[i - 1].main
  {
    hide Reachable, Plan, Follows;
    TakenInTurn(s, i);
  }

  /** Something seems to be under way exactly when the session that holds the lock does it, or
      the last action to end in such a step has not been followed by a status check that
      recorded anything: its own or a later one, not even by the session that holds the lock. */
  lemma UnderWay(s: State)
    requires Reachable(s)
    ensures !AtRest(s.main) <==>
      if s.lock.owner.Some? then
        s.lock.owner.value in s.sessions && var me := s.sessions[s.lock.owner.value].me;
        Doing(me.req.kind, s.main) || (me.recorded.None? && LeftUnsettled(s.log))
      else LeftUnsettled(s.log)
  {
    hide Reachable, Fits, LeftUnsettled, Bracketed;
    ReachableKeeps(s);
    assert s.lock.owner.Some? ==> s.lock.owner.value in s.sessions.Keys;
  }

  /** Without a stop, restart or restore, nothing is left under way. */
  lemma {:induction false} NothingLeft(log: seq<Event>)
    requires forall e :: e in log ==> !e.req.kind.Stop? && !e.req.kind.Restart? && !e.req.kind.Restore?
    ensures !LeftUnsettled(log)
  {
    if log != [] {
      assert forall e :: e in log[..|log| - 1] ==> e in log;
      NothingLeft(log[..|log| - 1]);
      assert log[|log| - 1] in log;
    }
  }

  /** Among backups, deletions, log collections, cleanups, starts and status checks, the
      main state is at rest whenever the lock is free. */
  lemma AtRestWhenFree(s: State)
    requires Reachable(s) && s.lock.owner.None?
    requires forall e :: e in s.log ==> !e.req.kind.Stop? && !e.req.kind.Restart? && !e.req.kind.Restore?
    ensures AtRest(s.main)
  {
    hide Reachable, LeftUnsettled;
    UnderWay(s);
    NothingLeft(s.log);
  }

  /** While an action does its main work, the main state says so. */
  lemma WorkIsShown(s: State, sid: Sid)
    requires Reachable(s) && sid in s.sessions && s.sessions[sid].pc.Work?
    ensures var me := s.sessions[sid].me;
      && Admits(me.req.kind, me.found) && WorksIn(me.req.kind, me.found, s.main) && Doing(me.req.kind, s.main)
      && s.log != [] && s.log[|s.log| - 1] == Took(sid, me.req, me.found)
  {
    hide Reachable, Before, Plan, LeftUnsettled;
    HeldBy(s, sid);
  }

  /** A restore is sent only after the license check, the backup and the stop that come before
      it, each with success; and a stop came before it exactly when the server was last read
      to be running. */
  lemma RestoreOrder(s: State, sid: Sid)
    requires Reachable(s) && sid in s.sessions && s.sessions[sid].pc.Work? && s.sessions[sid].me.req.kind.Restore?
    ensures var me := s.sessions[sid].me;
      me.sent == (if me.req.licenseCheck then [Sent(CheckLicense, true)] else [])
                 + (if me.req.backupFirst then [Sent(RunBackup, true)] else [])
                 + (if me.sawRunning then [Sent(RunStop, true)] else [])
  {
    hide Reachable;
    HeldBy(s, sid);
    var me := s.sessions[sid].me;
    assert Before(Plan(me.req, me.sawRunning), me.sent, 1);
    hide Fits, Held;
  }

  /** When a restore comes to check the status, it has either sent the restore with success,
      or put back the main state it found under the lock. */
  lemma FailedRestorePutsBack(s: State, sid: Sid)
    requires Reachable(s) && sid in s.sessions && s.sessions[sid].pc.Check? && s.sessions[sid].me.req.kind.Restore?
    ensures s.main == s.sessions[sid].me.found || Restored(s.sessions[sid].me, s.main)
  {
    hide Reachable, Leaves, Plan, Follows;
    HeldBy(s, sid);
  }

  lemma Onward(s: State, a: Action)
    requires Reachable(s) && Enabled(s, a)
    ensures Reachable(Apply(s, a))
  {
    var run :| IsRun(run) && run[|run| - 1] == s;
    assert Next(s, Apply(s, a));
    hide Init, Enabled, Apply, Next;
    var run' := run + [Apply(s, a)];
    forall i | 0 <= i < |run'| - 1 ensures Next(run'[i], run'[i + 1]) {
      assert i < |run| - 1 ==> Next(run[i], run[i + 1]);
    }
    assert IsRun(run') && run'[|run'| - 1] == Apply(s, a);
  }

  /** Session 0 is at `pc`, the first to have taken the lock. */
  function At(main: MainState, status: Reported, me: Memory, pc: Pc): State {
    State(main, status, Lock(Some(0), 1), map[0 := Session(me, pc)], [Took(0, me.req, me.found)])
  }

  lemma Initially(s: State)
    requires Init(s)
    ensures Reachable(s)
  {
    assert IsRun([s]) && [s][|[s]| - 1] == s;
  }

  lemma Begin(main: MainState, status: Reported, req: Request)
    requires AtRest(main)
    ensures Reachable(At(main, status, Memory(req, main, false, [], None), FirstPc(req.kind)))
  {
    var s0 := State(main, status, Lock(None, 0), map[], []);
    Initially(s0);
    Onward(s0, Ask(0, req));
    hide Reachable, AtRest;
  }

  /** The session goes on, all goes well, and a status check records nothing. */
  lemma StepAt(main: MainState, status: Reported, me: Memory, pc: Pc)
    requires Reachable(At(main, status, me, pc)) && !pc.Release? && (pc.ReadState? ==> me.found == main)
    ensures var se := Session(me, pc);
      Reachable(At(if pc.Put? then pc.to else main, status, Recall(se, main, status, true, None), NextPc(se, main, status, true)))
  {
    hide Reachable, NextPc, Sends;
    var s := At(main, status, me, pc);
    var s' := At(if pc.Put? then pc.to else main, status,
                 Recall(Session(me, pc), main, status, true, None), NextPc(Session(me, pc), main, status, true));
    Onward(s, Go(0, true, None, status));
    assert Apply(s, Go(0, true, None, status)).sessions == s'.sessions;
  }

  /** A stop of a running server comes to its main work. */
  lemma StopGetsToWork(req: Request, status: Reported)
    requires req == Request(Stop, false, false) && status.ReportedRunning?
    ensures Reachable(At(Stopping, status, Memory(req, Started, true, [], None), Work))
  {
    hide Reachable;
    var me0, me := Memory(req, Started, false, [], None), Memory(req, Started, true, [], None);
    Begin(Started, status, req);
    StepAt(Started, status, me0, ReadState);
    StepAt(Started, status, me0, ReadStatus);
    StepAt(Started, status, me, Put(Stopping, Work));
  }

  /** The exception is real: a stop whose status check records nothing leaves its own state
      behind, and the lock free. */
  lemma StopLeavesStopping()
    ensures exists s :: Reachable(s) && s.lock.owner.None? && s.main.Stopping?
  {
    hide Reachable;
    var up, req := ReportedRunning, Request(Stop, false, false);
    var me := Memory(req, Started, true, [], None);
    var done := me.(sent := [Sent(RunStop, true)]);
    StopGetsToWork(req, up);
    StepAt(Stopping, up, me, Work);
    assert done.sent == me.sent + [Sent(RunStop, true)];
    StepAt(Stopping, up, done, Check(Release));
    var s := At(Stopping, up, done, Release);
    Onward(s, Go(0, true, None, up));
    assert Apply(s, Go(0, true, None, up)).lock.owner.None?;
  }

  /** A server that is reported degraded is up, and yet is not stopped before a restore. */
  lemma DegradedIsNotStopped()
    ensures exists main, me ::
      Reachable(At(main, ReportedDegraded, me, Work)) && me.req.kind.Restore? && Up(me.found) && me.sent == []
  {
    hide Reachable;
    var up, req := ReportedDegraded, Request(Restore, false, false);
    var me := Memory(req, Degraded, false, [], None);
    Begin(Degraded, up, req);
    StepAt(Degraded, up, me, ReadState);
    StepAt(Degraded, up, me, CheckFile);
    StepAt(Degraded, up, me, ReadStatus);
    StepAt(Degraded, up, me, Put(StartedBackupRestore, FetchFile));
    StepAt(StartedBackupRestore, up, me, FetchFile);
    StepAt(StartedBackupRestore, up, me, ReadStatusAgain);
    StepAt(StartedBackupRestore, up, me, Put(StartingRestore, Work));
  }

  function Rank(pc: Pc): nat {
    match pc
    case Release => 0
    case Check(next) => 1 + Rank(next)
    case Put(_, next) => 1 + Rank(next)
    case Work => 3
    case StopFirst => 5
    case ReadStatusAgain => 7
    case FetchFile => 8
    case BackupFirst => 9
    case License => 11
    case ReadStatus => 13
    case CheckFile => 14
    case ReadState => 15
  }

  lemma RankOfWork(kind: Kind, found: MainState, ok: bool)
    ensures Rank(AfterWork(kind, found, ok)) <= 2
  {
  }

  lemma RankOfState(kind: Kind, main: MainState)
    ensures Rank(AfterState(kind, main)) <= 14
  {
    hide Marker, Admits;
  }

  lemma RankOfStatus(req: Request, status: Reported)
    ensures Rank(AfterLicense(req)) <= 10 && Rank(AfterStatus(req, status)) <= 12
  {
    hide Marker;
  }

  /** Every path of every action comes to its release, after at most fifteen steps. */
  lemma ComesToRelease(se: Session, main: MainState, status: Reported, ok: bool, settled: Option<MainState>)
    requires !se.pc.Release?
    ensures Rank(Advance(se, main, status, ok, settled).pc) < Rank(se.pc) && Rank(FirstPc(se.me.req.kind)) <= 15
  {
    hide Recall, AfterStatus, AfterLicense, AfterState, AfterWork;
    RankOfState(se.me.req.kind, main);
    RankOfStatus(se.me.req, status);
    RankOfWork(se.me.req.kind, se.me.found, ok);
  }
}
