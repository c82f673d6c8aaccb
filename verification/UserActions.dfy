/** The actions a user can start on one agent: each takes the connection's user-action lock
    or gives up, moves the main state while it works, and lets go of the lock at its end.
    Any number of sessions run them at once, interleaved at every access to shared state. */
module UserActions {
  import opened Wrappers

  datatype MainState =
    | Disconnected | Pending | Started | Degraded | Stopped | StoppedUnexpected
    | Starting | Stopping | Restarting | StoppingRestore | StartingRestore
    | StartedBackup | StoppedBackup | StartedFiledel | StoppedFiledel
    | StartedZiplogs | StoppedZiplogs | StartedCleanup | StoppedCleanup
    | StartedBackupRestore | StoppedBackupRestore | StartedBackupStop | StartedBackupRestart

  /** The status that the last check of the server recorded. */
  datatype Reported = ReportedRunning | ReportedDegraded | ReportedStopped | ReportedUnknown

  /** The actions, and the periodic check that records the server's status. */
  datatype Kind = Backup | DeleteFile | ZipLogs | Cleanup | Start | Stop | Restart | Restore | StatusCheck

  datatype Request = Request(kind: Kind, licenseCheck: bool, backupFirst: bool)

  datatype Command = CheckLicense | RunBackup | RunDelete | RunZipLogs | RunCleanup | RunStart | RunStop | RunRestart | RunRestore

  /** A command the agent was sent, and whether it succeeded. */
  datatype Sent = Sent(command: Command, ok: bool)

  /** What a session that holds the lock does next. */
  datatype Pc =
    | ReadState
    | CheckFile
    | ReadStatus
    | License
    | BackupFirst
    | FetchFile
    | ReadStatusAgain
    | StopFirst
    | Work
    | Put(to: MainState, next: Pc)
    | Check(next: Pc)
    | Release

  /** What a session remembers: `found` is the main state read under the lock, `sawRunning`
      whether the last reported status read was that of a running server, `recorded` the state
      that its own status check, if any, has set. */
  datatype Memory = Memory(req: Request, found: MainState, sawRunning: bool, sent: seq<Sent>, recorded: Option<MainState>)

  datatype Session = Session(me: Memory, pc: Pc)

  predicate Up(m: MainState) { m.Started? || m.Degraded? }

  predicate Down(m: MainState) { m.Stopped? || m.StoppedUnexpected? }

  /** The main states in which an action goes ahead. */
  predicate Admits(kind: Kind, m: MainState) {
    match kind
    case Start => Down(m)
    case Stop => Up(m)
    case StatusCheck => false
    case _ => Up(m) || Down(m)
  }

  /** The main state that shows an action at work.  A status check has none, and PENDING
      stands in for it. */
  function Marker(kind: Kind, up: bool): MainState {
    match kind
    case Backup => if up then StartedBackup else StoppedBackup
    case DeleteFile => if up then StartedFiledel else StoppedFiledel
    case ZipLogs => if up then StartedZiplogs else StoppedZiplogs
    case Cleanup => if up then StartedCleanup else StoppedCleanup
    case Start => Starting
    case Stop => Stopping
    case Restart => Restarting
    case Restore => if up then StartedBackupRestore else StoppedBackupRestore
    case StatusCheck => Pending
  }

  /** The command that does an action's work.  A status check has none to speak of. */
  function CommandOf(kind: Kind): Command {
    match kind
    case Backup => RunBackup
    case DeleteFile => RunDelete
    case ZipLogs => RunZipLogs
    case Cleanup => RunCleanup
    case Start => RunStart
    case Stop => RunStop
    case Restart => RunRestart
    case Restore => RunRestore
    case StatusCheck => CheckLicense
  }

  function FirstPc(kind: Kind): Pc { if kind.StatusCheck? then Check(Release) else ReadState }

  function AfterState(kind: Kind, m: MainState): Pc {
    if !Admits(kind, m) then Release
    else match kind
      case DeleteFile => Put(Marker(kind, Up(m)), Work)
      case ZipLogs => Put(Marker(kind, Up(m)), Work)
      case Cleanup => Put(Marker(kind, Up(m)), Work)
      case Restore => CheckFile
      case _ => ReadStatus
  }

  function AfterStatus(req: Request, status: Reported): Pc {
    var running := status.ReportedRunning? || status.ReportedDegraded?;
    match req.kind
    case Backup => if running || status.ReportedStopped? then Put(Marker(Backup, running), Work) else Release
    case Restore =>
      if running || status.ReportedStopped?
      then Put(Marker(Restore, running), if req.licenseCheck then License else AfterLicense(req))
      else Release
    case Start => if status.ReportedStopped? then Put(Starting, Work) else Release
    case Stop => if running then (if req.licenseCheck then License else AfterLicense(req)) else Release
    case _ =>
      if running || status.ReportedStopped? then (if req.licenseCheck then License else AfterLicense(req)) else Release
  }

  function AfterLicense(req: Request): Pc {
    if req.kind.Restore? then (if req.backupFirst then BackupFirst else FetchFile)
    else if !req.backupFirst then Put(Marker(req.kind, true), Work)
    else Put(if req.kind.Stop? then StartedBackupStop else StartedBackupRestart, BackupFirst)
  }

  function AfterWork(kind: Kind, found: MainState, ok: bool): Pc {
    match kind
    case Start => Check(Put(if ok then Started else Stopped, Release))
    case Stop => Check(Release)
    case Restart => if ok then Put(Started, Release) else Check(Release)
    case Restore => if ok then Check(Release) else Put(found, Check(Release))
    case _ => Put(found, Release)
  }

  /** Where a session goes from here, when it reads `main` and `status`, and its file access
      or command ends `ok`. */
  function NextPc(se: Session, main: MainState, status: Reported, ok: bool): Pc {
    match se.pc
    case ReadState => AfterState(se.me.req.kind, main)
    case CheckFile => if ok then ReadStatus else Release
    case ReadStatus => AfterStatus(se.me.req, status)
    case License => if ok then AfterLicense(se.me.req) else Put(se.me.found, Release)
    case BackupFirst =>
      if !ok then Put(se.me.found, Release)
      else if se.me.req.kind.Restore? then FetchFile
      else Put(Marker(se.me.req.kind, true), Work)
    case FetchFile => if ok then ReadStatusAgain else Put(se.me.found, Check(Release))
    case ReadStatusAgain => if status.ReportedRunning? then Put(StoppingRestore, StopFirst) else Put(StartingRestore, Work)
    case StopFirst => if ok then Put(StartingRestore, Work) else Put(se.me.found, Check(Release))
    case Work => AfterWork(se.me.req.kind, se.me.found, ok)
    case Put(_, next) => next
    case Check(next) => next
    case Release => Release
  }

  /** What a session sends the agent. */
  function Sends(se: Session, ok: bool): seq<Sent> {
    match se.pc
    case License => [Sent(CheckLicense, ok)]
    case BackupFirst => [Sent(RunBackup, ok)]
    case StopFirst => [Sent(RunStop, ok)]
    case Work => [Sent(CommandOf(se.me.req.kind), ok)]
    case _ => []
  }

  function Recall(se: Session, main: MainState, status: Reported, ok: bool, settled: Option<MainState>): Memory {
    match se.pc
    case Check(_) => se.me.(recorded := settled)
    case ReadState => se.me.(found := main)
    case ReadStatus => se.me.(sawRunning := status.ReportedRunning?)
    case ReadStatusAgain => se.me.(sawRunning := status.ReportedRunning?)
    case _ => if Sends(se, ok) == [] then se.me else se.me.(sent := se.me.sent + Sends(se, ok))
  }

  function Advance(se: Session, main: MainState, status: Reported, ok: bool, settled: Option<MainState>): Session {
    Session(Recall(se, main, status, ok, settled), NextPc(se, main, status, ok))
  }

  type Sid = nat

  /** A re-entrant lock. */
  datatype Lock = Lock(owner: Option<Sid>, depth: nat)

  /** The lock was taken, or let go of, while the main state was `main`. */
  datatype Event =
    | Took(sid: Sid, req: Request, main: MainState)
    | LetGo(sid: Sid, req: Request, main: MainState, sent: seq<Sent>, recorded: Option<MainState>)

  datatype State = State(main: MainState, status: Reported, lock: Lock, sessions: map<Sid, Session>, log: seq<Event>)

  /** States in which no action is under way. */
  predicate AtRest(m: MainState) { m.Disconnected? || m.Pending? || Up(m) || Down(m) }

  ghost predicate Init(s: State) {
    AtRest(s.main) && s.lock == Lock(None, 0) && s.sessions == map[] && s.log == []
  }

  /** A session asks for an action; or it goes on, with what its environment makes of the
      step: success or failure, and what a status check records. */
  datatype Action =
    | Ask(sid: Sid, req: Request)
    | Go(sid: Sid, ok: bool, settled: Option<MainState>, reported: Reported)

  ghost predicate Enabled(s: State, a: Action) {
    match a
    case Ask(sid, _) => sid !in s.sessions
    case Go(sid, _, settled, _) => sid in s.sessions && (settled.Some? ==> Up(settled.value) || Down(settled.value))
  }

  /** Taking the lock without waiting. */
  function TryLock(lock: Lock, sid: Sid): Option<Lock> {
    if lock.owner.None? || lock.owner == Some(sid) then Some(Lock(Some(sid), lock.depth + 1)) else None
  }

  function Unlock(lock: Lock, sid: Sid): Lock {
    if lock.owner != Some(sid) then lock
    else if lock.depth <= 1 then Lock(None, 0)
    else Lock(Some(sid), lock.depth - 1)
  }

  function Apply(s: State, a: Action): State
    requires Enabled(s, a)
  {
    match a
    case Ask(sid, req) =>
      var lock := TryLock(s.lock, sid);
      if lock.None? then s
      else s.(lock := lock.value, log := s.log + [Took(sid, req, s.main)],
              sessions := s.sessions[sid := Session(Memory(req, s.main, false, [], None), FirstPc(req.kind))])
    case Go(sid, ok, settled, reported) =>
      var se := s.sessions[sid];
      if se.pc.Release? then
        s.(lock := Unlock(s.lock, sid), sessions := s.sessions - {sid},
           log := s.log + [LetGo(sid, se.me.req, s.main, se.me.sent, se.me.recorded)])
      else
        s.(sessions := s.sessions[sid := Advance(se, s.main, s.status, ok, settled)],
           main := if se.pc.Put? then se.pc.to else if se.pc.Check? && settled.Some? then settled.value else s.main,
           status := if se.pc.Check? then reported else s.status)
  }

  ghost predicate Next(s: State, s': State) {
    exists a :: Enabled(s, a) && s' == Apply(s, a)
  }

  ghost predicate IsRun(run: seq<State>) {
    && run != [] && Init(run[0])
    && forall i :: 0 <= i < |run| - 1 ==> Next(run[i], run[i + 1])
  }
}
