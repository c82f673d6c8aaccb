/** The user actions as one session runs them from beginning to end, each the sequence of its
    steps: what a session does between taking the lock and letting go of it. */
module UserCommands {
  import opened Wrappers
  import opened UserActions
  import opened UserSafety

  /** What a session's environment makes of its steps: the status readings, whether each file
      access and command succeeds, and what a status check records. */
  datatype Env = Env(status: Reported, statusAgain: Reported, fileThere: bool, licensed: bool, backedUp: bool,
                     fetched: bool, stopped: bool, worked: bool, settled: Option<MainState>)

  function Reads(env: Env, pc: Pc): Reported { if pc.ReadStatusAgain? then env.statusAgain else env.status }

  function Succeeds(env: Env, pc: Pc): bool {
    match pc
    case CheckFile => env.fileThere
    case License => env.licensed
    case BackupFirst => env.backedUp
    case FetchFile => env.fetched
    case StopFirst => env.stopped
    case Work => env.worked
    case _ => true
  }

  /** What an action does that others can see: it sets the main state, or has the agent carry
      out a command. */
  datatype Deed = Sets(state: MainState) | Asks(command: Command, ok: bool)

  function Forth(se: Session, main: MainState, env: Env): Session {
    Advance(se, main, Reads(env, se.pc), Succeeds(env, se.pc), env.settled)
  }

  function Effect(pc: Pc, main: MainState, env: Env): MainState {
    if pc.Put? then pc.to else if pc.Check? && env.settled.Some? then env.settled.value else main
  }

  function DeedsOf(se: Session, env: Env): seq<Deed> {
    match se.pc
    case Put(to, _) => [Sets(to)]
    case Check(_) => if env.settled.Some? then [Sets(env.settled.value)] else []
    case _ => AsDeeds(Sends(se, Succeeds(env, se.pc)))
  }

  function AsDeeds(sends: seq<Sent>): seq<Deed> {
    seq(|sends|, i requires 0 <= i < |sends| => Asks(sends[i].command, sends[i].ok))
  }

  /** All steps of a session up to its release, and what they do. */
  function Finish(se: Session, main: MainState, env: Env): (Session, MainState)
    decreases Rank(se.pc)
  {
    if se.pc.Release? then (se, main)
    else
      ComesToRelease(se, main, Reads(env, se.pc), Succeeds(env, se.pc), env.settled);
      Finish(Forth(se, main, env), Effect(se.pc, main, env), env)
  }

  function Course(se: Session, main: MainState, env: Env): seq<Deed>
    decreases Rank(se.pc)
  {
    if se.pc.Release? then []
    else
      ComesToRelease(se, main, Reads(env, se.pc), Succeeds(env, se.pc), env.settled);
      DeedsOf(se, env) + Course(Forth(se, main, env), Effect(se.pc, main, env), env)
  }

  function Begun(req: Request, main: MainState): Session { Session(Memory(req, main, false, [], None), FirstPc(req.kind)) }

  /** The main state, what the agent was sent, and all that was done. */
  datatype World = World(main: MainState, sent: seq<Sent>, deeds: seq<Deed>) {
    function Set(to: MainState): World { World(to, sent, deeds + [Sets(to)]) }

    function Asked(command: Command, ok: bool): World { World(main, sent + [Sent(command, ok)], deeds + [Asks(command, ok)]) }

    function Checked(env: Env): World { if env.settled.Some? then Set(env.settled.value) else this }
  }

  /** A session in the course of its steps, from `w0` to `w` so far. */
  ghost predicate InCourse(req: Request, w0: World, env: Env, se: Session, w: World) {
    && Finish(Begun(req, w0.main), w0.main, env) == Finish(se, w.main, env)
    && w0.sent + se.me.sent == w.sent
    && w0.deeds + Course(Begun(req, w0.main), w0.main, env) == w.deeds + Course(se, w.main, env)
  }

  lemma CourseBegins(req: Request, w: World, env: Env) returns (se: Session)
    ensures se == Begun(req, w.main) && InCourse(req, w, env, se, w)
  {
    se := Begun(req, w.main);
  }

  /** The world after one step. */
  function After(w: World, se: Session, env: Env): World {
    World(Effect(se.pc, w.main, env), w.sent + Sends(se, Succeeds(env, se.pc)), w.deeds + DeedsOf(se, env))
  }

  lemma RecallSends(se: Session, main: MainState, env: Env)
    ensures Forth(se, main, env).me.sent == se.me.sent + Sends(se, Succeeds(env, se.pc))
  {
    hide NextPc, CommandOf;
  }

  lemma StepOn(req: Request, w0: World, env: Env, se: Session, w: World)
    requires InCourse(req, w0, env, se, w) && !se.pc.Release?
    ensures InCourse(req, w0, env, Forth(se, w.main, env), After(w, se, env))
  {
    hide Forth, Effect, DeedsOf, Sends, Rank;
    RecallSends(se, w.main, env);
    var se' := Forth(se, w.main, env);
    var sends := Sends(se, Succeeds(env, se.pc));
    assert w0.sent + (se.me.sent + sends) == (w0.sent + se.me.sent) + sends;
    var rest := Course(se', Effect(se.pc, w.main, env), env);
    assert w.deeds + (DeedsOf(se, env) + rest) == (w.deeds + DeedsOf(se, env)) + rest;
  }

  function Told(me: Memory, c: Command, ok: bool): Memory { me.(sent := me.sent + [Sent(c, ok)]) }

  // One kind of step each.

  lemma PutOn(req: Request, w0: World, env: Env, se: Session, w: World) returns (se': Session)
    requires InCourse(req, w0, env, se, w) && se.pc.Put?
    ensures InCourse(req, w0, env, se', w.Set(se.pc.to)) && se' == Session(se.me, se.pc.next)
  {
    hide InCourse;
    StepOn(req, w0, env, se, w);
    se' := Session(se.me, se.pc.next);
    assert After(w, se, env) == w.Set(se.pc.to);
  }

  lemma CheckOn(req: Request, w0: World, env: Env, se: Session, w: World) returns (se': Session)
    requires InCourse(req, w0, env, se, w) && se.pc.Check?
    ensures InCourse(req, w0, env, se', w.Checked(env)) && se' == Session(se.me.(recorded := env.settled), se.pc.next)
  {
    hide InCourse;
    StepOn(req, w0, env, se, w);
    se' := Session(se.me.(recorded := env.settled), se.pc.next);
    assert After(w, se, env) == w.Checked(env);
  }

  /** A step that only reads. */
  lemma QuietOn(req: Request, w0: World, env: Env, se: Session, w: World)
    requires InCourse(req, w0, env, se, w)
    requires se.pc.ReadState? || se.pc.CheckFile? || se.pc.ReadStatus? || se.pc.FetchFile? || se.pc.ReadStatusAgain?
    ensures InCourse(req, w0, env, Forth(se, w.main, env), w)
  {
    hide InCourse, Forth;
    StepOn(req, w0, env, se, w);
    assert After(w, se, env) == w;
  }

  lemma ReadOn(req: Request, w0: World, env: Env, se: Session, w: World) returns (se': Session)
    requires InCourse(req, w0, env, se, w) && se.pc.ReadState?
    ensures InCourse(req, w0, env, se', w) && se' == Session(se.me.(found := w.main), AfterState(se.me.req.kind, w.main))
  {
    hide InCourse, AfterState;
    QuietOn(req, w0, env, se, w);
    se' := Forth(se, w.main, env);
  }

  lemma FileOn(req: Request, w0: World, env: Env, se: Session, w: World) returns (se': Session)
    requires InCourse(req, w0, env, se, w) && se.pc.CheckFile?
    ensures InCourse(req, w0, env, se', w) && se' == Session(se.me, if env.fileThere then ReadStatus else Release)
  {
    hide InCourse;
    QuietOn(req, w0, env, se, w);
    se' := Forth(se, w.main, env);
  }

  lemma StatusOn(req: Request, w0: World, env: Env, se: Session, w: World) returns (se': Session)
    requires InCourse(req, w0, env, se, w) && se.pc.ReadStatus?
    ensures InCourse(req, w0, env, se', w)
    ensures se' == Session(se.me.(sawRunning := env.status.ReportedRunning?), AfterStatus(se.me.req, env.status))
  {
    hide InCourse, AfterStatus;
    QuietOn(req, w0, env, se, w);
    se' := Forth(se, w.main, env);
  }

  lemma FetchOn(req: Request, w0: World, env: Env, se: Session, w: World) returns (se': Session)
    requires InCourse(req, w0, env, se, w) && se.pc.FetchFile?
    ensures InCourse(req, w0, env, se', w)
    ensures se' == Session(se.me, if env.fetched then ReadStatusAgain else Put(se.me.found, Check(Release)))
  {
    hide InCourse;
    QuietOn(req, w0, env, se, w);
    se' := Forth(se, w.main, env);
  }

  lemma AgainOn(req: Request, w0: World, env: Env, se: Session, w: World) returns (se': Session)
    requires InCourse(req, w0, env, se, w) && se.pc.ReadStatusAgain?
    ensures InCourse(req, w0, env, se', w)
    ensures se' == Session(se.me.(sawRunning := env.statusAgain.ReportedRunning?),
                           if env.statusAgain.ReportedRunning? then Put(StoppingRestore, StopFirst) else Put(StartingRestore, Work))
  {
    hide InCourse;
    QuietOn(req, w0, env, se, w);
    se' := Forth(se, w.main, env);
  }

  /** A step that sends the agent a command. */
  lemma AskOn(req: Request, w0: World, env: Env, se: Session, w: World, c: Command, ok: bool)
    requires InCourse(req, w0, env, se, w) && !se.pc.Put? && !se.pc.Check? && !se.pc.Release?
    requires ok == Succeeds(env, se.pc) && Sends(se, ok) == [Sent(c, ok)]
    ensures InCourse(req, w0, env, Forth(se, w.main, env), w.Asked(c, ok))
  {
    hide InCourse, Forth, Sends;
    StepOn(req, w0, env, se, w);
    assert DeedsOf(se, env) == [Asks(c, ok)];
  }

  lemma LicenseOn(req: Request, w0: World, env: Env, se: Session, w: World) returns (se': Session)
    requires InCourse(req, w0, env, se, w) && se.pc.License?
    ensures InCourse(req, w0, env, se', w.Asked(CheckLicense, env.licensed))
    ensures se' == Session(Told(se.me, CheckLicense, env.licensed),
                           if env.licensed then AfterLicense(se.me.req) else Put(se.me.found, Release))
  {
    hide InCourse, AfterLicense;
    AskOn(req, w0, env, se, w, CheckLicense, env.licensed);
    se' := Forth(se, w.main, env);
  }

  lemma BackupOn(req: Request, w0: World, env: Env, se: Session, w: World) returns (se': Session)
    requires InCourse(req, w0, env, se, w) && se.pc.BackupFirst?
    ensures InCourse(req, w0, env, se', w.Asked(RunBackup, env.backedUp))
    ensures se' == Session(Told(se.me, RunBackup, env.backedUp),
                           if !env.backedUp then Put(se.me.found, Release)
                           else if se.me.req.kind.Restore? then FetchFile else Put(Marker(se.me.req.kind, true), Work))
  {
    hide InCourse, Marker;
    AskOn(req, w0, env, se, w, RunBackup, env.backedUp);
    se' := Forth(se, w.main, env);
  }

  lemma StopOn(req: Request, w0: World, env: Env, se: Session, w: World) returns (se': Session)
    requires InCourse(req, w0, env, se, w) && se.pc.StopFirst?
    ensures InCourse(req, w0, env, se', w.Asked(RunStop, env.stopped))
    ensures se' == Session(Told(se.me, RunStop, env.stopped),
                           if env.stopped then Put(StartingRestore, Work) else Put(se.me.found, Check(Release)))
  {
    hide InCourse;
    AskOn(req, w0, env, se, w, RunStop, env.stopped);
    se' := Forth(se, w.main, env);
  }

  lemma WorkOn(req: Request, w0: World, env: Env, se: Session, w: World) returns (se': Session)
    requires InCourse(req, w0, env, se, w) && se.pc.Work?
    ensures InCourse(req, w0, env, se', w.Asked(CommandOf(se.me.req.kind), env.worked))
    ensures se' == Session(Told(se.me, CommandOf(se.me.req.kind), env.worked), AfterWork(se.me.req.kind, se.me.found, env.worked))
  {
    hide InCourse, CommandOf, AfterWork;
    AskOn(req, w0, env, se, w, CommandOf(se.me.req.kind), env.worked);
    se' := Forth(se, w.main, env);
  }

  /** An action carried through: the steps of its session, on the main state and the agent. */
  ghost predicate Performs(req: Request, env: Env, w: World, w': World) {
    var (se, m) := Finish(Begun(req, w.main), w.main, env);
    w' == World(m, w.sent + se.me.sent, w.deeds + Course(Begun(req, w.main), w.main, env))
  }

  lemma Performed(req: Request, env: Env, w0: World, se: Session, w: World)
    requires InCourse(req, w0, env, se, w) && se.pc.Release?
    ensures Performs(req, env, w0, w)
  {
    assert w.deeds + [] == w.deeds;
  }

  class CliHandler {
    var main: MainState
    var lock: Lock
    var sent: seq<Sent>
    ghost var deeds: seq<Deed>

    ghost function Value(): World
      reads this
    {
      World(main, sent, deeds)
    }

    predicate Valid()
      reads this
    {
      lock.owner.None? <==> lock.depth == 0
    }

    constructor (main: MainState)
      ensures Valid() && Value() == World(main, [], []) && lock == Lock(None, 0)
    {
      this.main, lock, sent, deeds := main, Lock(None, 0), [], [];
    }

    /** `StateManager.update`. */
    method Update(to: MainState)
      modifies `main, `deeds
      ensures Value() == old(Value()).Set(to)
    {
      main, deeds := to, deeds + [Sets(to)];
    }

    /** A command that the agent carries out, with success or not. */
    method Ask(command: Command, ok: bool)
      modifies `sent, `deeds
      ensures Value() == old(Value()).Asked(command, ok)
    {
      sent, deeds := sent + [Sent(command, ok)], deeds + [Asks(command, ok)];
    }

    /** The status check at the end of an action. */
    method CheckStatus(env: Env)
      modifies `main, `deeds
      ensures Value() == old(Value()).Checked(env)
    {
      if env.settled.Some? {
        Update(env.settled.value);
      }
    }

    method DoBackup(sid: Sid, env: Env) returns (busy: bool)
      requires Valid()
      modifies this
      ensures lock == old(lock) && (busy <==> lock.owner.Some? && lock.owner.value != sid)
      ensures if busy then Value() == old(Value()) else Performs(Request(Backup, false, false), env, old(Value()), Value())
    {
      hide Finish, Course, Performs, InCourse;
      var taken := TryLock(lock, sid);
      if taken.None? {
        return true;
      }
      lock := taken.value;
      ghost var req, w0 := Request(Backup, false, false), Value();
      ghost var se := CourseBegins(req, Value(), env);
      se := ReadOn(req, w0, env, se, Value());
      var mainState := main;
      if !mainState.Started? && !mainState.Degraded? && !mainState.Stopped? && !mainState.StoppedUnexpected? {
        lock := Unlock(lock, sid);
        Performed(req, env, w0, se, Value());
        return false;
      }
      assert se == Session(Memory(req, mainState, false, [], None), ReadStatus);
      se := StatusOn(req, w0, env, se, Value());
      var reported := env.status;
      if !reported.ReportedRunning? && !reported.ReportedDegraded? && !reported.ReportedStopped? {
        lock := Unlock(lock, sid);
        Performed(req, env, w0, se, Value());
        return false;
      }
      se := PutOn(req, w0, env, se, Value());
      Update(if reported.ReportedStopped? then StoppedBackup else StartedBackup);
      assert se.pc == Work && se.me.sent == [];
      se := WorkOn(req, w0, env, se, Value());
      Ask(RunBackup, env.worked);
      assert se.pc == Put(mainState, Release);
      se := PutOn(req, w0, env, se, Value());
      Update(mainState);
      lock := Unlock(lock, sid);
      Performed(req, env, w0, se, Value());
      return false;
    }

    /** `do_deletefile`, `do_ziplogs` and `do_cleanup` differ in their states and commands only. */
    method DoMarked(sid: Sid, kind: Kind, env: Env) returns (busy: bool)
      requires Valid() && (kind.DeleteFile? || kind.ZipLogs? || kind.Cleanup?)
      modifies this
      ensures lock == old(lock) && (busy <==> lock.owner.Some? && lock.owner.value != sid)
      ensures if busy then Value() == old(Value()) else Performs(Request(kind, false, false), env, old(Value()), Value())
    {
      hide Finish, Course, Performs, InCourse;
      var taken := TryLock(lock, sid);
      if taken.None? {
        return true;
      }
      lock := taken.value;
      ghost var req, w0 := Request(kind, false, false), Value();
      ghost var se := CourseBegins(req, Value(), env);
      se := ReadOn(req, w0, env, se, Value());
      var mainState := main;
      var marker;
      if mainState.Started? || mainState.Degraded? {
        marker := match kind case DeleteFile => StartedFiledel case ZipLogs => StartedZiplogs case _ => StartedCleanup;
      } else if mainState.Stopped? || mainState.StoppedUnexpected? {
        marker := match kind case DeleteFile => StoppedFiledel case ZipLogs => StoppedZiplogs case _ => StoppedCleanup;
      } else {
        lock := Unlock(lock, sid);
        Performed(req, env, w0, se, Value());
        return false;
      }
      assert se == Session(Memory(req, mainState, false, [], None), Put(marker, Work));
      se := PutOn(req, w0, env, se, Value());
      Update(marker);
      var command := match kind case DeleteFile => RunDelete case ZipLogs => RunZipLogs case _ => RunCleanup;
      se := WorkOn(req, w0, env, se, Value());
      Ask(command, env.worked);
      assert se.pc == Put(mainState, Release);
      se := PutOn(req, w0, env, se, Value());
      Update(mainState);
      lock := Unlock(lock, sid);
      Performed(req, env, w0, se, Value());
      return false;
    }

    method DoStart(sid: Sid, env: Env) returns (busy: bool)
      requires Valid()
      modifies this
      ensures lock == old(lock) && (busy <==> lock.owner.Some? && lock.owner.value != sid)
      ensures if busy then Value() == old(Value()) else Performs(Request(Start, false, false), env, old(Value()), Value())
    {
      hide Finish, Course, Performs, InCourse;
      var taken := TryLock(lock, sid);
      if taken.None? {
        return true;
      }
      lock := taken.value;
      ghost var req, w0 := Request(Start, false, false), Value();
      ghost var se := CourseBegins(req, Value(), env);
      se := ReadOn(req, w0, env, se, Value());
      var mainState := main;
      if !mainState.Stopped? && !mainState.StoppedUnexpected? {
        lock := Unlock(lock, sid);
        Performed(req, env, w0, se, Value());
        return false;
      }
      se := StatusOn(req, w0, env, se, Value());
      if !env.status.ReportedStopped? {
        lock := Unlock(lock, sid);
        Performed(req, env, w0, se, Value());
        return false;
      }
      se := PutOn(req, w0, env, se, Value());
      Update(Starting);
      se := WorkOn(req, w0, env, se, Value());
      Ask(RunStart, env.worked);
      se := CheckOn(req, w0, env, se, Value());
      CheckStatus(env);
      se := PutOn(req, w0, env, se, Value());
      Update(if env.worked then Started else Stopped);
      lock := Unlock(lock, sid);
      Performed(req, env, w0, se, Value());
      return false;
    }

    /** License check and backup before a stop or restart.  When it refuses to go on it has let
        go of the lock. */
    method PreStop(sid: Sid, req: Request, env: Env) returns (goOn: bool, ghost se: Session)
      requires (req.kind.Stop? || req.kind.Restart?) && lock.owner == Some(sid) && lock.depth > 0
      modifies this
      ensures lock == if goOn then old(lock) else Unlock(old(lock), sid)
      ensures !goOn ==> Performs(req, env, old(Value()), Value())
      ensures goOn ==> InCourse(req, old(Value()), env, se, Value())
                       && se.pc == Put(Marker(req.kind, true), Work) && se.me.req == req
    {
      hide Finish, Course, Performs, InCourse, Marker;
      ghost var w0 := Value();
      se := CourseBegins(req, Value(), env);
      se := ReadOn(req, w0, env, se, Value());
      var mainState := main;
      var restart := req.kind.Restart?;
      if !mainState.Started? && !mainState.Degraded? && !(restart && (mainState.Stopped? || mainState.StoppedUnexpected?)) {
        lock := Unlock(lock, sid);
        Performed(req, env, w0, se, Value());
        return false, se;
      }
      assert se == Session(Memory(req, mainState, false, [], None), ReadStatus);
      se := StatusOn(req, w0, env, se, Value());
      var reported := env.status;
      if !reported.ReportedRunning? && !reported.ReportedDegraded? && !(restart && reported.ReportedStopped?) {
        lock := Unlock(lock, sid);
        Performed(req, env, w0, se, Value());
        return false, se;
      }
      if req.licenseCheck {
        assert se.pc == License;
        se := LicenseOn(req, w0, env, se, Value());
        Ask(CheckLicense, env.licensed);
        if !env.licensed {
          se := PutOn(req, w0, env, se, Value());
          Update(mainState);
          lock := Unlock(lock, sid);
          Performed(req, env, w0, se, Value());
          return false, se;
        }
      }
      goOn, se := BackUpBefore(sid, req, mainState, env, w0, se);
    }

    /** The second half of `pre_stop`. */
    method BackUpBefore(sid: Sid, req: Request, mainState: MainState, env: Env, ghost w0: World, ghost before: Session)
      returns (goOn: bool, ghost se: Session)
      requires (req.kind.Stop? || req.kind.Restart?) && lock.owner == Some(sid) && lock.depth > 0
      requires InCourse(req, w0, env, before, Value())
      requires before.pc == AfterLicense(req) && before.me.req == req && before.me.found == mainState
      modifies this
      ensures lock == if goOn then old(lock) else Unlock(old(lock), sid)
      ensures !goOn ==> Performs(req, env, w0, Value())
      ensures goOn ==> InCourse(req, w0, env, se, Value())
                       && se.pc == Put(Marker(req.kind, true), Work) && se.me.req == req
    {
      hide Finish, Course, Performs, InCourse, Marker;
      se := before;
      if req.backupFirst {
        se := PutOn(req, w0, env, se, Value());
        Update(if req.kind.Restart? then StartedBackupRestart else StartedBackupStop);
        se := BackupOn(req, w0, env, se, Value());
        Ask(RunBackup, env.backedUp);
        if !env.backedUp {
          se := PutOn(req, w0, env, se, Value());
          Update(mainState);
          lock := Unlock(lock, sid);
          Performed(req, env, w0, se, Value());
          return false, se;
        }
      }
      return true, se;
    }

    method DoStop(sid: Sid, licenseCheck: bool, backupFirst: bool, env: Env) returns (busy: bool)
      requires Valid()
      modifies this
      ensures lock == old(lock) && (busy <==> lock.owner.Some? && lock.owner.value != sid)
      ensures if busy then Value() == old(Value()) else Performs(Request(Stop, licenseCheck, backupFirst), env, old(Value()), Value())
    {
      hide Finish, Course, Performs, InCourse;
      var taken := TryLock(lock, sid);
      if taken.None? {
        return true;
      }
      lock := taken.value;
      ghost var req, w0 := Request(Stop, licenseCheck, backupFirst), Value();
      var goOn;
      ghost var se;
      goOn, se := PreStop(sid, Request(Stop, licenseCheck, backupFirst), env);
      if !goOn {
        return false;
      }
      se := PutOn(req, w0, env, se, Value());
      Update(Stopping);
      se := WorkOn(req, w0, env, se, Value());
      Ask(RunStop, env.worked);
      se := CheckOn(req, w0, env, se, Value());
      CheckStatus(env);
      lock := Unlock(lock, sid);
      Performed(req, env, w0, se, Value());
      return false;
    }

    method DoRestart(sid: Sid, licenseCheck: bool, backupFirst: bool, env: Env) returns (busy: bool)
      requires Valid()
      modifies this
      ensures lock == old(lock) && (busy <==> lock.owner.Some? && lock.owner.value != sid)
      ensures if busy then Value() == old(Value()) else Performs(Request(Restart, licenseCheck, backupFirst), env, old(Value()), Value())
    {
      hide Finish, Course, Performs, InCourse;
      var taken := TryLock(lock, sid);
      if taken.None? {
        return true;
      }
      lock := taken.value;
      ghost var req, w0 := Request(Restart, licenseCheck, backupFirst), Value();
      var goOn;
      ghost var se;
      goOn, se := PreStop(sid, Request(Restart, licenseCheck, backupFirst), env);
      if !goOn {
        return false;
      }
      se := PutOn(req, w0, env, se, Value());
      Update(Restarting);
      se := WorkOn(req, w0, env, se, Value());
      Ask(RunRestart, env.worked);
      if env.worked {
        se := PutOn(req, w0, env, se, Value());
        Update(Started);
      } else {
        se := CheckOn(req, w0, env, se, Value());
        CheckStatus(env);
      }
      lock := Unlock(lock, sid);
      Performed(req, env, w0, se, Value());
      return false;
    }

    /** Stops a running server, then restores. */
    method RestoreLocal(env: Env, ghost req: Request, ghost w0: World, ghost before: Session)
      returns (ok: bool, ghost se: Session)
      requires InCourse(req, w0, env, before, Value())
      requires before.pc.ReadStatusAgain? && before.me.req == req && req.kind.Restore?
      modifies `main, `sent, `deeds
      ensures InCourse(req, w0, env, se, Value()) && se.me.found == before.me.found
      ensures se.pc == if ok then Check(Release) else Put(before.me.found, Check(Release))
    {
      hide Finish, Course, Performs, InCourse, Marker;
      se := AgainOn(req, w0, env, before, Value());
      if env.statusAgain.ReportedRunning? {
        se := PutOn(req, w0, env, se, Value());
        Update(StoppingRestore);
        se := StopOn(req, w0, env, se, Value());
        Ask(RunStop, env.stopped);
        if !env.stopped {
          return false, se;
        }
      }
      se := PutOn(req, w0, env, se, Value());
      Update(StartingRestore);
      se := WorkOn(req, w0, env, se, Value());
      Ask(RunRestore, env.worked);
      return env.worked, se;
    }

    /** Fetches the file and restores from it; what fails puts the main state back. */
    method RestoreCmd(origState: MainState, env: Env, ghost req: Request, ghost w0: World, ghost before: Session)
      returns (ok: bool, ghost se: Session)
      requires InCourse(req, w0, env, before, Value())
      requires before.pc.FetchFile? && before.me.req == req && req.kind.Restore? && before.me.found == origState
      modifies `main, `sent, `deeds
      ensures InCourse(req, w0, env, se, Value()) && se.pc == Check(Release)
    {
      hide Finish, Course, Performs, InCourse;
      se := FetchOn(req, w0, env, before, Value());
      if !env.fetched {
        se := PutOn(req, w0, env, se, Value());
        Update(origState);
        return false, se;
      }
      ok, se := RestoreLocal(env, req, w0, se);
      if !ok {
        se := PutOn(req, w0, env, se, Value());
        Update(origState);
      }
    }

    method DoRestore(sid: Sid, licenseCheck: bool, backupFirst: bool, env: Env) returns (busy: bool)
      requires Valid()
      modifies this
      ensures lock == old(lock) && (busy <==> lock.owner.Some? && lock.owner.value != sid)
      ensures if busy then Value() == old(Value()) else Performs(Request(Restore, licenseCheck, backupFirst), env, old(Value()), Value())
    {
      hide Finish, Course, Performs, InCourse;
      var taken := TryLock(lock, sid);
      if taken.None? {
        return true;
      }
      lock := taken.value;
      ghost var req, w0 := Request(Restore, licenseCheck, backupFirst), Value();
      ghost var se := CourseBegins(req, Value(), env);
      se := ReadOn(req, w0, env, se, Value());
      var mainState := main;
      if !mainState.Started? && !mainState.Degraded? && !mainState.Stopped? && !mainState.StoppedUnexpected? {
        lock := Unlock(lock, sid);
        Performed(req, env, w0, se, Value());
        return false;
      }
      se := FileOn(req, w0, env, se, Value());
      if !env.fileThere {
        lock := Unlock(lock, sid);
        Performed(req, env, w0, se, Value());
        return false;
      }
      se := StatusOn(req, w0, env, se, Value());
      if !env.status.ReportedRunning? && !env.status.ReportedDegraded? && !env.status.ReportedStopped? {
        lock := Unlock(lock, sid);
        Performed(req, env, w0, se, Value());
        return false;
      }
      se := PutOn(req, w0, env, se, Value());
      Update(if env.status.ReportedStopped? then StoppedBackupRestore else StartedBackupRestore);
      PrepareRestore(licenseCheck, backupFirst, mainState, env, req, w0, se);
      lock := Unlock(lock, sid);
      return false;
    }

    /** `do_restore` from its license check on. */
    method PrepareRestore(licenseCheck: bool, backupFirst: bool, mainState: MainState, env: Env, ghost req: Request,
                          ghost w0: World, ghost before: Session)
      requires req == Request(Restore, licenseCheck, backupFirst)
      requires InCourse(req, w0, env, before, Value())
      requires before.pc == (if licenseCheck then License else AfterLicense(req))
      requires before.me.req == req && before.me.found == mainState
      modifies `main, `sent, `deeds
      ensures Performs(req, env, w0, Value())
    {
      hide Finish, Course, Performs, InCourse;
      ghost var se := before;
      if licenseCheck {
        se := LicenseOn(req, w0, env, se, Value());
        Ask(CheckLicense, env.licensed);
        if !env.licensed {
          se := PutOn(req, w0, env, se, Value());
          Update(mainState);
          Performed(req, env, w0, se, Value());
          return;
        }
      }
      if backupFirst {
        se := BackupOn(req, w0, env, se, Value());
        Ask(RunBackup, env.backedUp);
        if !env.backedUp {
          se := PutOn(req, w0, env, se, Value());
          Update(mainState);
          Performed(req, env, w0, se, Value());
          return;
        }
      }
      var ok;
      ok, se := RestoreCmd(mainState, env, req, w0, se);
      se := CheckOn(req, w0, env, se, Value());
      CheckStatus(env);
      Performed(req, env, w0, se, Value());
    }
  }

  /** A session past the step whose state only a status check replaces has that check before it
      or behind it. */
  predicate Checks(se: Session, env: Env) {
    EndsUnsettled(se.me.req.kind, se.me.sent) ==> se.pc.Check? || se.me.recorded == env.settled
  }

  lemma SendsPlainly(se: Session, ok: bool)
    requires !se.pc.Work? && (se.pc.StopFirst? ==> se.me.req.kind.Restore?) && Sends(se, ok) != []
    ensures !EndsUnsettled(se.me.req.kind, se.me.sent + Sends(se, ok))
  {
    hide CommandOf;
  }

  lemma WorkChecks(kind: Kind, found: MainState, sent: seq<Sent>, ok: bool)
    requires EndsUnsettled(kind, sent + [Sent(CommandOf(kind), ok)])
    ensures AfterWork(kind, found, ok).Check?
  {
  }

  lemma ChecksOn(se: Session, main: MainState, env: Env)
    requires !se.pc.Release? && Checks(se, env) && (se.pc.StopFirst? ==> se.me.req.kind.Restore?)
    ensures Checks(Forth(se, main, env), env)
  {
    var ok, se' := Succeeds(env, se.pc), Forth(se, main, env);
    hide AfterState, AfterStatus, AfterLicense, AfterWork, Marker, Rank, EndsUnsettled, CommandOf;
    if se.pc.Work? {
      if EndsUnsettled(se.me.req.kind, se'.me.sent) {
        WorkChecks(se.me.req.kind, se.me.found, se.me.sent, ok);
      }
    } else if Sends(se, ok) != [] {
      SendsPlainly(se, ok);
    }
  }

  /** Carried through, a session comes to its release as its steps expect. */
  lemma {:induction false} FinishKeeps(se: Session, main: MainState, env: Env)
    requires Fits(se.me, se.pc, main) && Checks(se, env) && (env.settled.Some? ==> Settled(env.settled.value))
    ensures var (se', m) := Finish(se, main, env);
      && se'.pc.Release? && Fits(se'.me, Release, m) && Checks(se', env)
      && se'.me.req == se.me.req && se'.me.found == se.me.found
    decreases Rank(se.pc)
  {
    assert se.pc.StopFirst? ==> se.me.req.kind.Restore?;
    hide Fits, Rank, Checks;
    if !se.pc.Release? {
      ComesToRelease(se, main, Reads(env, se.pc), Succeeds(env, se.pc), env.settled);
      FitsNext(se, main, Reads(env, se.pc), Succeeds(env, se.pc), env.settled);
      ChecksOn(se, main, env);
      FinishKeeps(Forth(se, main, env), Effect(se.pc, main, env), env);
    }
  }

  lemma Finishes(req: Request, env: Env, main: MainState)
    requires env.settled.Some? ==> Settled(env.settled.value)
    ensures var (se, m) := Finish(Begun(req, main), main, env);
      Fits(se.me, Release, m) && Checks(se, env) && se.pc.Release? && se.me.req == req && se.me.found == main
  {
    hide Fits, Finish;
    FitsFirst(req, main);
    FinishKeeps(Begun(req, main), main, env);
  }

  /** What the commands above come to: the action has sent the agent the start of its plan, and
      leaves the main state that it is to leave. */
  lemma PerformedLeaves(req: Request, env: Env, w: World, w': World)
    requires Performs(req, env, w, w') && (env.settled.Some? ==> Settled(env.settled.value))
    ensures |w.sent| <= |w'.sent| && w'.sent[..|w.sent|] == w.sent
    ensures Leaves(req, w.main, w'.main, w'.sent[|w.sent|..])
    ensures exists running :: Follows(Plan(req, running), w'.sent[|w.sent|..])
  {
    hide Leaves, Follows, Plan, Finish, Course, EndsUnsettled, Unsettled, Fits, Checks;
    Finishes(req, env, w.main);
    var (se, m) := Finish(Begun(req, w.main), w.main, env);
    CheckFits(se.me, Release, m);
    assert w'.sent[|w.sent|..] == se.me.sent;
    assert Follows(Plan(req, se.me.sawRunning), se.me.sent);
  }

  /** An action that finds the server at rest leaves something under way exactly when it ends in
      a stop, a failed restart or a successful restore and the status check that follows records
      nothing. */
  lemma PerformedRests(req: Request, env: Env, w: World, w': World)
    requires Performs(req, env, w, w') && (env.settled.Some? ==> Settled(env.settled.value))
    requires AtRest(w.main) && !req.kind.StatusCheck?
    ensures |w.sent| <= |w'.sent|
    ensures !AtRest(w'.main) <==> env.settled.None? && EndsUnsettled(req.kind, w'.sent[|w.sent|..])
  {
    hide Finish, Course, Fits;
    Finishes(req, env, w.main);
    var (se, m) := Finish(Begun(req, w.main), w.main, env);
    assert w'.sent[|w.sent|..] == se.me.sent;
    ReleaseRests(se.me, m);
    hide EndsUnsettled;
  }
}
