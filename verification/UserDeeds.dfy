/** What each user action does, written out: when it goes ahead, which states it sets, what it
    has the agent carry out, and in which order. */
module UserDeeds {
  import opened UserActions
  import opened UserSafety
  import opened UserCommands

  // ---------------------------------------------------------------- the actions, written out

  /** What the status check at the end of an action sets. */
  function Recorded(env: Env): seq<Deed> { if env.settled.Some? then [Sets(env.settled.value)] else [] }

  /** A command that is asked for or not, and puts the main state back when it fails. */
  function Guarded(wanted: bool, c: Command, ok: bool, found: MainState, rest: seq<Deed>): seq<Deed> {
    if !wanted then rest
    else if ok then [Asks(c, true)] + rest
    else [Asks(c, false), Sets(found)]
  }

  /** A restore from the fetching of its file on. */
  function Restores(found: MainState, env: Env): seq<Deed> {
    if !env.fetched then [Sets(found)] + Recorded(env)
    else if env.statusAgain != ReportedRunning then RestoresDown(found, env)
    else if env.stopped then [Sets(StoppingRestore), Asks(RunStop, true)] + RestoresDown(found, env)
    else [Sets(StoppingRestore), Asks(RunStop, false), Sets(found)] + Recorded(env)
  }

  function RestoresDown(found: MainState, env: Env): seq<Deed> {
    [Sets(StartingRestore), Asks(RunRestore, env.worked)] + (if env.worked then [] else [Sets(found)]) + Recorded(env)
  }

  function Deeds(req: Request, found: MainState, env: Env): seq<Deed> {
    var up, down := found == Started || found == Degraded, found == Stopped || found == StoppedUnexpected;
    var running, halted := env.status == ReportedRunning || env.status == ReportedDegraded, env.status == ReportedStopped;
    match req.kind
    case Backup =>
      if (up || down) && (running || halted)
      then [Sets(if running then StartedBackup else StoppedBackup), Asks(RunBackup, env.worked), Sets(found)]
      else []
    case DeleteFile =>
      if up || down
      then [Sets(if up then StartedFiledel else StoppedFiledel), Asks(RunDelete, env.worked), Sets(found)]
      else []
    case ZipLogs =>
      if up || down
      then [Sets(if up then StartedZiplogs else StoppedZiplogs), Asks(RunZipLogs, env.worked), Sets(found)]
      else []
    case Cleanup =>
      if up || down
      then [Sets(if up then StartedCleanup else StoppedCleanup), Asks(RunCleanup, env.worked), Sets(found)]
      else []
    case Start =>
      if down && halted
      then [Sets(Starting), Asks(RunStart, env.worked)] + Recorded(env) + [Sets(if env.worked then Started else Stopped)]
      else []
    case Stop =>
      var stop := [Sets(Stopping), Asks(RunStop, env.worked)] + Recorded(env);
      var backup := (if req.backupFirst then [Sets(StartedBackupStop)] else [])
                    + Guarded(req.backupFirst, RunBackup, env.backedUp, found, stop);
      if up && running then Guarded(req.licenseCheck, CheckLicense, env.licensed, found, backup) else []
    case Restart =>
      var restart := [Sets(Restarting), Asks(RunRestart, env.worked)] + (if env.worked then [Sets(Started)] else Recorded(env));
      var backup := (if req.backupFirst then [Sets(StartedBackupRestart)] else [])
                    + Guarded(req.backupFirst, RunBackup, env.backedUp, found, restart);
      if (up || down) && (running || halted) then Guarded(req.licenseCheck, CheckLicense, env.licensed, found, backup) else []
    case Restore =>
      var backup := Guarded(req.backupFirst, RunBackup, env.backedUp, found, Restores(found, env));
      if (up || down) && env.fileThere && (running || halted)
      then [Sets(if running then StartedBackupRestore else StoppedBackupRestore)]
           + Guarded(req.licenseCheck, CheckLicense, env.licensed, found, backup)
      else []
    case StatusCheck => Recorded(env)
  }

  // ---------------------------------------------------------------- the steps come to that

  lemma Turn(se: Session, main: MainState, env: Env)
    requires !se.pc.Release?
    ensures Course(se, main, env) == DeedsOf(se, env) + Course(Forth(se, main, env), Effect(se.pc, main, env), env)
  {
    hide DeedsOf, Forth, Effect;
  }

  lemma Ends(me: Memory, main: MainState, env: Env)
    ensures Course(Session(me, Release), main, env) == []
  {
  }

  lemma Puts(me: Memory, to: MainState, next: Pc, main: MainState, env: Env)
    ensures Course(Session(me, Put(to, next)), main, env) == [Sets(to)] + Course(Session(me, next), to, env)
  {
    hide Course;
    Turn(Session(me, Put(to, next)), main, env);
  }

  lemma Rechecks(me: Memory, next: Pc, main: MainState, env: Env)
    ensures Course(Session(me, Check(next)), main, env)
      == Recorded(env) + Course(Session(me.(recorded := env.settled), next), Effect(Check(next), main, env), env)
  {
    hide Course;
    Turn(Session(me, Check(next)), main, env);
  }

  lemma PutsAndEnds(me: Memory, to: MainState, main: MainState, env: Env)
    ensures Course(Session(me, Put(to, Release)), main, env) == [Sets(to)]
  {
    hide Course;
    Puts(me, to, Release, main, env);
    Ends(me, to, env);
  }

  lemma ChecksAndEnds(me: Memory, main: MainState, env: Env)
    ensures Course(Session(me, Check(Release)), main, env) == Recorded(env)
  {
    hide Course;
    Rechecks(me, Release, main, env);
    Ends(me.(recorded := env.settled), Effect(Check(Release), main, env), env);
  }

  lemma PutsAndChecks(me: Memory, to: MainState, main: MainState, env: Env)
    ensures Course(Session(me, Put(to, Check(Release))), main, env) == [Sets(to)] + Recorded(env)
  {
    hide Course;
    Puts(me, to, Check(Release), main, env);
    ChecksAndEnds(me, to, env);
  }

  lemma ChecksAndPuts(me: Memory, to: MainState, main: MainState, env: Env)
    ensures Course(Session(me, Check(Put(to, Release))), main, env) == Recorded(env) + [Sets(to)]
  {
    hide Course;
    Rechecks(me, Put(to, Release), main, env);
    PutsAndEnds(me.(recorded := env.settled), to, Effect(Check(Put(to, Release)), main, env), env);
  }

  /** A step that sends a command. */
  lemma Asking(me: Memory, pc: Pc, main: MainState, env: Env, c: Command)
    requires !pc.Put? && !pc.Check? && !pc.Release?
    requires var ok := Succeeds(env, pc); Sends(Session(me, pc), ok) == [Sent(c, ok)]
    ensures var se, ok := Session(me, pc), Succeeds(env, pc);
      Course(se, main, env) == [Asks(c, ok)] + Course(Forth(se, main, env), main, env)
  {
    hide Course, Forth, Sends;
    Turn(Session(me, pc), main, env);
  }

  /** What follows the main work of an action. */
  function Ending(kind: Kind, found: MainState, env: Env): seq<Deed> {
    match kind
    case Start => Recorded(env) + [Sets(if env.worked then Started else Stopped)]
    case Stop => Recorded(env)
    case Restart => if env.worked then [Sets(Started)] else Recorded(env)
    case Restore => (if env.worked then [] else [Sets(found)]) + Recorded(env)
    case _ => [Sets(found)]
  }

  lemma Works(me: Memory, main: MainState, env: Env)
    ensures Course(Session(me, Work), main, env) == [Asks(CommandOf(me.req.kind), env.worked)] + Ending(me.req.kind, me.found, env)
  {
    hide Course, CommandOf, Recorded;
    Asking(me, Work, main, env, CommandOf(me.req.kind));
    var me' := Forth(Session(me, Work), main, env).me;
    match me.req.kind
    case Start => ChecksAndPuts(me', if env.worked then Started else Stopped, main, env);
    case Stop => ChecksAndEnds(me', main, env);
    case Restart => if env.worked { PutsAndEnds(me', Started, main, env); } else { ChecksAndEnds(me', main, env); }
    case Restore => if env.worked { ChecksAndEnds(me', main, env); } else { PutsAndChecks(me', me.found, main, env); }
    case _ => PutsAndEnds(me', me.found, main, env);
  }

  lemma PutsAndWorks(me: Memory, to: MainState, main: MainState, env: Env)
    ensures Course(Session(me, Put(to, Work)), main, env)
      == [Sets(to), Asks(CommandOf(me.req.kind), env.worked)] + Ending(me.req.kind, me.found, env)
  {
    hide Course, Ending, CommandOf;
    Puts(me, to, Work, main, env);
    Works(me, to, env);
  }

  lemma RestoringDown(me: Memory, main: MainState, env: Env)
    requires me.req.kind.Restore?
    ensures Course(Session(me, Put(StartingRestore, Work)), main, env) == RestoresDown(me.found, env)
  {
    hide Course, Recorded;
    PutsAndWorks(me, StartingRestore, main, env);
  }

  lemma Restoring(me: Memory, main: MainState, env: Env)
    requires me.req.kind.Restore?
    ensures Course(Session(me, FetchFile), main, env) == Restores(me.found, env)
  {
    hide Course, Recorded, RestoresDown;
    Turn(Session(me, FetchFile), main, env);
    if !env.fetched {
      PutsAndChecks(me, me.found, main, env);
    } else {
      Turn(Session(me, ReadStatusAgain), main, env);
      var me1 := me.(sawRunning := env.statusAgain.ReportedRunning?);
      if env.statusAgain.ReportedRunning? {
        Puts(me1, StoppingRestore, StopFirst, main, env);
        Asking(me1, StopFirst, StoppingRestore, env, RunStop);
        var me2 := Forth(Session(me1, StopFirst), StoppingRestore, env).me;
        if env.stopped {
          RestoringDown(me2, StoppingRestore, env);
        } else {
          PutsAndChecks(me2, me.found, StoppingRestore, env);
        }
      } else {
        RestoringDown(me1, main, env);
      }
    }
  }

  /** The commands before the main work of a stop, a restart or a restore: a failure puts the
      state back and ends the action. */
  lemma Licensing(me: Memory, main: MainState, env: Env) returns (me': Memory)
    ensures me'.req == me.req && me'.found == me.found
    ensures Course(Session(me, License), main, env)
      == Guarded(true, CheckLicense, env.licensed, me.found, Course(Session(me', AfterLicense(me.req)), main, env))
  {
    hide Course, AfterLicense;
    Asking(me, License, main, env, CheckLicense);
    me' := Forth(Session(me, License), main, env).me;
    if !env.licensed {
      PutsAndEnds(me', me.found, main, env);
    }
  }

  /** What follows the license check. */
  function Backing(req: Request, found: MainState, env: Env): seq<Deed> {
    match req.kind
    case Restore => Guarded(req.backupFirst, RunBackup, env.backedUp, found, Restores(found, env))
    case _ =>
      var work := [Sets(Marker(req.kind, true)), Asks(CommandOf(req.kind), env.worked)] + Ending(req.kind, found, env);
      if !req.backupFirst then work
      else [Sets(if req.kind.Stop? then StartedBackupStop else StartedBackupRestart)]
           + Guarded(true, RunBackup, env.backedUp, found, work)
  }

  lemma BackingUpRestore(me: Memory, main: MainState, env: Env)
    requires me.req.kind.Restore?
    ensures Course(Session(me, BackupFirst), main, env) == Guarded(true, RunBackup, env.backedUp, me.found, Restores(me.found, env))
  {
    hide Course, Restores;
    Asking(me, BackupFirst, main, env, RunBackup);
    var se' := Forth(Session(me, BackupFirst), main, env);
    if env.backedUp {
      Restoring(se'.me, main, env);
    } else {
      PutsAndEnds(se'.me, me.found, main, env);
    }
  }

  lemma BackingUpOther(me: Memory, main: MainState, env: Env)
    requires !me.req.kind.Restore?
    ensures var work := [Sets(Marker(me.req.kind, true)), Asks(CommandOf(me.req.kind), env.worked)]
                        + Ending(me.req.kind, me.found, env);
      Course(Session(me, BackupFirst), main, env) == Guarded(true, RunBackup, env.backedUp, me.found, work)
  {
    hide Course, Marker, CommandOf, Ending;
    Asking(me, BackupFirst, main, env, RunBackup);
    var se' := Forth(Session(me, BackupFirst), main, env);
    if env.backedUp {
      PutsAndWorks(se'.me, Marker(me.req.kind, true), main, env);
    } else {
      PutsAndEnds(se'.me, me.found, main, env);
    }
  }

  lemma AfterLicensing(me: Memory, main: MainState, env: Env)
    ensures Course(Session(me, AfterLicense(me.req)), main, env) == Backing(me.req, me.found, env)
  {
    hide Course, Marker, CommandOf, Ending, Restores;
    if me.req.kind.Restore? {
      if me.req.backupFirst {
        BackingUpRestore(me, main, env);
      } else {
        Restoring(me, main, env);
      }
    } else if me.req.backupFirst {
      var to := if me.req.kind.Stop? then StartedBackupStop else StartedBackupRestart;
      Puts(me, to, BackupFirst, main, env);
      BackingUpOther(me, to, env);
    } else {
      PutsAndWorks(me, Marker(me.req.kind, true), main, env);
    }
  }

  /** From the license check on, when one is asked for. */
  lemma FromLicense(me: Memory, main: MainState, env: Env)
    ensures Course(Session(me, if me.req.licenseCheck then License else AfterLicense(me.req)), main, env)
      == Guarded(me.req.licenseCheck, CheckLicense, env.licensed, me.found, Backing(me.req, me.found, env))
  {
    hide Course, AfterLicense, Backing;
    if me.req.licenseCheck {
      var me' := Licensing(me, main, env);
      AfterLicensing(me', main, env);
    } else {
      AfterLicensing(me, main, env);
    }
  }

  lemma StatusRead(me: Memory, main: MainState, env: Env)
    ensures var me' := me.(sawRunning := env.status.ReportedRunning?);
      Course(Session(me, ReadStatus), main, env) == Course(Session(me', AfterStatus(me.req, env.status)), main, env)
  {
    hide Course, AfterStatus;
    Turn(Session(me, ReadStatus), main, env);
  }

  lemma StateRead(req: Request, found: MainState, env: Env)
    requires !req.kind.StatusCheck?
    ensures var se := Begun(req, found);
      Course(se, found, env) == Course(Session(se.me, AfterState(req.kind, found)), found, env)
  {
    hide Course, AfterState;
    Turn(Begun(req, found), found, env);
  }

  /** An action that marks itself by the main state it found. */
  lemma MarkedCourse(req: Request, found: MainState, env: Env)
    requires req.kind.DeleteFile? || req.kind.ZipLogs? || req.kind.Cleanup?
    ensures Course(Begun(req, found), found, env) == Deeds(req, found, env)
  {
    hide Course;
    StateRead(req, found, env);
    var me := Begun(req, found).me;
    if Admits(req.kind, found) {
      PutsAndWorks(me, Marker(req.kind, Up(found)), found, env);
    } else {
      Ends(me, found, env);
    }
  }

  lemma BackupCourse(req: Request, found: MainState, env: Env)
    requires req.kind.Backup?
    ensures Course(Begun(req, found), found, env) == Deeds(req, found, env)
  {
    hide Course;
    StateRead(req, found, env);
    var me := Begun(req, found).me;
    if Admits(req.kind, found) {
      StatusRead(me, found, env);
      var me' := me.(sawRunning := env.status.ReportedRunning?);
      var running := env.status.ReportedRunning? || env.status.ReportedDegraded?;
      if running || env.status.ReportedStopped? {
        PutsAndWorks(me', Marker(Backup, running), found, env);
      } else {
        Ends(me', found, env);
      }
    } else {
      Ends(me, found, env);
    }
  }

  lemma StartCourse(req: Request, found: MainState, env: Env)
    requires req.kind.Start?
    ensures Course(Begun(req, found), found, env) == Deeds(req, found, env)
  {
    hide Course;
    StateRead(req, found, env);
    var me := Begun(req, found).me;
    if Admits(req.kind, found) {
      StatusRead(me, found, env);
      var me' := me.(sawRunning := env.status.ReportedRunning?);
      if env.status.ReportedStopped? {
        PutsAndWorks(me', Starting, found, env);
      } else {
        Ends(me', found, env);
      }
    } else {
      Ends(me, found, env);
    }
  }

  /** What a stop or a restart does when nothing fails before it. */
  function Halting(req: Request, env: Env): seq<Deed> {
    if req.kind.Stop? then [Sets(Stopping), Asks(RunStop, env.worked)] + Recorded(env)
    else [Sets(Restarting), Asks(RunRestart, env.worked)] + (if env.worked then [Sets(Started)] else Recorded(env))
  }

  lemma HaltingDeeds(req: Request, found: MainState, env: Env)
    requires (req.kind.Stop? || req.kind.Restart?) && Goes(req, found, env)
    ensures var backup := Guarded(req.backupFirst, RunBackup, env.backedUp, found, Halting(req, env));
      var marked := (if req.backupFirst then [Sets(if req.kind.Stop? then StartedBackupStop else StartedBackupRestart)] else []) + backup;
      Deeds(req, found, env) == Guarded(req.licenseCheck, CheckLicense, env.licensed, found, marked)
  {
    hide Guarded, Recorded;
  }

  lemma HaltingBacking(req: Request, found: MainState, env: Env)
    requires req.kind.Stop? || req.kind.Restart?
    ensures var backup := Guarded(req.backupFirst, RunBackup, env.backedUp, found, Halting(req, env));
      Backing(req, found, env)
        == (if req.backupFirst then [Sets(if req.kind.Stop? then StartedBackupStop else StartedBackupRestart)] else []) + backup
  {
    hide Recorded;
  }

  /** A stop or a restart. */
  lemma HaltingCourse(req: Request, found: MainState, env: Env)
    requires req.kind.Stop? || req.kind.Restart?
    ensures Course(Begun(req, found), found, env) == Deeds(req, found, env)
  {
    hide Course, AfterLicense, Guarded, Backing, Recorded, Halting;
    StateRead(req, found, env);
    var me := Begun(req, found).me;
    var me' := me.(sawRunning := env.status.ReportedRunning?);
    if Goes(req, found, env) {
      HaltingDeeds(req, found, env);
      hide Deeds;
      StatusRead(me, found, env);
      FromLicense(me', found, env);
      HaltingBacking(req, found, env);
    } else if Admits(req.kind, found) {
      StatusRead(me, found, env);
      Ends(me', found, env);
    } else {
      Ends(me, found, env);
    }
  }

  lemma RestoreCourse(req: Request, found: MainState, env: Env)
    requires req.kind.Restore?
    ensures Course(Begun(req, found), found, env) == Deeds(req, found, env)
  {
    hide Course, AfterLicense, Restores;
    StateRead(req, found, env);
    var me := Begun(req, found).me;
    if Admits(req.kind, found) {
      Turn(Session(me, CheckFile), found, env);
      if env.fileThere {
        StatusRead(me, found, env);
        var me' := me.(sawRunning := env.status.ReportedRunning?);
        var running := env.status.ReportedRunning? || env.status.ReportedDegraded?;
        if running || env.status.ReportedStopped? {
          Puts(me', Marker(Restore, running), if req.licenseCheck then License else AfterLicense(req), found, env);
          FromLicense(me', Marker(Restore, running), env);
        } else {
          Ends(me', found, env);
        }
      } else {
        Ends(me, found, env);
      }
    } else {
      Ends(me, found, env);
    }
  }

  lemma CheckCourse(req: Request, found: MainState, env: Env)
    requires req.kind.StatusCheck?
    ensures Course(Begun(req, found), found, env) == Deeds(req, found, env)
  {
    hide Course;
    ChecksAndEnds(Begun(req, found).me, found, env);
  }

  /** The steps of an action do what is written out above. */
  lemma CourseIsDeeds(req: Request, found: MainState, env: Env)
    ensures Course(Begun(req, found), found, env) == Deeds(req, found, env)
  {
    hide Course, Deeds;
    match req.kind
    case Backup => BackupCourse(req, found, env);
    case Start => StartCourse(req, found, env);
    case Stop => HaltingCourse(req, found, env);
    case Restart => HaltingCourse(req, found, env);
    case Restore => RestoreCourse(req, found, env);
    case StatusCheck => CheckCourse(req, found, env);
    case _ => MarkedCourse(req, found, env);
  }

  // ---------------------------------------------------------------- what the deeds come to

  function CommandIn(d: Deed): seq<Sent> { if d.Asks? then [Sent(d.command, d.ok)] else [] }

  /** The commands among the deeds. */
  function Commands(deeds: seq<Deed>): seq<Sent> {
    if deeds == [] then [] else CommandIn(deeds[0]) + Commands(deeds[1..])
  }

  /** The main state after them: the last one that is set. */
  function Outcome(main: MainState, deeds: seq<Deed>): MainState {
    if deeds == [] then main
    else if deeds[|deeds| - 1].Sets? then deeds[|deeds| - 1].state
    else Outcome(main, deeds[..|deeds| - 1])
  }

  lemma {:induction false} CommandsAppend(d: seq<Deed>, e: seq<Deed>)
    ensures Commands(d + e) == Commands(d) + Commands(e)
  {
    hide CommandIn;
    if d == [] {
      assert d + e == e;
    } else {
      CommandsAppend(d[1..], e);
      assert (d + e)[1..] == d[1..] + e && (d + e)[0] == d[0];
      assert CommandIn(d[0]) + (Commands(d[1..]) + Commands(e)) == (CommandIn(d[0]) + Commands(d[1..])) + Commands(e);
    }
  }

  lemma {:induction false} OutcomeAppend(main: MainState, d: seq<Deed>, e: seq<Deed>)
    ensures Outcome(main, d + e) == Outcome(Outcome(main, d), e)
  {
    if e == [] {
      assert d + e == d;
    } else {
      assert (d + e)[..|d + e| - 1] == d + e[..|e| - 1];
      OutcomeAppend(main, d, e[..|e| - 1]);
    }
  }

  lemma NothingDone(main: MainState)
    ensures Outcome(main, []) == main && Commands([]) == []
  {
  }

  lemma RankFalls(se: Session, main: MainState, env: Env)
    requires !se.pc.Release?
    ensures Rank(Forth(se, main, env).pc) < Rank(se.pc)
  {
    hide Rank, Advance;
    ComesToRelease(se, main, Reads(env, se.pc), Succeeds(env, se.pc), env.settled);
  }

  lemma SendsComeTo(sends: seq<Sent>, main: MainState)
    requires |sends| <= 1
    ensures Commands(AsDeeds(sends)) == sends && Outcome(main, AsDeeds(sends)) == main
  {
    if sends != [] {
      assert AsDeeds(sends) == [Asks(sends[0].command, sends[0].ok)];
      assert AsDeeds(sends)[1..] == [] && AsDeeds(sends)[..0] == [];
    }
  }

  lemma StepComesTo(se: Session, main: MainState, env: Env)
    requires !se.pc.Release?
    ensures Effect(se.pc, main, env) == Outcome(main, DeedsOf(se, env))
    ensures Sends(se, Succeeds(env, se.pc)) == Commands(DeedsOf(se, env))
  {
    hide CommandOf, AsDeeds;
    if !se.pc.Put? && !se.pc.Check? {
      hide Commands, Outcome;
      SendsComeTo(Sends(se, Succeeds(env, se.pc)), main);
    }
  }

  lemma {:induction false} FinishComesTo(se: Session, main: MainState, env: Env)
    ensures var (se', m) := Finish(se, main, env);
      m == Outcome(main, Course(se, main, env)) && se'.me.sent == se.me.sent + Commands(Course(se, main, env))
    decreases Rank(se.pc)
  {
    hide Sends, DeedsOf, Forth, Effect, Outcome, Commands, Rank;
    if se.pc.Release? {
      NothingDone(main);
    } else {
      var se1, main1 := Forth(se, main, env), Effect(se.pc, main, env);
      RankFalls(se, main, env);
      FinishComesTo(se1, main1, env);
      StepComesTo(se, main, env);
      RecallSends(se, main, env);
      Turn(se, main, env);
      CommandsAppend(DeedsOf(se, env), Course(se1, main1, env));
      OutcomeAppend(main, DeedsOf(se, env), Course(se1, main1, env));
    }
  }

  /** An action carried through does what is written out above, leaves the state that it set
      last, and has sent the commands among its deeds. */
  lemma PerformedDeeds(req: Request, env: Env, w: World, w': World)
    requires Performs(req, env, w, w')
    ensures w'.deeds == w.deeds + Deeds(req, w.main, env)
    ensures w'.main == Outcome(w.main, Deeds(req, w.main, env))
    ensures w'.sent == w.sent + Commands(Deeds(req, w.main, env))
  {
    hide Finish, Course, Deeds, Outcome, Commands;
    CourseIsDeeds(req, w.main, env);
    FinishComesTo(Begun(req, w.main), w.main, env);
  }

  /** When an action goes ahead. */
  predicate Goes(req: Request, found: MainState, env: Env) {
    match req.kind
    case Start => found in {Stopped, StoppedUnexpected} && env.status == ReportedStopped
    case Stop => found in {Started, Degraded} && env.status in {ReportedRunning, ReportedDegraded}
    case StatusCheck => false
    case DeleteFile => found in {Started, Degraded, Stopped, StoppedUnexpected}
    case ZipLogs => found in {Started, Degraded, Stopped, StoppedUnexpected}
    case Cleanup => found in {Started, Degraded, Stopped, StoppedUnexpected}
    case _ =>
      && found in {Started, Degraded, Stopped, StoppedUnexpected}
      && env.status in {ReportedRunning, ReportedDegraded, ReportedStopped}
      && (req.kind.Restore? ==> env.fileThere)
  }

  function RestoreCommands(env: Env): seq<Sent> {
    if !env.fetched then []
    else if env.statusAgain == ReportedRunning then [Sent(RunStop, env.stopped), Sent(RunRestore, env.worked)]
    else [Sent(RunRestore, env.worked)]
  }

  function Prelude(req: Request, env: Env): seq<Sent> {
    (if req.licenseCheck then [Sent(CheckLicense, env.licensed)] else [])
    + (if req.backupFirst then [Sent(RunBackup, env.backedUp)] else [])
  }

  /** The commands an action has for the agent, with what becomes of each. */
  function Script(req: Request, env: Env): seq<Sent> {
    match req.kind
    case Backup => [Sent(RunBackup, env.worked)]
    case DeleteFile => [Sent(RunDelete, env.worked)]
    case ZipLogs => [Sent(RunZipLogs, env.worked)]
    case Cleanup => [Sent(RunCleanup, env.worked)]
    case Start => [Sent(RunStart, env.worked)]
    case Stop => Prelude(req, env) + [Sent(RunStop, env.worked)]
    case Restart => Prelude(req, env) + [Sent(RunRestart, env.worked)]
    case Restore => Prelude(req, env) + RestoreCommands(env)
    case StatusCheck => []
  }

  /** The script up to its first failure. */
  function UpToFailure(script: seq<Sent>): (r: seq<Sent>)
    ensures r <= script && (forall i :: 0 <= i < |r| - 1 ==> r[i].ok)
    ensures (forall s <- script :: s.ok) ==> r == script
    ensures r != script ==> r != [] && !r[|r| - 1].ok
  {
    if script == [] then []
    else if !script[0].ok then [script[0]]
    else [script[0]] + UpToFailure(script[1..])
  }

  lemma SetsSendNothing(to: MainState, rest: seq<Deed>)
    ensures Commands([Sets(to)] + rest) == Commands(rest)
  {
    assert ([Sets(to)] + rest)[1..] == rest;
  }

  lemma AsksSends(c: Command, ok: bool, rest: seq<Deed>)
    ensures Commands([Asks(c, ok)] + rest) == [Sent(c, ok)] + Commands(rest)
  {
    assert ([Asks(c, ok)] + rest)[1..] == rest;
  }

  lemma UpToOne(c: Command, ok: bool, rest: seq<Sent>)
    ensures UpToFailure([Sent(c, ok)] + rest) == [Sent(c, ok)] + if ok then UpToFailure(rest) else []
  {
    assert ([Sent(c, ok)] + rest)[1..] == rest;
  }

  lemma RecordedSendsNothing(env: Env)
    ensures Commands(Recorded(env)) == []
    ensures forall to :: Commands([Sets(to)] + Recorded(env)) == [] && Commands(Recorded(env) + [Sets(to)]) == []
  {
    forall to ensures Commands([Sets(to)] + Recorded(env)) == [] && Commands(Recorded(env) + [Sets(to)]) == [] {
      CommandsAppend([Sets(to)], Recorded(env));
      CommandsAppend(Recorded(env), [Sets(to)]);
    }
  }

  /** The main work, marked before it, and with only settings after it. */
  lemma WorkScript(to: MainState, c: Command, ok: bool, rest: seq<Deed>)
    requires Commands(rest) == []
    ensures Commands([Sets(to), Asks(c, ok)] + rest) == [Sent(c, ok)] == UpToFailure([Sent(c, ok)])
  {
    assert [Sets(to), Asks(c, ok)] + rest == [Sets(to)] + ([Asks(c, ok)] + rest);
    SetsSendNothing(to, [Asks(c, ok)] + rest);
    AsksSends(c, ok, rest);
    UpToOne(c, ok, []);
    assert [Sent(c, ok)] + [] == [Sent(c, ok)];
  }

  lemma GuardedScript(wanted: bool, c: Command, ok: bool, found: MainState, rest: seq<Deed>, script: seq<Sent>)
    requires Commands(rest) == UpToFailure(script)
    ensures Commands(Guarded(wanted, c, ok, found, rest)) == UpToFailure((if wanted then [Sent(c, ok)] else []) + script)
  {
    if !wanted {
      assert [] + script == script;
    } else {
      UpToOne(c, ok, script);
      AsksSends(c, ok, rest);
      AsksSends(c, ok, [Sets(found)]);
      assert [Asks(c, false)] + [Sets(found)] == [Asks(c, false), Sets(found)];
      SetsSendNothing(found, []);
      assert [Sets(found)] + [] == [Sets(found)];
    }
  }

  lemma OneScript(to: MainState, c: Command, ok: bool, found: MainState)
    ensures Commands([Sets(to), Asks(c, ok), Sets(found)]) == UpToFailure([Sent(c, ok)])
  {
    hide UpToFailure, Commands;
    NothingDone(found);
    SetsSendNothing(found, []);
    assert [Sets(found)] + [] == [Sets(found)];
    WorkScript(to, c, ok, [Sets(found)]);
    assert [Sets(to), Asks(c, ok)] + [Sets(found)] == [Sets(to), Asks(c, ok), Sets(found)];
  }

  lemma StartScript(req: Request, found: MainState, env: Env)
    requires req.kind.Start?
    ensures Commands(Deeds(req, found, env)) == if Goes(req, found, env) then UpToFailure(Script(req, env)) else []
  {
    hide UpToFailure, Commands, Recorded;
    RecordedSendsNothing(env);
    var rest := Recorded(env) + [Sets(if env.worked then Started else Stopped)];
    WorkScript(Starting, RunStart, env.worked, rest);
    assert [Sets(Starting), Asks(RunStart, env.worked)] + rest
        == [Sets(Starting), Asks(RunStart, env.worked)] + Recorded(env) + [Sets(if env.worked then Started else Stopped)];
    NothingDone(found);
  }

  lemma PlainScript(req: Request, found: MainState, env: Env)
    requires !req.kind.Stop? && !req.kind.Restart? && !req.kind.Restore? && !req.kind.Start?
    ensures Commands(Deeds(req, found, env)) == if Goes(req, found, env) then UpToFailure(Script(req, env)) else []
  {
    hide Recorded, UpToFailure, Commands;
    RecordedSendsNothing(env);
    NothingDone(found);
    if Goes(req, found, env) {
      var d := Deeds(req, found, env);
      OneScript(d[0].state, d[1].command, env.worked, found);
    }
  }

  /** The license check and the backup before the main part of an action. */
  lemma PreludeScript(req: Request, env: Env, found: MainState, to: MainState, main: seq<Deed>, script: seq<Sent>)
    requires Commands(main) == UpToFailure(script)
    ensures var backup := Guarded(req.backupFirst, RunBackup, env.backedUp, found, main);
      var marked := (if req.backupFirst then [Sets(to)] else []) + backup;
      && Commands(Guarded(req.licenseCheck, CheckLicense, env.licensed, found, backup)) == UpToFailure(Prelude(req, env) + script)
      && Commands(Guarded(req.licenseCheck, CheckLicense, env.licensed, found, marked)) == UpToFailure(Prelude(req, env) + script)
  {
    hide UpToFailure, Guarded, Commands;
    var backup := Guarded(req.backupFirst, RunBackup, env.backedUp, found, main);
    var marked := (if req.backupFirst then [Sets(to)] else []) + backup;
    var script' := (if req.backupFirst then [Sent(RunBackup, env.backedUp)] else []) + script;
    GuardedScript(req.backupFirst, RunBackup, env.backedUp, found, main, script);
    SetsSendNothing(to, backup);
    assert !req.backupFirst ==> marked == backup;
    GuardedScript(req.licenseCheck, CheckLicense, env.licensed, found, backup, script');
    GuardedScript(req.licenseCheck, CheckLicense, env.licensed, found, marked, script');
    assert Prelude(req, env) + script == (if req.licenseCheck then [Sent(CheckLicense, env.licensed)] else []) + script';
  }

  lemma HaltingCommands(req: Request, env: Env)
    requires req.kind.Stop? || req.kind.Restart?
    ensures Commands(Halting(req, env)) == UpToFailure([Sent(if req.kind.Stop? then RunStop else RunRestart, env.worked)])
  {
    hide Recorded, UpToFailure, Commands;
    RecordedSendsNothing(env);
    NothingDone(Started);
    SetsSendNothing(Started, []);
    assert [Sets(Started)] + [] == [Sets(Started)];
    if req.kind.Stop? {
      WorkScript(Stopping, RunStop, env.worked, Recorded(env));
    } else {
      WorkScript(Restarting, RunRestart, env.worked, if env.worked then [Sets(Started)] else Recorded(env));
    }
  }

  lemma HaltingScript(req: Request, found: MainState, env: Env)
    requires req.kind.Stop? || req.kind.Restart?
    ensures Commands(Deeds(req, found, env)) == if Goes(req, found, env) then UpToFailure(Script(req, env)) else []
  {
    if Goes(req, found, env) {
      hide UpToFailure, Guarded, Commands, Halting, Deeds, Goes, Prelude;
      HaltingCommands(req, env);
      HaltingDeeds(req, found, env);
      PreludeScript(req, env, found, if req.kind.Stop? then StartedBackupStop else StartedBackupRestart, Halting(req, env),
                    [Sent(if req.kind.Stop? then RunStop else RunRestart, env.worked)]);
    } else {
      hide UpToFailure, Guarded, Commands;
      NothingDone(found);
    }
  }

  lemma RestoresDownScript(found: MainState, env: Env)
    ensures Commands(RestoresDown(found, env)) == UpToFailure([Sent(RunRestore, env.worked)])
  {
    hide Recorded, UpToFailure, Commands;
    RecordedSendsNothing(env);
    var rest := if env.worked then Recorded(env) else [Sets(found)] + Recorded(env);
    WorkScript(StartingRestore, RunRestore, env.worked, rest);
    assert RestoresDown(found, env) == [Sets(StartingRestore), Asks(RunRestore, env.worked)] + rest;
  }

  lemma RestoresScript(found: MainState, env: Env)
    ensures Commands(Restores(found, env)) == UpToFailure(RestoreCommands(env))
  {
    hide Recorded, UpToFailure, Commands, RestoresDown;
    RecordedSendsNothing(env);
    NothingDone(found);
    if env.fetched {
      RestoresDownScript(found, env);
      if env.statusAgain == ReportedRunning {
        UpToOne(RunStop, env.stopped, [Sent(RunRestore, env.worked)]);
        assert RestoreCommands(env) == [Sent(RunStop, env.stopped)] + [Sent(RunRestore, env.worked)];
        var tail := if env.stopped then RestoresDown(found, env) else [Sets(found)] + Recorded(env);
        SetsSendNothing(StoppingRestore, [Asks(RunStop, env.stopped)] + tail);
        AsksSends(RunStop, env.stopped, tail);
        assert Restores(found, env) == [Sets(StoppingRestore)] + ([Asks(RunStop, env.stopped)] + tail);
      }
    }
  }

  lemma RestoreDeeds(req: Request, found: MainState, env: Env) returns (to: MainState)
    requires req.kind.Restore? && Goes(req, found, env)
    ensures var backup := Guarded(req.backupFirst, RunBackup, env.backedUp, found, Restores(found, env));
      Deeds(req, found, env) == [Sets(to)] + Guarded(req.licenseCheck, CheckLicense, env.licensed, found, backup)
  {
    hide Guarded, Restores;
    to := if env.status == ReportedStopped then StoppedBackupRestore else StartedBackupRestore;
  }

  lemma RestoreScript(req: Request, found: MainState, env: Env)
    requires req.kind.Restore?
    ensures Commands(Deeds(req, found, env)) == if Goes(req, found, env) then UpToFailure(Script(req, env)) else []
  {
    if Goes(req, found, env) {
      hide UpToFailure, Guarded, Commands, Restores, RestoreCommands, Deeds, Goes, Prelude;
      RestoresScript(found, env);
      var to := RestoreDeeds(req, found, env);
      PreludeScript(req, env, found, to, Restores(found, env), RestoreCommands(env));
      var backup := Guarded(req.backupFirst, RunBackup, env.backedUp, found, Restores(found, env));
      SetsSendNothing(to, Guarded(req.licenseCheck, CheckLicense, env.licensed, found, backup));
    } else {
      hide UpToFailure, Guarded, Commands, Restores, RestoreCommands;
      NothingDone(found);
    }
  }

  lemma HeldBack(req: Request, found: MainState, env: Env)
    requires !Goes(req, found, env)
    ensures Deeds(req, found, env) == if req.kind.StatusCheck? then Recorded(env) else []
  {
    hide Guarded, Restores, Recorded;
  }

  /** An action that goes ahead sends its commands up to the first that fails, and all of them
      when none does.  Any other sends nothing and leaves the main state to its status check. */
  lemma SendsItsScript(req: Request, found: MainState, env: Env)
    ensures Commands(Deeds(req, found, env)) == if Goes(req, found, env) then UpToFailure(Script(req, env)) else []
    ensures !Goes(req, found, env) ==> Deeds(req, found, env) == if req.kind.StatusCheck? then Recorded(env) else []
  {
    hide Goes, Deeds, Commands, Script, UpToFailure, Recorded;
    if !Goes(req, found, env) {
      HeldBack(req, found, env);
    }
    match req.kind
    case Start => StartScript(req, found, env);
    case Stop => HaltingScript(req, found, env);
    case Restart => HaltingScript(req, found, env);
    case Restore => RestoreScript(req, found, env);
    case _ => PlainScript(req, found, env);
  }

  /** So what the agent is sent by an action carried through is settled by the state it finds and
      by what its environment answers. */
  lemma PerformedSends(req: Request, env: Env, w: World, w': World)
    requires Performs(req, env, w, w')
    ensures w'.sent == w.sent + if Goes(req, w.main, env) then UpToFailure(Script(req, env)) else []
    ensures !Goes(req, w.main, env) && !req.kind.StatusCheck? ==> w' == w
  {
    hide Performs, Deeds, Goes, Script, UpToFailure;
    PerformedDeeds(req, env, w, w');
    SendsItsScript(req, w.main, env);
    if !Goes(req, w.main, env) && !req.kind.StatusCheck? {
      NothingDone(w.main);
      assert w.deeds + [] == w.deeds && w.sent + [] == w.sent;
    }
  }
}
