/** The agent's side of the command protocol: one directory per transaction id (xid), made
    when a command starts, completed when its process ends, removed by a cleanup. */
module ProcessManager {
  import opened Wrappers

  /** A directory's files.  `prun` opens the output files first and renames the file with
      the exit status into place last, so that a return code means the output is complete. */
  datatype Dir = Dir(returncode: Option<int>, stdout: string, stderr: string)

  type Dirs = map<nat, Dir>

  /** What the agent answers.  `Refused` is any status but 200: an unknown action, or a
      handler that raised an exception. */
  datatype Reply = Running(xid: nat) | Finished(xid: nat, exitStatus: int, stdout: string, stderr: string)
                 | CleanedUp(xid: nat) | Refused

  /** How a process ends: its exit status and its output. */
  datatype Outcome = Outcome(exitStatus: int, stdout: string, stderr: string)

  function Complete(o: Outcome): Dir { Dir(Some(o.exitStatus), o.stdout, o.stderr) }

  /** A missing directory counts as done; reading its output is then what fails. */
  function Info(dirs: Dirs, xid: nat): Reply {
    if xid !in dirs then Refused
    else if dirs[xid].returncode.None? then Running(xid)
    else Finished(xid, dirs[xid].returncode.value, dirs[xid].stdout, dirs[xid].stderr)
  }

  /** A new directory, in which the process may already have ended. */
  function Started(dirs: Dirs, xid: nat, ended: Option<Outcome>): Dirs {
    dirs[xid := if ended.Some? then Complete(ended.value) else Dir(None, "", "")]
  }

  /** An immediate start waits for its process; any other may or may not find it ended. */
  datatype Request = Start(xid: nat, ended: Option<Outcome>) | StartImmediate(xid: nat, end: Outcome)
                   | Status(xid: nat) | Cleanup(xid: nat) | Kill(xid: nat)

  function Handle(dirs: Dirs, req: Request): (Dirs, Reply) {
    match req
    case Start(xid, ended) =>
      if xid in dirs then (dirs, Refused)
      else (Started(dirs, xid, ended), Info(Started(dirs, xid, ended), xid))
    case StartImmediate(xid, end) =>
      if xid in dirs then (dirs, Refused)
      else (dirs, Info(Started(dirs, xid, Some(end)), xid))
    case Status(xid) => (dirs, Info(dirs, xid))
    case Cleanup(xid) => if xid in dirs then (dirs - {xid}, CleanedUp(xid)) else (dirs, Refused)
    case Kill(_) => (dirs, Refused)
  }

  /** The manager, and the handler that drives it. */
  class ProcessManager {
    var dirs: Dirs

    constructor ()
      ensures dirs == map[]
    {
      dirs := map[];
    }

    /** False when the directory cannot be made because it exists. */
    method StartProcess(xid: nat, ended: Option<Outcome>) returns (ok: bool)
      modifies this
      ensures ok <==> xid !in old(dirs)
      ensures dirs == if ok then Started(old(dirs), xid, ended) else old(dirs)
    {
      if xid in dirs {
        return false;
      }
      dirs := dirs[xid := Dir(None, "", "")];
      if ended.Some? {
        dirs := dirs[xid := Complete(ended.value)];
      }
      return true;
    }

    method RemoveDir(xid: nat) returns (ok: bool)
      modifies this
      ensures ok <==> xid in old(dirs)
      ensures dirs == if ok then old(dirs) - {xid} else old(dirs)
    {
      if xid !in dirs {
        return false;
      }
      dirs := dirs - {xid};
      return true;
    }

    method IsDone(xid: nat) returns (done: bool)
      ensures done <==> !Info(dirs, xid).Running?
    {
      if xid !in dirs {
        return true;
      }
      return dirs[xid].returncode.Some?;
    }

    method GetInfo(xid: nat) returns (reply: Reply)
      ensures reply == Info(dirs, xid)
    {
      var done := IsDone(xid);
      if !done {
        return Running(xid);
      }
      if xid !in dirs {
        return Refused;
      }
      return Finished(xid, dirs[xid].returncode.value, dirs[xid].stdout, dirs[xid].stderr);
    }

    /** `handle_cli`. */
    method HandleCli(req: Request) returns (reply: Reply)
      modifies this
      ensures (dirs, reply) == Handle(old(dirs), req)
    {
      match req {
        case Start(xid, ended) =>
          var ok := StartProcess(xid, ended);
          if !ok {
            return Refused;
          }
          reply := GetInfo(xid);
        case StartImmediate(xid, end) =>
          var ok := StartProcess(xid, Some(end));
          if !ok {
            return Refused;
          }
          reply := GetInfo(xid);
          ok := RemoveDir(xid);
          assert dirs == old(dirs);
        case Status(xid) =>
          reply := GetInfo(xid);
        case Cleanup(xid) =>
          var ok := RemoveDir(xid);
          reply := if ok then CleanedUp(xid) else Refused;
        case Kill(_) =>
          reply := Refused;
      }
    }
  }
}
