/** Any number of controller threads run commands over one agent connection.  Each starts
    its command, polls until the process ends, and cleans up; every request and its reply
    travel under the connection's lock, and any of them can fail. */
module CliProtocol {
  import opened Wrappers
  import opened ProcessManager

  type Tid = nat

  datatype Op = Starting | Polling | Killing | Cleaning

  /** What a thread is left holding: the body it will return, or is to return once the
      cleanup is done. */
  datatype Body = Pending | Error | Success(exitStatus: int, stdout: string)

  /** Where a thread is: waiting for the lock, holding it before or after its request is
      sent, or finished. */
  datatype Pc = Want(op: Op) | Locked(op: Op) | Sent(op: Op) | Returned

  /** What has come of a thread's steps: a reply read, a request that failed, or one given up
      because it was too late or the agent was gone. */
  datatype Heard = Read(op: Op, reply: Reply) | Lost(op: Op) | TooLate | Gone

  datatype Thread = Thread(pc: Pc, xid: nat, immediate: bool, heard: seq<Heard>, body: Body) {
    function Hears(h: Heard): Thread { this.(heard := heard + [h]) }
  }

  datatype Row = RowStarted | RowFinished

  /** What the agent has done with an xid. */
  datatype Event = WasStarted(xid: nat) | WasPolled(xid: nat) | WasKilled(xid: nat) | WasCleaned(xid: nat)

  datatype State = State(
    dirs: Dirs,
    ended: map<nat, Outcome>,     // how each process ended
    rows: map<nat, Row>,          // the xid table
    nextXid: nat,
    alive: bool,                  // the agent is registered and its socket open
    lock: Option<Tid>,
    wire: seq<Reply>,             // replies sent and not yet read
    threads: map<Tid, Thread>,
    log: seq<Event>)

  ghost predicate Init(s: State) {
    s == State(map[], map[], map[], 1, true, None, [], map[], [])
  }

  datatype Action =
    | Spawn(t: Tid, immediate: bool)
    | Acquire(t: Tid)
    | Send(t: Tid, ended: Option<Outcome>)
    | Receive(t: Tid)
    | Fail(t: Tid)
    | TimeOut(t: Tid)
    | NoticeLoss(t: Tid)
    | End(xid: nat, how: Outcome)
    | Lose

  /** The request a thread sends.  A start may find its process ended already; an
      immediate one always does. */
  function RequestOf(th: Thread, ended: Option<Outcome>): Request
    requires th.pc.Locked?
    requires th.pc.op.Starting? && th.immediate ==> ended.Some?
  {
    match th.pc.op
    case Starting => if th.immediate then StartImmediate(th.xid, ended.value) else Start(th.xid, ended)
    case Polling => Status(th.xid)
    case Killing => Kill(th.xid)
    case Cleaning => Cleanup(th.xid)
  }

  function EventOf(op: Op, xid: nat): Event {
    match op
    case Starting => WasStarted(xid)
    case Polling => WasPolled(xid)
    case Killing => WasKilled(xid)
    case Cleaning => WasCleaned(xid)
  }

  ghost predicate Enabled(s: State, a: Action) {
    match a
    case Spawn(t, _) => t !in s.threads
    case Acquire(t) => t in s.threads && s.threads[t].pc.Want? && s.lock.None?
    case Send(t, ended) =>
      && t in s.threads && s.threads[t].pc.Locked? && s.alive
      && (ended.Some? ==> s.threads[t].pc.op.Starting?)
      && (s.threads[t].pc.op.Starting? && s.threads[t].immediate ==> ended.Some?)
    case Receive(t) => t in s.threads && s.threads[t].pc.Sent? && s.alive && s.wire != []
    case Fail(t) => t in s.threads && (s.threads[t].pc.Locked? || s.threads[t].pc.Sent?)
    case TimeOut(t) => t in s.threads && s.threads[t].pc == Want(Polling)
    case NoticeLoss(t) => t in s.threads && s.threads[t].pc == Want(Polling) && !s.alive
    case End(xid, _) => xid in s.dirs && s.dirs[xid].returncode.None?
    case Lose => true
  }

  function Set(s: State, t: Tid, th: Thread): State { s.(threads := s.threads[t := th]) }

  /** `th` after a request that failed, or whose reply is not usable. */
  function Broken(th: Thread): Thread
    requires th.pc.Locked? || th.pc.Sent?
  {
    match th.pc.op
    case Starting => th.(pc := Returned, body := Error)
    case Polling => th.(pc := Want(Cleaning), body := Error)
    case Killing => th.(pc := Want(Cleaning), body := Error)
    case Cleaning => th.(pc := Returned, body := Error)
  }

  /** `th` after it has read a reply.  A poll takes whatever comes for its own. */
  function Replied(th: Thread, r: Reply): Thread
    requires th.pc.Sent?
  {
    var told := th.Hears(Read(th.pc.op, r));
    match th.pc.op
    case Starting =>
      if r.Running? && r.xid == th.xid then told.(pc := Want(Polling))
      else if r.Finished? && r.xid == th.xid then told.(pc := Returned, body := Success(r.exitStatus, r.stdout))
      else Broken(told)
    case Polling =>
      if r.Running? then told.(pc := Want(Polling))
      else if r.Finished? then
        told.(pc := Want(Cleaning), body := if r.exitStatus == 0 then Success(0, r.stdout) else Error)
      else Broken(told)
    case Killing => Broken(told)
    case Cleaning => if r.Refused? then Broken(told) else told.(pc := Returned)
  }

  /** Replies that make the controller drop the agent. */
  predicate Drops(th: Thread, r: Reply) {
    r.Refused? || (th.pc == Sent(Polling) && r.CleanedUp?)
  }

  function Apply(s: State, a: Action): State
    requires Enabled(s, a)
  {
    match a
    case Spawn(t, immediate) => Set(s, t, Thread(Want(Starting), 0, immediate, [], Pending))
    case Acquire(t) =>
      var th := s.threads[t];
      var op := th.pc.op;
      if op.Starting? then
        Set(s, t, th.(pc := Locked(op), xid := s.nextXid))
          .(lock := Some(t), nextXid := s.nextXid + 1, rows := s.rows[s.nextXid := RowStarted])
      else
        Set(s, t, th.(pc := Locked(op)))
          .(lock := Some(t), rows := if op.Cleaning? then s.rows[th.xid := RowFinished] else s.rows)
    case Send(t, ended) =>
      var th := s.threads[t];
      var (dirs, reply) := Handle(s.dirs, RequestOf(th, ended));
      Set(s, t, th.(pc := Sent(th.pc.op)))
        .(dirs := dirs, wire := s.wire + [reply], log := s.log + [EventOf(th.pc.op, th.xid)],
          ended := if ended.Some? then s.ended[th.xid := ended.value] else s.ended)
    case Receive(t) =>
      var th := s.threads[t];
      Set(s, t, Replied(th, s.wire[0])).(wire := s.wire[1..], lock := None, alive := !Drops(th, s.wire[0]))
    case Fail(t) => Set(s, t, Broken(s.threads[t].Hears(Lost(s.threads[t].pc.op)))).(lock := None, alive := false)
    case TimeOut(t) => Set(s, t, s.threads[t].Hears(TooLate).(pc := Want(Killing)))
    case NoticeLoss(t) => Set(s, t, s.threads[t].Hears(Gone).(pc := Want(Cleaning), body := Error))
    case End(xid, how) => s.(dirs := s.dirs[xid := Complete(how)], ended := s.ended[xid := how])
    case Lose => s.(alive := false)
  }

  ghost predicate Next(s: State, s': State) {
    exists a :: Enabled(s, a) && s' == Apply(s, a)
  }

  ghost predicate IsRun(run: seq<State>) {
    && run != [] && Init(run[0])
    && forall i :: 0 <= i < |run| - 1 ==> Next(run[i], run[i + 1])
  }
}
