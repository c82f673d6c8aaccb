/** The polling loop of one command: how often it asks before it gives an answer. */
module CliPolling {
  import opened Wrappers

  /** What one poll brings: a request that failed or a reply that cannot be used, a process
      still running, or one that has ended. */
  datatype Poll = Unusable | Running | Finished(exitStatus: Option<int>)

  datatype Answer = TimedOut | Disconnected | Rejected | Failed | Succeeded

  /** The clock reading that starts the loop and the one at the top of each pass, and what
      the agent's registration and the poll of that pass turn out to be. */
  datatype Env = Env(start: real, clock: nat -> real, connected: nat -> bool, reply: nat -> Poll)

  predicate Late(env: Env, timeout: real, k: nat) {
    env.clock(k) - env.start > timeout
  }

  /** A poll is sent in pass `k`. */
  predicate Polls(env: Env, timeout: real, k: nat) {
    !Late(env, timeout, k) && env.connected(k)
  }

  predicate GoesOn(env: Env, timeout: real, k: nat) {
    Polls(env, timeout, k) && env.reply(k).Running?
  }

  /** Every sleep between two passes lasts at least the interval. */
  ghost predicate Paced(env: Env, interval: real) {
    && env.start <= env.clock(0)
    && forall k: nat :: env.clock(k) + interval <= env.clock(k + 1)
  }

  lemma {:induction false} TimePasses(env: Env, interval: real, k: nat)
    requires Paced(env, interval)
    ensures env.start + k as real * interval <= env.clock(k)
  {
    if k > 0 {
      TimePasses(env, interval, k - 1);
    }
  }

  function Allowed(timeout: real, interval: real): int
    requires interval > 0.0
  {
    (timeout / interval).Floor + 1
  }

  lemma WithinAllowed(timeout: real, interval: real, k: nat)
    requires interval > 0.0
    ensures k < Allowed(timeout, interval) <==> k as real * interval <= timeout
  {
    var q := timeout / interval;
    assert q * interval == timeout;
    if k as real <= q {
      assert k as real * interval <= q * interval;
    } else {
      assert k as real * interval > q * interval;
    }
  }

  lemma NotForever(env: Env, timeout: real, interval: real, k: nat)
    requires interval > 0.0 && Paced(env, interval) && Polls(env, timeout, k)
    ensures k < Allowed(timeout, interval)
  {
    TimePasses(env, interval, k);
    WithinAllowed(timeout, interval, k);
  }

  /** `_get_cli_status`: stops in the first pass that does not find the process running, and
      sends at most one poll for each interval that fits into the timeout, and one more. */
  method GetCliStatus(env: Env, timeout: real, ghost interval: real) returns (answer: Answer, polls: nat, pass: nat)
    requires interval > 0.0 && Paced(env, interval)
    ensures forall k: nat :: k < pass ==> GoesOn(env, timeout, k)
    ensures answer.TimedOut? <==> env.clock(pass) - env.start > timeout
    ensures answer.Disconnected? <==> env.clock(pass) - env.start <= timeout && !env.connected(pass)
    ensures answer.Succeeded? <==> Polls(env, timeout, pass) && env.reply(pass) == Finished(Some(0))
    ensures answer.Failed? <==> Polls(env, timeout, pass) && exists status :: status != 0 && env.reply(pass) == Finished(Some(status))
    ensures answer.Rejected? <==> Polls(env, timeout, pass) && (env.reply(pass) == Unusable || env.reply(pass) == Finished(None))
    ensures !GoesOn(env, timeout, pass)
    ensures polls == if Polls(env, timeout, pass) then pass + 1 else pass
    ensures polls <= if timeout < 0.0 then 0 else Allowed(timeout, interval)
  {
    polls, pass := 0, 0;
    if timeout >= 0.0 {
      WithinAllowed(timeout, interval, 0);
    }
    while true
      invariant polls == pass
      invariant forall k: nat :: k < pass ==> GoesOn(env, timeout, k)
      invariant pass == 0 || pass <= Allowed(timeout, interval)
      invariant pass > 0 ==> timeout >= 0.0
      decreases Allowed(timeout, interval) - pass
    {
      if env.clock(pass) - env.start > timeout {
        return TimedOut, polls, pass;
      }
      TimePasses(env, interval, pass);
      if !env.connected(pass) {
        return Disconnected, polls, pass;
      }
      NotForever(env, timeout, interval, pass);
      polls := polls + 1;
      match env.reply(pass)
      case Unusable =>
        return Rejected, polls, pass;
      case Finished(None) =>
        return Rejected, polls, pass;
      case Finished(Some(exitStatus)) =>
        return if exitStatus != 0 then Failed else Succeeded, polls, pass;
      case Running =>
        pass := pass + 1;
    }
  }

  /** The bound is met: when each pass takes no more than its sleep and the process outlives
      the timeout, every allowed poll is sent and then the command is given up. */
  lemma BoundIsMet(env: Env, timeout: real, interval: real, k: nat)
    requires interval > 0.0 && timeout >= 0.0
    requires forall i: nat :: env.clock(i) == env.start + i as real * interval
    requires forall i: nat :: env.connected(i) && env.reply(i).Running?
    ensures GoesOn(env, timeout, k) <==> k < Allowed(timeout, interval)
    ensures Allowed(timeout, interval) > 0
    ensures Late(env, timeout, Allowed(timeout, interval))
  {
    WithinAllowed(timeout, interval, k);
    WithinAllowed(timeout, interval, 0);
    WithinAllowed(timeout, interval, Allowed(timeout, interval));
  }
}
