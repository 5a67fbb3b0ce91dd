/** The supervisor as it is written: closures over shared flags and timers. Each handler is proved to
    take the machine of CliSupervisor one step. */
module CliRun {
  import opened Wrappers
  import opened CliSupervisor
  import opened CliProgress

  class CliProcess {
    const options: Options
    var now: nat
    var settled: bool
    var matchedOutput: bool
    var timedOut: bool
    var terminating: bool
    var killTimer: Option<nat>
    var forceKillTimer: Option<nat>
    var abandonTimer: Option<Abandon>
    var timeoutTimer: Option<nat>
    var output: string
    var promise: Promise
    ghost var settlements: nat

    ghost function Current(): State
      reads this
    {
      State(now, settled, matchedOutput, timedOut, terminating, killTimer, forceKillTimer, abandonTimer, timeoutTimer,
            output, promise, settlements)
    }

    constructor (options: Options)
      ensures this.options == options && Current() == Start(options)
    {
      this.options := options;
      now, settled, matchedOutput, timedOut, terminating := 0, false, false, false, false;
      killTimer, forceKillTimer, abandonTimer := None, None, None;
      timeoutTimer := if options.timeoutMs != 0 then Some(options.timeoutMs) else None;
      output, promise, settlements := "", Pending, 0;
    }

    method Settle(error: Option<Failure>)
      modifies this
      ensures Current() == Finish(old(Current()), error)
      ensures old(settled) ==> Current() == old(Current())
      ensures settled
    {
      if settled {
        return;
      }
      settled := true;
      killTimer, forceKillTimer, abandonTimer, timeoutTimer := None, None, None, None;
      promise := if error.Some? then Rejected(error.value) else Resolved(output);
      settlements := settlements + 1;
    }

    method TerminateChildTree(reason: Reason, signalError: Option<string>)
      modifies this
      ensures Current() == Terminate(options, old(Current()), reason, signalError)
      ensures !old(settled) ==> terminating
    {
      if terminating || settled {
        return;
      }
      terminating := true;
      if signalError.Some? {
        Settle(Some(SignalError(signalError.value)));
        return;
      }
      forceKillTimer := Some(now + options.graceMs);
      abandonTimer := Some(Abandon(now + options.graceMs + ABANDON_AFTER_KILL_MS, reason));
    }

    method OnData(chunk: string)
      modifies this
      ensures Current() == HandleOutput(options, old(Current()), chunk)
    {
      output := output + chunk;
      if options.resolveOnOutput.None? || matchedOutput || !options.resolveOnOutput.value(output) {
        return;
      }
      matchedOutput := true;
      killTimer := Some(now + options.killAfterResolveMs);
    }

    method OnClose(code: Option<int>, signal: Option<string>)
      modifies this
      ensures Current() == HandleClose(options, old(Current()), code, signal)
      ensures settled
    {
      if timedOut && !matchedOutput {
        Settle(Some(CliTimeout(options.timeoutMs)));
        return;
      }
      if code == Some(0) {
        Settle(None);
        return;
      }
      if matchedOutput {
        Settle(None);
        return;
      }
      Settle(Some(CliExit(code, signal)));
    }

    method OnAbandon()
      requires abandonTimer.Some?
      modifies this
      ensures Current() == HandleAbandon(options, old(Current()))
      ensures settled
    {
      var reason := abandonTimer.value.reason;
      abandonTimer := None;
      if reason == TimeoutReached {
        Settle(Some(CliTimeout(options.timeoutMs)));
        return;
      }
      Settle(None);
    }

    /** One event of the process or of a timer. */
    method On(at: nat, e: Event, ghost lag: nat)
      requires Enabled(Current(), lag, at, e)
      modifies this
      ensures Current() == Step(options, old(Current()), at, e)
    {
      now := at;
      match e
      case Output(chunk) => OnData(chunk);
      case ChildFails(message) => Settle(Some(ChildError(message)));
      case Closes(code, signal) => OnClose(code, signal);
      case KillFires(signalError) =>
        killTimer := None;
        TerminateChildTree(MatchedOutput, signalError);
      case ForceKillFires(signalError) =>
        forceKillTimer := None;
        if signalError.Some? {
          Settle(Some(SignalError(signalError.value)));
        }
      case AbandonFires => OnAbandon();
      case TimeoutFires(signalError) =>
        timedOut, timeoutTimer := true, None;
        TerminateChildTree(TimeoutReached, signalError);
    }
  }

  /** A whole supervised run: what the machine's theorems say of `After` holds of the object. */
  method Supervise(options: Options, events: seq<(nat, Event)>, ghost lag: nat) returns (process: CliProcess)
    requires ValidRun(options, lag, events)
    ensures fresh(process) && process.options == options
    ensures process.Current() == After(options, events)
    ensures SettledOnce(process.Current())
    ensures options.timeoutMs > 0 && process.now > Deadline(options, lag) ==> process.settled
    ensures options.timeoutMs > 0 ==> exists more :: SettlesWithin(options, lag, events, more, Deadline(options, lag))
  {
    process := new CliProcess(options);
    for k := 0 to |events|
      invariant process.options == options
      invariant process.Current() == After(options, events[..k])
    {
      PrefixValid(options, lag, events, k + 1);
      assert events[..k + 1][..k] == events[..k];
      process.On(events[k].0, events[k].1, lag);
    }
    assert events[..|events|] == events;
    SettlesOnce(options, events, 0);
    if options.timeoutMs > 0 {
      var more := SettlesByDeadline(options, lag, events);
    }
  }
}
