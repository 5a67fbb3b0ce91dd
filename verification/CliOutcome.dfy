/** What every event makes of a pending promise and of the timers, in terms of the events before it. */
module CliOutcome {
  import opened Wrappers
  import opened CliSupervisor
  import opened CliSeen

  /** The promise is pending after the run. */
  ghost predicate IsPending(o: Options, run: seq<(nat, Event)>) {
    After(o, run).promise == Pending
  }

  lemma PendingIsUnsettled(o: Options, run: seq<(nat, Event)>)
    ensures IsPending(o, run) <==> !After(o, run).settled
  {
    SettlesOnce(o, run, 0);
  }

  function PromiseAfter(o: Options, run: seq<(nat, Event)>, at: nat, e: Event): Promise {
    After(o, run + [(at, e)]).promise
  }

  /** A close settles a pending promise. It resolves with all that was printed exactly when the awaited
      output has been seen (whatever the exit code), or the child exited with 0 and the timeout has
      not fired. */
  lemma CloseOutcome(o: Options, run: seq<(nat, Event)>, at: nat, code: Option<int>, signal: Option<string>)
    requires IsPending(o, run)
    ensures PromiseAfter(o, run, at, Closes(code, signal)) ==
            if Awaited(o, run) || (code == Some(0) && !TimeoutFired(run)) then Resolved(Printed(run))
            else if TimeoutFired(run) then Rejected(CliTimeout(o.timeoutMs))
            else Rejected(CliExit(code, signal))
  {
    PendingIsUnsettled(o, run);
    AfterOneMore(o, run, at, Closes(code, signal));
    OutputIsPrinted(o, run);
    MatchedExactly(o, run);
    TimedOutExactly(o, run);
    CloseSettles(o, After(o, run).(now := at), code, signal);
  }

  lemma CloseSettles(o: Options, s: State, code: Option<int>, signal: Option<string>)
    requires !s.settled
    ensures HandleClose(o, s, code, signal).promise ==
            if s.matchedOutput || (code == Some(0) && !s.timedOut) then Resolved(s.output)
            else if s.timedOut then Rejected(CliTimeout(o.timeoutMs))
            else Rejected(CliExit(code, signal))
  {}

  /** A child error rejects a pending promise with that error. */
  lemma ChildErrorOutcome(o: Options, run: seq<(nat, Event)>, at: nat, message: string)
    requires IsPending(o, run)
    ensures PromiseAfter(o, run, at, ChildFails(message)) == Rejected(ChildError(message))
  {
    PendingIsUnsettled(o, run);
    AfterOneMore(o, run, at, ChildFails(message));
  }

  /** Output never settles the promise. */
  lemma OutputOutcome(o: Options, run: seq<(nat, Event)>, at: nat, chunk: string)
    requires IsPending(o, run)
    ensures PromiseAfter(o, run, at, Output(chunk)) == Pending
  {
    AfterOneMore(o, run, at, Output(chunk));
  }

  function SignalErrorOf(e: Event): Option<string> {
    match e
    case KillFires(signalError) => signalError
    case ForceKillFires(signalError) => signalError
    case TimeoutFires(signalError) => signalError
    case _ => None
  }

  /** The first kill timer or timeout to fire on a pending promise begins the termination: it rejects
      with the error of the signal when that fails, and otherwise sets the force-kill timer one grace
      ahead and the abandon timer a second after it, with the reason. A later one does nothing. */
  lemma TerminationOutcome(o: Options, run: seq<(nat, Event)>, at: nat, e: Event)
    requires IsPending(o, run) && (e.KillFires? || e.TimeoutFires?)
    ensures var t := After(o, run + [(at, e)]);
      && (TerminationBegun(o, run) ==> t.promise == Pending && t.forceKillTimer == After(o, run).forceKillTimer
                                       && t.abandonTimer == After(o, run).abandonTimer)
      && (!TerminationBegun(o, run) && SignalErrorOf(e).Some? ==> t.promise == Rejected(SignalError(SignalErrorOf(e).value)))
      && (!TerminationBegun(o, run) && SignalErrorOf(e).None? ==>
            && t.promise == Pending
            && t.forceKillTimer == Some(at + o.graceMs)
            && t.abandonTimer == Some(Abandon(at + o.graceMs + 1_000, if e.TimeoutFires? then TimeoutReached else MatchedOutput)))
  {
    PendingIsUnsettled(o, run);
    AfterOneMore(o, run, at, e);
    TerminatingExactly(o, run);
  }

  /** A failing force kill rejects with its error; one that goes through settles nothing. */
  lemma ForceKillOutcome(o: Options, run: seq<(nat, Event)>, at: nat, signalError: Option<string>)
    requires IsPending(o, run)
    ensures PromiseAfter(o, run, at, ForceKillFires(signalError)) ==
            if signalError.Some? then Rejected(SignalError(signalError.value)) else Pending
  {
    PendingIsUnsettled(o, run);
    AfterOneMore(o, run, at, ForceKillFires(signalError));
  }

  // --- Timers ---

  /** The chunk that completes the awaited output sets the kill timer. */
  lemma MatchSetsKillTimer(o: Options, run: seq<(nat, Event)>, at: nat, chunk: string)
    requires !Awaited(o, run) && Awaited(o, run + [(at, Output(chunk))])
    ensures After(o, run + [(at, Output(chunk))]).killTimer == Some(at + o.killAfterResolveMs)
  {
    AfterOneMore(o, run, at, Output(chunk));
    MatchedExactly(o, run);
    MatchedExactly(o, run + [(at, Output(chunk))]);
  }

  /** The timeout is pending from the start until it fires or the promise settles. */
  lemma {:induction false} TimeoutPending(o: Options, run: seq<(nat, Event)>)
    requires IsPending(o, run)
    ensures After(o, run).timeoutTimer == if o.timeoutMs > 0 && !TimeoutFired(run) then Some(o.timeoutMs) else None
  {
    if run != [] {
      var n := |run| - 1;
      PendingBefore(o, run);
      TimeoutPending(o, run[..n]);
      TimeoutFiredUnfolds(run);
      PendingIsUnsettled(o, run);
      StepTimeout(o, After(o, run[..n]), run[n].0, run[n].1);
    }
  }

  lemma PendingBefore(o: Options, run: seq<(nat, Event)>)
    requires run != [] && IsPending(o, run)
    ensures IsPending(o, run[..|run| - 1])
  {
    SettlesOnce(o, run, |run| - 1);
    PendingIsUnsettled(o, run);
    PendingIsUnsettled(o, run[..|run| - 1]);
  }

  lemma StepTimeout(o: Options, s: State, at: nat, e: Event)
    requires !Step(o, s, at, e).settled
    ensures Step(o, s, at, e).timeoutTimer == if e.TimeoutFires? then None else s.timeoutTimer
  {}

  /** While the promise stays pending, every other event leaves the kill, force-kill and abandon timers
      alone, except that a timer that fires is no longer pending. */
  lemma TimersKept(o: Options, run: seq<(nat, Event)>, at: nat, e: Event)
    requires IsPending(o, run + [(at, e)])
    ensures var s, t := After(o, run), After(o, run + [(at, e)]);
      && (!e.KillFires? && (!e.Output? || Awaited(o, run) || !Awaited(o, run + [(at, e)])) ==> t.killTimer == s.killTimer)
      && (!e.KillFires? && !e.TimeoutFires? ==> t.abandonTimer == s.abandonTimer || e.AbandonFires?)
      && (!e.KillFires? && !e.TimeoutFires? && !e.ForceKillFires? ==> t.forceKillTimer == s.forceKillTimer)
      && (e.KillFires? ==> t.killTimer == None)
      && (e.ForceKillFires? ==> t.forceKillTimer == None)
  {
    AfterOneMore(o, run, at, e);
    MatchedExactly(o, run);
    MatchedExactly(o, run + [(at, e)]);
    PendingIsUnsettled(o, run + [(at, e)]);
    StepTimers(o, After(o, run), at, e);
  }

  lemma StepTimers(o: Options, s: State, at: nat, e: Event)
    requires !Step(o, s, at, e).settled
    ensures var t := Step(o, s, at, e);
      && (!e.KillFires? && (!e.Output? || s.matchedOutput || !t.matchedOutput) ==> t.killTimer == s.killTimer)
      && (!e.KillFires? && !e.TimeoutFires? ==> t.abandonTimer == s.abandonTimer || e.AbandonFires?)
      && (!e.KillFires? && !e.TimeoutFires? && !e.ForceKillFires? ==> t.forceKillTimer == s.forceKillTimer)
      && (e.KillFires? ==> t.killTimer == None)
      && (e.ForceKillFires? ==> t.forceKillTimer == None)
  {}

  /** Settling clears all four timers. */
  lemma SettlingClearsTimers(o: Options, run: seq<(nat, Event)>, at: nat, e: Event)
    requires IsPending(o, run) && !IsPending(o, run + [(at, e)])
    ensures var t := After(o, run + [(at, e)]);
      t.killTimer == None && t.forceKillTimer == None && t.abandonTimer == None && t.timeoutTimer == None
  {
    AfterOneMore(o, run, at, e);
    PendingIsUnsettled(o, run);
    PendingIsUnsettled(o, run + [(at, e)]);
    StepClears(o, After(o, run), at, e);
  }

  lemma StepClears(o: Options, s: State, at: nat, e: Event)
    requires !s.settled && Step(o, s, at, e).settled
    ensures var t := Step(o, s, at, e);
      t.killTimer == None && t.forceKillTimer == None && t.abandonTimer == None && t.timeoutTimer == None
  {}
}
