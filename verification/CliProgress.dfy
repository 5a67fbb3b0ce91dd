/** The supervisor cannot get stuck: its own timers settle the promise, whatever the child does. */
module CliProgress {
  import opened Wrappers
  import opened CliSupervisor
  import opened CliSeen

  // --- The next timer ---

  /** No pending timer has been kept waiting for more than `lag`. */
  ghost predicate Punctual(s: State, lag: nat) {
    && NotOverdue(s.killTimer, lag, s.now) && NotOverdue(s.forceKillTimer, lag, s.now)
    && NotOverdue(AbandonDue(s), lag, s.now) && NotOverdue(s.timeoutTimer, lag, s.now)
  }

  lemma ClockPunctual(s: State, lag: nat, at: nat, e: Event)
    requires Enabled(s, lag, at, e)
    ensures Punctual(s.(now := at), lag)
  {}

  lemma OutputPunctual(o: Options, s: State, chunk: string, lag: nat)
    requires Punctual(s, lag)
    ensures Punctual(HandleOutput(o, s, chunk), lag)
  {}

  lemma FinishPunctual(s: State, error: Option<Failure>, lag: nat)
    requires Punctual(s, lag)
    ensures Punctual(Finish(s, error), lag)
  {}

  lemma ClosePunctual(o: Options, s: State, code: Option<int>, signal: Option<string>, lag: nat)
    requires Punctual(s, lag)
    ensures Punctual(HandleClose(o, s, code, signal), lag)
  {
    if s.timedOut && !s.matchedOutput {
      FinishPunctual(s, Some(CliTimeout(o.timeoutMs)), lag);
    } else if code == Some(0) || s.matchedOutput {
      FinishPunctual(s, None, lag);
    } else {
      FinishPunctual(s, Some(CliExit(code, signal)), lag);
    }
  }

  lemma ForceKillPunctual(o: Options, s: State, signalError: Option<string>, lag: nat)
    requires Punctual(s, lag)
    ensures Punctual(Step(o, s, s.now, ForceKillFires(signalError)), lag)
  {
    assert Punctual(s.(forceKillTimer := None), lag);
  }

  lemma AbandonPunctual(o: Options, s: State, lag: nat)
    requires Punctual(s, lag)
    ensures Punctual(HandleAbandon(o, s), lag)
  {
    assert Punctual(s.(abandonTimer := None), lag);
  }

  lemma TerminatePunctual(o: Options, s: State, reason: Reason, signalError: Option<string>, lag: nat)
    requires Punctual(s, lag)
    ensures Punctual(Terminate(o, s, reason, signalError), lag)
  {}

  lemma StepPunctual(o: Options, lag: nat, s: State, at: nat, e: Event)
    requires Enabled(s, lag, at, e)
    ensures Punctual(Step(o, s, at, e), lag)
  {
    var t := s.(now := at);
    ClockPunctual(s, lag, at, e);
    match e
    case Output(chunk) => OutputPunctual(o, t, chunk, lag);
    case KillFires(signalError) => TerminatePunctual(o, t.(killTimer := None), MatchedOutput, signalError, lag);
    case TimeoutFires(signalError) =>
      TerminatePunctual(o, t.(timedOut := true, timeoutTimer := None), TimeoutReached, signalError, lag);
    case ChildFails(message) => FinishPunctual(t, Some(ChildError(message)), lag);
    case Closes(code, signal) => ClosePunctual(o, t, code, signal, lag);
    case ForceKillFires(signalError) => ForceKillPunctual(o, t, signalError, lag);
    case AbandonFires => AbandonPunctual(o, t, lag);
  }

  /** After every valid run all pending timers are still in time. */
  lemma {:induction false} RunPunctual(o: Options, lag: nat, run: seq<(nat, Event)>)
    requires ValidRun(o, lag, run)
    ensures Punctual(After(o, run), lag)
  {
    if run != [] {
      var n := |run| - 1;
      StepPunctual(o, lag, After(o, run[..n]), run[n].0, run[n].1);
    }
  }

  function Sooner(a: Option<nat>, b: Option<nat>): Option<nat> {
    if a.None? || (b.Some? && b.value < a.value) then b else a
  }

  /** When the earliest pending timer is due. */
  function Earliest(s: State): Option<nat> {
    Sooner(Sooner(s.killTimer, s.forceKillTimer), Sooner(AbandonDue(s), s.timeoutTimer))
  }

  function TimerDue(s: State, e: Event): Option<nat> {
    match e
    case KillFires(_) => s.killTimer
    case ForceKillFires(_) => s.forceKillTimer
    case AbandonFires => AbandonDue(s)
    case TimeoutFires(_) => s.timeoutTimer
    case _ => None
  }

  /** The earliest timer's event, with signalling that succeeds. */
  function NextTimer(s: State): (e: Event)
    requires Earliest(s).Some?
    ensures TimerDue(s, e) == Earliest(s) && IsTimer(e)
    ensures e == KillFires(None) || e == ForceKillFires(None) || e == AbandonFires || e == TimeoutFires(None)
  {
    if s.killTimer == Earliest(s) then KillFires(None)
    else if s.forceKillTimer == Earliest(s) then ForceKillFires(None)
    else if AbandonDue(s) == Earliest(s) then AbandonFires
    else TimeoutFires(None)
  }

  function Max(a: nat, b: nat): nat { if a < b then b else a }

  /** The earliest pending timer can fire as soon as it is due. */
  lemma EarliestIsEnabled(s: State, lag: nat)
    requires Punctual(s, lag) && Earliest(s).Some?
    ensures Enabled(s, lag, Max(s.now, Earliest(s).value), NextTimer(s))
  {}

  // --- Timers settle the promise ---

  /** Some pending timer will settle the promise or begin a termination. */
  ghost predicate WaitsForTimer(s: State) {
    s.settled || (if s.terminating then s.abandonTimer.Some? else s.timeoutTimer.Some? || s.killTimer.Some?)
  }

  function One(timer: Option<nat>): nat {
    if timer.Some? then 1 else 0
  }

  /** How many timers may still fire. */
  function Left(s: State): nat {
    One(s.killTimer) + One(s.forceKillTimer) + One(AbandonDue(s)) + One(s.timeoutTimer) + if s.terminating then 0 else 2
  }

  ghost predicate Shrinks(s: State, t: State) {
    WaitsForTimer(t) && (t.settled || Left(t) < Left(s))
  }

  lemma TerminateShrinks(o: Options, s: State, t: State, reason: Reason)
    requires !s.settled && WaitsForTimer(s) && Left(t) < Left(s) && !t.settled
    requires t.terminating == s.terminating && t.abandonTimer == s.abandonTimer
    ensures Shrinks(s, Terminate(o, t, reason, None))
  {}

  lemma ForceKillShrinks(o: Options, s: State, at: nat)
    requires !s.settled && WaitsForTimer(s) && s.forceKillTimer.Some?
    ensures Shrinks(s, Step(o, s, at, ForceKillFires(None)))
  {}

  lemma TimerShrinks(o: Options, s: State, at: nat)
    requires !s.settled && WaitsForTimer(s) && Earliest(s).Some?
    ensures Shrinks(s, Step(o, s, at, NextTimer(s)))
  {
    var t := s.(now := at);
    match NextTimer(s)
    case KillFires(_) => TerminateShrinks(o, s, t.(killTimer := None), MatchedOutput);
    case ForceKillFires(_) => ForceKillShrinks(o, s, at);
    case AbandonFires => AlwaysSettles(o, s, at, AbandonFires);
    case TimeoutFires(_) => TerminateShrinks(o, s, t.(timedOut := true, timeoutTimer := None), TimeoutReached);
  }

  predicate IsTimer(e: Event) {
    e.KillFires? || e.ForceKillFires? || e.AbandonFires? || e.TimeoutFires?
  }

  ghost predicate TimersOnly(more: seq<(nat, Event)>) {
    forall i :: 0 <= i < |more| ==> IsTimer(more[i].1)
  }

  /** The continuation consists of timer events and settles the promise at its end. */
  ghost predicate Settles(o: Options, lag: nat, run: seq<(nat, Event)>, more: seq<(nat, Event)>) {
    TimersOnly(more) && ValidRun(o, lag, run + more) && After(o, run + more).settled && UnsettledUntil(o, run, more)
  }

  ghost predicate UnsettledUntil(o: Options, run: seq<(nat, Event)>, more: seq<(nat, Event)>) {
    forall i :: 0 <= i < |more| ==> !After(o, run + more[..i]).settled
  }

  ghost predicate SettlesWithin(o: Options, lag: nat, run: seq<(nat, Event)>, more: seq<(nat, Event)>, bound: nat) {
    Settles(o, lag, run, more) && forall i :: 0 <= i < |more| ==> more[i].0 <= bound
  }

  lemma Shift(run: seq<(nat, Event)>, x: (nat, Event), more: seq<(nat, Event)>, i: nat)
    requires i <= |more|
    ensures run + ([x] + more)[..i + 1] == run + [x] + more[..i]
  {}

  lemma UnsettledShift(o: Options, run: seq<(nat, Event)>, x: (nat, Event), more: seq<(nat, Event)>)
    requires !After(o, run).settled && UnsettledUntil(o, run + [x], more)
    ensures UnsettledUntil(o, run, [x] + more)
  {
    var all := [x] + more;
    forall i | 0 <= i < |all| ensures !After(o, run + all[..i]).settled {
      if i == 0 {
        assert run + all[..i] == run;
      } else {
        Shift(run, x, more, i - 1);
      }
    }
  }

  lemma SettlesAfterOne(o: Options, lag: nat, run: seq<(nat, Event)>, x: (nat, Event), more: seq<(nat, Event)>)
    requires !After(o, run).settled && IsTimer(x.1) && Settles(o, lag, run + [x], more)
    ensures Settles(o, lag, run, [x] + more)
  {
    assert run + [x] + more == run + ([x] + more);
    UnsettledShift(o, run, x, more);
    assert TimersOnly([x] + more);
  }

  function StepsToGo(s: State): nat {
    if s.settled then 0 else 1 + Left(s)
  }

  /** The next timer event of an unsettled run. */
  ghost predicate IsNext(o: Options, lag: nat, run: seq<(nat, Event)>, x: (nat, Event)) {
    && IsTimer(x.1) && ValidRun(o, lag, run + [x])
    && WaitsForTimer(After(o, run + [x])) && StepsToGo(After(o, run + [x])) < StepsToGo(After(o, run))
  }

  lemma FindNext(o: Options, lag: nat, run: seq<(nat, Event)>) returns (x: (nat, Event))
    requires ValidRun(o, lag, run) && WaitsForTimer(After(o, run)) && !After(o, run).settled
    ensures IsNext(o, lag, run, x)
  {
    var s := After(o, run);
    var at := Max(s.now, Earliest(s).value);
    x := (at, NextTimer(s));
    RunPunctual(o, lag, run);
    EarliestIsEnabled(s, lag);
    ValidOneMore(o, lag, run, at, NextTimer(s));
    TimerShrinks(o, s, at);
  }

  lemma {:induction false} TimersSettle(o: Options, lag: nat, run: seq<(nat, Event)>) returns (more: seq<(nat, Event)>)
    requires ValidRun(o, lag, run) && WaitsForTimer(After(o, run))
    ensures Settles(o, lag, run, more)
    decreases StepsToGo(After(o, run))
  {
    if After(o, run).settled {
      more := [];
      assert run + [] == run;
    } else {
      var x := FindNext(o, lag, run);
      var rest := TimersSettle(o, lag, run + [x]);
      SettlesAfterOne(o, lag, run, x, rest);
      more := [x] + rest;
    }
  }

  lemma LastStepEnabled(o: Options, lag: nat, run: seq<(nat, Event)>, more: seq<(nat, Event)>, i: nat)
    requires ValidRun(o, lag, run + more) && i < |more|
    ensures ValidRun(o, lag, run + more[..i]) && Enabled(After(o, run + more[..i]), lag, more[i].0, more[i].1)
  {
    var m := |run| + i;
    PrefixValid(o, lag, run + more, m + 1);
    var longer := (run + more)[..m + 1];
    assert longer[..m] == run + more[..i] && longer[m] == more[i];
  }

  // --- Main results ---

  /** With a timeout, every run (whatever the child has done, and with timers at most `lag` late) goes
      on to settle by timers alone, within timeoutMs + grace + 1000 + 2 * lag, and no run passes that
      point unsettled. */
  lemma SettlesByDeadline(o: Options, lag: nat, run: seq<(nat, Event)>) returns (more: seq<(nat, Event)>)
    requires o.timeoutMs > 0 && ValidRun(o, lag, run)
    ensures SettlesWithin(o, lag, run, more, Deadline(o, lag))
    ensures After(o, run).now > Deadline(o, lag) ==> After(o, run).settled
  {
    DeadlineKept(o, lag, run);
    more := TimersSettle(o, lag, run);
    forall i | 0 <= i < |more| ensures more[i].0 <= Deadline(o, lag) {
      LastStepEnabled(o, lag, run, more, i);
      DeadlineKept(o, lag, run + more[..i]);
    }
  }

  /** The chunk at position k is the first with which what has been printed is accepted. */
  ghost predicate FirstAcceptedAt(o: Options, run: seq<(nat, Event)>, k: nat)
    requires k < |run|
  {
    AcceptedAt(o, run, k) && forall i :: 0 <= i < k ==> !AcceptedAt(o, run, i)
  }

  lemma FirstAcceptedMatches(o: Options, run: seq<(nat, Event)>, k: nat)
    requires k < |run| && FirstAcceptedAt(o, run, k)
    ensures MatchesAt(o, run, k)
  {
    MatchedExactly(o, run[..k]);
    MatchedExactly(o, run[..k + 1]);
    assert run[..k + 1][..k + 1] == run[..k + 1];
    assert AcceptedAt(o, run[..k + 1], k);
    forall i | 0 <= i < k ensures !AcceptedAt(o, run[..k], i) {
      assert run[..k][..i + 1] == run[..i + 1];
      assert !AcceptedAt(o, run, i);
    }
  }

  /** Once what the child has printed is accepted, timeout or no timeout, every run goes on to settle by
      timers alone within the kill delay, the grace and a second, plus twice the lateness. */
  lemma SettlesAfterMatch(o: Options, lag: nat, run: seq<(nat, Event)>, k: nat) returns (more: seq<(nat, Event)>)
    requires ValidRun(o, lag, run) && k < |run| && FirstAcceptedAt(o, run, k)
    ensures SettlesWithin(o, lag, run, more, MatchDeadline(o, lag, run[k].0))
    ensures After(o, run).now > MatchDeadline(o, lag, run[k].0) ==> After(o, run).settled
  {
    FirstAcceptedMatches(o, run, k);
    MatchDeadlineKept(o, lag, run, k);
    more := TimersSettle(o, lag, run);
    forall i | 0 <= i < |more| ensures more[i].0 <= MatchDeadline(o, lag, run[k].0) {
      LastStepEnabled(o, lag, run, more, i);
      MatchInLonger(o, run, more[..i], k);
      MatchDeadlineKept(o, lag, run + more[..i], k);
    }
  }

  lemma MatchInLonger(o: Options, run: seq<(nat, Event)>, more: seq<(nat, Event)>, k: nat)
    requires k < |run|
    ensures MatchesAt(o, run + more, k) <==> MatchesAt(o, run, k)
    ensures (run + more)[k] == run[k]
  {
    assert (run + more)[..k] == run[..k] && (run + more)[..k + 1] == run[..k + 1];
  }

  // --- Without a timeout ---

  /** Nothing has been asked of the timers yet. */
  ghost predicate Idle(s: State) {
    s.settled || s.matchedOutput || (!s.terminating && Earliest(s).None?)
  }

  lemma SettledStays(o: Options, s: State, at: nat, e: Event)
    requires s.settled
    ensures Step(o, s, at, e).settled
  {}

  lemma MatchedStays(o: Options, s: State, at: nat, e: Event)
    requires s.matchedOutput
    ensures Step(o, s, at, e).matchedOutput
  {}

  lemma OutputIdle(o: Options, s: State, at: nat, chunk: string)
    requires !s.terminating && Earliest(s).None?
    ensures Idle(Step(o, s, at, Output(chunk)))
  {}

  lemma NoTimerDue(s: State, e: Event)
    requires Earliest(s).None?
    ensures TimerDue(s, e).None?
  {}

  lemma StepIdle(o: Options, lag: nat, s: State, at: nat, e: Event)
    requires Idle(s) && Enabled(s, lag, at, e)
    ensures Idle(Step(o, s, at, e))
  {
    if s.settled {
      SettledStays(o, s, at, e);
    } else if s.matchedOutput {
      MatchedStays(o, s, at, e);
    } else if e.Output? {
      OutputIdle(o, s, at, e.chunk);
    } else {
      NoTimerDue(s, e);
      AlwaysSettles(o, s, at, e);
    }
  }

  lemma {:induction false} RunIdle(o: Options, lag: nat, run: seq<(nat, Event)>)
    requires o.timeoutMs == 0 && ValidRun(o, lag, run)
    ensures Idle(After(o, run))
  {
    if run != [] {
      var n := |run| - 1;
      RunIdle(o, lag, run[..n]);
      StepIdle(o, lag, After(o, run[..n]), run[n].0, run[n].1);
    }
  }

  lemma TerminateWaits(o: Options, s: State, reason: Reason, signalError: Option<string>)
    requires s.terminating ==> WaitsForTimer(s)
    ensures WaitsForTimer(Terminate(o, s, reason, signalError))
  {}

  lemma OutputWaits(o: Options, s: State, chunk: string)
    requires WaitsForTimer(s)
    ensures WaitsForTimer(HandleOutput(o, s, chunk))
  {}

  lemma StepWaits(o: Options, lag: nat, s: State, at: nat, e: Event)
    requires WaitsForTimer(s) && Enabled(s, lag, at, e)
    ensures WaitsForTimer(Step(o, s, at, e))
  {
    var t := s.(now := at);
    assert WaitsForTimer(t);
    match e
    case Output(chunk) => OutputWaits(o, t, chunk);
    case KillFires(signalError) => TerminateWaits(o, t.(killTimer := None), MatchedOutput, signalError);
    case ForceKillFires(signalError) => assert WaitsForTimer(t.(forceKillTimer := None));
    case TimeoutFires(signalError) => TerminateWaits(o, t.(timedOut := true, timeoutTimer := None), TimeoutReached, signalError);
    case _ => AlwaysSettles(o, s, at, e);
  }

  ghost predicate MatchedWaits(s: State) {
    (s.matchedOutput ==> WaitsForTimer(s)) && (s.terminating ==> WaitsForTimer(s))
  }

  lemma {:induction false} RunWaits(o: Options, lag: nat, run: seq<(nat, Event)>)
    requires ValidRun(o, lag, run)
    ensures MatchedWaits(After(o, run))
  {
    if run != [] {
      var n := |run| - 1;
      RunWaits(o, lag, run[..n]);
      StepMatchedWaits(o, lag, After(o, run[..n]), run[n].0, run[n].1);
    }
  }

  lemma StepMatchedWaits(o: Options, lag: nat, s: State, at: nat, e: Event)
    requires MatchedWaits(s) && Enabled(s, lag, at, e)
    ensures MatchedWaits(Step(o, s, at, e))
  {
    if WaitsForTimer(s) {
      StepWaits(o, lag, s, at, e);
    }
  }

  /** Timers alone settle an unsettled promise exactly when there is a timeout or the awaited output
      has been seen; otherwise the supervisor waits for the child, however long it takes. */
  lemma TimersSettleExactly(o: Options, lag: nat, run: seq<(nat, Event)>)
    requires ValidRun(o, lag, run) && !After(o, run).settled
    ensures (exists more :: Settles(o, lag, run, more)) <==> o.timeoutMs > 0 || Awaited(o, run)
  {
    var s := After(o, run);
    MatchedExactly(o, run);
    if o.timeoutMs > 0 {
      var more := SettlesByDeadline(o, lag, run);
    } else if s.matchedOutput {
      RunWaits(o, lag, run);
      var more := TimersSettle(o, lag, run);
    } else {
      RunIdle(o, lag, run);
      forall more | Settles(o, lag, run, more) ensures false {
        NoTimerEvent(o, lag, run, more);
      }
    }
  }

  lemma NoTimerEvent(o: Options, lag: nat, run: seq<(nat, Event)>, more: seq<(nat, Event)>)
    requires ValidRun(o, lag, run) && Earliest(After(o, run)).None? && !After(o, run).settled
    ensures !Settles(o, lag, run, more)
  {
    if more == [] {
      assert run + more == run;
    } else if ValidRun(o, lag, run + more) {
      LastStepEnabled(o, lag, run, more, 0);
      assert run + more[..0] == run;
    }
  }
}
