/** The supervisor of an Acurast CLI child process: one promise, four timers, and the child's output,
    error and close events, as a timed event machine. */
module CliSupervisor {
  import opened Wrappers

  datatype Reason = MatchedOutput | TimeoutReached

  datatype Failure =
    | CliTimeout(timeoutMs: nat)
    | CliExit(code: Option<int>, signal: Option<string>)
    | ChildError(message: string)
    | SignalError(message: string)

  datatype Promise = Pending | Resolved(text: string) | Rejected(failure: Failure)

  /** `timeoutMs` 0 stands for no timeout. */
  datatype Options = Options(resolveOnOutput: Option<string -> bool>, killAfterResolveMs: nat, timeoutMs: nat, graceMs: nat)

  const ABANDON_AFTER_KILL_MS: nat := 1_000

  datatype Abandon = Abandon(due: nat, reason: Reason)

  datatype State = State(now: nat, settled: bool, matchedOutput: bool, timedOut: bool, terminating: bool,
                         killTimer: Option<nat>, forceKillTimer: Option<nat>, abandonTimer: Option<Abandon>,
                         timeoutTimer: Option<nat>, output: string, promise: Promise, settlements: nat)

  /** Timer events say whether signalling the child tree throws. */
  datatype Event =
    | Output(chunk: string)
    | ChildFails(message: string)
    | Closes(code: Option<int>, signal: Option<string>)
    | KillFires(signalError: Option<string>)
    | ForceKillFires(signalError: Option<string>)
    | AbandonFires
    | TimeoutFires(signalError: Option<string>)

  function Start(o: Options): State {
    State(0, false, false, false, false, None, None, None,
          if o.timeoutMs != 0 then Some(o.timeoutMs) else None, "", Pending, 0)
  }

  function Finish(s: State, error: Option<Failure>): State {
    if s.settled then s
    else s.(settled := true, killTimer := None, forceKillTimer := None, abandonTimer := None, timeoutTimer := None,
            promise := if error.Some? then Rejected(error.value) else Resolved(s.output), settlements := s.settlements + 1)
  }

  function Terminate(o: Options, s: State, reason: Reason, signalError: Option<string>): State {
    if s.terminating || s.settled then s
    else if signalError.Some? then Finish(s.(terminating := true), Some(SignalError(signalError.value)))
    else s.(terminating := true, forceKillTimer := Some(s.now + o.graceMs),
            abandonTimer := Some(Abandon(s.now + o.graceMs + ABANDON_AFTER_KILL_MS, reason)))
  }

  function HandleOutput(o: Options, s: State, chunk: string): State {
    var t := s.(output := s.output + chunk);
    if o.resolveOnOutput.None? || t.matchedOutput || !o.resolveOnOutput.value(t.output) then t
    else t.(matchedOutput := true, killTimer := Some(t.now + o.killAfterResolveMs))
  }

  function HandleClose(o: Options, s: State, code: Option<int>, signal: Option<string>): State {
    if s.timedOut && !s.matchedOutput then Finish(s, Some(CliTimeout(o.timeoutMs)))
    else if code == Some(0) then Finish(s, None)
    else if s.matchedOutput then Finish(s, None)
    else Finish(s, Some(CliExit(code, signal)))
  }

  function HandleAbandon(o: Options, s: State): State {
    if s.abandonTimer.None? then s
    else
      var t := s.(abandonTimer := None);
      Finish(t, if s.abandonTimer.value.reason == TimeoutReached then Some(CliTimeout(o.timeoutMs)) else None)
  }

  function Step(o: Options, s: State, at: nat, e: Event): State {
    var t := s.(now := at);
    match e
    case Output(chunk) => HandleOutput(o, t, chunk)
    case ChildFails(message) => Finish(t, Some(ChildError(message)))
    case Closes(code, signal) => HandleClose(o, t, code, signal)
    case KillFires(signalError) => Terminate(o, t.(killTimer := None), MatchedOutput, signalError)
    case ForceKillFires(signalError) =>
      var u := t.(forceKillTimer := None);
      if signalError.Some? then Finish(u, Some(SignalError(signalError.value))) else u
    case AbandonFires => HandleAbandon(o, t)
    case TimeoutFires(signalError) => Terminate(o, t.(timedOut := true, timeoutTimer := None), TimeoutReached, signalError)
  }

  // --- Runs ---

  predicate Due(timer: Option<nat>, at: nat) {
    timer.Some? && timer.value <= at
  }

  predicate NotOverdue(timer: Option<nat>, lag: nat, at: nat) {
    timer.None? || at <= timer.value + lag
  }

  function AbandonDue(s: State): Option<nat> {
    if s.abandonTimer.Some? then Some(s.abandonTimer.value.due) else None
  }

  /** An event may happen at `at` when the clock does not go back, no pending timer has been kept
      waiting for more than `lag`, and a timer that fires is pending and due. */
  predicate Enabled(s: State, lag: nat, at: nat, e: Event) {
    && s.now <= at
    && NotOverdue(s.killTimer, lag, at) && NotOverdue(s.forceKillTimer, lag, at)
    && NotOverdue(AbandonDue(s), lag, at) && NotOverdue(s.timeoutTimer, lag, at)
    && (e.KillFires? ==> Due(s.killTimer, at))
    && (e.ForceKillFires? ==> Due(s.forceKillTimer, at))
    && (e.AbandonFires? ==> Due(AbandonDue(s), at))
    && (e.TimeoutFires? ==> Due(s.timeoutTimer, at))
  }

  function After(o: Options, run: seq<(nat, Event)>): State {
    if run == [] then Start(o)
    else
      var (at, e) := run[|run| - 1];
      Step(o, After(o, run[..|run| - 1]), at, e)
  }

  predicate ValidRun(o: Options, lag: nat, run: seq<(nat, Event)>) {
    run == [] || (
      && ValidRun(o, lag, run[..|run| - 1])
      && Enabled(After(o, run[..|run| - 1]), lag, run[|run| - 1].0, run[|run| - 1].1))
  }

  lemma {:induction false} PrefixValid(o: Options, lag: nat, run: seq<(nat, Event)>, k: nat)
    requires ValidRun(o, lag, run) && k <= |run|
    ensures ValidRun(o, lag, run[..k])
  {
    if k < |run| {
      PrefixValid(o, lag, run[..|run| - 1], k);
      assert run[..|run| - 1][..k] == run[..k];
    } else {
      assert run[..k] == run;
    }
  }

  lemma ValidOneMore(o: Options, lag: nat, run: seq<(nat, Event)>, at: nat, e: Event)
    requires ValidRun(o, lag, run) && Enabled(After(o, run), lag, at, e)
    ensures ValidRun(o, lag, run + [(at, e)]) && After(o, run + [(at, e)]) == Step(o, After(o, run), at, e)
  {
    var longer := run + [(at, e)];
    assert longer[..|longer| - 1] == run;
  }

  // --- Settling ---

  ghost predicate SettledOnce(s: State) {
    && (s.settled <==> s.promise != Pending)
    && s.settlements == (if s.settled then 1 else 0)
  }

  lemma StepSettles(o: Options, s: State, at: nat, e: Event)
    requires SettledOnce(s)
    ensures var t := Step(o, s, at, e); SettledOnce(t) && (s.settled ==> t.settled && t.promise == s.promise)
  {}

  /** In every sequence of events the promise settles at most once, and once it has settled no later
      event changes the outcome. */
  lemma {:induction false} SettlesOnce(o: Options, run: seq<(nat, Event)>, k: nat)
    requires k <= |run|
    ensures SettledOnce(After(o, run))
    ensures After(o, run[..k]).settled ==> After(o, run).promise == After(o, run[..k]).promise
    ensures After(o, run[..k]).settled ==> After(o, run).settled
  {
    if run == [] {
    } else if k == |run| {
      assert run[..k] == run;
      SettlesOnce(o, run[..|run| - 1], 0);
      var (at, e) := run[|run| - 1];
      StepSettles(o, After(o, run[..|run| - 1]), at, e);
    } else {
      SettlesOnce(o, run[..|run| - 1], k);
      assert run[..|run| - 1][..k] == run[..k];
      var (at, e) := run[|run| - 1];
      StepSettles(o, After(o, run[..|run| - 1]), at, e);
    }
  }

  // --- The deadline ---

  function Deadline(o: Options, lag: nat): nat {
    o.timeoutMs + o.graceMs + ABANDON_AFTER_KILL_MS + 2 * lag
  }

  /** While unsettled: either the timeout is still to come, or termination has begun and the abandon
      timer is set early enough. */
  ghost predicate OnTime(o: Options, lag: nat, s: State) {
    s.settled || (
      && (s.terminating ==> s.abandonTimer.Some? && s.abandonTimer.value.due + lag <= Deadline(o, lag))
      && (!s.terminating ==> s.timeoutTimer == Some(o.timeoutMs) && s.abandonTimer.None?)
      && (s.timeoutTimer.Some? ==> s.timeoutTimer.value == o.timeoutMs)
      && s.now <= Deadline(o, lag))
  }

  lemma StepOnTime(o: Options, lag: nat, s: State, at: nat, e: Event)
    requires o.timeoutMs > 0 && OnTime(o, lag, s) && Enabled(s, lag, at, e)
    ensures OnTime(o, lag, Step(o, s, at, e))
  {
    var t := s.(now := at);
    ClockOnTime(o, lag, s, at);
    match e
    case Output(chunk) => OutputOnTime(o, lag, t, chunk);
    case KillFires(signalError) => TerminateOnTime(o, lag, t.(killTimer := None), MatchedOutput, signalError);
    case ForceKillFires(signalError) => ForceKillOnTime(o, lag, t, signalError);
    case TimeoutFires(signalError) =>
      TerminateOnTime(o, lag, t.(timedOut := true, timeoutTimer := None), TimeoutReached, signalError);
    case _ => AlwaysSettles(o, s, at, e);
  }

  lemma ClockOnTime(o: Options, lag: nat, s: State, at: nat)
    requires o.timeoutMs > 0 && OnTime(o, lag, s) && NotOverdue(AbandonDue(s), lag, at) && NotOverdue(s.timeoutTimer, lag, at)
    ensures OnTime(o, lag, s.(now := at))
    ensures !s.settled && !s.terminating ==> at <= o.timeoutMs + lag
  {}

  lemma OutputOnTime(o: Options, lag: nat, s: State, chunk: string)
    requires OnTime(o, lag, s)
    ensures OnTime(o, lag, HandleOutput(o, s, chunk))
  {}

  lemma ForceKillOnTime(o: Options, lag: nat, s: State, signalError: Option<string>)
    requires OnTime(o, lag, s)
    ensures OnTime(o, lag, Step(o, s, s.now, ForceKillFires(signalError)))
  {}

  /** An error, a close and a due abandon timer settle the promise. */
  lemma AlwaysSettles(o: Options, s: State, at: nat, e: Event)
    requires e.ChildFails? || e.Closes? || (e.AbandonFires? && s.abandonTimer.Some?)
    ensures Step(o, s, at, e).settled
  {}

  /** Beginning to terminate sets the abandon timer early enough. */
  lemma TerminateOnTime(o: Options, lag: nat, s: State, reason: Reason, signalError: Option<string>)
    requires s.settled || (
      && (s.terminating || s.now <= o.timeoutMs + lag)
      && (s.terminating ==> OnTime(o, lag, s))
      && (s.timeoutTimer.Some? ==> s.timeoutTimer.value == o.timeoutMs)
      && s.now <= Deadline(o, lag))
    ensures OnTime(o, lag, Terminate(o, s, reason, signalError))
  {}

  /** With a timeout, in every run whose timers fire at most `lag` late, nothing happens on an unsettled
      promise after timeoutMs + grace + 1000 + 2 * lag. That the run can always go on until it settles
      is shown in CliProgress. */
  lemma {:induction false} DeadlineKept(o: Options, lag: nat, run: seq<(nat, Event)>)
    requires o.timeoutMs > 0 && ValidRun(o, lag, run)
    ensures var s := After(o, run);
      && OnTime(o, lag, s)
      && (s.now > Deadline(o, lag) ==> s.settled)
      && (!s.settled ==> forall at: nat, e: Event :: Enabled(s, lag, at, e) ==> at <= Deadline(o, lag))
  {
    if run != [] {
      var before := After(o, run[..|run| - 1]);
      DeadlineKept(o, lag, run[..|run| - 1]);
      StepOnTime(o, lag, before, run[|run| - 1].0, run[|run| - 1].1);
    }
  }

  // --- After the awaited output ---

  /** When termination has begun, the abandon timer is at most a grace and a second away. */
  ghost predicate Bounded(o: Options, s: State) {
    s.settled || (s.terminating ==> s.abandonTimer.Some? && s.abandonTimer.value.due <= s.now + o.graceMs + ABANDON_AFTER_KILL_MS)
  }

  lemma {:induction false} RunBounded(o: Options, lag: nat, run: seq<(nat, Event)>)
    requires ValidRun(o, lag, run)
    ensures Bounded(o, After(o, run))
  {
    if run != [] {
      var n := |run| - 1;
      RunBounded(o, lag, run[..n]);
      StepBounded(o, lag, After(o, run[..n]), run[n].0, run[n].1);
    }
  }

  lemma StepBounded(o: Options, lag: nat, s: State, at: nat, e: Event)
    requires Bounded(o, s) && Enabled(s, lag, at, e)
    ensures Bounded(o, Step(o, s, at, e))
  {
    var t := s.(now := at);
    assert Bounded(o, t);
    match e
    case Output(chunk) => assert Bounded(o, HandleOutput(o, t, chunk));
    case KillFires(signalError) => TerminateBounded(o, t.(killTimer := None), MatchedOutput, signalError);
    case ForceKillFires(signalError) => assert Bounded(o, t.(forceKillTimer := None));
    case TimeoutFires(signalError) =>
      TerminateBounded(o, t.(timedOut := true, timeoutTimer := None), TimeoutReached, signalError);
    case _ => AlwaysSettles(o, s, at, e);
  }

  lemma TerminateBounded(o: Options, s: State, reason: Reason, signalError: Option<string>)
    requires Bounded(o, s)
    ensures Bounded(o, Terminate(o, s, reason, signalError))
  {}

  function MatchDeadline(o: Options, lag: nat, matchedAt: nat): nat {
    matchedAt + o.killAfterResolveMs + o.graceMs + ABANDON_AFTER_KILL_MS + 2 * lag
  }

  /** The awaited output was seen at `matchedAt`: while unsettled, either the kill timer that it set is
      still to come, or termination has begun early enough. */
  ghost predicate OnTimeAfterMatch(o: Options, lag: nat, s: State, matchedAt: nat) {
    s.settled || (
      && s.matchedOutput
      && (s.terminating ==> s.abandonTimer.Some? && s.abandonTimer.value.due + lag <= MatchDeadline(o, lag, matchedAt))
      && (!s.terminating ==> s.killTimer == Some(matchedAt + o.killAfterResolveMs))
      && s.now <= MatchDeadline(o, lag, matchedAt))
  }

  lemma TerminateAfterMatch(o: Options, lag: nat, s: State, matchedAt: nat, reason: Reason, signalError: Option<string>)
    requires s.settled || (
      && s.matchedOutput && s.now <= MatchDeadline(o, lag, matchedAt)
      && (s.terminating ==> OnTimeAfterMatch(o, lag, s, matchedAt))
      && (!s.terminating ==> s.now <= matchedAt + o.killAfterResolveMs + lag))
    ensures OnTimeAfterMatch(o, lag, Terminate(o, s, reason, signalError), matchedAt)
  {}

  lemma StepAfterMatch(o: Options, lag: nat, s: State, matchedAt: nat, at: nat, e: Event)
    requires OnTimeAfterMatch(o, lag, s, matchedAt) && Enabled(s, lag, at, e)
    ensures OnTimeAfterMatch(o, lag, Step(o, s, at, e), matchedAt)
  {
    var t := s.(now := at);
    assert OnTimeAfterMatch(o, lag, t, matchedAt);
    match e
    case Output(chunk) => assert OnTimeAfterMatch(o, lag, HandleOutput(o, t, chunk), matchedAt);
    case ForceKillFires(signalError) => assert OnTimeAfterMatch(o, lag, t.(forceKillTimer := None), matchedAt);
    case ChildFails(_) => AlwaysSettles(o, s, at, e);
    case Closes(_, _) => AlwaysSettles(o, s, at, e);
    case AbandonFires => AlwaysSettles(o, s, at, e);
    case KillFires(signalError) => TerminateAfterMatch(o, lag, t.(killTimer := None), matchedAt, MatchedOutput, signalError);
    case TimeoutFires(signalError) =>
      TerminateAfterMatch(o, lag, t.(timedOut := true, timeoutTimer := None), matchedAt, TimeoutReached, signalError);
  }

  /** The event at position k is the chunk that completes the awaited output. */
  ghost predicate MatchesAt(o: Options, run: seq<(nat, Event)>, k: nat)
    requires k < |run|
  {
    !After(o, run[..k]).matchedOutput && After(o, run[..k + 1]).matchedOutput
  }

  /** Once the awaited output has been seen, nothing happens on an unsettled promise after the kill
      delay, the grace and a second, plus twice the timers' lateness, timeout or no timeout. */
  lemma {:induction false} MatchDeadlineKept(o: Options, lag: nat, run: seq<(nat, Event)>, k: nat)
    requires ValidRun(o, lag, run) && k < |run| && MatchesAt(o, run, k)
    ensures var s := After(o, run);
      && OnTimeAfterMatch(o, lag, s, run[k].0)
      && (s.now > MatchDeadline(o, lag, run[k].0) ==> s.settled)
      && (!s.settled ==> forall at: nat, e: Event :: Enabled(s, lag, at, e) ==> at <= MatchDeadline(o, lag, run[k].0))
  {
    var n := |run| - 1;
    if k == n {
      assert run[..k + 1] == run;
      RunBounded(o, lag, run[..n]);
      MatchSetsTimer(o, lag, After(o, run[..n]), run[n].0, run[n].1);
    } else {
      MatchInPrefix(o, run, k);
      MatchDeadlineKept(o, lag, run[..n], k);
      StepAfterMatch(o, lag, After(o, run[..n]), run[k].0, run[n].0, run[n].1);
    }
    NothingLater(o, lag, After(o, run), run[k].0);
  }

  lemma MatchInPrefix(o: Options, run: seq<(nat, Event)>, k: nat)
    requires k < |run| - 1
    ensures MatchesAt(o, run[..|run| - 1], k) <==> MatchesAt(o, run, k)
  {
    var before := run[..|run| - 1];
    assert before[..k] == run[..k] && before[..k + 1] == run[..k + 1];
  }

  lemma NothingLater(o: Options, lag: nat, s: State, matchedAt: nat)
    requires OnTimeAfterMatch(o, lag, s, matchedAt)
    ensures !s.settled ==> forall at: nat, e: Event :: Enabled(s, lag, at, e) ==> at <= MatchDeadline(o, lag, matchedAt)
  {}

  lemma MatchSetsTimer(o: Options, lag: nat, s: State, at: nat, e: Event)
    requires Bounded(o, s) && Enabled(s, lag, at, e)
    requires !s.matchedOutput && Step(o, s, at, e).matchedOutput
    ensures OnTimeAfterMatch(o, lag, Step(o, s, at, e), at)
  {
    assert e.Output?;
  }

  // --- What the outcome means ---

  ghost predicate SomePrefixMatches(o: Options, text: string) {
    o.resolveOnOutput.Some? && exists k :: 0 <= k <= |text| && o.resolveOnOutput.value(text[..k])
  }

  /** The promise's text was printed by the child, which exited with 0 or printed what was awaited. */
  ghost predicate ResolvedWell(o: Options, text: string, output: string, sawExitZero: bool) {
    text <= output && (sawExitZero || SomePrefixMatches(o, text))
  }

  ghost predicate Explained(o: Options, s: State, sawExitZero: bool) {
    && (s.matchedOutput ==> SomePrefixMatches(o, s.output))
    && (s.timedOut ==> o.timeoutMs > 0)
    && (s.timeoutTimer.Some? ==> o.timeoutMs > 0)
    && (s.abandonTimer.Some? && s.abandonTimer.value.reason == MatchedOutput ==> s.matchedOutput)
    && (s.abandonTimer.Some? && s.abandonTimer.value.reason == TimeoutReached ==> s.timedOut)
    && (s.killTimer.Some? ==> s.matchedOutput)
    && (s.promise.Resolved? ==> ResolvedWell(o, s.promise.text, s.output, sawExitZero))
    && (s.promise.Rejected? && s.promise.failure.CliTimeout? ==> s.timedOut)
  }

  ghost predicate SawExitZero(run: seq<(nat, Event)>) {
    exists k :: 0 <= k < |run| && run[k].1.Closes? && run[k].1.code == Some(0)
  }

  lemma LongerTextMatches(o: Options, text: string, chunk: string)
    requires SomePrefixMatches(o, text)
    ensures SomePrefixMatches(o, text + chunk)
  {
    var k :| 0 <= k <= |text| && o.resolveOnOutput.value(text[..k]);
    assert (text + chunk)[..k] == text[..k];
  }

  lemma OutputExplained(o: Options, s: State, at: nat, chunk: string, saw: bool)
    requires Explained(o, s, saw) && SettledOnce(s)
    ensures Explained(o, Step(o, s, at, Output(chunk)), saw)
  {
    var text := s.output + chunk;
    assert text[..|text|] == text;
    if s.matchedOutput {
      LongerTextMatches(o, s.output, chunk);
    }
    var t := Step(o, s, at, Output(chunk));
    assert t.promise == s.promise && t.output == text;
    assert t.promise.Resolved? ==> t.promise.text <= s.output <= text;
  }

  lemma FinishExplained(o: Options, s: State, error: Option<Failure>, saw: bool)
    requires Explained(o, s, saw)
    requires s.settled || error.Some? || saw || s.matchedOutput
    requires s.settled || error.None? || (error.value.CliTimeout? ==> s.timedOut)
    ensures Explained(o, Finish(s, error), saw)
  {}

  lemma TerminateExplained(o: Options, s: State, reason: Reason, signalError: Option<string>, saw: bool)
    requires Explained(o, s, saw)
    requires if reason == MatchedOutput then s.matchedOutput else s.timedOut
    ensures Explained(o, Terminate(o, s, reason, signalError), saw)
  {
    if !s.terminating && !s.settled && signalError.Some? {
      FinishExplained(o, s.(terminating := true), Some(SignalError(signalError.value)), saw);
    }
  }

  lemma CloseExplained(o: Options, s: State, code: Option<int>, signal: Option<string>, saw: bool)
    requires Explained(o, s, saw)
    ensures Explained(o, HandleClose(o, s, code, signal), saw || code == Some(0))
  {
    assert Explained(o, s, saw || code == Some(0));
    if s.timedOut && !s.matchedOutput {
      FinishExplained(o, s, Some(CliTimeout(o.timeoutMs)), saw || code == Some(0));
    } else if code == Some(0) || s.matchedOutput {
      FinishExplained(o, s, None, saw || code == Some(0));
    } else {
      FinishExplained(o, s, Some(CliExit(code, signal)), saw);
    }
  }

  lemma AbandonExplained(o: Options, s: State, saw: bool)
    requires Explained(o, s, saw)
    ensures Explained(o, HandleAbandon(o, s), saw)
  {
    if s.abandonTimer.Some? {
      var timedOut := s.abandonTimer.value.reason == TimeoutReached;
      FinishExplained(o, s.(abandonTimer := None), if timedOut then Some(CliTimeout(o.timeoutMs)) else None, saw);
    }
  }

  lemma ForceKillExplained(o: Options, s: State, signalError: Option<string>, saw: bool)
    requires Explained(o, s, saw)
    ensures Explained(o, if signalError.Some? then Finish(s, Some(SignalError(signalError.value))) else s, saw)
  {
    if signalError.Some? {
      FinishExplained(o, s, Some(SignalError(signalError.value)), saw);
    }
  }

  lemma TimerExplained(o: Options, lag: nat, s: State, at: nat, e: Event, saw: bool)
    requires Explained(o, s, saw) && Enabled(s, lag, at, e)
    requires e.KillFires? || e.ForceKillFires? || e.TimeoutFires?
    ensures Explained(o, Step(o, s, at, e), saw)
  {
    var t := s.(now := at);
    match e
    case KillFires(signalError) => TerminateExplained(o, t.(killTimer := None), MatchedOutput, signalError, saw);
    case ForceKillFires(signalError) => ForceKillExplained(o, t.(forceKillTimer := None), signalError, saw);
    case TimeoutFires(signalError) =>
      TerminateExplained(o, t.(timedOut := true, timeoutTimer := None), TimeoutReached, signalError, saw);
  }

  lemma StepExplained(o: Options, lag: nat, s: State, at: nat, e: Event, saw: bool)
    requires Explained(o, s, saw) && Enabled(s, lag, at, e) && SettledOnce(s)
    ensures Explained(o, Step(o, s, at, e), saw || (e.Closes? && e.code == Some(0)))
  {
    if e.Output? {
      OutputExplained(o, s, at, e.chunk, saw);
    } else if e.Closes? {
      CloseExplained(o, s.(now := at), e.code, e.signal, saw);
    } else if e.ChildFails? {
      FinishExplained(o, s.(now := at), Some(ChildError(e.message)), saw);
    } else if e.AbandonFires? {
      AbandonExplained(o, s.(now := at), saw);
    } else {
      TimerExplained(o, lag, s, at, e, saw);
    }
  }

  /** In every run: the promise resolves only after exit code 0 or with text in which the awaited
      output was seen, and is rejected as timed out only after the timeout fired. */
  lemma {:induction false} OutcomeExplained(o: Options, lag: nat, run: seq<(nat, Event)>)
    requires ValidRun(o, lag, run)
    ensures Explained(o, After(o, run), SawExitZero(run))
  {
    if run != [] {
      var before := run[..|run| - 1];
      var (at, e) := run[|run| - 1];
      OutcomeExplained(o, lag, before);
      SettlesOnce(o, before, 0);
      StepExplained(o, lag, After(o, before), at, e, SawExitZero(before));
      if SawExitZero(before) {
        var k :| 0 <= k < |before| && before[k].1.Closes? && before[k].1.code == Some(0);
        assert run[k] == before[k];
      }
    }
  }

  // --- The abandon timer remembers why termination began ---

  ghost predicate TimeoutBeganTermination(o: Options, run: seq<(nat, Event)>) {
    exists k :: 0 <= k < |run| && BeganAt(o, run, k)
  }

  ghost predicate BeganAt(o: Options, run: seq<(nat, Event)>, k: nat)
    requires k < |run|
  {
    BeginsByTimeout(After(o, run[..k]), run[k].1)
  }

  /** Event `e` begins a termination because of the timeout. */
  ghost predicate BeginsByTimeout(s: State, e: Event) {
    e.TimeoutFires? && !s.terminating && !s.settled
  }

  lemma StepReason(o: Options, s: State, at: nat, e: Event)
    requires !s.terminating ==> s.abandonTimer.None?
    ensures var t := Step(o, s, at, e);
      && (s.terminating ==> t.terminating)
      && (BeginsByTimeout(s, e) ==> t.terminating)
      && (!t.terminating ==> t.abandonTimer.None?)
      && (t.abandonTimer.Some? && s.terminating ==> t.abandonTimer == s.abandonTimer)
      && (t.abandonTimer.Some? && !s.terminating ==> (t.abandonTimer.value.reason == TimeoutReached <==> BeginsByTimeout(s, e)))
  {}

  lemma BeganUnfolds(o: Options, run: seq<(nat, Event)>)
    requires run != []
    ensures var n := |run| - 1;
      TimeoutBeganTermination(o, run) <==> TimeoutBeganTermination(o, run[..n]) || BeginsByTimeout(After(o, run[..n]), run[n].1)
  {
    var n := |run| - 1;
    var before := run[..n];
    forall k | 0 <= k < n ensures BeganAt(o, before, k) <==> BeganAt(o, run, k) {
      assert run[..k] == before[..k] && run[k] == before[k];
    }
    assert TimeoutBeganTermination(o, run) ==> exists k :: 0 <= k <= n && BeganAt(o, run, k);
    assert BeganAt(o, run, n) <==> BeginsByTimeout(After(o, before), run[n].1);
  }

  lemma {:induction false} AbandonReason(o: Options, run: seq<(nat, Event)>)
    ensures var s := After(o, run);
      && (!s.terminating ==> s.abandonTimer.None?)
      && (TimeoutBeganTermination(o, run) ==> s.terminating)
      && (s.abandonTimer.Some? ==> (s.abandonTimer.value.reason == TimeoutReached <==> TimeoutBeganTermination(o, run)))
  {
    if run != [] {
      var n := |run| - 1;
      AbandonReason(o, run[..n]);
      BeganUnfolds(o, run);
      StepReason(o, After(o, run[..n]), run[n].0, run[n].1);
    }
  }

  /** When the abandon timer fires on an unsettled promise, the promise is rejected as timed out
      exactly when the timeout began the termination, even if the output matched meanwhile. */
  lemma AbandonOutcome(o: Options, run: seq<(nat, Event)>, at: nat)
    requires !After(o, run).settled && After(o, run).abandonTimer.Some?
    ensures var s, t := After(o, run), After(o, run + [(at, AbandonFires)]);
      && (t.promise == Rejected(CliTimeout(o.timeoutMs)) <==> TimeoutBeganTermination(o, run))
      && (t.promise == Resolved(s.output) <==> !TimeoutBeganTermination(o, run))
  {
    AfterOneMore(o, run, at, AbandonFires);
    AbandonReason(o, run);
    AbandonSettles(o, After(o, run).(now := at));
  }

  lemma AbandonSettles(o: Options, s: State)
    requires !s.settled && s.abandonTimer.Some?
    ensures HandleAbandon(o, s).promise
         == if s.abandonTimer.value.reason == TimeoutReached then Rejected(CliTimeout(o.timeoutMs)) else Resolved(s.output)
  {}

  lemma AfterOneMore(o: Options, run: seq<(nat, Event)>, at: nat, e: Event)
    ensures After(o, run + [(at, e)]) == Step(o, After(o, run), at, e)
  {
    var longer := run + [(at, e)];
    assert longer[..|longer| - 1] == run;
  }

  /** So "once the awaited output has been seen the promise cannot be rejected as timed out" does not
      hold: the timeout fires at 100, the output arrives at 120, the child stays open, and the
      abandon timer rejects at 1150. */
  lemma LateMatchIsStillRejected(o: Options)
    requires o == Options(Some((text: string) => text == "ok"), 2_000, 100, 50)
    ensures var run := [(100, TimeoutFires(None)), (120, Output("ok")), (150, ForceKillFires(None)), (1150, AbandonFires)];
      && ValidRun(o, 0, run)
      && After(o, run[..3]).matchedOutput && !After(o, run[..3]).settled
      && After(o, run).promise == Rejected(CliTimeout(100))
  {
    var run := [(100, TimeoutFires(None)), (120, Output("ok")), (150, ForceKillFires(None)), (1150, AbandonFires)];
    LateStates(o);
    var r1 := [] + [run[0]];
    var r2 := r1 + [run[1]];
    var r3 := r2 + [run[2]];
    ValidOneMore(o, 0, [], 100, TimeoutFires(None));
    ValidOneMore(o, 0, r1, 120, Output("ok"));
    ValidOneMore(o, 0, r2, 150, ForceKillFires(None));
    ValidOneMore(o, 0, r3, 1150, AbandonFires);
    assert run[..3] == r3 && run == r3 + [run[3]];
  }

  /** The state of that run while the promise is pending. */
  function LateState(now: nat, matched: bool, killed: bool): State {
    State(now, false, matched, true, true, if matched then Some(2_120) else None, if killed then None else Some(150),
          Some(Abandon(1150, TimeoutReached)), None, if matched then "ok" else "", Pending, 0)
  }

  lemma LateStates(o: Options)
    requires o == Options(Some((text: string) => text == "ok"), 2_000, 100, 50)
    ensures Step(o, Start(o), 100, TimeoutFires(None)) == LateState(100, false, false)
    ensures Step(o, LateState(100, false, false), 120, Output("ok")) == LateState(120, true, false)
    ensures Step(o, LateState(120, true, false), 150, ForceKillFires(None)) == LateState(150, true, true)
    ensures Step(o, LateState(150, true, true), 1150, AbandonFires).promise == Rejected(CliTimeout(100))
  {
    assert "" + "ok" == "ok";
  }
}
