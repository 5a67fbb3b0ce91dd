/** What the supervisor's flags mean: each is a statement about the events of the run. */
module CliSeen {
  import opened Wrappers
  import opened CliSupervisor

  /** Everything that the child has printed, chunk by chunk. */
  function Printed(run: seq<(nat, Event)>): string {
    if run == [] then ""
    else
      var e := run[|run| - 1].1;
      Printed(run[..|run| - 1]) + if e.Output? then e.chunk else ""
  }

  /** With the chunk at position k, what has been printed is accepted. */
  ghost predicate AcceptedAt(o: Options, run: seq<(nat, Event)>, k: nat)
    requires k < |run|
  {
    run[k].1.Output? && o.resolveOnOutput.Some? && o.resolveOnOutput.value(Printed(run[..k + 1]))
  }

  /** The awaited output has been seen. */
  ghost predicate Awaited(o: Options, run: seq<(nat, Event)>) {
    exists k :: 0 <= k < |run| && AcceptedAt(o, run, k)
  }

  ghost predicate TimeoutFired(run: seq<(nat, Event)>) {
    exists k :: 0 <= k < |run| && run[k].1.TimeoutFires?
  }

  /** The event at position k asks for termination while the promise is pending. */
  ghost predicate AsksToTerminate(o: Options, run: seq<(nat, Event)>, k: nat)
    requires k < |run|
  {
    (run[k].1.KillFires? || run[k].1.TimeoutFires?) && After(o, run[..k]).promise == Pending
  }

  ghost predicate TerminationBegun(o: Options, run: seq<(nat, Event)>) {
    exists k :: 0 <= k < |run| && AsksToTerminate(o, run, k)
  }

  // --- Unfolding ---

  lemma AwaitedUnfolds(o: Options, run: seq<(nat, Event)>)
    requires run != []
    ensures Awaited(o, run) <==> Awaited(o, run[..|run| - 1]) || AcceptedAt(o, run, |run| - 1)
  {
    var n := |run| - 1;
    forall k | 0 <= k < n ensures AcceptedAt(o, run[..n], k) <==> AcceptedAt(o, run, k) {
      assert run[..n][..k + 1] == run[..k + 1];
    }
  }

  lemma TimeoutFiredUnfolds(run: seq<(nat, Event)>)
    requires run != []
    ensures TimeoutFired(run) <==> TimeoutFired(run[..|run| - 1]) || run[|run| - 1].1.TimeoutFires?
  {
    var n := |run| - 1;
    assert forall k :: 0 <= k < n ==> run[..n][k] == run[k];
  }

  lemma TerminationUnfolds(o: Options, run: seq<(nat, Event)>)
    requires run != []
    ensures TerminationBegun(o, run) <==> TerminationBegun(o, run[..|run| - 1]) || AsksToTerminate(o, run, |run| - 1)
  {
    var n := |run| - 1;
    forall k | 0 <= k < n ensures AsksToTerminate(o, run[..n], k) <==> AsksToTerminate(o, run, k) {
      assert run[..n][..k] == run[..k];
    }
  }

  // --- The flags ---

  lemma StepOutput(o: Options, s: State, at: nat, e: Event)
    ensures Step(o, s, at, e).output == s.output + if e.Output? then e.chunk else ""
  {
    assert s.output + "" == s.output;
  }

  lemma StepMatched(o: Options, s: State, at: nat, e: Event)
    ensures Step(o, s, at, e).matchedOutput
       <==> s.matchedOutput || (e.Output? && o.resolveOnOutput.Some? && o.resolveOnOutput.value(s.output + e.chunk))
  {}

  lemma StepTimedOut(o: Options, s: State, at: nat, e: Event)
    ensures Step(o, s, at, e).timedOut <==> s.timedOut || e.TimeoutFires?
  {}

  lemma StepTerminating(o: Options, s: State, at: nat, e: Event)
    ensures Step(o, s, at, e).terminating <==> s.terminating || ((e.KillFires? || e.TimeoutFires?) && !s.settled)
  {}

  /** The collected output is everything that was printed. */
  lemma {:induction false} OutputIsPrinted(o: Options, run: seq<(nat, Event)>)
    ensures After(o, run).output == Printed(run)
  {
    if run != [] {
      var n := |run| - 1;
      OutputIsPrinted(o, run[..n]);
      StepOutput(o, After(o, run[..n]), run[n].0, run[n].1);
    }
  }

  /** The machine takes the output for matched exactly when at some chunk everything printed up to
      and including it was accepted; when that was, and what had happened before, does not matter. */
  lemma {:induction false} MatchedExactly(o: Options, run: seq<(nat, Event)>)
    ensures After(o, run).matchedOutput <==> Awaited(o, run)
  {
    if run != [] {
      var n := |run| - 1;
      MatchedExactly(o, run[..n]);
      AwaitedUnfolds(o, run);
      OutputIsPrinted(o, run[..n]);
      StepMatched(o, After(o, run[..n]), run[n].0, run[n].1);
      assert run[..n + 1] == run;
    }
  }

  /** It takes itself for timed out exactly when the timeout has fired. */
  lemma {:induction false} TimedOutExactly(o: Options, run: seq<(nat, Event)>)
    ensures After(o, run).timedOut <==> TimeoutFired(run)
  {
    if run != [] {
      var n := |run| - 1;
      TimedOutExactly(o, run[..n]);
      TimeoutFiredUnfolds(run);
      StepTimedOut(o, After(o, run[..n]), run[n].0, run[n].1);
    }
  }

  /** It is terminating exactly when the kill timer or the timeout has fired on a pending promise. */
  lemma {:induction false} TerminatingExactly(o: Options, run: seq<(nat, Event)>)
    ensures After(o, run).terminating <==> TerminationBegun(o, run)
  {
    if run != [] {
      var n := |run| - 1;
      TerminatingExactly(o, run[..n]);
      TerminationUnfolds(o, run);
      SettlesOnce(o, run[..n], 0);
      StepTerminating(o, After(o, run[..n]), run[n].0, run[n].1);
    }
  }
}
