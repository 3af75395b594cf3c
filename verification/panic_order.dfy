/** The panic signal from QEMU to the report of the runner: the select of internal/executor/runner.go
    receives from the channel that internal/executor/panic_handler.go closes. */
module PanicOrder {
  import opened Wrappers
  import opened QmpSystem
  import opened QmpTheorems
  import opened QmpProgress
  import Runner

  /** The receive from the panic channel that a select of the runner picks is action `at` of this run of
      the QMP pipeline; a receive is enabled only once the channel is closed. */
  ghost predicate ReceivesAt(acts: seq<Action>, at: nat) {
    at < |acts| && acts[at] == RunnerSeesPanic && Run(INIT, acts[..at + 1]).Some?
  }

  /** Whenever the runner's world lets a step of it see a panic, that is a receive in this run. */
  ghost predicate HearsFrom(w: Runner.World, n: nat, acts: seq<Action>, at: nat -> nat) {
    forall i: nat, action: string, p: Runner.Params |
      && i < n
      && var select := w.play(i, action, p).select;
         select.PanicFirst? || (select.Done? && select.error.Some? && select.panicInDelay && w.waitsForPanic) ::
      ReceivesAt(acts, at(i))
  }

  /** Before the receive: a panic event was dispatched after the handler subscribed, its one pause attempt
      had returned, and the channel was closed, once. */
  ghost predicate PanicHandled(s: Sys) {
    && s.handler.Signalled? && s.panicCloses == 1 && s.pausesReturned == 1
    && s.handler.id in s.hub.chans
    && exists k :: s.hub.chans[s.handler.id].since <= k < |s.hub.dispatched|
                   && s.hub.dispatched[k] in {"GUEST_PANICKED", "GUEST_CRASHLOADED"}
  }

  /** A receive finds everything done. */
  lemma ReceiveComesLast(acts: seq<Action>, at: nat)
    requires ReceivesAt(acts, at)
    ensures Run(INIT, acts[..at]).Some? && PanicHandled(Run(INIT, acts[..at]).value)
  {
    hide PanicHandled;
    var init := acts[..at];
    assert acts[..at + 1] == init + [RunnerSeesPanic];
    RunPrefix(INIT, init, [RunnerSeesPanic]);
    var s := Run(INIT, init).value;
    RunThen(INIT, init, RunnerSeesPanic);
    assert Reachable(Run(INIT, acts[..at + 1]).value);
    PanicComesAfterPause(Run(INIT, acts[..at + 1]).value);
    ReceiveChangesNothing(s);
  }

  lemma {:induction false} RunPrefix(s: Sys, acts: seq<Action>, more: seq<Action>)
    requires Run(s, acts + more).Some?
    ensures Run(s, acts).Some?
    ensures more == [RunnerSeesPanic] ==> Next(Run(s, acts).value, RunnerSeesPanic).Some?
    decreases acts
  {
    hide Next;
    if acts == [] {
      assert acts + more == more;
    } else {
      assert (acts + more)[0] == acts[0] && (acts + more)[1..] == acts[1..] + more;
      RunPrefix(Next(s, acts[0]).value, acts[1..], more);
    }
  }

  lemma ReceiveChangesNothing(s: Sys)
    requires Next(s, RunnerSeesPanic).Some?
    requires var t := Next(s, RunnerSeesPanic).value;
      && t.handler.Signalled? && t.panicCloses == 1 && t.pausesReturned == 1 && t.handler.id in t.hub.chans
      && exists k :: t.hub.chans[t.handler.id].since <= k < |t.hub.dispatched|
                     && t.hub.dispatched[k] in {"GUEST_PANICKED", "GUEST_CRASHLOADED"}
    ensures PanicHandled(s)
  {
  }

  /** Whenever RunSteps reports PanicDetected, the failed step received from the channel, and before that
      receive the panic event was dispatched after the handler subscribed, the pause attempt had returned
      and the channel was closed exactly once. */
  method RunWatched(runner: Runner.StepRunner, steps: seq<Runner.Step>, w: Runner.World,
                    ghost acts: seq<Action>, ghost at: nat -> nat)
    returns (result: Runner.RunResult, ghost m: nat)
    requires HearsFrom(w, |steps|, acts, at)
    modifies runner
    ensures |result.steps| == |steps| && Runner.Shape(result.steps, m)
    ensures result.panicDetected ==>
      && m < |steps| && result.steps[m].error == Some(Runner.PanicSeen)
      && ReceivesAt(acts, at(m)) && Run(INIT, acts[..at(m)]).Some?
      && PanicHandled(Run(INIT, acts[..at(m)]).value)
  {
    hide Runner.OutputsBefore, Runner.Observed, Runner.RunsLike, Runner.Runs, Runner.ResolvedParams;
    hide Runner.ReportsAll, Runner.SelectAt, HearsFrom, ReceivesAt, PanicHandled, Run;
    ghost var start := runner.stepOutputs;
    result, m := runner.RunSteps(steps, w);
    if result.panicDetected {
      PanicWasHeard(steps, w, start, m, acts, at);
      ReceiveComesLast(acts, at(m));
    }
  }

  lemma PanicWasHeard(steps: seq<Runner.Step>, w: Runner.World, start: Runner.Outputs, m: nat,
                      acts: seq<Action>, at: nat -> nat)
    requires HearsFrom(w, |steps|, acts, at) && m < |steps| && Runner.SelectAt(steps, w, start, m).Some?
    requires var select := Runner.SelectAt(steps, w, start, m).value;
      select.PanicFirst? || (select.Done? && select.error.Some? && select.panicInDelay && w.waitsForPanic)
    ensures ReceivesAt(acts, at(m))
  {
    hide Runner.OutputsBefore, Runner.ResolvedParams, Runner.Runs, ReceivesAt, Run;
    var before := Runner.OutputsBefore(steps, w, start, m);
    assert Runner.Runs(steps[m], w, before);
    var p := Heard(steps[m], w, before);
    assert Runner.SelectAt(steps, w, start, m).value == w.play(m, steps[m].action, p).select;
  }

  /** The parameters a step that runs is played with. */
  lemma Heard(step: Runner.Step, w: Runner.World, before: Runner.Outputs) returns (p: Runner.Params)
    requires Runner.Runs(step, w, before)
    ensures Runner.ResolvedParams(step.params, w, before) == Some(p)
  {
    hide Runner.ResolvedParams;
    p := Runner.ResolvedParams(step.params, w, before).value;
  }

  /** Such a receive happens: a run in which the handler has paused the guest after a panic. */
  lemma ReceiveHappens()
    ensures exists acts, at :: ReceivesAt(acts, at)
  {
    PanicIsReported();
    hide Inv;
    var s :| Reachable(s) && Reported(s);
    var acts :| Run(INIT, acts) == Some(s);
    hide Run;
    RunThen(INIT, acts, RunnerSeesPanic);
    var all := acts + [RunnerSeesPanic];
    assert all[..|acts| + 1] == all;
    assert ReceivesAt(all, |acts|);
  }
}
