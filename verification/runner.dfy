/** The step runner (internal/executor/runner.go) and the verdict drawn from its result
    (internal/cli/cmd_testing.go). */
module Runner {
  import opened Wrappers
  import opened Expressions

  type Params = Option<map<string, Value>>

  datatype Step = Step(id: string, name: string, action: string, params: Params)

  datatype Status = Passed | Failed | Skipped

  datatype StepError =
    | ResolveFailed(failure: Failure)
    | UnknownAction(action: string)
    | ActionError(text: string)
    | PanicSeen
    | ContextDone(text: string)

  datatype StepResult = StepResult(
    id: string, name: string, action: string, status: Status, error: Option<StepError>, params: Params)

  /** What a progress callback finds in the result it is given. */
  datatype Snapshot = Snapshot(steps: seq<StepResult>, panicSteps: seq<StepResult>, panicDetected: bool)

  /** The run's result, which callbacks see while it grows. */
  class RunResult {
    var steps: seq<StepResult>
    var panicSteps: seq<StepResult>
    var panicDetected: bool

    constructor ()
      ensures steps == [] && panicSteps == [] && !panicDetected
    {
      steps, panicSteps, panicDetected := [], [], false;
    }

    function Seen(): Snapshot
      reads this
    {
      Snapshot(steps, panicSteps, panicDetected)
    }
  }

  /** Which case of the select fired. `panicInDelay` tells whether the panic signal arrives while the
      runner waits after a failed action. */
  datatype Select =
    | Done(error: Option<string>, panicInDelay: bool)
    | PanicFirst
    | Cancelled(text: string)

  /** What happened while an action ran: the select outcome, and the outputs recorded when it fired. */
  datatype Played = Played(select: Select, outputs: map<string, string>)

  /** A panic step is simply executed. */
  datatype Executed = Executed(error: Option<string>, outputs: map<string, string>)

  type Outputs = map<string, map<string, string>>

  /** Everything the runner does not decide: the registered actions, what they do when run as the i-th
      step with given parameters, and the fixed part of the expression context. */
  datatype World = World(
    known: set<string>,
    play: (nat, string, Params) -> Played,
    execute: (nat, string, Params) -> Executed,
    waitsForPanic: bool,
    host: Host,
    testDir: string,
    outDir: string,
    vmConfig: Option<Result<map<string, Value>, string>>)

  function Decimal(n: nat): string {
    var digit := '0' + (n % 10) as char;
    if n < 10 then [digit] else Decimal(n / 10) + [digit]
  }

  function DecimalValue(s: string): int {
    if s == [] then 0 else DecimalValue(s[..|s| - 1]) * 10 + (s[|s| - 1] as int - '0' as int)
  }

  lemma {:induction false} DecimalReads(n: nat)
    ensures DecimalValue(Decimal(n)) == n && forall c | c in Decimal(n) :: '0' <= c <= '9'
  {
    var digit := '0' + (n % 10) as char;
    if n < 10 {
      assert [digit][..0] == [];
    } else {
      DecimalReads(n / 10);
      assert Decimal(n)[..|Decimal(n)| - 1] == Decimal(n / 10);
    }
  }

  lemma {:induction false} DecimalStarts(n: nat)
    ensures Decimal(n) != [] && (n > 0 ==> Decimal(n)[0] != '0')
  {
    if n >= 10 {
      DecimalStarts(n / 10);
    }
  }

  /** A result's id is the one its step has, or else "step_" and the step's number counted from one. */
  ghost predicate Identifies(id: string, step: Step, i: nat) {
    if step.id != "" then id == step.id
    else
      && |id| > 5 && id[..5] == "step_" && id[5] != '0'
      && (forall c | c in id[5..] :: '0' <= c <= '9')
      && DecimalValue(id[5..]) == i + 1
  }

  lemma StepIdIdentifies(step: Step, i: nat)
    ensures Identifies(StepId(step, i), step, i)
  {
    if step.id == "" {
      DecimalReads(i + 1);
      DecimalStarts(i + 1);
      hide Decimal, DecimalValue;
      assert StepId(step, i)[5..] == Decimal(i + 1);
    }
  }

  /** Two steps without an id never share the id they are given. */
  lemma GivenIdsDiffer(a: Step, i: nat, b: Step, j: nat)
    requires a.id == "" && b.id == "" && i != j
    ensures StepId(a, i) != StepId(b, j)
  {
    DecimalReads(i + 1);
    DecimalReads(j + 1);
    assert StepId(a, i)[5..] == Decimal(i + 1) && StepId(b, j)[5..] == Decimal(j + 1);
  }

  function StepId(step: Step, i: nat): string {
    if step.id == "" then "step_" + Decimal(i + 1) else step.id
  }

  function ContextWith(w: World, outs: Outputs): Option<Context> {
    Some(Context(w.testDir, w.outDir, w.vmConfig, Some(outs)))
  }

  // ---- What one attempted step must leave behind ----

  /** The parameters a step runs with, or None when some expression fails. */
  function ResolvedParams(params: Params, w: World, outs: Outputs): Option<Params> {
    if params.None? then Some(None)
    else
      var r := Tree(Obj(params.value), w.host, ContextWith(w, outs));
      if r.None? then None else if r.value.Obj? then Some(Some(r.value.fields)) else None
  }

  ghost predicate ParamsFailWith(params: Params, e: Failure, w: World, outs: Outputs) {
    params.Some? && FailsWith(Obj(params.value), e, w.host, ContextWith(w, outs))
  }

  /** The step got as far as running its action. */
  predicate Runs(step: Step, w: World, outs: Outputs) {
    ResolvedParams(step.params, w, outs).Some? && step.action in w.known
  }

  function ErrorOf(select: Select, waits: bool): Option<StepError> {
    match select
    case Done(None, _) => None
    case Done(Some(text), panicInDelay) => if waits && panicInDelay then Some(PanicSeen) else Some(ActionError(text))
    case PanicFirst => Some(PanicSeen)
    case Cancelled(text) => Some(ContextDone(text))
  }

  ghost predicate Attempted(
    r: StepResult, step: Step, i: nat, w: World, outs: Outputs, error: Params -> Option<StepError>)
  {
    && r.id == StepId(step, i) && r.name == step.name && r.action == step.action
    && match ResolvedParams(step.params, w, outs)
       case None =>
         && r.status == Failed && r.params == None
         && exists e :: ParamsFailWith(step.params, e, w, outs) && r.error == Some(ResolveFailed(e))
       case Some(p) =>
         && r.params == p
         && r.error == (if step.action in w.known then error(p) else Some(UnknownAction(step.action)))
         && r.status == (if r.error.None? then Passed else Failed)
  }

  function PlayError(step: Step, i: nat, w: World): Params -> Option<StepError> {
    (p: Params) => ErrorOf(w.play(i, step.action, p).select, w.waitsForPanic)
  }

  function ExecuteError(step: Step, i: nat, w: World): Params -> Option<StepError> {
    (p: Params) =>
      var error := w.execute(i, step.action, p).error;
      if error.Some? then Some(ActionError(error.value)) else None
  }

  function SkippedResult(step: Step, i: nat): StepResult {
    StepResult(StepId(step, i), step.name, step.action, Skipped, None, step.params)
  }

  // ---- Outputs flow forward ----

  /** A step that ran records its outputs under its id; the latest record of an id wins. */
  function Recorded(outs: Outputs, step: Step, i: nat, w: World): Outputs {
    if Runs(step, w, outs) then
      outs[StepId(step, i) := w.play(i, step.action, ResolvedParams(step.params, w, outs).value).outputs]
    else outs
  }

  /** The outputs visible to step i: those recorded by steps 0 to i-1, in order. */
  function OutputsBefore(steps: seq<Step>, w: World, start: Outputs, i: nat): Outputs
    requires i <= |steps|
  {
    if i == 0 then start else Recorded(OutputsBefore(steps, w, start, i - 1), steps[i - 1], i - 1, w)
  }

  function RecordedPanic(outs: Outputs, step: Step, i: nat, w: World): Outputs {
    if Runs(step, w, outs) then
      outs[StepId(step, i) := w.execute(i, step.action, ResolvedParams(step.params, w, outs).value).outputs]
    else outs
  }

  function PanicOutputsBefore(steps: seq<Step>, w: World, start: Outputs, i: nat): Outputs
    requires i <= |steps|
  {
    if i == 0 then start else RecordedPanic(PanicOutputsBefore(steps, w, start, i - 1), steps[i - 1], i - 1, w)
  }

  /** What step i reads under an id is what the last earlier step with that id recorded. */
  lemma {:induction false} LatestRecordWins(steps: seq<Step>, w: World, start: Outputs, j: nat, i: nat)
    requires j < i <= |steps| && Runs(steps[j], w, OutputsBefore(steps, w, start, j))
    requires forall k :: j < k < i ==>
               Runs(steps[k], w, OutputsBefore(steps, w, start, k)) ==> StepId(steps[k], k) != StepId(steps[j], j)
    ensures var before := OutputsBefore(steps, w, start, j);
      && StepId(steps[j], j) in OutputsBefore(steps, w, start, i)
      && OutputsBefore(steps, w, start, i)[StepId(steps[j], j)]
           == w.play(j, steps[j].action, ResolvedParams(steps[j].params, w, before).value).outputs
    decreases i
  {
    hide Runs, ResolvedParams, StepId;
    if i > j + 1 {
      LatestRecordWins(steps, w, start, j, i - 1);
    }
  }

  /** And an id no earlier step recorded reads as before the run. */
  lemma {:induction false} UnrecordedStays(steps: seq<Step>, w: World, start: Outputs, id: string, i: nat)
    requires i <= |steps|
    requires forall k :: 0 <= k < i ==>
               Runs(steps[k], w, OutputsBefore(steps, w, start, k)) ==> StepId(steps[k], k) != id
    ensures id in OutputsBefore(steps, w, start, i) <==> id in start
    ensures id in start ==> OutputsBefore(steps, w, start, i)[id] == start[id]
    decreases i
  {
    hide Runs, ResolvedParams, StepId;
    if i > 0 {
      UnrecordedStays(steps, w, start, id, i - 1);
    }
  }

  // ---- The shape of a run ----

  /** Results 0 to m-1 passed, result m (if any) failed, the rest was skipped. */
  ghost predicate Shape(results: seq<StepResult>, m: nat) {
    && m <= |results|
    && (forall i :: 0 <= i < m ==> results[i].status == Passed)
    && (m < |results| ==> results[m].status == Failed)
    && (forall i :: m < i < |results| ==> results[i].status == Skipped)
  }

  /** The first `n` results of a run that stops at step m. */
  ghost predicate RunsLike(results: seq<StepResult>, steps: seq<Step>, w: World, start: Outputs, m: nat) {
    && |results| <= |steps|
    && (forall i :: 0 <= i < |results| && i <= m ==>
          Attempted(results[i], steps[i], i, w, OutputsBefore(steps, w, start, i), PlayError(steps[i], i, w)))
    && (forall i :: m < i < |results| ==> results[i] == SkippedResult(steps[i], i))
  }

  lemma RunsLikeNext(results: seq<StepResult>, r: StepResult, steps: seq<Step>, w: World, start: Outputs, m: nat)
    requires RunsLike(results, steps, w, start, |steps|) && |results| < |steps| && |results| <= m
    requires Attempted(r, steps[|results|], |results|, w, OutputsBefore(steps, w, start, |results|),
                       PlayError(steps[|results|], |results|, w))
    ensures RunsLike(results + [r], steps, w, start, m)
  {
    hide Attempted, OutputsBefore;
  }

  lemma RunsLikeSkip(results: seq<StepResult>, steps: seq<Step>, w: World, start: Outputs, m: nat)
    requires RunsLike(results, steps, w, start, m) && m < |results| < |steps|
    ensures RunsLike(results + [SkippedResult(steps[|results|], |results|)], steps, w, start, m)
  {
    hide Attempted, OutputsBefore, SkippedResult;
  }

  /** How the select of step i ended, or None when the step did not get as far as running its action. */
  ghost function SelectAt(steps: seq<Step>, w: World, start: Outputs, i: nat): Option<Select>
    requires i < |steps|
  {
    var before := OutputsBefore(steps, w, start, i);
    if Runs(steps[i], w, before) then
      Some(w.play(i, steps[i].action, ResolvedParams(steps[i].params, w, before).value).select)
    else None
  }

  /** What a step that ran reports. */
  ghost predicate Reports(error: Option<StepError>, select: Select, waitsForPanic: bool) {
    match select
    case PanicFirst => error == Some(PanicSeen)
    case Cancelled(text) => error == Some(ContextDone(text))
    case Done(None, _) => error == None
    case Done(Some(text), panicInDelay) =>
      error == Some(if panicInDelay && waitsForPanic then PanicSeen else ActionError(text))
  }

  /** Every result says which step it is of, how its select ended, or that it was skipped. */
  ghost predicate ReportsAll(results: seq<StepResult>, steps: seq<Step>, w: World, start: Outputs, m: nat)
    requires |results| <= |steps|
  {
    && (forall i :: 0 <= i < |results| ==>
          && Identifies(results[i].id, steps[i], i)
          && results[i].name == steps[i].name && results[i].action == steps[i].action)
    && (forall i :: 0 <= i < |results| && i <= m && SelectAt(steps, w, start, i).Some? ==>
          Reports(results[i].error, SelectAt(steps, w, start, i).value, w.waitsForPanic))
    && (forall i :: 0 <= i < |results| && i <= m && SelectAt(steps, w, start, i).None? ==>
          results[i].error.Some? && !results[i].error.value.PanicSeen?)
    && (forall i :: m < i < |results| ==> results[i].params == steps[i].params && results[i].error == None)
  }

  lemma ResultsReport(results: seq<StepResult>, steps: seq<Step>, w: World, start: Outputs, m: nat)
    requires RunsLike(results, steps, w, start, m)
    ensures |results| <= |steps| && ReportsAll(results, steps, w, start, m)
    ensures m < |results| ==>
      (results[m].error == Some(PanicSeen) <==>
         && SelectAt(steps, w, start, m).Some?
         && var select := SelectAt(steps, w, start, m).value;
            select.PanicFirst? || (select.Done? && select.error.Some? && select.panicInDelay && w.waitsForPanic))
  {
    ResultsReportEach(results, steps, w, start, m);
    hide Identifies, SelectAt, Attempted, OutputsBefore, SkippedResult;
  }

  lemma ResultsReportEach(results: seq<StepResult>, steps: seq<Step>, w: World, start: Outputs, m: nat)
    requires RunsLike(results, steps, w, start, m)
    ensures |results| <= |steps| && ReportsAll(results, steps, w, start, m)
  {
    hide Identifies, SelectAt, Reports, Attempted, OutputsBefore, SkippedResult;
    forall i | 0 <= i < |results|
      ensures Identifies(results[i].id, steps[i], i)
      ensures results[i].name == steps[i].name && results[i].action == steps[i].action
      ensures i <= m && SelectAt(steps, w, start, i).Some? ==>
                Reports(results[i].error, SelectAt(steps, w, start, i).value, w.waitsForPanic)
      ensures i <= m && SelectAt(steps, w, start, i).None? ==>
                results[i].error.Some? && !results[i].error.value.PanicSeen?
      ensures i > m ==> results[i].params == steps[i].params && results[i].error == None
    {
      if i <= m {
        AttemptReports(results[i], steps, w, start, i);
      } else {
        SkippedReports(steps[i], i);
      }
    }
  }

  lemma AttemptReports(r: StepResult, steps: seq<Step>, w: World, start: Outputs, i: nat)
    requires i < |steps|
    requires Attempted(r, steps[i], i, w, OutputsBefore(steps, w, start, i), PlayError(steps[i], i, w))
    ensures Identifies(r.id, steps[i], i) && r.name == steps[i].name && r.action == steps[i].action
    ensures SelectAt(steps, w, start, i).Some? ==>
              Reports(r.error, SelectAt(steps, w, start, i).value, w.waitsForPanic)
    ensures SelectAt(steps, w, start, i).None? ==> r.error.Some? && !r.error.value.PanicSeen?
  {
    StepIdIdentifies(steps[i], i);
    hide Identifies, OutputsBefore, ResolvedParams, StepId, ParamsFailWith;
  }

  lemma SkippedReports(step: Step, i: nat)
    ensures var r := SkippedResult(step, i);
      && Identifies(r.id, step, i) && r.name == step.name && r.action == step.action
      && r.params == step.params && r.error == None
  {
    StepIdIdentifies(step, i);
  }

  /** What a later panic step reads under an id is what the last earlier one with that id recorded. */
  lemma {:induction false} LatestPanicRecordWins(steps: seq<Step>, w: World, start: Outputs, j: nat, i: nat)
    requires j < i <= |steps| && Runs(steps[j], w, PanicOutputsBefore(steps, w, start, j))
    requires forall k :: j < k < i ==>
               Runs(steps[k], w, PanicOutputsBefore(steps, w, start, k)) ==> StepId(steps[k], k) != StepId(steps[j], j)
    ensures var before := PanicOutputsBefore(steps, w, start, j);
      && StepId(steps[j], j) in PanicOutputsBefore(steps, w, start, i)
      && PanicOutputsBefore(steps, w, start, i)[StepId(steps[j], j)]
           == w.execute(j, steps[j].action, ResolvedParams(steps[j].params, w, before).value).outputs
    decreases i
  {
    hide Runs, ResolvedParams, StepId;
    if i > j + 1 {
      LatestPanicRecordWins(steps, w, start, j, i - 1);
    }
  }

  /** What the action of panic step i returned, or None when it was not run. */
  ghost function ExecutedAt(steps: seq<Step>, w: World, start: Outputs, i: nat): Option<Executed>
    requires i < |steps|
  {
    var before := PanicOutputsBefore(steps, w, start, i);
    if Runs(steps[i], w, before) then
      Some(w.execute(i, steps[i].action, ResolvedParams(steps[i].params, w, before).value))
    else None
  }

  lemma PanicResultsReport(results: seq<StepResult>, steps: seq<Step>, w: World, start: Outputs)
    requires PanicRunsLike(results, steps, w, start)
    ensures forall i :: 0 <= i < |results| ==> Identifies(results[i].id, steps[i], i)
    ensures forall i :: 0 <= i < |results| && ExecutedAt(steps, w, start, i).None? ==> results[i].status == Failed
    ensures forall i :: 0 <= i < |results| && ExecutedAt(steps, w, start, i).Some? ==>
              && (results[i].status == Failed <==> ExecutedAt(steps, w, start, i).value.error.Some?)
              && (forall text :: ExecutedAt(steps, w, start, i).value.error == Some(text) ==>
                    results[i].error == Some(ActionError(text)))
  {
    hide Identifies, Attempted, PanicOutputsBefore, ExecutedAt;
    forall i | 0 <= i < |results|
      ensures Identifies(results[i].id, steps[i], i)
      ensures ExecutedAt(steps, w, start, i).None? ==> results[i].status == Failed
      ensures ExecutedAt(steps, w, start, i).Some? ==>
              && (results[i].status == Failed <==> ExecutedAt(steps, w, start, i).value.error.Some?)
              && (forall text :: ExecutedAt(steps, w, start, i).value.error == Some(text) ==>
                    results[i].error == Some(ActionError(text)))
    {
      PanicAttemptReports(results[i], steps, w, start, i);
    }
  }

  lemma PanicAttemptReports(r: StepResult, steps: seq<Step>, w: World, start: Outputs, i: nat)
    requires i < |steps|
    requires Attempted(r, steps[i], i, w, PanicOutputsBefore(steps, w, start, i), ExecuteError(steps[i], i, w))
    ensures Identifies(r.id, steps[i], i)
    ensures ExecutedAt(steps, w, start, i).None? ==> r.status == Failed
    ensures ExecutedAt(steps, w, start, i).Some? ==>
      && (r.status == Failed <==> ExecutedAt(steps, w, start, i).value.error.Some?)
      && (forall text :: ExecutedAt(steps, w, start, i).value.error == Some(text) ==> r.error == Some(ActionError(text)))
  {
    StepIdIdentifies(steps[i], i);
    hide Identifies, PanicOutputsBefore, ResolvedParams, StepId, ParamsFailWith;
  }

  /** The panic steps: every one of them attempted. */
  ghost predicate PanicRunsLike(results: seq<StepResult>, steps: seq<Step>, w: World, start: Outputs) {
    && |results| <= |steps|
    && forall i :: 0 <= i < |results| ==>
         && Attempted(results[i], steps[i], i, w, PanicOutputsBefore(steps, w, start, i), ExecuteError(steps[i], i, w))
         && results[i].status != Skipped
  }

  lemma PanicRunsLikeNext(results: seq<StepResult>, r: StepResult, steps: seq<Step>, w: World, start: Outputs)
    requires PanicRunsLike(results, steps, w, start) && |results| < |steps| && r.status != Skipped
    requires Attempted(r, steps[|results|], |results|, w, PanicOutputsBefore(steps, w, start, |results|),
                       ExecuteError(steps[|results|], |results|, w))
    ensures PanicRunsLike(results + [r], steps, w, start)
  {
    hide Attempted, PanicOutputsBefore;
  }

  /** Callbacks of the panic steps: the run's own results stay as they were, the panic results grow one
      by one. Without a result object the callback is given none. */
  ghost predicate PanicObserved(log: seq<Option<Snapshot>>, results: seq<StepResult>, run: Option<Snapshot>) {
    && |log| == |results|
    && forall k :: 0 <= k < |log| ==>
         log[k] == if run.None? then None else Some(run.value.(panicSteps := results[..k + 1]))
  }

  lemma PanicObservedNext(log: seq<Option<Snapshot>>, results: seq<StepResult>, r: StepResult, run: Option<Snapshot>)
    requires PanicObserved(log, results, run)
    ensures PanicObserved(
              log + [if run.None? then None else Some(run.value.(panicSteps := results + [r]))], results + [r], run)
  {
    var all := results + [r];
    forall k | 0 <= k < |log|
      ensures log[k] == if run.None? then None else Some(run.value.(panicSteps := all[..k + 1]))
    {
      assert all[..k + 1] == results[..k + 1];
    }
    assert all[..|log| + 1] == all;
  }

  /** The callback saw each result appear: the k-th call, k results. */
  ghost predicate Observed(log: seq<Option<Snapshot>>, results: seq<StepResult>, m: nat, panicked: bool) {
    && |log| == |results|
    && forall k :: 0 <= k < |log| ==> log[k] == Some(Snapshot(results[..k + 1], [], panicked && k >= m))
  }

  lemma ObservedNext(log: seq<Option<Snapshot>>, results: seq<StepResult>, r: StepResult, m: nat, panicked: bool)
    requires Observed(log, results, m, panicked && |results| > m)
    ensures Observed(log + [Some(Snapshot(results + [r], [], panicked && |results| >= m))], results + [r], m,
                     panicked && |results| >= m)
  {
    var all := results + [r];
    forall k | 0 <= k < |log|
      ensures log[k] == Some(Snapshot(all[..k + 1], [], panicked && k >= m))
    {
      assert all[..k + 1] == results[..k + 1];
    }
    assert all[..|log| + 1] == all;
  }

  class StepRunner {
    var stepOutputs: Outputs
    /** The history of progress callbacks; None stands for a callback given no result. */
    var log: seq<Option<Snapshot>>

    constructor ()
      ensures stepOutputs == map[] && log == []
    {
      stepOutputs, log := map[], [];
    }

    method Notify(result: RunResult?)
      modifies this`log
      ensures log == old(log) + [if result == null then None else Some(result.Seen())]
    {
      log := log + [if result == null then None else Some(result.Seen())];
    }

    /** action.ResolveParams on the parameters of one step. */
    method ResolveParams(step: Step, w: World) returns (r: Result<Params, Failure>)
      ensures r.Ok? ==> ResolvedParams(step.params, w, stepOutputs) == Some(r.value)
      ensures r.Err? ==>
        ResolvedParams(step.params, w, stepOutputs) == None && ParamsFailWith(step.params, r.error, w, stepOutputs)
    {
      hide Tree, FailsWith;
      if step.params.None? { return Ok(None); }
      var resolved := Resolve(Obj(step.params.value), w.host, ContextWith(w, stepOutputs));
      if resolved.Err? { return Err(resolved.error); }
      ObjStaysObj(step.params.value, w.host, ContextWith(w, stepOutputs));
      r := Ok(Some(resolved.value.fields));
    }

    /** One step up to its result: resolve, look the action up, run it, wait in the select, record the
        outputs taken at that moment. */
    method Attempt(step: Step, i: nat, w: World) returns (r: StepResult, panicDetected: bool)
      modifies this`stepOutputs
      ensures Attempted(r, step, i, w, old(stepOutputs), PlayError(step, i, w))
      ensures stepOutputs == Recorded(old(stepOutputs), step, i, w)
      ensures panicDetected <==> r.error == Some(PanicSeen)
      ensures panicDetected <==>
        && step.action in w.known && ResolvedParams(step.params, w, old(stepOutputs)).Some?
        && var select := w.play(i, step.action, ResolvedParams(step.params, w, old(stepOutputs)).value).select;
           select.PanicFirst? || (select.Done? && select.error.Some? && select.panicInDelay && w.waitsForPanic)
      ensures Runs(step, w, old(stepOutputs)) ==>
        Reports(r.error, w.play(i, step.action, ResolvedParams(step.params, w, old(stepOutputs)).value).select,
                w.waitsForPanic)
      ensures r.status == Passed <==> r.error == None
      ensures r.status != Skipped
    {
      hide ResolvedParams, ParamsFailWith;
      r := StepResult(StepId(step, i), step.name, step.action, Failed, None, None);
      panicDetected := false;
      var resolvedParams := ResolveParams(step, w);
      if resolvedParams.Err? {
        r := r.(error := Some(ResolveFailed(resolvedParams.error)));
        return;
      }
      r := r.(params := resolvedParams.value);
      if step.action !in w.known {
        r := r.(error := Some(UnknownAction(step.action)));
        return;
      }
      var played := w.play(i, step.action, resolvedParams.value);
      var stepErr: Option<StepError> := None;
      match played.select {
        case Done(error, panicInDelay) =>
          if error.Some? {
            stepErr := Some(ActionError(error.value));
            if w.waitsForPanic && panicInDelay {
              panicDetected := true;
              stepErr := Some(PanicSeen);
            }
          }
        case PanicFirst =>
          panicDetected := true;
          stepErr := Some(PanicSeen);
        case Cancelled(text) =>
          stepErr := Some(ContextDone(text));
      }
      stepOutputs := stepOutputs[StepId(step, i) := played.outputs];
      r := r.(error := stepErr, status := if stepErr.Some? then Failed else Passed);
    }

    /** RunSteps: every step gets one result in order; after the first failure the rest are skipped with
        their unresolved parameters; the callback is called once per result. */
    method RunSteps(steps: seq<Step>, w: World) returns (result: RunResult, ghost m: nat)
      modifies this
      ensures fresh(result)
      ensures |result.steps| == |steps| && Shape(result.steps, m)
      ensures RunsLike(result.steps, steps, w, old(stepOutputs), m)
      ensures result.panicDetected <==> m < |steps| && result.steps[m].error == Some(PanicSeen)
      ensures result.panicDetected <==>
        && m < |steps| && SelectAt(steps, w, old(stepOutputs), m).Some?
        && var select := SelectAt(steps, w, old(stepOutputs), m).value;
           select.PanicFirst? || (select.Done? && select.error.Some? && select.panicInDelay && w.waitsForPanic)
      ensures ReportsAll(result.steps, steps, w, old(stepOutputs), m)
      ensures result.panicSteps == []
      ensures stepOutputs == OutputsBefore(steps, w, old(stepOutputs), if m < |steps| then m + 1 else m)
      ensures old(log) <= log && Observed(log[|old(log)|..], result.steps, m, result.panicDetected)
    {
      hide Attempted, Recorded, StepId, Observed, RunsLike, SelectAt, ReportsAll, Runs, ResolvedParams;
      result := new RunResult();
      m := |steps|;
      NothingRun(steps, w, stepOutputs);
      ghost var start, base := stepOutputs, |log|;
      NothingObserved(m);
      assert log[base..] == [];
      for i := 0 to |steps|
        invariant fresh(result) && |result.steps| == i && m == |steps|
        invariant forall k :: 0 <= k < i ==> result.steps[k].status == Passed
        invariant RunsLike(result.steps, steps, w, start, m)
        invariant !result.panicDetected && result.panicSteps == []
        invariant stepOutputs == OutputsBefore(steps, w, start, i)
        invariant base <= |log| && log[..base] == old(log)
        invariant Observed(log[base..], result.steps, m, false)
      {
        ghost var was, seen := result.steps, log[base..];
        var r, panicked := Attempt(steps[i], i, w);
        result.steps := result.steps + [r];
        if panicked {
          result.panicDetected := true;
        }
        Notify(result);
        assert log[base..] == seen + [Some(result.Seen())];
        if r.status == Failed {
          m := i;
          RunsLikeNext(was, r, steps, w, start, i);
          ObservedCalm(seen, was, |steps|, i);
          ObservedNext(seen, was, r, i, panicked);
          SkipRemaining(steps, i, w, start, result, base);
          ResultsReport(result.steps, steps, w, start, i);
          return;
        }
        RunsLikeNext(was, r, steps, w, start, m);
        ObservedNext(seen, was, r, m, false);
      }
      ResultsReport(result.steps, steps, w, start, m);
    }

    /** Results for the steps after a failed one; the source repeats this loop at each way to fail. */
    method SkipRemaining(steps: seq<Step>, i: nat, ghost w: World, ghost start: Outputs, result: RunResult,
                         ghost base: nat)
      requires i < |steps| && |result.steps| == i + 1
      requires Shape(result.steps, i) && RunsLike(result.steps, steps, w, start, i)
      requires result.panicSteps == []
      requires base <= |log| && Observed(log[base..], result.steps, i, result.panicDetected)
      modifies result`steps, this`log
      ensures |result.steps| == |steps| && Shape(result.steps, i) && RunsLike(result.steps, steps, w, start, i)
      ensures result.steps[..i + 1] == old(result.steps)
      ensures base <= |log| && log[..base] == old(log[..base])
      ensures Observed(log[base..], result.steps, i, result.panicDetected)
    {
      hide Attempted, Recorded, StepId, Observed, RunsLike, SkippedResult;
      var remaining := steps[i + 1..];
      for j := 0 to |remaining|
        invariant |result.steps| == i + 1 + j
        invariant Shape(result.steps, i) && RunsLike(result.steps, steps, w, start, i)
        invariant result.steps[..i + 1] == old(result.steps)
        invariant base <= |log| && log[..base] == old(log[..base])
        invariant Observed(log[base..], result.steps, i, result.panicDetected)
      {
        ghost var was, seen := result.steps, log[base..];
        var r := SkippedResult(remaining[j], i + 1 + j);
        SkippedStatus(remaining[j], i + 1 + j);
        RunsLikeSkip(was, steps, w, start, i);
        result.steps := result.steps + [r];
        Notify(result);
        assert log[base..] == seen + [Some(result.Seen())];
        ObservedNext(seen, was, r, i, result.panicDetected);
      }
    }

    /** RunPanicSteps: every step is tried whatever happened before; only panicSteps of the result grows. */
    method RunPanicSteps(steps: seq<Step>, w: World, result: RunResult?) returns (results: seq<StepResult>)
      modifies this, result
      ensures |results| == |steps| && PanicRunsLike(results, steps, w, old(stepOutputs))
      ensures forall i :: 0 <= i < |steps| ==> Identifies(results[i].id, steps[i], i)
      ensures forall i :: 0 <= i < |steps| && ExecutedAt(steps, w, old(stepOutputs), i).Some? ==>
        (results[i].status == Failed <==> ExecutedAt(steps, w, old(stepOutputs), i).value.error.Some?)
      ensures stepOutputs == PanicOutputsBefore(steps, w, old(stepOutputs), |steps|)
      ensures result != null ==>
        result.Seen() == old(result.Seen()).(panicSteps := if steps == [] then old(result.panicSteps) else results)
      ensures old(log) <= log
      ensures PanicObserved(log[|old(log)|..], results, if result == null then None else Some(old(result.Seen())))
    {
      hide Attempted, RecordedPanic, StepId, PanicRunsLike, PanicObserved, ExecutedAt, Identifies;
      ghost var start, base := stepOutputs, |log|;
      ghost var run := if result == null then None else Some(result.Seen());
      results := [];
      NothingPanicked(steps, w, start, run);
      assert log[base..] == [];
      for i := 0 to |steps|
        invariant |results| == i && PanicRunsLike(results, steps, w, start)
        invariant stepOutputs == PanicOutputsBefore(steps, w, start, i)
        invariant result != null ==>
          result.Seen() == run.value.(panicSteps := if i == 0 then run.value.panicSteps else results)
        invariant base <= |log| && log[..base] == old(log) && PanicObserved(log[base..], results, run)
      {
        ghost var was, seen := results, log[base..];
        var r := AttemptPanicStep(steps[i], i, w);
        results := results + [r];
        if result != null {
          result.panicSteps := results;
        }
        Notify(result);
        assert log[base..] == seen + [if result == null then None else Some(result.Seen())];
        PanicRunsLikeNext(was, r, steps, w, start);
        PanicObservedNext(seen, was, r, run);
      }
      PanicResultsReport(results, steps, w, start);
    }

    method AttemptPanicStep(step: Step, i: nat, w: World) returns (r: StepResult)
      modifies this`stepOutputs
      ensures Attempted(r, step, i, w, old(stepOutputs), ExecuteError(step, i, w))
      ensures stepOutputs == RecordedPanic(old(stepOutputs), step, i, w)
      ensures r.status != Skipped
    {
      hide ResolvedParams, ParamsFailWith;
      r := StepResult(StepId(step, i), step.name, step.action, Failed, None, None);
      var resolvedParams := ResolveParams(step, w);
      if resolvedParams.Err? {
        r := r.(error := Some(ResolveFailed(resolvedParams.error)));
        return;
      }
      r := r.(params := resolvedParams.value);
      if step.action !in w.known {
        r := r.(error := Some(UnknownAction(step.action)));
        return;
      }
      var executed := w.execute(i, step.action, resolvedParams.value);
      stepOutputs := stepOutputs[StepId(step, i) := executed.outputs];
      if executed.error.Some? {
        r := r.(error := Some(ActionError(executed.error.value)));
      } else {
        r := r.(status := Passed);
      }
    }
  }

  lemma NothingRun(steps: seq<Step>, w: World, start: Outputs)
    ensures RunsLike([], steps, w, start, |steps|)
  {
  }

  lemma NothingPanicked(steps: seq<Step>, w: World, start: Outputs, run: Option<Snapshot>)
    ensures PanicRunsLike([], steps, w, start) && PanicObserved([], [], run)
  {
  }

  lemma SkippedStatus(step: Step, i: nat)
    ensures SkippedResult(step, i).status == Skipped
  {
  }

  lemma NothingObserved(m: nat)
    ensures Observed([], [], m, false)
  {
  }

  lemma ObservedCalm(log: seq<Option<Snapshot>>, results: seq<StepResult>, m: nat, m': nat)
    requires Observed(log, results, m, false)
    ensures Observed(log, results, m', false)
  {
  }

  // ---- What follows from the shape ----

  /** Earlier callbacks saw prefixes of what later ones saw. */
  lemma SnapshotsGrow(log: seq<Option<Snapshot>>, results: seq<StepResult>, m: nat, panicked: bool, j: nat, k: nat)
    requires Observed(log, results, m, panicked) && j <= k < |log|
    ensures log[j].Some? && log[k].Some? && |log[k].value.steps| == k + 1
    ensures log[j].value.steps <= log[k].value.steps && (log[j].value.panicDetected ==> log[k].value.panicDetected)
  {
    assert results[..j + 1] == results[..k + 1][..j + 1];
  }

  // ---- The verdict ----

  function Count(results: seq<StepResult>, status: Status): (n: nat)
    ensures n <= |results|
  {
    if results == [] then 0
    else Count(results[..|results| - 1], status) + (if results[|results| - 1].status == status then 1 else 0)
  }

  /** The tally loop and the verdict of the test command. */
  method Verdict(result: RunResult) returns (passed: nat, failed: nat, skipped: nat, testFailed: bool)
    ensures passed == Count(result.steps, Passed)
    ensures failed == Count(result.steps, Failed)
    ensures skipped == Count(result.steps, Skipped)
    ensures passed + failed + skipped == |result.steps|
    ensures testFailed <==> Count(result.steps, Failed) > 0 || result.panicDetected
  {
    passed, failed, skipped := 0, 0, 0;
    for i := 0 to |result.steps|
      invariant passed == Count(result.steps[..i], Passed)
      invariant failed == Count(result.steps[..i], Failed)
      invariant skipped == Count(result.steps[..i], Skipped)
      invariant passed + failed + skipped == i
    {
      assert result.steps[..i + 1][..i] == result.steps[..i];
      match result.steps[i].status
      case Passed => passed := passed + 1;
      case Failed => failed := failed + 1;
      case Skipped => skipped := skipped + 1;
    }
    assert result.steps[..|result.steps|] == result.steps;
    testFailed := failed > 0 || result.panicDetected;
  }

  lemma {:induction false} CountOf(results: seq<StepResult>, status: Status)
    ensures Count(results, status) > 0 <==> exists i :: 0 <= i < |results| && results[i].status == status
  {
    if results != [] {
      var init := results[..|results| - 1];
      CountOf(init, status);
      assert forall i :: 0 <= i < |init| ==> init[i] == results[i];
    }
  }

  /** After a run, the test succeeds if and only if every step passed. */
  lemma SuccessIffAllPassed(results: seq<StepResult>, m: nat, panicDetected: bool)
    requires Shape(results, m) && (panicDetected ==> m < |results|)
    ensures !(Count(results, Failed) > 0 || panicDetected)
            <==> forall i :: 0 <= i < |results| ==> results[i].status == Passed
  {
    CountOf(results, Failed);
    if m < |results| {
      assert results[m].status == Failed;
    }
  }

  /** A run and the verdict on it: the test succeeds if and only if every step got as far as running its
      action and the action was done without an error, and that is so if and only if every step passed. */
  method RunAndJudge(runner: StepRunner, steps: seq<Step>, w: World)
    returns (result: RunResult, testFailed: bool, ghost m: nat)
    modifies runner
    ensures fresh(result) && |result.steps| == |steps| && Shape(result.steps, m)
    ensures RunsLike(result.steps, steps, w, old(runner.stepOutputs), m)
    ensures !testFailed <==> forall i :: 0 <= i < |steps| ==> result.steps[i].status == Passed
    ensures !testFailed <==> forall i :: 0 <= i < |steps| ==> GoesWell(steps, w, old(runner.stepOutputs), i)
  {
    hide Attempted, OutputsBefore, StepId, RunsLike, GoesWell, Observed;
    result, m := runner.RunSteps(steps, w);
    var passed, failed, skipped;
    passed, failed, skipped, testFailed := Verdict(result);
    SuccessIffAllPassed(result.steps, m, result.panicDetected);
    PassedIffGoesWell(result.steps, steps, w, old(runner.stepOutputs), m);
  }

  /** Step i resolves, its action is known, and the action is done without an error. */
  ghost predicate GoesWell(steps: seq<Step>, w: World, start: Outputs, i: nat)
    requires i < |steps|
  {
    var before := OutputsBefore(steps, w, start, i);
    && Runs(steps[i], w, before)
    && var s := w.play(i, steps[i].action, ResolvedParams(steps[i].params, w, before).value).select;
       s.Done? && s.error.None?
  }

  lemma PassedIffGoesWell(results: seq<StepResult>, steps: seq<Step>, w: World, start: Outputs, m: nat)
    requires |results| == |steps| && Shape(results, m) && RunsLike(results, steps, w, start, m)
    ensures (forall i :: 0 <= i < |steps| ==> results[i].status == Passed)
            <==> forall i :: 0 <= i < |steps| ==> GoesWell(steps, w, start, i)
  {
    hide Attempted, OutputsBefore, GoesWell;
    forall i | 0 <= i < |steps| && i <= m
      ensures results[i].status == Passed <==> GoesWell(steps, w, start, i)
    {
      AttemptPasses(results[i], steps, w, start, i);
    }
  }

  lemma AttemptPasses(r: StepResult, steps: seq<Step>, w: World, start: Outputs, i: nat)
    requires i < |steps|
    requires Attempted(r, steps[i], i, w, OutputsBefore(steps, w, start, i), PlayError(steps[i], i, w))
    ensures r.status == Passed <==> GoesWell(steps, w, start, i)
  {
    hide OutputsBefore, ResolvedParams;
  }

  lemma ObjStaysObj(fields: map<string, Value>, host: Host, ctx: Option<Context>)
    ensures Tree(Obj(fields), host, ctx).Some? ==> Tree(Obj(fields), host, ctx).value.Obj?
  {
  }
}
