/** The release gate: run the steps in order until one fails, collect diagnostics, write the report, take the
    services down. What processes, the container runtime and the file system do is given as input. */
module ReleaseGate {
  import opened Wrappers

  /** An exception class the runner does not catch. */
  datatype Escape = Escape(name: string)

  // --- Waiting for the services ---

  type Statuses = map<string, string>

  const SERVICES := ["db", "api", "worker", "agent-worker"]

  function UnknownStatuses(): Statuses { map service | service in SERVICES :: "unknown" }

  predicate AllHealthy(statuses: Statuses) { forall service | service in statuses :: statuses[service] == "healthy" }

  /** One round of asking every service. */
  datatype Poll = Answered(statuses: Statuses) | PollFailed(message: string) | PollEscaped(escape: Escape)

  datatype Health =
    | Healthy(statuses: Statuses)
    | TimedOut(statuses: Statuses)
    | HealthFailed(message: string)
    | HealthEscaped(escape: Escape)

  /** The round does not end the wait. */
  predicate Inconclusive(poll: Poll) { poll.Answered? && !AllHealthy(poll.statuses) }

  /** What a round that ends the wait means. */
  function Conclusion(poll: Poll): Health
    requires !Inconclusive(poll)
  {
    match poll
    case Answered(statuses) => Healthy(statuses)
    case PollFailed(message) => HealthFailed(message)
    case PollEscaped(escape) => HealthEscaped(escape)
  }

  function HealthFrom(polls: seq<Poll>, i: nat): Health
    requires i <= |polls| && forall j | 0 <= j < i :: Inconclusive(polls[j])
    decreases |polls| - i
  {
    if i == |polls| then TimedOut(if i == 0 then UnknownStatuses()
      else (assert Inconclusive(polls[i - 1]); polls[i - 1].statuses))
    else if Inconclusive(polls[i]) then HealthFrom(polls, i + 1)
    else Conclusion(polls[i])
  }

  /** polls: the rounds that start before the deadline. */
  method WaitForHealth(polls: seq<Poll>) returns (health: Health)
    ensures health == HealthFrom(polls, 0)
    ensures health.Healthy? ==> AllHealthy(health.statuses) && Answered(health.statuses) in polls
    ensures health.TimedOut? <==> forall poll | poll in polls :: Inconclusive(poll)
  {
    var statuses := UnknownStatuses();
    for i := 0 to |polls|
      invariant forall j | 0 <= j < i :: Inconclusive(polls[j])
      invariant statuses == (if i == 0 then UnknownStatuses()
        else (assert Inconclusive(polls[i - 1]); polls[i - 1].statuses))
      invariant HealthFrom(polls, 0) == HealthFrom(polls, i)
    {
      if polls[i].PollFailed? { return HealthFailed(polls[i].message); }
      if polls[i].PollEscaped? { return HealthEscaped(polls[i].escape); }
      statuses := polls[i].statuses;
      if AllHealthy(statuses) { return Healthy(statuses); }
    }
    health := TimedOut(statuses);
  }

  // --- Steps ---

  /** How the step's process ended, or what starting it raised. */
  datatype Process = Exited(returncode: int) | RuntimeFailure(message: string) | ProcessEscaped(escape: Escape)

  /** polls: used only by the step that starts the services. */
  datatype Step = Step(name: string, process: Process, polls: seq<Poll>)

  predicate StartsServices(step: Step) { step.name == "compose-up" }

  const TIMEOUT_MESSAGE := "Compose health did not converge"

  datatype StepEnd =
    | Passed(health: Option<Statuses>)
    | Failed(code: int, message: Option<string>, health: Option<Statuses>)
    | StepEscaped(escape: Escape)

  function EndOf(step: Step): StepEnd {
    match step.process
    case RuntimeFailure(message) => Failed(1, Some(message), None)
    case ProcessEscaped(escape) => StepEscaped(escape)
    case Exited(returncode) =>
      if returncode != 0 then Failed(returncode, None, None)
      else if !StartsServices(step) then Passed(None)
      else
        match HealthFrom(step.polls, 0)
        case Healthy(statuses) => Passed(Some(statuses))
        case TimedOut(statuses) => Failed(1, Some(TIMEOUT_MESSAGE), Some(statuses))
        case HealthFailed(message) => Failed(1, Some(message), None)
        case HealthEscaped(escape) => StepEscaped(escape)
  }

  /** Runs the step and, after starting the services, waits for them. */
  method RunStep(step: Step) returns (end: StepEnd)
    ensures end == EndOf(step)
  {
    match step.process
    case RuntimeFailure(message) => return Failed(1, Some(message), None);
    case ProcessEscaped(escape) => return StepEscaped(escape);
    case Exited(returncode) =>
      if returncode != 0 { return Failed(returncode, None, None); }
      if !StartsServices(step) { return Passed(None); }
      var health := WaitForHealth(step.polls);
      match health
      case Healthy(statuses) => end := Passed(Some(statuses));
      case TimedOut(statuses) => end := Failed(1, Some(TIMEOUT_MESSAGE), Some(statuses));
      case HealthFailed(message) => end := Failed(1, Some(message), None);
      case HealthEscaped(escape) => end := StepEscaped(escape);
  }

  lemma FailureIsNonzero(step: Step)
    ensures EndOf(step).Failed? ==> EndOf(step).code != 0
  {
  }

  // --- The report and the effects of a run ---

  datatype StepResult = StepResult(name: string, passed: bool, exitCode: int, message: Option<string>)

  datatype Report = Report(
    passed: bool, exitCode: int, failingStep: Option<string>, message: Option<string>, health: Option<Statuses>,
    diagnosticsCaptured: bool, steps: seq<StepResult>)

  datatype Outcome = Returned(exitCode: int) | EscapedWith(escape: Escape)

  /** captures, downs, cleanups: how often diagnostics were collected, the services taken down, the scratch
      directory removed. */
  datatype Effects = Effects(reports: seq<Report>, captures: nat, downs: nat, cleanups: nat, outcome: Outcome)

  /** What can raise in the final block. */
  datatype World = World(capture: Option<Escape>, write: Option<Escape>)

  function ResultOf(step: Step): StepResult
    requires !EndOf(step).StepEscaped?
  {
    match EndOf(step)
    case Passed(_) => StepResult(step.name, true, 0, None)
    case Failed(code, message, _) => StepResult(step.name, false, code, message)
  }

  /** The first step at or after i that does not pass. */
  function StopFrom(steps: seq<Step>, i: nat): (stop: nat)
    requires i <= |steps|
    ensures i <= stop <= |steps|
    ensures forall j | i <= j < stop :: EndOf(steps[j]).Passed?
    ensures stop < |steps| ==> !EndOf(steps[stop]).Passed?
    decreases |steps| - i
  {
    if i < |steps| && EndOf(steps[i]).Passed? then StopFrom(steps, i + 1) else i
  }

  function Stop(steps: seq<Step>): nat { StopFrom(steps, 0) }

  function Results(steps: seq<Step>, n: nat): (results: seq<StepResult>)
    requires n <= |steps| && forall j | 0 <= j < n :: !EndOf(steps[j]).StepEscaped?
    ensures |results| == n && forall j | 0 <= j < n :: results[j] == ResultOf(steps[j])
  {
    if n == 0 then [] else Results(steps, n - 1) + [ResultOf(steps[n - 1])]
  }

  /** The last health answer among the first n steps. */
  function HealthAfter(steps: seq<Step>, n: nat): Option<Statuses>
    requires n <= |steps|
  {
    if n == 0 then None
    else
      match EndOf(steps[n - 1])
      case Passed(Some(statuses)) => Some(statuses)
      case Failed(_, _, Some(statuses)) => Some(statuses)
      case _ => HealthAfter(steps, n - 1)
  }

  /** The services were started among the first n steps, successfully or not. */
  predicate ServicesAttempted(steps: seq<Step>, n: nat)
    requires n <= |steps|
  {
    exists j | 0 <= j < n :: StartsServices(steps[j])
  }

  /** The final block, then the pending exception or the exit code. */
  method Finish(world: World, report: Report, servicesStarted: bool, pending: Option<Escape>) returns (effects: Effects)
    requires !report.diagnosticsCaptured
    ensures effects == Finished(world, report, servicesStarted, pending)
  {
    var captures := 0;
    var captured := false;
    if report.exitCode != 0 {
      captures := 1;
      if world.capture.Some? {
        return Effects([], captures, 0, 0, EscapedWith(world.capture.value));
      }
      captured := true;
    }
    if world.write.Some? {
      return Effects([], captures, 0, 0, EscapedWith(world.write.value));
    }
    var reports := [report.(passed := report.exitCode == 0, diagnosticsCaptured := captured,
                            failingStep := if report.exitCode != 0 then report.failingStep else None)];
    var downs := 0;
    if servicesStarted {
      downs := 1;
    }
    var outcome := if pending.Some? then EscapedWith(pending.value) else Returned(report.exitCode);
    effects := Effects(reports, captures, downs, 1, outcome);
  }

  function Finished(world: World, report: Report, servicesStarted: bool, pending: Option<Escape>): Effects {
    var failed := report.exitCode != 0;
    var captures := if failed then 1 else 0;
    if failed && world.capture.Some? then Effects([], captures, 0, 0, EscapedWith(world.capture.value))
    else if world.write.Some? then Effects([], captures, 0, 0, EscapedWith(world.write.value))
    else
      var written := report.(
        passed := !failed, diagnosticsCaptured := failed, failingStep := if failed then report.failingStep else None);
      Effects([written], captures, if servicesStarted then 1 else 0, 1,
              if pending.Some? then EscapedWith(pending.value) else Returned(report.exitCode))
  }

  /** What a run amounts to, from where it stops. */
  function GateEffects(steps: seq<Step>, world: World): Effects {
    var stop := Stop(steps);
    if stop == |steps| then
      var last := if steps == [] then None else Some(steps[stop - 1].name);
      var report := Report(true, 0, last, None, HealthAfter(steps, stop), false, Results(steps, stop));
      Finished(world, report, ServicesAttempted(steps, stop), None)
    else
      var here := Some(steps[stop].name);
      match EndOf(steps[stop])
      case Failed(code, message, _) =>
        var health, results := HealthAfter(steps, stop + 1), Results(steps, stop + 1);
        Finished(world, Report(false, code, here, message, health, false, results),
                 ServicesAttempted(steps, stop + 1), None)
      case StepEscaped(escape) =>
        var health, results := HealthAfter(steps, stop), Results(steps, stop);
        Finished(world, Report(true, 0, here, None, health, false, results),
                 ServicesAttempted(steps, stop + 1), Some(escape))
  }

  /** The runner: its loop, its two handlers and its final block. */
  method RunGate(steps: seq<Step>, world: World) returns (effects: Effects)
    ensures effects == GateEffects(steps, world)
  {
    var composeStarted := false;
    var health: Option<Statuses> := None;
    var exitCode := 0;
    var message: Option<string> := None;
    var failingStep: Option<string> := None;
    var results: seq<StepResult> := [];
    var pending: Option<Escape> := None;
    var i := 0;
    while i < |steps|
      invariant 0 <= i <= |steps| && Stop(steps) == StopFrom(steps, i)
      invariant forall j | 0 <= j < i :: EndOf(steps[j]).Passed?
      invariant exitCode == 0 && message == None && pending == None
      invariant results == Results(steps, i) && health == HealthAfter(steps, i)
      invariant composeStarted == ServicesAttempted(steps, i)
      invariant failingStep == (if i == 0 then None else Some(steps[i - 1].name))
    {
      var step := steps[i];
      failingStep := Some(step.name);
      if StartsServices(step) {
        composeStarted := true;
      }
      assert composeStarted == ServicesAttempted(steps, i + 1);
      var end := RunStep(step);
      if end.StepEscaped? {
        assert Stop(steps) == i;
        pending := Some(end.escape);
        break;
      }
      if end.health.Some? {
        health := end.health;
      }
      results := results + [ResultOf(step)];
      if end.Failed? {
        assert Stop(steps) == i;
        exitCode := end.code;
        message := end.message;
        break;
      }
      i := i + 1;
    }
    if i < |steps| {
      FailureIsNonzero(steps[i]);
    }
    var report := Report(exitCode == 0, exitCode, failingStep, message, health, false, results);
    effects := Finish(world, report, composeStarted, pending);
  }

  // --- Honesty ---

  /** The run ended on an exception the runner does not catch. */
  predicate StoppedByEscape(steps: seq<Step>) { Stop(steps) < |steps| && EndOf(steps[Stop(steps)]).StepEscaped? }

  predicate StoppedByFailure(steps: seq<Step>) { Stop(steps) < |steps| && EndOf(steps[Stop(steps)]).Failed? }

  /** A report is written, once, unless writing it raises or collecting diagnostics after a failure does; the same
      holds for the scratch directory, and for the services when starting them was attempted. */
  lemma ReportWrittenExactlyWhen(steps: seq<Step>, world: World)
    ensures var effects := GateEffects(steps, world);
      var finishes := world.write.None? && (StoppedByFailure(steps) ==> world.capture.None?);
      && |effects.reports| == (if finishes then 1 else 0)
      && effects.cleanups == (if finishes then 1 else 0)
      && effects.downs == (if finishes
        && ServicesAttempted(steps, if Stop(steps) < |steps| then Stop(steps) + 1 else |steps|) then 1 else 0)
      && effects.captures == (if StoppedByFailure(steps) then 1 else 0)
  {
    if Stop(steps) < |steps| {
      FailureIsNonzero(steps[Stop(steps)]);
    }
  }

  /** What a written report says: the results are the steps that ran, in order, all passed but possibly the last. */
  lemma ReportContents(steps: seq<Step>, world: World)
    requires GateEffects(steps, world).reports != []
    ensures var report := GateEffects(steps, world).reports[0]; var stop := Stop(steps);
      && |report.steps| == (if StoppedByFailure(steps) then stop + 1 else stop)
      && (forall j | 0 <= j < |report.steps| ::
        report.steps[j].name == steps[j].name && (report.steps[j].passed <==> j < stop))
      && (report.passed <==> !StoppedByFailure(steps))
      && (report.passed <==> report.exitCode == 0)
      && (StoppedByFailure(steps) ==>
        && report.failingStep == Some(steps[stop].name) && report.exitCode == report.steps[stop].exitCode
        && report.diagnosticsCaptured)
  {
    if Stop(steps) < |steps| {
      FailureIsNonzero(steps[Stop(steps)]);
    }
  }

  predicate EveryStepPassed(steps: seq<Step>) { forall j | 0 <= j < |steps| :: EndOf(steps[j]).Passed? }

  /** The report exists and says "passed" exactly for a run whose every step passed. */
  predicate Honest(steps: seq<Step>, effects: Effects) {
    |effects.reports| == 1 && (effects.reports[0].passed <==> EveryStepPassed(steps))
  }

  /** The gate is honest exactly when no exception escapes it: an uncaught one in a step is reported as "passed",
      and one while collecting diagnostics or writing leaves no report and the services up. */
  lemma HonestExactlyWhen(steps: seq<Step>, world: World)
    ensures Honest(steps, GateEffects(steps, world)) <==> GateEffects(steps, world).outcome.Returned?
    ensures GateEffects(steps, world).outcome.Returned? <==>
      !StoppedByEscape(steps) && world.write.None? && (StoppedByFailure(steps) ==> world.capture.None?)
    ensures GateEffects(steps, world).outcome == Returned(0) ==> EveryStepPassed(steps)
  {
    var stop := Stop(steps);
    assert EveryStepPassed(steps) <==> stop == |steps|;
    if stop < |steps| {
      FailureIsNonzero(steps[stop]);
    }
  }
}
