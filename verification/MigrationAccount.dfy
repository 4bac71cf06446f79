/**
 * What a migration run returns and reports, told step by step: which states the steps and rollbacks led through, and
 * what was written down about each of them.
 */
module MigrationAccount {
  import opened Migration
  import opened Common
  import opened MigrationRunner

  // ---------------------------------------------------------------------------
  // Rollback
  // ---------------------------------------------------------------------------

  /** Undoing one completed step takes `after` to `before`. Without a rollback the state stays and nothing is reported;
      a rollback that throws leaves the state as it is. Every attempt is reported, with the versions swapped. */
  ghost predicate Undoes<S(!new)>(context: Context, step: Step<S>, after: S, before: S, reported: seq<StepResult>) {
    match step.rollback
    case None => before == after && reported == []
    case Some(rollback) =>
      match rollback(after, context)
      case Returned(previous) =>
        before == previous && reported == [StepResult(step.id, step.toVersion, step.fromVersion, StepSucceeded, None)]
      case Raised(thrown) =>
        && before == after
        && reported == [StepResult(step.id, step.toVersion, step.fromVersion, StepFailed,
                                   Some(ErrorInfo(thrown.name, thrown.message)))]
  }

  /** states[i] is the state once all steps but the first `i` are undone, and reports[i] is what undoing step `i` adds. */
  ghost predicate UndoTrace<S(!new)>(context: Context, steps: seq<Step<S>>, states: seq<S>, reports: seq<seq<StepResult>>) {
    && |states| == |steps| + 1 && |reports| == |steps|
    && forall i :: 0 <= i < |steps| ==> Undoes(context, steps[i], states[i + 1], states[i], reports[i])
  }

  /** The reports put together, the last one first. */
  function Backwards<T>(reports: seq<seq<T>>): seq<T> {
    if reports == [] then [] else reports[|reports| - 1] + Backwards(reports[..|reports| - 1])
  }

  lemma BackwardsSnoc<T>(front: seq<seq<T>>, last: seq<T>)
    ensures Backwards(front + [last]) == last + Backwards(front)
  {
    assert (front + [last])[..|front|] == front;
  }

  lemma TraceSnoc<S(!new)>(context: Context, steps: seq<Step<S>>, states: seq<S>, reports: seq<seq<StepResult>>,
                           step: Step<S>, after: S, reported: seq<StepResult>)
    requires UndoTrace(context, steps, states, reports)
    requires Undoes(context, step, after, states[|steps|], reported)
    ensures UndoTrace(context, steps + [step], states + [after], reports + [reported])
  {
  }

  ghost predicate Succeeded(reported: seq<StepResult>) {
    reported != [] && reported[0].status == StepSucceeded
  }

  ghost predicate AllSucceeded(reports: seq<seq<StepResult>>) {
    forall i :: 0 <= i < |reports| ==> Succeeded(reports[i])
  }

  ghost predicate TracedBy<S(!new)>(context: Context, steps: seq<Step<S>>, state: S, u: Undone<S>, states: seq<S>,
                                    reports: seq<seq<StepResult>>)
  {
    && UndoTrace(context, steps, states, reports)
    && states[|steps|] == state && u.state == states[0] && u.results == Backwards(reports)
    && (u.all <==> AllSucceeded(reports))
  }

  /** Rollback goes through the completed steps one by one, last first, whatever throws. */
  lemma {:induction false} RollbackIsTraced<S(!new)>(context: Context, steps: seq<Step<S>>, state: S)
    returns (states: seq<S>, reports: seq<seq<StepResult>>)
    ensures TracedBy(context, steps, state, Undo(context, steps, state), states, reports)
  {
    if steps == [] {
      return [state], [];
    }
    var last, front := steps[|steps| - 1], steps[..|steps| - 1];
    assert steps == front + [last];
    var rollback := last.rollback;
    var before, reported := state, [];
    if rollback.Some? {
      match rollback.value(state, context)
      case Returned(previous) =>
        before, reported := previous, [StepResult(last.id, last.toVersion, last.fromVersion, StepSucceeded, None)];
      case Raised(thrown) =>
        reported := [StepResult(last.id, last.toVersion, last.fromVersion, StepFailed,
                                Some(ErrorInfo(thrown.name, thrown.message)))];
    }
    var earlier, others := RollbackIsTraced(context, front, before);
    states, reports := earlier + [state], others + [reported];
    TraceSnoc(context, front, earlier, others, last, state, reported);
    BackwardsSnoc(others, reported);
    assert AllSucceeded(reports) <==> AllSucceeded(others) && Succeeded(reported) by {
      assert forall i :: 0 <= i < |others| ==> reports[i] == others[i];
      assert reports[|others|] == reported;
    }
  }

  // ---------------------------------------------------------------------------
  // The whole run
  // ---------------------------------------------------------------------------

  /** With validation on, the schema registered for this version, if any, accepts the state. */
  ghost predicate Passes<S(!new)>(schemas: map<string, S -> bool>, plan: Plan<S>, options: Options, version: string, state: S) {
    var key := plan.contractId + "::" + version;
    options.validateState && key in schemas ==> schemas[key](state)
  }

  function ContextOf<S(!new)>(plan: Plan<S>, options: Options): Context {
    Context(plan.contractId, options.dryRun, options.metadata)
  }

  ghost predicate Goes<S(!new)>(schemas: map<string, S -> bool>, plan: Plan<S>, options: Options, step: Step<S>, a: S, b: S) {
    && Passes(schemas, plan, options, step.fromVersion, a)
    && step.migrate(a, ContextOf(plan, options)) == Returned(b)
    && Passes(schemas, plan, options, step.toVersion, b)
  }

  ghost predicate IsValidationError(thrown: Thrown) {
    thrown.truthy && thrown.name == "MigrationStateValidationError"
  }

  /** The step throws: its own error, unless a state that does not pass its schema is found before or after. */
  ghost predicate Stops<S(!new)>(schemas: map<string, S -> bool>, plan: Plan<S>, options: Options, step: Step<S>, a: S,
                                 thrown: Thrown)
  {
    if !Passes(schemas, plan, options, step.fromVersion, a) then IsValidationError(thrown)
    else
      match step.migrate(a, ContextOf(plan, options))
      case Raised(error) => thrown == error
      case Returned(b) => !Passes(schemas, plan, options, step.toVersion, b) && IsValidationError(thrown)
  }

  /** The run goes through these states and stops there, at the end or because the next step throws. */
  ghost predicate Path<S(!new)>(schemas: map<string, S -> bool>, plan: Plan<S>, options: Options, initial: S,
                                states: seq<S>, stopper: Option<Thrown>)
  {
    var k := |states| - 1;
    && 0 <= k <= |plan.steps| && states[0] == initial
    && (forall i :: 0 <= i < k ==> Goes(schemas, plan, options, plan.steps[i], states[i], states[i + 1]))
    && (stopper.None? <==> k == |plan.steps|)
    && (stopper.Some? ==> Stops(schemas, plan, options, plan.steps[k], states[k], stopper.value))
  }

  ghost predicate Listed<S(!new)>(steps: seq<Step<S>>, k: nat, stopper: Option<Thrown>, results: seq<StepResult>)
    requires k <= |steps| && (stopper.Some? ==> k < |steps|)
  {
    && |results| == (if stopper.Some? then k + 1 else k)
    && (forall i :: 0 <= i < k ==>
          results[i] == StepResult(steps[i].id, steps[i].fromVersion, steps[i].toVersion, StepSucceeded, None))
    && (stopper.Some? ==>
          results[k] == StepResult(steps[k].id, steps[k].fromVersion, steps[k].toVersion, StepFailed,
                                   Some(ErrorInfo(stopper.value.name, stopper.value.message))))
  }

  /** What the caller gets after `k` steps went through. */
  ghost predicate Reported<S(!new)>(plan: Plan<S>, initial: S, options: Options, states: seq<S>, stopper: Option<Thrown>,
                                    undone: seq<S>, reports: seq<seq<StepResult>>, r: RunResult<S>)
    requires 0 < |states| <= |plan.steps| + 1 && (stopper.Some? ==> |states| <= |plan.steps|)
  {
    var k := |states| - 1;
    var failed := stopper.Some? && stopper.value.truthy;
    && r.report.contractId == plan.contractId && r.report.dryRun == options.dryRun
    && r.report.fromVersion == plan.fromVersion && r.report.toVersion == plan.toVersion
    && r.report.totalSteps == |plan.steps| && r.report.succeededSteps == k
    && r.report.failedSteps == (if stopper.Some? then 1 else 0)
    && Listed(plan.steps, k, stopper, r.report.steps)
    && if failed && options.rollbackOnFailure && !options.dryRun
       then
         && UndoTrace(ContextOf(plan, options), plan.steps[..k], undone, reports) && undone[k] == states[k]
         && r.state == undone[0] && r.report.rollbackSteps == Some(Backwards(reports))
         && r.report.status == (if k > 0 && AllSucceeded(reports) then RolledBack else Failed)
       else
         && r.state == (if options.dryRun then initial else states[k]) && r.report.rollbackSteps == None
         && r.report.status == (if failed then Failed else Completed)
  }

  lemma CommittedPath<S(!new)>(schemas: map<string, S -> bool>, plan: Plan<S>, initial: S, options: Options)
    ensures var env := RunEnv(schemas, plan, options);
            Path(schemas, plan, options, initial, Committed(env, plan.steps, initial), Stopper(env, plan.steps, initial))
  {
    var env := RunEnv(schemas, plan, options);
    var states := Committed(env, plan.steps, initial);
    var k := |states| - 1;
    forall i | 0 <= i < k ensures Goes(schemas, plan, options, plan.steps[i], states[i], states[i + 1]) {
      CommittedStep(env, plan.steps, initial, i);
    }
    CommittedStep(env, plan.steps, initial, k);
  }

  lemma Counts<S(!new)>(schemas: map<string, S -> bool>, plan: Plan<S>, initial: S, options: Options)
    ensures var env := RunEnv(schemas, plan, options);
            var r := RunSpec(schemas, plan, initial, options).report;
            && r.succeededSteps == |Committed(env, plan.steps, initial)| - 1
            && r.failedSteps == if Stopper(env, plan.steps, initial).Some? then 1 else 0
  {
    CompletedExactly(schemas, plan, initial, options);
  }

  lemma ReportLists<S(!new)>(steps: seq<Step<S>>, k: nat, stopper: Option<Thrown>)
    requires k <= |steps| && (stopper.Some? ==> k < |steps|)
    ensures Listed(steps, k, stopper, Successes(steps[..k]) + if stopper.Some? then [Failure(steps[k], stopper.value)] else [])
  {
  }

  /** Every run goes step by step through states that pass their schemas, stops at the first step that throws, is rolled
      back step by step if that was asked for, and reports exactly that. */
  lemma RunIsAccountedFor<S(!new)>(schemas: map<string, S -> bool>, plan: Plan<S>, initial: S, options: Options)
    returns (states: seq<S>, stopper: Option<Thrown>, undone: seq<S>, reports: seq<seq<StepResult>>)
    ensures Path(schemas, plan, options, initial, states, stopper)
    ensures Reported(plan, initial, options, states, stopper, undone, reports, RunSpec(schemas, plan, initial, options))
  {
    var env := RunEnv(schemas, plan, options);
    states, stopper := Committed(env, plan.steps, initial), Stopper(env, plan.steps, initial);
    var k := |states| - 1;
    CommittedPath(schemas, plan, initial, options);
    Counts(schemas, plan, initial, options);
    ReportLists(plan.steps, k, stopper);
    undone, reports := RollbackIsTraced(env.context, plan.steps[..k], states[k]);
  }
}
