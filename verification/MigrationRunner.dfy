/**
 * Executes a chain of migration steps, with validation at every boundary, dry runs and rollback
 * (src/migrations/migrationRunner.ts). Clock readings in the report are not modelled.
 */
module MigrationRunner {
  import opened Common
  import opened Migration
  import MigrationRegistry
  import StateValidator

  datatype StepStatus = StepSucceeded | StepFailed
  datatype ErrorInfo = ErrorInfo(name: string, message: string)
  datatype StepResult = StepResult(stepId: string, fromVersion: string, toVersion: string,
                                   status: StepStatus, error: Option<ErrorInfo>)
  datatype RunStatus = Completed | Failed | RolledBack
  datatype Options = Options(dryRun: bool, rollbackOnFailure: bool, validateState: bool, metadata: map<string, string>)
  datatype Report = Report(contractId: string, fromVersion: string, toVersion: string, status: RunStatus, dryRun: bool,
                           totalSteps: nat, succeededSteps: nat, failedSteps: nat,
                           steps: seq<StepResult>, rollbackSteps: Option<seq<StepResult>>)
  datatype RunResult<+S> = RunResult(state: S, report: Report)

  /** What is fixed during one run: the registered schemas, the context handed to steps, validation on or off. */
  datatype Env<!S> = Env(schemas: map<string, S -> bool>, context: Context, validate: bool)

  function MakeContext<S(!new)>(plan: Plan<S>, options: Options): Context {
    Context(plan.contractId, options.dryRun, options.metadata)
  }

  predicate Valid<S(!new)>(env: Env<S>, version: string, state: S) {
    env.validate ==> StateValidator.Accepts(env.schemas, env.context.contractId, version, state)
  }

  /** One pass through the body of the `try` block. */
  function Attempt<S(!new)>(env: Env<S>, step: Step<S>, state: S): Outcome<S> {
    if !Valid(env, step.fromVersion, state) then Raised(StateValidator.VALIDATION_ERROR)
    else
      match step.migrate(state, env.context)
      case Raised(thrown) => Raised(thrown)
      case Returned(next) =>
        if Valid(env, step.toVersion, next) then Returned(next) else Raised(StateValidator.VALIDATION_ERROR)
  }

  /** The states a run commits, the initial one first; it stops at the first step that throws. */
  function Committed<S(!new)>(env: Env<S>, steps: seq<Step<S>>, state: S): (states: seq<S>)
    ensures 1 <= |states| <= |steps| + 1 && states[0] == state
  {
    if steps == [] then [state]
    else
      match Attempt(env, steps[0], state)
      case Raised(_) => [state]
      case Returned(next) => [state] + Committed(env, steps[1..], next)
  }

  function Success<S(!new)>(step: Step<S>): StepResult {
    StepResult(step.id, step.fromVersion, step.toVersion, StepSucceeded, None)
  }

  function Failure<S(!new)>(step: Step<S>, thrown: Thrown): StepResult {
    StepResult(step.id, step.fromVersion, step.toVersion, StepFailed, Some(ErrorInfo(thrown.name, thrown.message)))
  }

  /** A rollback attempt is reported with the versions swapped. */
  function Backwards(r: StepResult): StepResult {
    r.(fromVersion := r.toVersion, toVersion := r.fromVersion)
  }

  function Successes<S(!new)>(steps: seq<Step<S>>): (results: seq<StepResult>)
    ensures |results| == |steps|
    ensures forall i :: 0 <= i < |steps| ==> results[i] == Success(steps[i])
  {
    if steps == [] then [] else Successes(steps[..|steps| - 1]) + [Success(steps[|steps| - 1])]
  }

  datatype Undone<+S> = Undone(state: S, results: seq<StepResult>, all: bool)

  /** Undoes the completed steps, last one first. A step without a rollback, or whose rollback throws, is passed over. */
  function Undo<S(!new)>(context: Context, completed: seq<Step<S>>, state: S): Undone<S> {
    if completed == [] then Undone(state, [], true)
    else
      var last, front := completed[|completed| - 1], completed[..|completed| - 1];
      if last.rollback.None? then Undo(context, front, state).(all := false)
      else
        match last.rollback.value(state, context)
        case Returned(previous) =>
          var u := Undo(context, front, previous);
          u.(results := [Backwards(Success(last))] + u.results)
        case Raised(thrown) =>
          var u := Undo(context, front, state);
          Undone(u.state, [Backwards(Failure(last, thrown))] + u.results, false)
  }

  function CountStatus(results: seq<StepResult>, status: StepStatus): nat {
    if results == [] then 0
    else (if results[0].status == status then 1 else 0) + CountStatus(results[1..], status)
  }

  /** What the step that stopped the run threw, if a step stopped it. */
  function Stopper<S(!new)>(env: Env<S>, steps: seq<Step<S>>, initial: S): (stopper: Option<Thrown>)
    ensures stopper.Some? ==> |Committed(env, steps, initial)| <= |steps|
  {
    var states := Committed(env, steps, initial);
    var k := |states| - 1;
    if k < |steps| then
      var attempt := Attempt(env, steps[k], states[k]);
      if attempt.Raised? then Some(attempt.thrown) else None
    else None
  }

  /** What a run returns. The code decides "did it fail?" by the truthiness of what it caught. */
  function RunSpec<S(!new)>(schemas: map<string, S -> bool>, plan: Plan<S>, initial: S, options: Options): RunResult<S> {
    var env := Env(schemas, MakeContext(plan, options), options.validateState);
    var states := Committed(env, plan.steps, initial);
    var k := |states| - 1;
    var stopper := Stopper(env, plan.steps, initial);
    var failed := stopper.Some? && stopper.value.truthy;
    var results := Successes(plan.steps[..k])
                 + if stopper.Some? then [Failure(plan.steps[k], stopper.value)] else [];
    var undoing := failed && options.rollbackOnFailure && !options.dryRun;
    var undone := Undo(env.context, plan.steps[..k], states[k]);
    var status := if !failed then Completed
                  else if undoing && k > 0 && undone.all then RolledBack else Failed;
    var final := if options.dryRun then initial else if undoing then undone.state else states[k];
    RunResult(final,
              Report(plan.contractId, plan.fromVersion, plan.toVersion, status, options.dryRun,
                     |plan.steps|, CountStatus(results, StepSucceeded), CountStatus(results, StepFailed),
                     results, if undoing then Some(undone.results) else None))
  }

  lemma {:induction false} CommittedStep<S(!new)>(env: Env<S>, steps: seq<Step<S>>, state: S, i: nat)
    requires i < |Committed(env, steps, state)|
    ensures i + 1 < |Committed(env, steps, state)| <==>
              i < |steps| && Attempt(env, steps[i], Committed(env, steps, state)[i]).Returned?
    ensures i + 1 < |Committed(env, steps, state)| ==>
              Attempt(env, steps[i], Committed(env, steps, state)[i]) == Returned(Committed(env, steps, state)[i + 1])
  {
    if i == 0 {
    } else {
      var next := Attempt(env, steps[0], state).value;
      CommittedStep(env, steps[1..], next, i - 1);
    }
  }

  /** `result` is what running `plan` gives, and `plan` is a shortest chain of registered steps. */
  ghost predicate RunOf<S(!new)>(plan: Plan<S>, steps: seq<Step<S>>, contractId: string, fromVersion: string,
                                 toVersion: string, schemas: map<string, S -> bool>, initial: S, options: Options,
                                 result: RunResult<S>)
  {
    && MigrationRegistry.Resolves(Some(plan), steps, contractId, fromVersion, toVersion)
    && result == RunSpec(schemas, plan, initial, options)
  }

  class Runner<S(!new)> {
    const registry: MigrationRegistry.Registry<S>
    const validator: StateValidator.Validator<S>

    constructor (registry: MigrationRegistry.Registry<S>, validator: StateValidator.Validator<S>)
      ensures this.registry == registry && this.validator == validator
    {
      this.registry, this.validator := registry, validator;
    }

    /** Resolves a chain, then runs it; without a chain it throws (None) before any step runs. */
    method Migrate(contractId: string, initial: S, fromVersion: string, toVersion: string, options: Options)
      returns (result: Option<RunResult<S>>)
      ensures result.None? ==>
                forall path :: !MigrationRegistry.IsChain(registry.ListSteps(contractId), fromVersion, toVersion, path)
      ensures result.Some? ==>
                exists plan ::
                  RunOf(plan, registry.ListSteps(contractId), contractId, fromVersion, toVersion,
                        validator.schemas, initial, options, result.value)
    {
      var plan := registry.ResolvePath(contractId, fromVersion, toVersion);
      if plan.None? {
        return None;
      }
      var r := Run(plan.value, initial, options);
      assert RunOf(plan.value, registry.ListSteps(contractId), contractId, fromVersion, toVersion,
                   validator.schemas, initial, options, r);
      result := Some(r);
    }

    method Run(plan: Plan<S>, initial: S, options: Options) returns (result: RunResult<S>)
      ensures result == RunSpec(validator.schemas, plan, initial, options)
    {
      var context := MakeContext(plan, options);
      var state, completedSteps, stepResults, failure := Forward(plan, initial, context, options.validateState);
      var failed := failure.Some? && failure.value.truthy;
      var status := if failed then Failed else Completed;
      var rollbackSteps: Option<seq<StepResult>> := None;
      if failed && options.rollbackOnFailure && !options.dryRun {
        var undone := Rollback(completedSteps, state, context);
        state := undone.state;
        rollbackSteps := Some(undone.results);
        if undone.all {
          status := RolledBack;
        }
      }
      result := RunResult(
        if options.dryRun then initial else state,
        Report(plan.contractId, plan.fromVersion, plan.toVersion, status, options.dryRun, |plan.steps|,
               CountStatus(stepResults, StepSucceeded), CountStatus(stepResults, StepFailed),
               stepResults, rollbackSteps));
    }

    /** The forward loop of a run: stops at the first step that throws. */
    method Forward(plan: Plan<S>, initial: S, context: Context, validate: bool)
      returns (state: S, completedSteps: seq<Step<S>>, stepResults: seq<StepResult>, failure: Option<Thrown>)
      requires context.contractId == plan.contractId
      ensures var env := Env(validator.schemas, context, validate);
              var states := Committed(env, plan.steps, initial);
              var k := |states| - 1;
              && completedSteps == plan.steps[..k] && state == states[k]
              && if failure.None? then k == |plan.steps| && stepResults == Successes(plan.steps[..k]) + []
                 else
                   && k < |plan.steps| && Attempt(env, plan.steps[k], state) == Raised(failure.value)
                   && stepResults == Successes(plan.steps[..k]) + [Failure(plan.steps[k], failure.value)]
    {
      ghost var env := Env(validator.schemas, context, validate);
      ghost var states := Committed(env, plan.steps, initial);
      state, failure := initial, None;
      stepResults, completedSteps := [], [];
      CommittedStep(env, plan.steps, initial, 0);
      for i := 0 to |plan.steps|
        invariant i < |states| && state == states[i]
        invariant completedSteps == plan.steps[..i] && stepResults == Successes(plan.steps[..i])
        invariant failure.None?
      {
        var step := plan.steps[i];
        CommittedStep(env, plan.steps, initial, i);
        var attempt := TryStep(plan.contractId, step, state, context, validate);
        match attempt
        case Returned(nextState) =>
          assert plan.steps[..i + 1] == plan.steps[..i] + [step];
          state := nextState;
          completedSteps := completedSteps + [step];
          stepResults := stepResults + [Success(step)];
        case Raised(thrown) =>
          stepResults := stepResults + [Failure(step, thrown)];
          failure := Some(thrown);
          return;
      }
      assert stepResults + [] == stepResults;
    }

    /** The `try` block of the run loop: validate, migrate, validate. */
    method TryStep(contractId: string, step: Step<S>, state: S, context: Context, validate: bool)
      returns (outcome: Outcome<S>)
      requires context.contractId == contractId
      ensures outcome == Attempt(Env(validator.schemas, context, validate), step, state)
    {
      if validate {
        var before := validator.ValidateState(contractId, step.fromVersion, state);
        if before.Raised? {
          return before;
        }
      }
      outcome := step.migrate(state, context);
      if outcome.Returned? && validate {
        var after := validator.ValidateState(contractId, step.toVersion, outcome.value);
        if after.Raised? {
          return after;
        }
      }
    }

    method Rollback(completed: seq<Step<S>>, state: S, context: Context) returns (undone: Undone<S>)
      ensures var u := Undo(context, completed, state);
              undone == u.(all := u.all && |completed| > 0)
    {
      ghost var expected := Undo(context, completed, state);
      var results: seq<StepResult> := [];
      var current := state;
      var allRolledBack := |completed| > 0;
      var n := |completed|;
      assert completed[..n] == completed;
      assert results + expected.results == expected.results;
      while n > 0
        invariant 0 <= n <= |completed|
        invariant expected.state == Undo(context, completed[..n], current).state
        invariant expected.results == results + Undo(context, completed[..n], current).results
        invariant |completed| > 0 ==> expected.all == (allRolledBack && Undo(context, completed[..n], current).all)
        invariant |completed| == 0 ==> !allRolledBack
      {
        n := n - 1;
        var step := completed[n];
        assert completed[..n + 1][..n] == completed[..n];
        if step.rollback.None? {
          allRolledBack := false;
        } else {
          var outcome := step.rollback.value(current, context);
          match outcome
          case Returned(previous) =>
            Assoc(results, [Backwards(Success(step))], Undo(context, completed[..n], previous).results);
            current := previous;
            results := results + [Backwards(Success(step))];
          case Raised(thrown) =>
            Assoc(results, [Backwards(Failure(step, thrown))], Undo(context, completed[..n], current).results);
            allRolledBack := false;
            results := results + [Backwards(Failure(step, thrown))];
        }
      }
      undone := Undone(current, results, allRolledBack);
    }
  }

  // ---------------------------------------------------------------------------
  // What runs mean
  // ---------------------------------------------------------------------------

  /** `step` takes state `a` to state `b`, and both satisfy the schema of their version. */
  ghost predicate Migrates<S(!new)>(env: Env<S>, step: Step<S>, a: S, b: S) {
    && step.migrate(a, env.context) == Returned(b)
    && Valid(env, step.fromVersion, a)
    && Valid(env, step.toVersion, b)
  }

  ghost predicate Trajectory<S(!new)>(env: Env<S>, steps: seq<Step<S>>, states: seq<S>) {
    && |states| == |steps| + 1
    && forall i :: 0 <= i < |steps| ==> Migrates(env, steps[i], states[i], states[i + 1])
  }

  function RunEnv<S(!new)>(schemas: map<string, S -> bool>, plan: Plan<S>, options: Options): Env<S> {
    Env(schemas, MakeContext(plan, options), options.validateState)
  }

  /** The committed states form a trajectory of schema-valid migrations that cannot be continued. */
  lemma CommittedIsMaximalTrajectory<S(!new)>(env: Env<S>, steps: seq<Step<S>>, initial: S)
    ensures var states := Committed(env, steps, initial);
            var k := |states| - 1;
            && Trajectory(env, steps[..k], states)
            && (k < |steps| ==> forall next :: !Migrates(env, steps[k], states[k], next))
  {
    var states := Committed(env, steps, initial);
    forall i | 0 <= i < |states| ensures i + 1 < |states| ==> Migrates(env, steps[i], states[i], states[i + 1]) {
      CommittedStep(env, steps, initial, i);
    }
    CommittedStep(env, steps, initial, |states| - 1);
  }

  lemma {:induction false} TrajectoryIsCommitted<S(!new)>(env: Env<S>, steps: seq<Step<S>>, states: seq<S>)
    requires Trajectory(env, steps, states)
    ensures Committed(env, steps, states[0]) == states
  {
    if steps != [] {
      assert Migrates(env, steps[0], states[0], states[1]);
      forall i | 0 <= i < |steps[1..]| ensures Migrates(env, steps[1..][i], states[1..][i], states[1..][i + 1]) {
        assert Migrates(env, steps[i + 1], states[i + 1], states[i + 2]);
      }
      TrajectoryIsCommitted(env, steps[1..], states[1..]);
      assert [states[0]] + states[1..] == states;
    } else {
      assert states == [states[0]];
    }
  }

  /** COMPLETED with all steps done: a trajectory through the whole plan; the result is its last state. */
  lemma CompletedIsComposition<S(!new)>(schemas: map<string, S -> bool>, plan: Plan<S>, initial: S, options: Options,
                                        states: seq<S>)
    requires Trajectory(RunEnv(schemas, plan, options), plan.steps, states) && states[0] == initial
    ensures var r := RunSpec(schemas, plan, initial, options);
            && r.report.status == Completed
            && r.report.steps == Successes(plan.steps)
            && r.report.rollbackSteps == None
            && r.state == if options.dryRun then initial else states[|plan.steps|]
  {
    TrajectoryIsCommitted(RunEnv(schemas, plan, options), plan.steps, states);
    assert plan.steps[..|plan.steps|] == plan.steps;
  }

  /** COMPLETED does not imply that all steps ran: it also covers a step that threw a falsy value. It implies
      it exactly when what stopped the run, if anything, was truthy. */
  lemma CompletedExactly<S(!new)>(schemas: map<string, S -> bool>, plan: Plan<S>, initial: S, options: Options)
    ensures var env := RunEnv(schemas, plan, options);
            var r := RunSpec(schemas, plan, initial, options);
            var stopper := Stopper(env, plan.steps, initial);
            var whole := exists states :: Trajectory(env, plan.steps, states) && states[0] == initial;
            && (whole <==> stopper.None?)
            && (r.report.status == Completed <==> stopper.None? || !stopper.value.truthy)
            && ((r.report.status == Completed <==> whole) <==> (stopper.Some? ==> stopper.value.truthy))
            && r.report.succeededSteps == |Committed(env, plan.steps, initial)| - 1
            && r.report.failedSteps == (if whole then 0 else 1)
            && (!options.dryRun && !options.rollbackOnFailure ==>
                  r.state == Committed(env, plan.steps, initial)[r.report.succeededSteps])
  {
    var env := RunEnv(schemas, plan, options);
    var states := Committed(env, plan.steps, initial);
    var k := |states| - 1;
    CommittedIsMaximalTrajectory(env, plan.steps, initial);
    CommittedStep(env, plan.steps, initial, k);
    forall other | Trajectory(env, plan.steps, other) && other[0] == initial ensures other == states {
      TrajectoryIsCommitted(env, plan.steps, other);
    }
    assert k == |plan.steps| ==> plan.steps[..k] == plan.steps;
    var results := RunSpec(schemas, plan, initial, options).report.steps;
    CountSuccesses(plan.steps[..k]);
    if k < |plan.steps| {
      var last := results[k];
      assert results == Successes(plan.steps[..k]) + [last];
      CountAppend(Successes(plan.steps[..k]), [last], StepSucceeded);
      CountAppend(Successes(plan.steps[..k]), [last], StepFailed);
    } else {
      assert results == Successes(plan.steps[..k]);
    }
  }

  lemma {:induction false} CountAppend(a: seq<StepResult>, b: seq<StepResult>, status: StepStatus)
    ensures CountStatus(a + b, status) == CountStatus(a, status) + CountStatus(b, status)
  {
    if a == [] {
      assert a + b == b;
    } else {
      assert (a + b)[1..] == a[1..] + b;
      CountAppend(a[1..], b, status);
    }
  }

  lemma {:induction false} CountSuccesses<S(!new)>(steps: seq<Step<S>>)
    ensures CountStatus(Successes(steps), StepSucceeded) == |steps|
    ensures CountStatus(Successes(steps), StepFailed) == 0
  {
    if steps == [] {
    } else {
      var front := steps[..|steps| - 1];
      CountSuccesses(front);
      CountAppend(Successes(front), [Success(steps[|steps| - 1])], StepSucceeded);
      CountAppend(Successes(front), [Success(steps[|steps| - 1])], StepFailed);
    }
  }

  // ---------------------------------------------------------------------------
  // Rollback
  // ---------------------------------------------------------------------------

  /** states[i] is what the rollback of step i makes of states[i + 1]. */
  ghost predicate UndoPath<S(!new)>(context: Context, steps: seq<Step<S>>, states: seq<S>) {
    && |states| == |steps| + 1
    && forall i :: 0 <= i < |steps| ==> RollsBack(context, steps[i], states[i + 1], states[i])
  }

  ghost predicate RollsBack<S(!new)>(context: Context, step: Step<S>, after: S, before: S) {
    step.rollback.Some? && step.rollback.value(after, context) == Returned(before)
  }

  lemma {:induction false} UndoAlong<S(!new)>(context: Context, steps: seq<Step<S>>, states: seq<S>)
    requires UndoPath(context, steps, states)
    ensures var u := Undo(context, steps, states[|steps|]);
            && u.all && u.state == states[0] && |u.results| == |steps|
            && forall j :: 0 <= j < |steps| ==> u.results[j] == Backwards(Success(steps[|steps| - 1 - j]))
  {
    if steps == [] {
    } else {
      var n := |steps| - 1;
      assert RollsBack(context, steps[n], states[n + 1], states[n]);
      forall i | 0 <= i < n ensures RollsBack(context, steps[..n][i], states[..n + 1][i + 1], states[..n + 1][i]) {
        assert RollsBack(context, steps[i], states[i + 1], states[i]);
      }
      UndoAlong(context, steps[..n], states[..n + 1]);
    }
  }

  lemma {:induction false} UndoAllHasPath<S(!new)>(context: Context, steps: seq<Step<S>>, state: S) returns (states: seq<S>)
    requires Undo(context, steps, state).all
    ensures UndoPath(context, steps, states) && states[|steps|] == state
  {
    if steps == [] {
      states := [state];
    } else {
      var n := |steps| - 1;
      var previous := steps[n].rollback.value(state, context).value;
      var front := UndoAllHasPath(context, steps[..n], previous);
      states := front + [state];
      forall i | 0 <= i < |steps| ensures RollsBack(context, steps[i], states[i + 1], states[i]) {
        if i < n {
          assert RollsBack(context, steps[..n][i], front[i + 1], front[i]);
        }
      }
    }
  }

  /** The steps that have a rollback, last first: the order in which rollback attempts are reported. */
  function AttemptOrder<S(!new)>(steps: seq<Step<S>>): seq<string> {
    if steps == [] then []
    else
      var last := steps[|steps| - 1];
      (if last.rollback.Some? then [last.id] else []) + AttemptOrder(steps[..|steps| - 1])
  }

  function Ids(results: seq<StepResult>): seq<string> {
    seq(|results|, i requires 0 <= i < |results| => results[i].stepId)
  }

  lemma IdsCons(first: StepResult, rest: seq<StepResult>)
    ensures Ids([first] + rest) == [first.stepId] + Ids(rest)
  {
  }

  /** Whatever throws, exactly the completed steps that have a rollback are attempted, in reverse completion order. */
  lemma {:induction false} RollbackOrder<S(!new)>(context: Context, steps: seq<Step<S>>, state: S)
    ensures Ids(Undo(context, steps, state).results) == AttemptOrder(steps)
  {
    if steps == [] {
    } else {
      var last, front := steps[|steps| - 1], steps[..|steps| - 1];
      if last.rollback.None? {
        RollbackOrder(context, front, state);
        assert [] + AttemptOrder(front) == AttemptOrder(front);
      } else {
        match last.rollback.value(state, context)
        case Returned(previous) =>
          RollbackOrder(context, front, previous);
          IdsCons(Backwards(Success(last)), Undo(context, front, previous).results);
        case Raised(thrown) =>
          RollbackOrder(context, front, state);
          IdsCons(Backwards(Failure(last, thrown)), Undo(context, front, state).results);
      }
    }
  }

  ghost predicate NoRollbacks<S(!new)>(steps: seq<Step<S>>) {
    forall i :: 0 <= i < |steps| ==> steps[i].rollback.None?
  }

  lemma {:induction false} NothingAttempted<S(!new)>(steps: seq<Step<S>>)
    ensures AttemptOrder(steps) == [] <==> NoRollbacks(steps)
  {
    if steps == [] {
    } else {
      var last, front := steps[|steps| - 1], steps[..|steps| - 1];
      NothingAttempted(front);
      assert steps == front + [last];
    }
  }

  /** The report names rollback steps exactly when the run really failed and rollback was asked for outside a dry run;
      the list is then empty exactly when no completed step has a rollback. */
  lemma RollbackReportedExactly<S(!new)>(schemas: map<string, S -> bool>, plan: Plan<S>, initial: S, options: Options)
    ensures var env := RunEnv(schemas, plan, options);
            var completed := plan.steps[..|Committed(env, plan.steps, initial)| - 1];
            var stopper := Stopper(env, plan.steps, initial);
            var reported := RunSpec(schemas, plan, initial, options).report.rollbackSteps;
            && (reported.Some? <==> stopper.Some? && stopper.value.truthy && options.rollbackOnFailure && !options.dryRun)
            && (reported.Some? ==> Ids(reported.value) == AttemptOrder(completed))
            && (reported.Some? ==> (reported.value == [] <==> NoRollbacks(completed)))
  {
    var env := RunEnv(schemas, plan, options);
    var states := Committed(env, plan.steps, initial);
    var k := |states| - 1;
    RollbackOrder(env.context, plan.steps[..k], states[k]);
    NothingAttempted(plan.steps[..k]);
  }

  /** ROLLED_BACK exactly when the run really failed, rollback was asked for outside a dry run, something had
      completed, and every completed step has a rollback that succeeds in turn. */
  lemma RolledBackExactly<S(!new)>(schemas: map<string, S -> bool>, plan: Plan<S>, initial: S, options: Options)
    ensures var env := RunEnv(schemas, plan, options);
            var committed := Committed(env, plan.steps, initial);
            var k := |committed| - 1;
            var stopper := Stopper(env, plan.steps, initial);
            var r := RunSpec(schemas, plan, initial, options);
            && (r.report.status == RolledBack <==>
                  && stopper.Some? && stopper.value.truthy && options.rollbackOnFailure && !options.dryRun && k > 0
                  && exists undo :: UndoPath(env.context, plan.steps[..k], undo) && undo[k] == committed[k])
            && (r.report.status == RolledBack ==>
                  && r.report.rollbackSteps.Some?
                  && |r.report.rollbackSteps.value| == k
                  && forall j :: 0 <= j < k ==>
                       r.report.rollbackSteps.value[j] == Backwards(Success(plan.steps[k - 1 - j])))
  {
    var env := RunEnv(schemas, plan, options);
    var committed := Committed(env, plan.steps, initial);
    var k := |committed| - 1;
    var completed := plan.steps[..k];
    CommittedStep(env, plan.steps, initial, k);
    if Undo(env.context, completed, committed[k]).all {
      var undo := UndoAllHasPath(env.context, completed, committed[k]);
      UndoAlong(env.context, completed, undo);
    }
    forall undo | UndoPath(env.context, completed, undo) && undo[k] == committed[k]
      ensures Undo(env.context, completed, committed[k]).all
    {
      UndoAlong(env.context, completed, undo);
    }
  }

  ghost predicate RollbackInverts<S(!new)>(context: Context, step: Step<S>) {
    step.rollback.Some? &&
    forall a, b :: step.migrate(a, context) == Returned(b) ==> step.rollback.value(b, context) == Returned(a)
  }

  /** If rollbacks invert migrations, a failed non-dry run with rollback leaves the initial state. */
  lemma RollbackRestores<S(!new)>(schemas: map<string, S -> bool>, plan: Plan<S>, initial: S, options: Options)
    requires options.rollbackOnFailure && !options.dryRun
    requires var stopper := Stopper(RunEnv(schemas, plan, options), plan.steps, initial);
             stopper.Some? && stopper.value.truthy
    requires var k := |Committed(RunEnv(schemas, plan, options), plan.steps, initial)| - 1;
             forall i :: 0 <= i < k ==> RollbackInverts(MakeContext(plan, options), plan.steps[i])
    ensures var r := RunSpec(schemas, plan, initial, options);
            && r.state == initial
            && r.report.status == if r.report.succeededSteps > 0 then RolledBack else Failed
  {
    var env := RunEnv(schemas, plan, options);
    var committed := Committed(env, plan.steps, initial);
    var k := |committed| - 1;
    CommittedIsMaximalTrajectory(env, plan.steps, initial);
    forall i | 0 <= i < k ensures RollsBack(env.context, plan.steps[..k][i], committed[i + 1], committed[i]) {
      assert Migrates(env, plan.steps[..k][i], committed[i], committed[i + 1]);
      assert RollbackInverts(env.context, plan.steps[i]);
    }
    UndoAlong(env.context, plan.steps[..k], committed);
    CompletedExactly(schemas, plan, initial, options);
  }

  // ---------------------------------------------------------------------------
  // Dry runs
  // ---------------------------------------------------------------------------

  ghost predicate IgnoresDryRun<S(!new)>(step: Step<S>) {
    forall state, context: Context, flag :: step.migrate(state, context) == step.migrate(state, context.(dryRun := flag))
  }

  lemma SameAttempt<S(!new)>(a: Env<S>, b: Env<S>, step: Step<S>, state: S)
    requires b == a.(context := a.context.(dryRun := b.context.dryRun)) && IgnoresDryRun(step)
    ensures Attempt(a, step, state) == Attempt(b, step, state)
  {
  }

  lemma {:induction false} SameCommitted<S(!new)>(a: Env<S>, b: Env<S>, steps: seq<Step<S>>, state: S)
    requires b == a.(context := a.context.(dryRun := b.context.dryRun))
    requires forall i :: 0 <= i < |steps| ==> IgnoresDryRun(steps[i])
    ensures Committed(a, steps, state) == Committed(b, steps, state)
  {
    if steps == [] {
    } else {
      SameAttempt(a, b, steps[0], state);
      var attempt := Attempt(a, steps[0], state);
      if attempt.Returned? {
        SameCommitted(a, b, steps[1..], attempt.value);
      }
    }
  }

  lemma SameOutcome<S(!new)>(a: Env<S>, b: Env<S>, steps: seq<Step<S>>, state: S)
    requires b == a.(context := a.context.(dryRun := b.context.dryRun))
    requires forall i :: 0 <= i < |steps| ==> IgnoresDryRun(steps[i])
    ensures Committed(a, steps, state) == Committed(b, steps, state)
    ensures Stopper(a, steps, state) == Stopper(b, steps, state)
  {
    SameCommitted(a, b, steps, state);
    var states := Committed(a, steps, state);
    var k := |states| - 1;
    if k < |steps| {
      SameAttempt(a, b, steps[k], states[k]);
    }
  }

  /** A dry run reports the same step outcomes as the real run would, never rolls back, and hands back its input. */
  lemma DryRunFidelity<S(!new)>(schemas: map<string, S -> bool>, plan: Plan<S>, initial: S, options: Options)
    requires forall i :: 0 <= i < |plan.steps| ==> IgnoresDryRun(plan.steps[i])
    ensures var dry := RunSpec(schemas, plan, initial, options.(dryRun := true));
            var wet := RunSpec(schemas, plan, initial, options.(dryRun := false));
            && dry.state == initial && dry.report.rollbackSteps == None
            && dry.report.steps == wet.report.steps
            && dry.report.succeededSteps == wet.report.succeededSteps
            && dry.report.failedSteps == wet.report.failedSteps
            && (dry.report.status == Completed <==> wet.report.status == Completed)
            && dry.report.status != RolledBack
  {
    var a, b := RunEnv(schemas, plan, options.(dryRun := true)), RunEnv(schemas, plan, options.(dryRun := false));
    SameOutcome(a, b, plan.steps, initial);
  }

  // ---------------------------------------------------------------------------
  // Runs that are not what their report suggests
  // ---------------------------------------------------------------------------

  function ThrowsError(state: int, context: Context): Outcome<int> {
    Raised(Thrown(true, "Error", "step failed"))
  }

  /** `throw undefined`. */
  function ThrowsUndefined(state: int, context: Context): Outcome<int> {
    Raised(Thrown(false, "Error", "undefined"))
  }

  function OneStepPlan(migrate: (int, Context) -> Outcome<int>): Plan<int> {
    Plan("Counter", "v1", "v2", [Step("only", "v1", "v2", migrate, None)])
  }

  const ROLLING_BACK := Options(false, true, true, map[])

  /** The first step throws: nothing was there to roll back, and yet the report carries a list of rollback steps. */
  lemma EmptyRollbackIsReported(state: int)
    ensures var r := RunSpec(map[], OneStepPlan(ThrowsError), state, ROLLING_BACK);
            r.report.status == Failed && r.report.rollbackSteps == Some([])
  {
    var plan := OneStepPlan(ThrowsError);
    var env := RunEnv(map[], plan, ROLLING_BACK);
    assert Committed(env, plan.steps, state) == [state];
    RollbackReportedExactly(map[], plan, state, ROLLING_BACK);
  }

  /** The only step throws `undefined`: it is reported as failed, in a run that is reported as completed. */
  lemma FalsyThrowCompletes(state: int)
    ensures var r := RunSpec(map[], OneStepPlan(ThrowsUndefined), state, ROLLING_BACK);
            r.state == state && r.report.status == Completed && r.report.succeededSteps == 0 && r.report.failedSteps == 1
  {
    var plan := OneStepPlan(ThrowsUndefined);
    var env := RunEnv(map[], plan, ROLLING_BACK);
    assert Committed(env, plan.steps, state) == [state];
    CompletedExactly(map[], plan, state, ROLLING_BACK);
  }
}
