/**
 * Shared migration types (src/types/migration.ts). A step's `migrate` and `rollback` are arbitrary
 * deterministic functions that return a state or throw. JavaScript lets code throw any value, and the
 * runner tests what it caught with `if (failure)`, so a thrown value records whether it is truthy.
 */
module Migration {
  import opened Common

  datatype Thrown = Thrown(truthy: bool, name: string, message: string)
  datatype Outcome<+T> = Returned(value: T) | Raised(thrown: Thrown)
  datatype Context = Context(contractId: string, dryRun: bool, metadata: map<string, string>)

  datatype Step<!S> = Step(
    id: string,
    fromVersion: string,
    toVersion: string,
    migrate: (S, Context) -> Outcome<S>,
    rollback: Option<(S, Context) -> Outcome<S>>)

  datatype Plan<!S> = Plan(contractId: string, fromVersion: string, toVersion: string, steps: seq<Step<S>>)
}
