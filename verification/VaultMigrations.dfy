/**
 * The example Vault migrations v1 -> v2 -> v3 (src/contracts/contractMigrations.ts).
 * A state is a JavaScript object: field names with bigint, number or other values.
 */
module VaultMigrations {
  import opened Common
  import opened Migration
  import MigrationRegistry
  import MigrationRunner
  import StateValidator

  datatype JsValue = BigInt(big: int) | Number(num: real) | NaN | Text(text: string)
  type State = map<string, JsValue>

  const VAULT := "Vault"

  // Field schemas. Fields a schema does not name are ignored.
  predicate NonNegativeBigInt(s: State, field: string) {
    field in s && s[field].BigInt? && s[field].big >= 0
  }

  predicate NonNegativeNumber(s: State, field: string) {
    field in s && s[field].Number? && s[field].num >= 0.0
  }

  predicate NonNegativeInteger(s: State, field: string) {
    NonNegativeNumber(s, field) && s[field].num.Floor as real == s[field].num
  }

  predicate SchemaV1(s: State) {
    NonNegativeBigInt(s, "totalAssets") && NonNegativeBigInt(s, "totalSupply")
  }

  predicate SchemaV2(s: State) {
    SchemaV1(s) && NonNegativeNumber(s, "apy") && NonNegativeInteger(s, "lockPeriod")
  }

  predicate SchemaV3(s: State) {
    SchemaV2(s) && NonNegativeInteger(s, "feeBps") && s["feeBps"].num <= 10000.0
  }

  function MigrateV1ToV2(s: State, context: Context): Outcome<State> {
    Returned(s["apy" := Number(0.0)]["lockPeriod" := Number(0.0)])
  }

  function RollbackV2ToV1(s: State, context: Context): Outcome<State> {
    Returned(s - {"apy", "lockPeriod"})
  }

  function MigrateV2ToV3(s: State, context: Context): Outcome<State> {
    Returned(s["feeBps" := Number(0.0)])
  }

  function RollbackV3ToV2(s: State, context: Context): Outcome<State> {
    Returned(s - {"feeBps"})
  }

  const V1_TO_V2: Step<State> := Step("vault-v1-to-v2", "v1", "v2", MigrateV1ToV2, Some(RollbackV2ToV1))
  const V2_TO_V3: Step<State> := Step("vault-v2-to-v3", "v2", "v3", MigrateV2ToV3, Some(RollbackV3ToV2))

  const SCHEMAS: map<string, State -> bool> :=
    map[
      StateValidator.Key(VAULT, "v1") := SchemaV1,
      StateValidator.Key(VAULT, "v2") := SchemaV2,
      StateValidator.Key(VAULT, "v3") := SchemaV3
    ]

  const REGISTERED: seq<Step<State>> := [V1_TO_V2, V2_TO_V3]

  function V1ToV3Plan(): Plan<State> {
    Plan(VAULT, "v1", "v3", REGISTERED)
  }

  lemma NothingReachesV1(path: seq<Step<State>>)
    requires MigrationRegistry.IsChain(REGISTERED, "v1", "v1", path)
    ensures path == []
  {
  }

  /** The registered steps resolve v1 -> v3 to the two-step plan, and to nothing else. */
  lemma OnlyPlan(path: seq<Step<State>>)
    requires MigrationRegistry.IsChain(REGISTERED, "v1", "v3", path)
    ensures path == REGISTERED
  {
    var n := |path|;
    assert path[n - 1] == V2_TO_V3;
    var front := path[..n - 1];
    assert MigrationRegistry.IsChain(REGISTERED, "v1", "v2", front);
    assert front[n - 2] == V1_TO_V2;
    var start := front[..n - 2];
    NothingReachesV1(start);
    assert path == [V1_TO_V2, V2_TO_V3];
  }

  lemma ResolvesToPlan(plan: Option<Plan<State>>)
    ensures MigrationRegistry.Resolves(plan, REGISTERED, VAULT, "v1", "v3") <==> plan == Some(V1ToV3Plan())
  {
    var path := REGISTERED;
    assert path[..1] == [V1_TO_V2] && [V1_TO_V2][..0] == [];
    assert V1_TO_V2 in REGISTERED && V2_TO_V3 in REGISTERED;
    assert MigrationRegistry.IsChain(REGISTERED, "v1", "v2", path[..1]);
    assert MigrationRegistry.IsChain(REGISTERED, "v1", "v3", path);
    forall other | MigrationRegistry.IsChain(REGISTERED, "v1", "v3", other) ensures other == path {
      OnlyPlan(other);
    }
    MigrationRegistry.ShortestIsSimple(REGISTERED, "v1", "v3", path);
  }

  function Upgraded(s: State): State {
    s["apy" := Number(0.0)]["lockPeriod" := Number(0.0)]["feeBps" := Number(0.0)]
  }

  lemma SchemaLookup(s: State)
    ensures StateValidator.Accepts(SCHEMAS, VAULT, "v1", s) <==> SchemaV1(s)
    ensures StateValidator.Accepts(SCHEMAS, VAULT, "v2", s) <==> SchemaV2(s)
    ensures StateValidator.Accepts(SCHEMAS, VAULT, "v3", s) <==> SchemaV3(s)
  {
    var k1, k2, k3 := StateValidator.Key(VAULT, "v1"), StateValidator.Key(VAULT, "v2"), StateValidator.Key(VAULT, "v3");
    assert k1[8] == '1' && k2[8] == '2' && k3[8] == '3';
  }

  lemma VaultTrajectory(s: State, options: MigrationRunner.Options)
    requires options.validateState ==> SchemaV1(s)
    ensures MigrationRunner.Trajectory(MigrationRunner.RunEnv(SCHEMAS, V1ToV3Plan(), options), REGISTERED,
                                       [s, s["apy" := Number(0.0)]["lockPeriod" := Number(0.0)], Upgraded(s)])
  {
    var env := MigrationRunner.RunEnv(SCHEMAS, V1ToV3Plan(), options);
    var middle := s["apy" := Number(0.0)]["lockPeriod" := Number(0.0)];
    var states := [s, middle, Upgraded(s)];
    SchemaLookup(s);
    SchemaLookup(middle);
    SchemaLookup(Upgraded(s));
    assert MigrationRunner.Migrates(env, REGISTERED[0], states[0], states[1]);
    assert MigrationRunner.Migrates(env, REGISTERED[1], states[1], states[2]);
  }

  lemma VaultRefused(s: State, options: MigrationRunner.Options)
    requires options.validateState && !SchemaV1(s)
    ensures var env := MigrationRunner.RunEnv(SCHEMAS, V1ToV3Plan(), options);
            && MigrationRunner.Committed(env, REGISTERED, s) == [s]
            && MigrationRunner.Stopper(env, REGISTERED, s) == Some(StateValidator.VALIDATION_ERROR)
  {
    SchemaLookup(s);
    var env := MigrationRunner.RunEnv(SCHEMAS, V1ToV3Plan(), options);
    assert MigrationRunner.Attempt(env, REGISTERED[0], s) == Raised(StateValidator.VALIDATION_ERROR);
  }

  /** The run v1 -> v3 completes, with any options, exactly when validation is off or the v1 state is valid; it then
      gives the upgraded state, or in a dry run its input, and a run that fails gives its input too. Upgrading a valid
      v1 state gives a valid v3 state. */
  lemma VaultUpgradeCompletes(s: State, options: MigrationRunner.Options)
    ensures var r := MigrationRunner.RunSpec(SCHEMAS, V1ToV3Plan(), s, options);
            && (r.report.status == MigrationRunner.Completed <==> (options.validateState ==> SchemaV1(s)))
            && r.state == (if r.report.status == MigrationRunner.Completed && !options.dryRun then Upgraded(s) else s)
    ensures SchemaV1(s) ==> SchemaV3(Upgraded(s))
  {
    if options.validateState && !SchemaV1(s) {
      VaultRefused(s, options);
    } else {
      var middle := s["apy" := Number(0.0)]["lockPeriod" := Number(0.0)];
      VaultTrajectory(s, options);
      MigrationRunner.CompletedIsComposition(SCHEMAS, V1ToV3Plan(), s, options, [s, middle, Upgraded(s)]);
    }
  }

  lemma VaultRollback(s: State, context: Context)
    ensures var u := MigrationRunner.Undo(context, REGISTERED, Upgraded(s));
            u.all && |u.results| == 2 && u.state == (Upgraded(s) - {"feeBps"}) - {"apy", "lockPeriod"}
  {
    var top := Upgraded(s);
    var middle := top - {"feeBps"};
    var undo := [middle - {"apy", "lockPeriod"}, middle, top];
    assert MigrationRunner.RollsBack(context, REGISTERED[1], undo[2], undo[1]);
    assert MigrationRunner.RollsBack(context, REGISTERED[0], undo[1], undo[0]);
    MigrationRunner.UndoAlong(context, REGISTERED, undo);
  }

  /** Rolling the upgraded state back restores it exactly when the fields the upgrade adds were not there before:
      the v1 schema does not forbid them, and rollback deletes them. */
  lemma VaultRollbackExact(s: State, context: Context)
    ensures var u := MigrationRunner.Undo(context, REGISTERED, Upgraded(s));
            && u.all && |u.results| == 2
            && (u.state == s <==> "apy" !in s && "lockPeriod" !in s && "feeBps" !in s)
  {
    VaultRollback(s, context);
    if "apy" !in s && "lockPeriod" !in s && "feeBps" !in s {
      assert (Upgraded(s) - {"feeBps"}) - {"apy", "lockPeriod"} == s;
    }
  }

  const EARLY_APY: State := map["totalAssets" := BigInt(100), "totalSupply" := BigInt(100), "apy" := Number(5.0)]

  /** A valid v1 state that already has a field the upgrade adds, and loses it. */
  lemma VaultRollbackLosesApy(context: Context)
    ensures SchemaV1(EARLY_APY) && "apy" in EARLY_APY
    ensures "apy" !in MigrationRunner.Undo(context, REGISTERED, Upgraded(EARLY_APY)).state
  {
    VaultRollback(EARLY_APY, context);
  }

  // ---------------------------------------------------------------------------
  // Field by field
  // ---------------------------------------------------------------------------

  predicate IsWhole(x: real) {
    x == x.Floor as real
  }

  /** Which values a valid v3 state can take in each of its fields; a field that is missing, or of another type, makes it
      invalid, and any other field makes no difference. */
  lemma FieldsCheckedExactly(s: State, field: string, value: JsValue)
    requires SchemaV3(s)
    ensures SchemaV3(s[field := value]) <==>
            match field
            case "totalAssets" => value.BigInt? && 0 <= value.big
            case "totalSupply" => value.BigInt? && 0 <= value.big
            case "apy" => value.Number? && 0.0 <= value.num
            case "lockPeriod" => value.Number? && 0.0 <= value.num && IsWhole(value.num)
            case "feeBps" => value.Number? && 0.0 <= value.num <= 10000.0 && IsWhole(value.num)
            case _ => true
    ensures SchemaV3(s - {field}) <==> field !in {"totalAssets", "totalSupply", "apy", "lockPeriod", "feeBps"}
  {
  }

  /** An older version asks for less. */
  lemma OlderSchemasAskLess(s: State)
    requires SchemaV3(s)
    ensures SchemaV2(s - {"feeBps"}) && SchemaV1(s - {"feeBps", "apy", "lockPeriod"})
  {
  }

  /** The upgrade adds three fields, all zero, and keeps the others. */
  lemma UpgradeAddsZeros(s: State, field: string)
    ensures if field in {"apy", "lockPeriod", "feeBps"} then field in Upgraded(s) && Upgraded(s)[field] == Number(0.0)
            else (field in Upgraded(s) <==> field in s) && (field in s ==> Upgraded(s)[field] == s[field])
  {
  }
}
