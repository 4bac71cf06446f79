# A verified model of the Axionvera SDK's stateful core

This project models, in Dafny 4.11, the parts of the Axionvera SDK for Stellar that keep state or compute exactly, and
proves what they promise. Each module follows one source file, or one self-contained part of the client. Classes and
loops of the source are classes and loops here; every method is proved against a specification function, and the
theorems are about those functions, so that they speak about all inputs, all runs and all reachable states.

| module | models |
|---|---|
| `EventFetcher`, `EventServers` | the paged, self-bisecting download of contract events, and the servers it reads from |
| `MigrationRegistry`, `MigrationRunner`, `MigrationAccount`, `StateValidator`, `VaultMigrations` | the contract migration toolkit and its Vault example |
| `WasmReader`, `WasmPrinter`, `WasmTermination`, `WasmMalformed` | the reader of the `contractspecv0` section of a WebAssembly module, a printer it undoes, when the reader ends, and what it makes of malformed files |
| `ConcurrencyQueue`, `ConcurrencyQueueProofs`, `ConcurrencyQueueRates`, `ConcurrencyQueueRuns`, `ConcurrencyQueueOutcomes` | the request scheduler with a concurrency cap and a rate limit |
| `XdrCache` | the bounded least-recently-used cache of decoded values |
| `FeeBuffer` | exact fee buffering over decimal fractions |
| `DateCodec`, `PendingRegistry`, `PendingOutcomes`, `PendingClient` | freezing and thawing of dates, and the registry of pending transactions with export and import |
| `SequenceCache` | the expiring cache of account sequence numbers with its offline fallback |
| `Lifecycle` | the transaction lifecycle: table, state machine and manager |
| `Pipeline`, `PipelineAccount` | the ordered middleware pipeline |
| `RpcHealth` | the health metrics of RPC endpoints |

`Common` and `Migration` hold shared types. `dafny verify dfyconfig.toml` checks everything.

## How the outside world appears

- Promises, timers and clocks are events. The synchronous code between two awaits is one atomic step, and the clock
  reading a step takes is a parameter of it. Where a theorem needs a clock that never runs back, it says so.
- The RPC server of the event fetcher is a deterministic function of ledger range and cursor. It may hold any log of
  events sorted by ledger, cut pages of any size, and refuse any set of ledger ranges.
- Schemas, migration steps, hooks, XDR decoding and the calendar are arbitrary functions.
- Thrown values of migration steps are either truthy or falsy, because the runner tests `if (failure)`.
- 32-bit bit operations of JavaScript are written out on integers in `WasmReader`; other numbers are unbounded.
- WebAssembly constants and encodings follow the WebAssembly Core Specification 1.0, sections 5.2.2 (LEB128 integers),
  5.5.2 (sections) and 5.5.3 (custom sections).

## Where the code does less, or something else, than one expects

Each of these is a theorem with the exact condition, and a lemma at an input that shows it.

- A fetch that starts from a cursor and is bisected repeats events (`EventFetcher.ResumedFetchExact`,
  `EventFetcher.ResumedFetchRepeatsEvents`).
- A refusal in the middle of paging throws collected pages away (`EventFetcher.MidPagingRefusalExact`,
  `EventFetcher.MidPagingRefusalLosesEvents`). Whatever is refused, the result of one fetch keeps the order of the log
  and holds no entry of it twice (`EventFetcher.FetchNeverReorders`).
- A migration step that throws a falsy value counts as completed (`MigrationRunner.CompletedExactly`,
  `MigrationRunner.FalsyThrowCompletes`).
- `report.rollbackSteps` is documented as present only after at least one rollback attempt
  (`src/types/migration.ts:91`). The code sets it, possibly to an empty list, whenever rollback ran; the model follows
  the code (`MigrationRunner.RollbackReportedExactly`, `MigrationRunner.EmptyRollbackIsReported`).
- Contract ids can share a schema key through the separator `::` (`StateValidator.KeysCollideExactly`,
  `StateValidator.KeysOfTwoContractsCollide`).
- The Vault rollbacks delete fields that were there before the upgrade (`VaultMigrations.VaultRollbackExact`,
  `VaultMigrations.VaultRollbackLosesApy`).
- LEB128 sizes of 2^31 and more are read as negative numbers (`WasmReader.LebDecodes`), so a section can move the walk
  back (`WasmTermination.SectionAdvancesExactly`) and the walk can be endless (`WasmTermination.EndlessExactly`,
  `WasmTermination.StallingFileNeverEnds`).
- The rate limit of the queue is tested once per drain, so an interval can see as many starts as the concurrency cap.
  Besides, a request function that throws synchronously takes no slot, and the drain goes on past it. So the rate holds
  in every run exactly when the cap does not exceed it and no request function throws synchronously, or nothing can
  start at all (`ConcurrencyQueueRuns.RateHoldsExactly`, for throttling with a rate of at least one and a positive
  interval; `ConcurrencyQueueRuns.ThrowerExceedsRate` for the second cause). In every run with throttling the starts
  that take a slot are bounded by the larger of rate and cap (`ConcurrencyQueueRates.BurstBound`); with a cap of at
  least one, some run attains that bound exactly when there are enough such requests
  (`ConcurrencyQueueRuns.BurstAttainedExactly`).
- A multiplier of 1e21 or more passes the constructor and then fails every buffering (`FeeBuffer.BufferingSucceedsExactly`,
  `FeeBuffer.ExponentNeverBuffers`, `FeeBuffer.SextillionIsRejected`).
- Thawing takes any object whose only key is `__date` with a parseable string for a date (`DateCodec.ThawUndoesFreeze`,
  `DateCodec.LookalikeIsThawed`).
- The function that `use` returns removes by name and can take an older entry
  (`Pipeline.UnregisterRestoresExactly`, `Pipeline.UnregisterTakesOlder`).

A restored pending transaction is submitted, by its record, at the time of the import, and one tracked under the empty
hash is exported but not imported (`PendingRegistry.ReloadRestoresSurvivors`, `PendingRegistry.ReloadIsExact`).

## Model

| member | source | states |
|---|---|---|
| EventFetcher.FetchContractEventsRange | src/client/stellarClient.ts:1697-1760 | The paging and bisecting loop ends, on every server whose tokens come from a finite set, and returns what its recursive specification `Fetch` says. |
| EventFetcher.PagingCollectsRest | src/client/stellarClient.ts:1711-1731 | From any point of the paging loop, an accepted range yields what was collected plus exactly the events after the cursor. |
| EventFetcher.AcceptedRange | src/client/stellarClient.ts:1697-1731 | An accepted range is read completely from the cursor on, and a returned token leaves nothing behind it. |
| EventFetcher.InRangeBisect | src/client/stellarClient.ts:1732-1754 | Splitting a ledger range at the midpoint and joining the halves loses, repeats and reorders nothing. |
| EventFetcher.SingleLedgersSuffice | src/client/stellarClient.ts:1732-1757 | If all one-ledger ranges are accepted, every nesting of bisections ends in accepted ranges. |
| EventFetcher.FetchIsComplete | src/client/stellarClient.ts:1697-1760 | Without a cursor the fetch returns exactly the events of the range in ledger order when bisection reaches accepted ranges, and throws the refusal when it does not. |
| EventFetcher.ResumedFetchValue | src/client/stellarClient.ts:1697-1760 | With a starting cursor, only the leftmost accepted range is read from the cursor and everything right of it in full; the fetch throws the refusal exactly when bisection runs into a refused single ledger. |
| EventFetcher.RepeatedEvents | src/client/stellarClient.ts:1732-1757 | How many events that repeats, and that the result is right exactly when it repeats none. |
| EventFetcher.ResumedFetchExact | src/client/stellarClient.ts:1697-1760 | A resumed fetch throws when bisection runs into a refused single ledger; otherwise it returns "everything after the cursor" if and only if no event at or before the cursor lies right of the leftmost accepted range. |
| EventFetcher.ResumedFetchRepeatsEvents | src/client/stellarClient.ts:1697-1760 | A concrete well-behaved server on which a fetch resumed after the last event returns that event again. |
| EventFetcher.SinglePageFetch | src/client/stellarClient.ts:1697-1760 | With `fetchAll` off, the result is the first page, and its token, of the leftmost range that bisection reaches, or its refusal, whatever is refused right of it. |
| EventFetcher.MidPagingRefusalExact | src/client/stellarClient.ts:1711-1757 | After a refusal that arrives while paging, when both halves of the range refuse by ledger range only: the fetch throws when a half cannot be split into accepted ranges; otherwise it is complete if and only if no event of the leftmost accepted range lies at or before the current cursor. |
| EventFetcher.MidPagingRefusalLosesEvents | src/client/stellarClient.ts:1711-1757 | A concrete server on which an event that was downloaded is missing from the result. |
| EventFetcher.FetchNeverReorders | src/client/stellarClient.ts:1697-1760 | Whatever the server refuses, and at whatever cursor, a fetch throws or returns a subsequence of the events of its range: it can lose events, but never repeats or reorders them. |
| EventServers.LogServerBehaves | src/client/stellarClient.ts:1711-1757 | A server that cuts its log into pages of any size, and says where a page ends or lets its last event say it, meets the assumptions of the theorems above: the cursor that the client takes from a page leads on to exactly where the page ended. |
| EventServers.LogServerIsHonest | src/client/stellarClient.ts:1711-1757 | The same for servers that also refuse or fail any request at any time. |
| EventServers.LogFetchIsComplete | src/client/stellarClient.ts:1697-1760 | On such a server a fetch without a cursor returns exactly the events of its range, and throws exactly when bisection runs into a refused single ledger. |
| EventServers.PageAndRest | src/client/stellarClient.ts:1716-1719 | With `fetchAll` off, the page and what lies behind the returned token are everything there is from the cursor on; without a token the page is everything. |
| EventServers.LastTokenComesBack | src/client/stellarClient.ts:1732-1754 | After any nesting of bisections the returned token is that of the last accepted range that gave one. |
| EventServers.WholePageReadOnce | src/client/stellarClient.ts:1823-1836 | A concrete server with a page of two events and no tokens of its own: both events are returned once. |
| EventServers.WholePageServerPages | src/client/stellarClient.ts:1711-1757 | That server is one of those described. |
| MigrationRegistry.Without | src/migrations/migrationRegistry.ts:26-42 | Dropping the step with an id removes that step and nothing else, and changes the length exactly when there was one. |
| MigrationRegistry.WithoutKeepsUnique | src/migrations/migrationRegistry.ts:26-42 | Registration keeps step ids unique. |
| MigrationRegistry.ShortestIsSimple | src/migrations/migrationRegistry.ts:57-90 | A shortest chain passes through no version twice. |
| MigrationRegistry.FrontierBound | src/migrations/migrationRegistry.ts:57-90 | Breadth-first bound: a chain ends in a visited version at least as shallow, or is longer than the frontier is deep. |
| MigrationRegistry.GroupByFrom | src/migrations/migrationRegistry.ts:62-68 | The edge lists hold, for each version, exactly the steps that leave it. |
| MigrationRegistry.Discover | src/migrations/migrationRegistry.ts:73-87 | Queueing a newly seen version keeps the search invariant. |
| MigrationRegistry.FinishHead | src/migrations/migrationRegistry.ts:73-87 | Dropping an expanded version from the queue keeps the search invariant. |
| MigrationRegistry.FoundShortest | src/migrations/migrationRegistry.ts:73-87 | The first edge into the target closes a shortest chain. |
| MigrationRegistry.ExhaustedMeansNoChain | src/migrations/migrationRegistry.ts:88-90 | An empty queue means that no chain exists. |
| MigrationRegistry.Expand | src/migrations/migrationRegistry.ts:78-86 | The inner loop finds a shortest chain or keeps the search invariant with all its edges visited. |
| MigrationRegistry.TakeHead | src/migrations/migrationRegistry.ts:74-87 | One round of the outer loop finds a shortest chain or keeps the search invariant without the head, and then has visited a new version or has one version fewer to expand. |
| MigrationRegistry.ShortestChain | src/migrations/migrationRegistry.ts:57-90 | The search terminates; it fails exactly when no chain of registered steps exists, and otherwise gives a shortest one with no version twice. |
| MigrationRegistry.Registry.Register | src/migrations/migrationRegistry.ts:26-31 | Replaces a step of the same id and appends the new one; other contracts are untouched; ids stay unique. |
| MigrationRegistry.Registry.Unregister | src/migrations/migrationRegistry.ts:34-42 | Removes exactly the step with the id, and says whether there was one. |
| MigrationRegistry.Registry.ResolvePath | src/migrations/migrationRegistry.ts:57-90 | The plan is a shortest chain between the versions, and it throws exactly when there is no chain. |
| StateValidator.Validator.RegisterStateSchema | src/migrations/stateValidator.ts:42-50 | Sets the schema under the joined key and nothing else. |
| StateValidator.Validator.UnregisterStateSchema | src/migrations/stateValidator.ts:52-55 | Removes exactly that key. |
| StateValidator.Validator.ValidateState | src/migrations/stateValidator.ts:71-90 | Returns the state when there is no schema or the schema accepts it, and otherwise throws a truthy error. |
| StateValidator.KeysCollideExactly | src/migrations/stateValidator.ts:42-44 | Two contract ids share a schema key for some versions if and only if one is the other followed by ":" or by something starting with "::". |
| StateValidator.KeysOfTwoContractsCollide | src/migrations/stateValidator.ts:42-44 | Two concrete contracts that share a key. |
| StateValidator.VersionsKeepApart | src/migrations/stateValidator.ts:42-44 | Within one contract the key tells the version. |
| MigrationRunner.CommittedStep | src/migrations/migrationRunner.ts:94-132 | A run commits one more state exactly when the next step validates, migrates and validates. |
| MigrationRunner.Runner.Migrate | src/migrations/migrationRunner.ts:58-67 | Resolves a shortest chain and runs it; without a chain it throws before any step. |
| MigrationRunner.Runner.Run | src/migrations/migrationRunner.ts:70-168 | The returned state and the whole report, for every mix of options, failures and rollbacks. |
| MigrationRunner.Runner.Forward | src/migrations/migrationRunner.ts:94-132 | The forward loop stops at the first step that throws, with the committed state, steps and results. |
| MigrationRunner.Runner.TryStep | src/migrations/migrationRunner.ts:96-107 | Validation before, migration, validation after, in that order. |
| MigrationRunner.Runner.Rollback | src/migrations/migrationRunner.ts:170-213 | The reverse loop: attempts, results and state, and that rolling back nothing is not a rollback. |
| MigrationRunner.CommittedIsMaximalTrajectory | src/migrations/migrationRunner.ts:94-132 | Every committed state satisfies the schema of its version and comes from the one before by its migrate, and the run could not have gone on. |
| MigrationRunner.TrajectoryIsCommitted | src/migrations/migrationRunner.ts:94-132 | A chain of valid migrations through the whole plan is what the run commits. |
| MigrationRunner.CompletedIsComposition | src/migrations/migrationRunner.ts:134-168 | When all steps go through, the status is COMPLETED and the state is the composition of all migrates. |
| MigrationRunner.CompletedExactly | src/migrations/migrationRunner.ts:134-168 | COMPLETED means that all steps went through, except when a step threw a falsy value: exactly then it does not; with the counts of the report. |
| MigrationRunner.FalsyThrowCompletes | src/migrations/migrationRunner.ts:134-168 | A concrete run: a step throws undefined, is reported as failed, and the run as completed. |
| MigrationRunner.UndoAlong | src/migrations/migrationRunner.ts:179-212 | If each rollback succeeds along a path of states, rollback ends at its start with results in reverse order. |
| MigrationRunner.UndoAllHasPath | src/migrations/migrationRunner.ts:179-212 | Conversely, a full rollback followed such a path. |
| MigrationRunner.RollbackOrder | src/migrations/migrationRunner.ts:179-210 | Whatever throws, exactly the completed steps with a rollback are attempted, in reverse completion order. |
| MigrationRunner.RollbackReportedExactly | src/migrations/migrationRunner.ts:134-161 | `rollbackSteps` is reported exactly when the run failed truthily with rollback on outside a dry run; it lists the attempts in order and is empty exactly when no completed step has a rollback. |
| MigrationRunner.EmptyRollbackIsReported | src/migrations/migrationRunner.ts:134-161 | A concrete run whose first step throws reports an empty list of rollback steps. |
| MigrationRunner.RolledBackExactly | src/migrations/migrationRunner.ts:134-144 | ROLLED_BACK if and only if the run failed truthily, rollback was asked for outside a dry run, some step had completed, and every completed step rolled back in turn. |
| MigrationRunner.RollbackRestores | src/migrations/migrationRunner.ts:134-168 | If rollbacks invert migrates, a failed run with rollback gives the initial state back. |
| MigrationAccount.RollbackIsTraced | src/migrations/migrationRunner.ts:179-212 | Whatever throws, rollback goes through the completed steps last first: no rollback, no change and no report; a rollback that returns gives the next state and a success; one that throws leaves the state and gives a failure with name and message; versions swapped. |
| MigrationAccount.RunIsAccountedFor | src/migrations/migrationRunner.ts:70-168 | Every run, with any options: the states it goes through, the step that stops it and the error, each step result, the counts, the rollback step by step, the status and the returned state. |
| MigrationRunner.DryRunFidelity | src/migrations/migrationRunner.ts:87-92 | Where steps ignore the dry-run flag, a dry run reports the step outcomes of the real run and returns its input. |
| VaultMigrations.OnlyPlan | src/contracts/contractMigrations.ts:77-105 | The registered Vault steps give one chain from v1 to v3 and no other. |
| VaultMigrations.ResolvesToPlan | src/contracts/contractMigrations.ts:104-105 | Path resolution promises that plan and nothing else. |
| VaultMigrations.VaultUpgradeCompletes | src/contracts/contractMigrations.ts:36-105 | With any options, the run v1 to v3 completes exactly when validation is off or the v1 state is valid, with the upgraded state or, in a dry run, its input; upgrading a valid v1 state gives a valid v3 state. |
| VaultMigrations.UpgradeAddsZeros | src/contracts/contractMigrations.ts:77-102 | The upgrade adds exactly three fields, all zero. |
| VaultMigrations.FieldsCheckedExactly | src/contracts/contractMigrations.ts:36-60 | Which values each field of a valid v3 state can take, with the bounds, and that no field may be missing. |
| VaultMigrations.OlderSchemasAskLess | src/contracts/contractMigrations.ts:36-60 | Without the newer fields a valid state satisfies the older schemas. |
| VaultMigrations.VaultRollbackExact | src/contracts/contractMigrations.ts:77-102 | The rollbacks give the v1 state back if and only if it had none of the fields the upgrade adds. |
| VaultMigrations.VaultRollbackLosesApy | src/contracts/contractMigrations.ts:77-102 | A concrete valid v1 state that loses a field. |
| WasmReader.BitOrDisjoint | packages/core/src/codegen/wasmParser.ts:122 | Or-ing in higher bits is addition. |
| WasmMalformed.OrIsBitwise | packages/core/src/codegen/wasmParser.ts:122 | Or-ing works binary digit by binary digit, also where the digits overlap. |
| WasmMalformed.ShiftWraps | packages/core/src/codegen/wasmParser.ts:122 | A shift drops what does not fit into 32 bits, and shift counts start again after 31. |
| WasmReader.ReadLEB128 | packages/core/src/codegen/wasmParser.ts:116-127 | The decoding loop with 32-bit JavaScript shifts equals its specification at any offset, also past the end. |
| WasmReader.ReadEntries | packages/core/src/codegen/wasmParser.ts:96-106 | The inner loop collects the length-framed entries, or throws. |
| WasmReader.ReadSection | packages/core/src/codegen/wasmParser.ts:84-109 | One round of the outer loop: what a section contributes and where it ends. |
| WasmReader.ReadSpecSection | packages/core/src/codegen/wasmParser.ts:76-113 | On every file on which the walk halts, which is when the loop ends at all, the result equals its specification, also when it throws. |
| WasmReader.LebDecodes | packages/core/src/codegen/wasmParser.ts:116-127 | Any encoding of a 32-bit number, padded or not, is decoded with its length; the value is right exactly below 2^31 and otherwise 2^32 too small. |
| WasmReader.FramesRead | packages/core/src/codegen/wasmParser.ts:96-106 | Entries framed by 4-byte big-endian lengths are read back. |
| WasmReader.SectionReads | packages/core/src/codegen/wasmParser.ts:84-109 | A well-formed section is stepped over exactly and contributes its entries exactly when it is a custom section of the right name. |
| WasmReader.ModuleReads | packages/core/src/codegen/wasmParser.ts:76-113 | For every well-formed module the walk terminates without a throw and yields the entries of its spec sections, in order, and nothing else. |
| WasmMalformed.NameIsSpelled | packages/core/src/codegen/wasmParser.ts:70 | The section name is spelled `contractspecv0`. |
| WasmMalformed.SliceMeans | packages/core/src/codegen/wasmParser.ts:99-103 | Slices are cut at the end of the file and negative positions count from there. |
| WasmMalformed.LebOutside | packages/core/src/codegen/wasmParser.ts:116-127 | Outside the file the decoder reads zero in one byte. |
| WasmMalformed.TruncatedLengthThrows | packages/core/src/codegen/wasmParser.ts:96-106 | A frame length that does not fit into the file makes the reader throw, whatever was read before. |
| WasmMalformed.OverlongEntryIsRead | packages/core/src/codegen/wasmParser.ts:96-106 | An entry that reaches beyond its section is the last one, and is read past the end of the section but not past the end of the file. |
| WasmMalformed.WalkThrowsExactly | packages/core/src/codegen/wasmParser.ts:83-110 | A walk that ends throws exactly when a section that it reaches throws. |
| WasmPrinter.LebRoundTrip | packages/core/src/codegen/wasmParser.ts:116-127 | Decoding undoes printing for every number below 2^31, in every width it fits, anywhere in a file. |
| WasmPrinter.FramesRoundTrip | packages/core/src/codegen/wasmParser.ts:96-106 | Reading undoes framing for any entries anywhere in a file. |
| WasmPrinter.SectionPrinted | packages/core/src/codegen/wasmParser.ts:84-109 | A printed section, in any widths, is a section of the format wherever it stands. |
| WasmPrinter.ModuleRoundTrip | packages/core/src/codegen/wasmParser.ts:76-113 | Reading undoes printing: for any header and any list of sections with sizes below 2^31, the walk over the printed file ends without a throw and yields exactly the entries of its spec sections, in order. |
| WasmTermination.SectionAdvancesExactly | packages/core/src/codegen/wasmParser.ts:84-109 | For every offset and every encoding of a 32-bit size: the section moves the offset on if and only if the size is below 2^31 or at least 2^32 minus its width, and stays in place for exactly one size. |
| WasmTermination.HaltsOrRuns | packages/core/src/codegen/wasmParser.ts:83-110 | The walk has not halted within n rounds exactly when it is still running at every offset up to then. |
| WasmTermination.ForwardHalts | packages/core/src/codegen/wasmParser.ts:83-110 | If every section that the walk reaches and reads moves the offset on, the walk ends. |
| WasmTermination.ForwardSizesHalt | packages/core/src/codegen/wasmParser.ts:83-110 | The walk over a file ends if each section that it reaches and reads has a size below 2^31, or one of the few above that still move it on. |
| WasmTermination.EndlessExactly | packages/core/src/codegen/wasmParser.ts:83-110 | The walk over a file is endless if and only if it comes back to an offset it has been at. |
| WasmTermination.StallingFileNeverEnds | packages/core/src/codegen/wasmParser.ts:83-110 | A concrete file of fourteen bytes on which the walk never ends. |
| ConcurrencyQueue.Queue.constructor | src/utils/concurrencyQueue.ts:26-34 | An empty queue in a fresh interval. |
| ConcurrencyQueue.Queue.Execute | src/utils/concurrencyQueue.ts:39-61 | Queues the request, arms its timeout and processes: the complete new state. |
| ConcurrencyQueue.Queue.Process | src/utils/concurrencyQueue.ts:66-88 | Throttled processing schedules a wakeup, other processing drains. |
| ConcurrencyQueue.Queue.StartWhilePossible | src/utils/concurrencyQueue.ts:73-87 | The drain loop, including requests that throw synchronously and re-enter it. |
| ConcurrencyQueue.Queue.StartNext | src/utils/concurrencyQueue.ts:74-83 | Takes the oldest request and counts it. |
| ConcurrencyQueue.Queue.ExecuteFinally | src/utils/concurrencyQueue.ts:125-136 | Settles, gives the slot back, processes. |
| ConcurrencyQueue.Queue.CheckThrottled | src/utils/concurrencyQueue.ts:93-104 | The limit test with its side effect of opening a new interval. |
| ConcurrencyQueue.Queue.ScheduleNext | src/utils/concurrencyQueue.ts:109-120 | Sets the timer to the end of the interval. |
| ConcurrencyQueue.Queue.OnTimeout | src/utils/concurrencyQueue.ts:52-55 | Removes and rejects a request that waited too long. |
| ConcurrencyQueue.Queue.OnTimer | src/utils/concurrencyQueue.ts:116-119 | Clears the timer and processes. |
| ConcurrencyQueue.Queue.ClearQueue | src/utils/concurrencyQueue.ts:195-209 | Cancels the timer and every queued request, in order. |
| ConcurrencyQueue.Queue.GetQueueStatus | src/utils/concurrencyQueue.ts:179-190 | Reading the status can open a new interval. |
| ConcurrencyQueueProofs.RemoveIsFilter | src/utils/concurrencyQueue.ts:141-149 | Removing a queued request drops it and nothing else. |
| ConcurrencyQueueProofs.StepKeeps | src/utils/concurrencyQueue.ts:39-149 | Every event keeps: each submitted request is in exactly one of queued, active, settled; the active count; the cap; the armed timeouts; first-in-first-out starts. |
| ConcurrencyQueueProofs.DrainIsExhaustive | src/utils/concurrencyQueue.ts:73-87 | A drain ends with all slots taken or nothing waiting. |
| ConcurrencyQueueProofs.ProcessWakes | src/utils/concurrencyQueue.ts:66-88 | After processing, work that could start is waiting for a timer. |
| ConcurrencyQueueProofs.StepWakes | src/utils/concurrencyQueue.ts:39-209 | No event loses a wakeup. |
| ConcurrencyQueueProofs.RunKeeps | src/utils/concurrencyQueue.ts:39-209 | All of this holds after any legal run. |
| ConcurrencyQueueProofs.EveryRun | src/utils/concurrencyQueue.ts:39-209 | In every reachable state: exactly one place per request and at most one settlement, the cap, no lost wakeup, and start order equal to submission order without the requests that timed out or were cancelled. |
| ConcurrencyQueueProofs.TimerDrains | src/utils/concurrencyQueue.ts:109-120 | When the timer fires after the interval, everything that fits is started. |
| ConcurrencyQueueProofs.WaitsAtMostAnInterval | src/utils/concurrencyQueue.ts:66-120 | In every reachable state, work that could start is waiting for a timer due by the end of the current interval, under a clock that never runs back or for intervals that are not negative. |
| ConcurrencyQueueOutcomes.SettledExactly | src/utils/concurrencyQueue.ts:39-209 | In every run, from the events alone: a promise resolved exactly when its request completed well, was rejected exactly when it failed or started and threw synchronously, timed out exactly when its queue timeout fired, and was cancelled exactly when the queue was cleared with it waiting. |
| ConcurrencyQueueOutcomes.ThrottledProcessWaits | src/utils/concurrencyQueue.ts:66-120 | Processing in a used-up interval changes nothing but the timer, which is set to the exact end of the interval. |
| ConcurrencyQueueOutcomes.ClearLeavesNoTimer | src/utils/concurrencyQueue.ts:195-209 | After a clear, in every reachable state, no timer is left that could fire, and running requests go on. |
| ConcurrencyQueueOutcomes.StatusReading | src/utils/concurrencyQueue.ts:93-104 | Reading the status starts a new interval exactly when throttling is on and the interval has passed, and changes nothing else. |
| ConcurrencyQueueRates.DrainServes | src/utils/concurrencyQueue.ts:66-136 | A drain starts exactly the first requests of the queue up to where those that take a slot fill the room, whatever is throttled inside it when requests throw synchronously. |
| ConcurrencyQueueRates.ProcessPaced | src/utils/concurrencyQueue.ts:66-136 | Processing keeps the pacing invariant: the starts since the last reset that take a slot stay within the larger of rate and cap, and waiting requests with room to start occur only in a used-up interval or in one without starts. |
| ConcurrencyQueueRates.BurstBound | src/utils/concurrencyQueue.ts:66-136 | In every run with throttling on, the counter is the number of starts since the last reset; those of them that take a slot are at most the rate or the cap, whichever is larger, and so are all of them when no request function throws synchronously. |
| ConcurrencyQueueRuns.BurstAttainedExactly | src/utils/concurrencyQueue.ts:66-136 | With throttling on, rate and cap at least one and a positive interval, some run attains that bound if and only if there are that many requests that do not throw synchronously. |
| ConcurrencyQueueRates.StepCounts | src/utils/concurrencyQueue.ts:39-190 | Every event keeps the counter equal to the starts since the last reset. |
| ConcurrencyQueueRuns.RateHoldsExactly | src/utils/concurrencyQueue.ts:66-136 | With throttling on, a rate of at least one and a positive interval, the starts since a reset stay within the rate in every run if and only if the cap is not positive, or it does not exceed the rate and no request function throws synchronously. |
| ConcurrencyQueueRuns.ThrowerExceedsRate | src/utils/concurrencyQueue.ts:66-136 | A concrete run with cap and rate one: a waiting request that throws synchronously and the one behind it both start in one interval. |
| XdrCache.Cache.DecodeXdrBase64 | src/utils/xdrCache.ts:16-47 | Returns what direct decoding returns, and keeps the keys equal to the 50 most recently used inputs in order of use. |
| XdrCache.Cache.Refresh | src/utils/xdrCache.ts:20-26 | A hit moves the key to the end. |
| XdrCache.Cache.Store | src/utils/xdrCache.ts:41-46 | A miss evicts the oldest key exactly when the cache is full. |
| XdrCache.Cache.ClearXdrCache | src/utils/xdrCache.ts:49-51 | Forgets everything. |
| XdrCache.Cache.GetXdrCacheSize | src/utils/xdrCache.ts:53-55 | The number of recent inputs, never above 50. |
| XdrCache.UseHit | src/utils/xdrCache.ts:20-26 | Moving the key to the end of the bounded list is what the unbounded history asks for. |
| XdrCache.UseMiss | src/utils/xdrCache.ts:41-46 | Dropping the head of a full list is what the unbounded history asks for. |
| XdrCache.RecencyByLastUse | src/utils/xdrCache.ts:16-47 | The specification list holds each used input once, ordered by last use. |
| FeeBuffer.ReadsScaled | src/client/stellarClient.ts:1917-1918 | Reading the digits behind the point scales the decimal by the power of ten that is the denominator. |
| FeeBuffer.PlainIsExact | src/client/stellarClient.ts:1903-1924 | `toFraction` of every plain decimal is exactly the number it denotes. |
| FeeBuffer.ExponentIsRejected | src/client/stellarClient.ts:1908-1915 | A multiplier that JavaScript prints with an exponent (1e21 and above) is never converted. |
| FeeBuffer.SextillionIsRejected | src/client/stellarClient.ts:1903-1915 | The concrete text of 1e21. |
| FeeBuffer.AcceptsExactlyPlain | src/client/stellarClient.ts:1903-1915 | The number texts that convert are exactly the plain decimals. |
| FeeBuffer.MultipliesAndCeils | src/client/stellarClient.ts:1893-1901 | `multiplyAndCeil` is the least integer at or above value times multiplier, and refuses negative values. |
| FeeBuffer.LeastIsLeast | src/client/stellarClient.ts:1893-1901 | No smaller integer is at or above the product. |
| FeeBuffer.BufferIsMonotone | src/client/stellarClient.ts:1893-1901 | A larger value or multiplier never gives a smaller result. |
| FeeBuffer.DigitAdds | src/client/stellarClient.ts:1911-1918 | A digit further to the right makes the number read ten times as large and adds its own worth. |
| FeeBuffer.BufferedFeeIsTight | src/client/stellarClient.ts:1347-1391 | For multipliers of at least one: with the resource fee within the simulated fee, the total is at least the simulated fee times the multiplier and less than two stroops above it; otherwise the base fee is zero; the total respects the limit; each amount is the exact product rounded up; a transaction without resource data stays as it is. |
| FeeBuffer.ResourceFeeCountsOnce | src/client/stellarClient.ts:1347-1391 | A concrete transaction whose resource fee is not charged twice. |
| FeeBuffer.BufferingSucceedsExactly | src/client/stellarClient.ts:1347-1391 | For every printed multiplier of at least one, buffering fails exactly for one printed with an exponent, a negative resource fee or a total, in terms of the simulated and the resource fee, above the limit; and which error is thrown. |
| FeeBuffer.ExponentNeverBuffers | src/client/stellarClient.ts:1347-1391 | A multiplier printed with an exponent (1e21 and above) fails every buffering, whatever the limit, with one of two errors. |
| DateCodec.FreezeDates | src/client/stellarClient.ts:172-187 | The recursive loops over arrays and keys equal the specification, with the throw on an invalid date. |
| DateCodec.ThawDates | src/client/stellarClient.ts:190-210 | Likewise for thawing. |
| DateCodec.ThawObject | src/client/stellarClient.ts:203-207 | The loop over keys rebuilds the object in order. |
| DateCodec.FreezeLeavesNoDate | src/client/stellarClient.ts:172-187 | Freezing fails exactly when some date is invalid, and leaves no Date at any depth. |
| DateCodec.ThawUndoesFreeze | src/client/stellarClient.ts:172-210 | `thawDates(freezeDates(v))` is `v` if and only if no sub-object has `__date` with a parseable string as its only key. |
| DateCodec.LookalikeIsThawed | src/client/stellarClient.ts:172-210 | A concrete object that looks like a frozen date freezes to itself and comes back as a Date. |
| DateCodec.FreezeUndoesThaw | src/client/stellarClient.ts:172-210 | For values without dates, freezing after thawing is the identity if and only if each marker holds the text that freezing writes. |
| DateCodec.FreezesInPlace | src/client/stellarClient.ts:172-187 | A date becomes an object with the one key `__date`; arrays and objects are frozen item by item and key by key, in order; anything else stays. |
| DateCodec.ThawsInPlace | src/client/stellarClient.ts:190-210 | Exactly an object with the one key `__date` and a string that parses becomes a date; all else is thawed item by item and key by key, in order. |
| DateCodec.PutThenLookup | src/client/stellarClient.ts:179-184 | An assignment to a key is what is found there, and leaves other keys and their places alone. |
| PendingRegistry.TrackOutcome | src/client/stellarClient.ts:1246-1304 | A deadline that has passed ends the loop before its first request: the entry is returned but not registered. |
| PendingRegistry.StepKeeps | src/client/stellarClient.ts:1246-1304 | Every event keeps the registry and the unfinished polling loops in one-to-one correspondence. |
| PendingRegistry.RegisteredExactly | src/client/stellarClient.ts:1246-1304 | In every reachable state a hash is registered exactly when a polling loop for it is unfinished, and there is at most one. |
| PendingRegistry.RunExtends | src/client/stellarClient.ts:1275-1298 | Over any run each polling loop settles at most once, and never changes hash, deadline or interval. |
| PendingOutcomes.EndedExactly | src/client/stellarClient.ts:1275-1298 | In every run, from the events: a loop was confirmed with a status exactly when a reply with that status, neither empty nor NOT_FOUND, reached it while asking; its request failed exactly when a failure reached it; it was cancelled or timed out exactly when it woke or started with the flag set or else the deadline passed; the flag is set exactly when somebody cancelled it. |
| PendingOutcomes.StepEnds | src/client/stellarClient.ts:1275-1298 | Any other reply makes the loop sleep and leaves it registered, waking in time makes it ask again, and no event concerns a loop it is not for. |
| PendingOutcomes.TrackReturns | src/client/stellarClient.ts:1246-1275 | A known hash gives the tracked entry back; any other one gives an entry with the options, or their defaults, and the current time. |
| PendingOutcomes.EntriesComeFromCalls | src/client/stellarClient.ts:1246-1449 | In every reachable state each registered entry holds what some tracking call or some candidate of an imported state asked for, field by field. |
| PendingOutcomes.ExportWrites | src/client/stellarClient.ts:1328-1345 | An export writes each entry in order, field by field. |
| PendingOutcomes.ImportReturns | src/client/stellarClient.ts:1404-1449 | An import returns, per candidate in order that is registered or could be restored, the entry registered for its hash, and keeps what was registered. |
| PendingOutcomes.ImportRejectsExactly | src/client/stellarClient.ts:1405-1417 | Which states are refused, with which error; a refused state changes nothing. |
| PendingRegistry.ExportSucceedsExactly | src/client/stellarClient.ts:1328-1345 | In every reachable state the export throws exactly when some pending context holds an invalid date. |
| PendingRegistry.SurvivorsImported | src/client/stellarClient.ts:1404-1449 | Importing an export adds exactly the surviving untracked entries, in order. |
| PendingRegistry.ReloadRestoresSurvivors | src/client/stellarClient.ts:1328-1449 | What any client exports, a fresh client restores: exactly the entries with a non-empty hash and a deadline after now. |
| PendingRegistry.ReloadIsExact | src/client/stellarClient.ts:1328-1449 | A restored entry keeps hash, interval, deadline, label and context, and only its submission time changes, if and only if its interval is positive and its context is absent or survives freezing and thawing. |
| PendingRegistry.ImportChangesExactly | src/client/stellarClient.ts:1404-1449 | An import changes nothing if and only if every candidate it could restore is registered. |
| PendingRegistry.ReimportAddsNothing | src/client/stellarClient.ts:1404-1449 | Importing the same state again at any later time changes nothing. |
| PendingClient.Client.constructor | src/client/stellarClient.ts:264 | An empty registry. |
| PendingClient.Client.TrackTransaction | src/client/stellarClient.ts:1246-1304 | Returns the tracked entry for a known hash, otherwise registers one and starts its loop. |
| PendingClient.Client.Continue | src/client/stellarClient.ts:1277-1297 | The head of the polling loop and what follows it. |
| PendingClient.Client.OnReply | src/client/stellarClient.ts:1278-1282 | A final status or a failed request ends the loop; anything else makes it sleep. |
| PendingClient.Client.OnWake | src/client/stellarClient.ts:1277-1297 | A cancelled or overdue loop ends; another one asks again. |
| PendingClient.Client.Cancel | src/client/stellarClient.ts:1256-1259 | Only sets the flag that the loop reads. |
| PendingClient.Client.ExportState | src/client/stellarClient.ts:1328-1345 | The entries in order, or the throw of an invalid date. |
| PendingClient.Client.ImportState | src/client/stellarClient.ts:1404-1449 | The three rejections, and otherwise the whole import. |
| PendingClient.Client.ImportCandidate | src/client/stellarClient.ts:1421-1446 | One candidate: malformed, known, expired or restored. |
| SequenceCache.Cache.GetAccountWithCache | src/client/stellarClient.ts:602-628 | A fetched number is stored; a failed fetch increments an unexpired number and stores it again, or throws. |
| SequenceCache.Cache.GetCachedSequence | src/client/stellarClient.ts:662-674 | Finds an entry up to and including the time to live, and deletes an older one. |
| SequenceCache.Cache.ClearCache | src/client/stellarClient.ts:680-686 | Clears one account, or all for an absent or empty key. |
| SequenceCache.Cache.HandleSubmissionError | src/client/stellarClient.ts:696-718 | Clears exactly on a sequence error. |
| SequenceCache.Cache.CleanupExpiredCache | src/client/stellarClient.ts:725-741 | Deletes exactly the expired entries and counts them. |
| SequenceCache.CacheIsLastWrite | src/client/stellarClient.ts:602-674 | Under a monotone clock a request sees exactly the last write since the last clear, if its age is at most the time to live, whatever cleanups interleave. |
| SequenceCache.OfflineCountsUp | src/client/stellarClient.ts:602-628 | Between fetches and clearings of a key, offline numbers go up by one without gap or repeat until the entry expires, and then every request fails. |
| SequenceCache.InTimeNeverFails | src/client/stellarClient.ts:602-674 | Used within the time to live, the n-th offline number is exactly n above the fetched one. |
| SequenceCache.OnlineThenOffline | src/client/stellarClient.ts:602-628 | A request that the network answers ends with that number, and the n-th offline request after it, in time, with the number n above it. |
| Lifecycle.GetAllowedNext | src/lifecycle/stateMachine.ts:39-42 | Lists exactly the states that `canTransition` allows. |
| Lifecycle.ChainMoves | src/lifecycle/types.ts:21-45 | From the n-th state of the chain one can only move to the next one or fail, and from the last one nowhere. |
| Lifecycle.Manager.CreateTransaction | src/transactions/transactionLifecycleManager.ts:63-92 | A new record in CREATED, or a refusal for a known id. |
| Lifecycle.Manager.Move | src/transactions/transactionLifecycleManager.ts:98-133 | An allowed transition updates state, history, metadata and error; any other changes nothing. |
| Lifecycle.Manager.Fail | src/transactions/transactionLifecycleManager.ts:172-174 | A transition to FAILED with the error among its details. |
| Lifecycle.Manager.Remove | src/transactions/transactionLifecycleManager.ts:213-215 | Stops tracking one transaction. |
| Lifecycle.Manager.Clear | src/transactions/transactionLifecycleManager.ts:218-220 | Stops tracking all. |
| Lifecycle.StepKeeps | src/transactions/transactionLifecycleManager.ts:63-133 | Each operation keeps every history linked, on the chain, and equal to what listeners were told. |
| Lifecycle.HistoriesAreLives | src/transactions/transactionLifecycleManager.ts:63-133 | In every reachable state a history starts at CREATED and is linked; a COMPLETED history is the full ten-state chain, a FAILED one is a non-empty proper part of it and FAILED, none is longer than ten; the events told tell the history, and the metadata hold the latest detail of each name. |
| Lifecycle.TerminalNeverChanges | src/transactions/transactionLifecycleManager.ts:98-133 | A terminal record never changes again until it is removed. |
| Lifecycle.RejectedExactly | src/transactions/transactionLifecycleManager.ts:98-106 | In every reachable state a transition goes through exactly when the transaction is tracked, has neither failed nor completed the chain, and is to take its next state or to fail; a rejected one changes nothing. |
| Lifecycle.TrackedExactly | src/transactions/transactionLifecycleManager.ts:63-92 | In every reachable state exactly those transactions are tracked that were created and not removed or cleared since. |
| Lifecycle.RecordsSummarize | src/transactions/transactionLifecycleManager.ts:98-133 | Creation time, update time and error of every reachable record are those of the first and last entry of its history. |
| Lifecycle.OperationsDo | src/transactions/transactionLifecycleManager.ts:63-133 | In every reachable state, what each operation adds to the history, the metadata and the events told, what it replies, and that other transactions stay as they are. |
| Pipeline.MiddlewarePipeline.Use | src/middleware/pipeline.ts:11-26 | The newcomer goes after every entry of its order or a lower one; an empty name changes nothing. |
| Pipeline.MiddlewarePipeline.Remove | src/middleware/pipeline.ts:28-33 | Removes the first entry of the name, and says whether there was one. |
| Pipeline.MiddlewarePipeline.Clear | src/middleware/pipeline.ts:39-41 | Removes all entries; the numbering goes on. |
| Pipeline.MiddlewarePipeline.RunHooks | src/middleware/pipeline.ts:58-62 | One pass over the hooks of a kind, stopping at the first that throws. |
| Pipeline.MiddlewarePipeline.ExecuteWorkflow | src/middleware/pipeline.ts:43-87 | The three passes and the call in between equal running one list of stages, followed by the error hooks on a throw. |
| Pipeline.SortPlaces | src/middleware/pipeline.ts:98-106 | Sorting after a push moves only the newcomer. |
| Pipeline.SortIsTheOnlyOne | src/middleware/pipeline.ts:98-106 | Any rearrangement in increasing order is the one list, however the runtime sorts. |
| Pipeline.AlwaysSorted | src/middleware/pipeline.ts:11-41 | After any run of uses, removals and clears the list is strictly increasing in order and registration sequence. |
| Pipeline.RunIsPrefix | src/middleware/pipeline.ts:57-78 | The calls made are a first part of the stages, ending with the one that throws. |
| Pipeline.FullTraceOrder | src/middleware/pipeline.ts:57-87 | A workflow that nothing goes wrong with calls every pre hook in increasing (order, sequence), then next, then every post hook in decreasing (order, sequence); so go all the error hooks after a failure. |
| Pipeline.TraceShape | src/middleware/pipeline.ts:43-87 | A resolved workflow makes all these calls; a rejected one makes a non-empty first part of them and then those of the error hooks in reverse, all of them unless one throws; an error hook cannot turn a failure into a success. |
| Pipeline.UnregisterRestoresExactly | src/middleware/pipeline.ts:11-33 | Registering and then unregistering gives the list back if and only if no entry of the same name runs before the newcomer. |
| Pipeline.UnregisterTakesOlder | src/middleware/pipeline.ts:11-33 | Two concrete entries of one name: the older one goes. |
| PipelineAccount.StagesOfWorkflow | src/middleware/pipeline.ts:57-87 | The hooks that run are those of the entries: the pre hooks in increasing (order, sequence), then next, then the post hooks in decreasing order, and after a failure the error hooks in decreasing order. |
| PipelineAccount.ExecuteGoesThrough | src/middleware/pipeline.ts:43-87 | A call goes from context to context, starting with the payload alone; it resolves with the result in the last context, or rejects with the error in the last context of the error hooks or with what one of them throws. |
| PipelineAccount.EntriesComeFromUses | src/middleware/pipeline.ts:11-26 | After any run of changes each entry holds name, hooks and order, or order zero, of the call that registered it, and the number of earlier registrations. |
| RpcHealth.Endpoint.CheckEndpoint | src/monitoring/rpcHealthMonitor.ts:276-299 | A check outcome extends the history, and the status stays its fold. |
| RpcHealth.Endpoint.RecordSuccess | src/monitoring/rpcHealthMonitor.ts:301-332 | Counters, extremes, average and percentage after a response. |
| RpcHealth.Endpoint.RecordFailure | src/monitoring/rpcHealthMonitor.ts:334-351 | Counters and percentage after a failure; the state depends on the run of failures. |
| RpcHealth.ChecksAddUp | src/monitoring/rpcHealthMonitor.ts:301-351 | Successes and failures add up, and the trailing failures are among the failures. |
| RpcHealth.StatusMeans | src/monitoring/rpcHealthMonitor.ts:276-351 | The average lies between the extremes, and an available endpoint is healthy or degraded. |
| RpcHealth.StateExactly | src/monitoring/rpcHealthMonitor.ts:276-351 | Exactly when an endpoint is healthy, degraded, unhealthy and available: the latency limit belongs to healthy, and a failure is unhealthy when it ends a run of failures of the configured length. |
| RpcHealth.HistoriesJoin | src/monitoring/rpcHealthMonitor.ts:301-351 | Latencies and failures of a history are those of its parts. |
| RpcHealth.OneCheck | src/monitoring/rpcHealthMonitor.ts:301-351 | One response counts with its latency and one error as a failure. |
| RpcHealth.ReportsJoin | src/monitoring/rpcHealthMonitor.ts:245-274 | The counts of a report are those of its parts. |
| RpcHealth.OneEndpoint | src/monitoring/rpcHealthMonitor.ts:245-274 | One endpoint counts in its own state, and as available if it is. |
| RpcHealth.GetHealthReport | src/monitoring/rpcHealthMonitor.ts:245-274 | The counts are those of the endpoints in each state and of the available ones; the states add up to all endpoints, and the available ones are among the healthy and degraded. |

## Left out

- EventFetcher.FetchContractEventsRange: servers that hand out endlessly many new paging tokens are excluded, because the loop then never ends; the token set is a ghost parameter.
- EventFetcher.MidPagingRefusalExact: gives the condition for servers whose halves refuse by ledger range only; for all others `EventFetcher.FetchNeverReorders` says what remains true.
- Retries around RPC calls, request building and event decoding: the server's reply stands for what they give.
- Normalisation of start and end ledgers and times before the fetch: single-branch arithmetic.
- MigrationRunner.Runner.Run: start, finish and duration times of the report are not modelled; a report carries no state.
- StateValidator.Validator.ValidateState: issue lists of the validation library are one error value here, and schemas do not transform the states they accept.
- VaultMigrations.VaultUpgradeCompletes: infinite numbers are not among the field values.
- WasmReader.ReadSpecSection: has no result on files on which the walk never ends, as the source has none; `WasmTermination.EndlessExactly` says which they are. The number of rounds is a ghost parameter.
- The TypeScript type mapping and code generation behind the section reader: text output.
- ConcurrencyQueue.Queue.Execute: request ids are fresh, configuration is fixed after construction, and request functions do not call back into the queue.
- `updateConfig` and the derived numbers of `getStats`: the first does not process the queue again, the others only divide.
- XdrCache.Cache.DecodeXdrBase64: cached objects are values here, so changes that callers make to a shared decoded object are not seen.
- FeeBuffer.BufferedFeeIsTight: the 32-bit range of the resource fields is enforced by the XDR types and not modelled; the total is the sum of the two fees handed to the transaction builder.
- Multipliers below one: the constructor refuses them (`src/client/stellarClient.ts:383-385`), so their printed exponent forms are not modelled.
- DateCodec.ThawUndoesFreeze: objects with an own key `__proto__`, and numbers other than finite ones, are not modelled.
- PendingRegistry.ReloadRestoresSurvivors: `JSON.stringify` and `JSON.parse` between export and import are not modelled, nor are timeouts too large for a date.
- PendingClient.Client.ImportState: the clock is read once for the whole import.
- Polling cadence: how long a loop sleeps does not matter to the registry.
- SequenceCache.Cache.HandleSubmissionError: matching of the error text is a parameter.
- Lifecycle.Manager.Move: listeners that throw or call back are excluded, details are recorded as values, and the error is kept as given instead of by name and message; random ids are parameters.
- `TransactionLifecycleManager.list` and the `mark` methods: filters and one-line calls of `transition`.
- Pipeline.MiddlewarePipeline.ExecuteWorkflow: the list does not change while a workflow runs, orders are finite numbers, and payloads, results and errors share one type.
- RpcHealth.Endpoint.CheckEndpoint: checks of one endpoint do not overlap; the guard `checkInProgress`, timers and cloning of statuses are not modelled.
- `packages/core` copies of the client, queue and health monitor: they repeat the files under `src`.
- Wallets, WebSockets, HTTP, telemetry, logging, React hooks and the command line: input and output only.
