/**
 * The lifecycle of tracked transactions: the transition table (src/lifecycle/types.ts), the state machine over it
 * (src/lifecycle/stateMachine.ts) and the manager that keeps the records and tells listeners about each change
 * (src/transactions/transactionLifecycleManager.ts).
 */
module Lifecycle {
  import opened Common

  datatype LifecycleState =
    CREATED | SIMULATING | SIMULATED | SIGNING | SIGNED | SUBMITTING | SUBMITTED | CONFIRMING | CONFIRMED | COMPLETED | FAILED

  // ---------------------------------------------------------------------------
  // The state machine
  // ---------------------------------------------------------------------------

  function Transitions(s: LifecycleState): seq<LifecycleState> {
    match s
    case CREATED => [SIMULATING]
    case SIMULATING => [SIMULATED]
    case SIMULATED => [SIGNING]
    case SIGNING => [SIGNED]
    case SIGNED => [SUBMITTING]
    case SUBMITTING => [SUBMITTED]
    case SUBMITTED => [CONFIRMING]
    case CONFIRMING => [CONFIRMED]
    case CONFIRMED => [COMPLETED]
    case COMPLETED => []
    case FAILED => []
  }

  predicate IsTerminal(s: LifecycleState) {
    s in {COMPLETED, FAILED}
  }

  predicate CanTransition(from: LifecycleState, to: LifecycleState) {
    if IsTerminal(from) then false
    else if to == FAILED then true
    else to in Transitions(from)
  }

  function GetAllowedNext(s: LifecycleState): (next: seq<LifecycleState>)
    ensures forall to :: to in next <==> CanTransition(s, to)
  {
    if IsTerminal(s) then [] else Transitions(s) + [FAILED]
  }

  const CHAIN_LENGTH := 10

  /** The life of a transaction that nothing goes wrong with: its n-th state. */
  function Chain(n: nat): LifecycleState {
    match n
    case 0 => CREATED
    case 1 => SIMULATING
    case 2 => SIMULATED
    case 3 => SIGNING
    case 4 => SIGNED
    case 5 => SUBMITTING
    case 6 => SUBMITTED
    case 7 => CONFIRMING
    case 8 => CONFIRMED
    case _ => COMPLETED
  }

  /** From the n-th state of the chain one can move to the next one or fail, and from the last one nowhere. */
  lemma ChainMoves(n: nat, to: LifecycleState)
    requires n < CHAIN_LENGTH
    ensures CanTransition(Chain(n), to) <==> n + 1 < CHAIN_LENGTH && (to == FAILED || to == Chain(n + 1))
    ensures Chain(n) != FAILED && (Chain(n) == COMPLETED <==> n + 1 == CHAIN_LENGTH)
  {
  }

  // ---------------------------------------------------------------------------
  // Records
  // ---------------------------------------------------------------------------

  datatype Detail = Undefined | Known(text: string)
  type Details = map<string, Detail>

  datatype Entry = Entry(from: Option<LifecycleState>, to: LifecycleState, timestamp: int, details: Option<Details>)
  datatype Record = Record(id: string, state: LifecycleState, createdAt: int, updatedAt: int, history: seq<Entry>,
                           metadata: Details, error: Option<Detail>)
  datatype EventType = Created | Moved | Completed | Failed
  datatype Event = Event(kind: EventType, id: string, entry: Entry, error: Option<Detail>)

  /** The tracked records, and every event the listeners have been told, oldest first. */
  datatype Tracking = Tracking(records: map<string, Record>, told: seq<Event>)

  datatype Reply = Ok(record: Record) | AlreadyTracked | NotTracked | InvalidTransition | Removed(found: bool) | Cleared

  datatype Operation =
    | Create(id: string, metadata: Details, now: int)
    | Transition(id: string, to: LifecycleState, details: Option<Details>, now: int)
    | Remove(id: string)
    | Clear

  /** The error that a transition records, if any. */
  function RecordedError(to: LifecycleState, details: Option<Details>): Option<Detail> {
    if to == FAILED && details.Some? && "error" in details.value && details.value["error"] != Undefined
    then Some(details.value["error"]) else None
  }

  function KindOf(to: LifecycleState): EventType {
    if to == FAILED then Failed else if to == COMPLETED then Completed else Moved
  }

  function NewRecord(id: string, metadata: Details, now: int): Record {
    Record(id, CREATED, now, now, [Entry(None, CREATED, now, None)], metadata, None)
  }

  function MovedRecord(r: Record, to: LifecycleState, details: Option<Details>, now: int): Record {
    var error := RecordedError(to, details);
    Record(r.id, to, r.createdAt, now, r.history + [Entry(Some(r.state), to, now, details)],
           if details.Some? then r.metadata + details.value else r.metadata,
           if error.Some? then error else r.error)
  }

  /** A rejected operation changes nothing and tells nobody. */
  function Step(t: Tracking, op: Operation): (Tracking, Reply) {
    match op
    case Create(id, metadata, now) =>
      if id in t.records then (t, AlreadyTracked)
      else
        var r := NewRecord(id, metadata, now);
        (Tracking(t.records[id := r], t.told + [Event(Created, id, r.history[0], None)]), Ok(r))
    case Transition(id, to, details, now) =>
      if id !in t.records then (t, NotTracked)
      else if !CanTransition(t.records[id].state, to) then (t, InvalidTransition)
      else
        var r := MovedRecord(t.records[id], to, details, now);
        (Tracking(t.records[id := r], t.told + [Event(KindOf(to), id, r.history[|r.history| - 1], r.error)]), Ok(r))
    case Remove(id) => (t.(records := t.records - {id}), Removed(id in t.records))
    case Clear => (t.(records := map[]), Cleared)
  }

  function Run(t: Tracking, ops: seq<Operation>): Tracking {
    if ops == [] then t else Step(Run(t, ops[..|ops| - 1]), ops[|ops| - 1]).0
  }

  const NOTHING := Tracking(map[], [])

  class Manager {
    var records: map<string, Record>
    ghost var told: seq<Event>

    ghost function Contents(): Tracking
      reads this
    {
      Tracking(records, told)
    }

    constructor ()
      ensures Contents() == NOTHING
    {
      records, told := map[], [];
    }

    ghost method Emit(event: Event)
      modifies this`told
      ensures told == old(told) + [event]
    {
      told := told + [event];
    }

    method CreateTransaction(id: string, metadata: Details, now: int) returns (reply: Reply)
      modifies this
      ensures (Contents(), reply) == Step(old(Contents()), Create(id, metadata, now))
    {
      if id in records {
        return AlreadyTracked;
      }
      var record := Record(id, CREATED, now, now, [Entry(None, CREATED, now, None)], metadata, None);
      records := records[id := record];
      Emit(Event(Created, id, Entry(None, CREATED, now, None), None));
      return Ok(record);
    }

    method Move(id: string, to: LifecycleState, details: Option<Details>, now: int) returns (reply: Reply)
      modifies this
      ensures (Contents(), reply) == Step(old(Contents()), Transition(id, to, details, now))
    {
      if id !in records {
        return NotTracked;
      }
      var record := records[id];
      if !CanTransition(record.state, to) {
        return InvalidTransition;
      }
      var entry := Entry(Some(record.state), to, now, details);
      record := record.(state := to, updatedAt := now, history := record.history + [entry]);
      if details.Some? {
        record := record.(metadata := record.metadata + details.value);
      }
      if to == FAILED && details.Some? && "error" in details.value && details.value["error"] != Undefined {
        record := record.(error := Some(details.value["error"]));
      }
      records := records[id := record];
      Emit(Event(if to == FAILED then Failed else if to == COMPLETED then Completed else Moved, id, entry, record.error));
      return Ok(record);
    }

    method Fail(id: string, error: Detail, details: Details, now: int) returns (reply: Reply)
      modifies this
      ensures (Contents(), reply) == Step(old(Contents()), Transition(id, FAILED, Some(details["error" := error]), now))
    {
      reply := Move(id, FAILED, Some(details["error" := error]), now);
    }

    method Remove(id: string) returns (removed: bool)
      modifies this
      ensures (Contents(), Removed(removed)) == Step(old(Contents()), Operation.Remove(id))
    {
      removed := id in records;
      records := records - {id};
    }

    method Clear()
      modifies this
      ensures Contents() == Step(old(Contents()), Operation.Clear).0
    {
      records := map[];
    }
  }

  // ---------------------------------------------------------------------------
  // Histories
  // ---------------------------------------------------------------------------

  /** A history runs along the chain, and may leave it once, by failing, before the chain is complete. */
  ghost predicate Shape(history: seq<Entry>) {
    && 1 <= |history| <= CHAIN_LENGTH
    && history[0].from == None
    && (forall i :: 0 < i < |history| ==> history[i].from == Some(history[i - 1].to))
    && (forall i :: 0 <= i < |history| - 1 ==> history[i].to == Chain(i))
    && var last := history[|history| - 1].to;
       last == Chain(|history| - 1) || (last == FAILED && |history| > 1)
  }

  /** What the last transition with a detail of this name said. */
  function LastDetail(history: seq<Entry>, name: string): Option<Detail> {
    if history == [] then None
    else
      var last := history[|history| - 1];
      if last.details.Some? && name in last.details.value then Some(last.details.value[name])
      else LastDetail(history[..|history| - 1], name)
  }

  ghost predicate MetadataOk(r: Record) {
    forall name :: LastDetail(r.history, name).Some? ==>
      name in r.metadata && r.metadata[name] == LastDetail(r.history, name).value
  }

  ghost predicate RecordOk(r: Record) {
    && Shape(r.history) && MetadataOk(r)
    && var last := r.history[|r.history| - 1];
       && r.state == last.to && r.updatedAt == last.timestamp && r.createdAt == r.history[0].timestamp
       && r.error == RecordedError(last.to, last.details)
  }

  /** The history of `id` as the events tell it. */
  function Told(told: seq<Event>, id: string): seq<Entry> {
    if told == [] then []
    else
      var before, event := Told(told[..|told| - 1], id), told[|told| - 1];
      if event.id != id then before
      else if event.kind == Created then [event.entry]
      else before + [event.entry]
  }

  ghost predicate TrackedOk(t: Tracking, id: string) {
    id in t.records ==> RecordOk(t.records[id]) && t.records[id].id == id && t.records[id].history == Told(t.told, id)
  }

  lemma ToldSnoc(told: seq<Event>, event: Event, id: string)
    ensures Told(told + [event], id) ==
            if event.id != id then Told(told, id)
            else if event.kind == Created then [event.entry]
            else Told(told, id) + [event.entry]
  {
  }

  lemma MoveKeepsShape(history: seq<Entry>, entry: Entry)
    requires Shape(history) && CanTransition(history[|history| - 1].to, entry.to)
    requires entry.from == Some(history[|history| - 1].to)
    ensures Shape(history + [entry]) && history[|history| - 1].to != FAILED
  {
    ChainMoves(|history| - 1, entry.to);
  }

  lemma MoveKeepsMetadata(r: Record, to: LifecycleState, details: Option<Details>, now: int)
    requires MetadataOk(r)
    ensures MetadataOk(MovedRecord(r, to, details, now))
  {
    var moved := MovedRecord(r, to, details, now);
    assert moved.history[..|moved.history| - 1] == r.history;
  }

  lemma MoveKeepsRecord(r: Record, to: LifecycleState, details: Option<Details>, now: int)
    requires RecordOk(r) && CanTransition(r.state, to)
    ensures RecordOk(MovedRecord(r, to, details, now))
  {
    MoveKeepsShape(r.history, Entry(Some(r.state), to, now, details));
    MoveKeepsMetadata(r, to, details, now);
  }

  lemma NewRecordOk(id: string, metadata: Details, now: int)
    ensures RecordOk(NewRecord(id, metadata, now))
  {
    var history := NewRecord(id, metadata, now).history;
    assert history[..0] == [];
  }

  lemma StepKeeps(t: Tracking, op: Operation, id: string)
    requires TrackedOk(t, id)
    ensures TrackedOk(Step(t, op).0, id)
  {
    match op
    case Create(other, metadata, now) =>
      if other !in t.records {
        NewRecordOk(other, metadata, now);
        ToldSnoc(t.told, Event(Created, other, Entry(None, CREATED, now, None), None), id);
      }
    case Transition(other, to, details, now) =>
      if other in t.records && CanTransition(t.records[other].state, to) {
        var r := MovedRecord(t.records[other], to, details, now);
        ToldSnoc(t.told, Event(KindOf(to), other, r.history[|r.history| - 1], r.error), id);
        if other == id {
          MoveKeepsRecord(t.records[id], to, details, now);
        }
      }
    case Remove(_) =>
    case Clear =>
  }

  lemma {:induction false} RunKeeps(ops: seq<Operation>, id: string)
    ensures TrackedOk(Run(NOTHING, ops), id)
  {
    if ops == [] {
    } else {
      RunKeeps(ops[..|ops| - 1], id);
      StepKeeps(Run(NOTHING, ops[..|ops| - 1]), ops[|ops| - 1], id);
    }
  }

  /** The first `n` states of a history are those of the chain. */
  ghost predicate OnChain(history: seq<Entry>, n: nat)
    requires n <= |history|
  {
    forall i :: 0 <= i < n ==> history[i].to == Chain(i)
  }

  /** In every reachable state, a completed transaction went through the whole chain, a failed one through a proper,
      non-empty part of it and then FAILED, any other through a part of it; the listeners were told just that, and the
      metadata hold the latest detail of each name. */
  lemma HistoriesAreLives(ops: seq<Operation>, id: string)
    requires id in Run(NOTHING, ops).records
    ensures var t := Run(NOTHING, ops);
            var r := t.records[id];
            var n := |r.history|;
            && 1 <= n <= CHAIN_LENGTH && r.history[n - 1].to == r.state
            && r.history[0].from == None
            && (forall i :: 0 < i < n ==> r.history[i].from == Some(r.history[i - 1].to))
            && (if r.state == FAILED then n > 1 && OnChain(r.history, n - 1) else OnChain(r.history, n))
            && (r.state == COMPLETED <==> n == CHAIN_LENGTH && OnChain(r.history, n))
            && (r.error.Some? ==> r.state == FAILED)
            && r.history == Told(t.told, id)
            && MetadataOk(r)
  {
    RunKeeps(ops, id);
    var r := Run(NOTHING, ops).records[id];
    assert TrackedOk(Run(NOTHING, ops), id);
    ChainMoves(|r.history| - 1, FAILED);
  }

  // ---------------------------------------------------------------------------
  // The end of a life
  // ---------------------------------------------------------------------------

  predicate Drops(op: Operation, id: string) {
    op.Clear? || (op.Remove? && op.id == id)
  }

  /** A terminal record stays as it is, whatever is asked of it, until it is removed. */
  lemma {:induction false} TerminalNeverChanges(t: Tracking, ops: seq<Operation>, id: string)
    requires id in t.records && IsTerminal(t.records[id].state)
    requires forall op :: op in ops ==> !Drops(op, id)
    ensures id in Run(t, ops).records && Run(t, ops).records[id] == t.records[id]
  {
    if ops == [] {
    } else {
      var front, last := ops[..|ops| - 1], ops[|ops| - 1];
      assert last in ops;
      forall op | op in front ensures !Drops(op, id) {
        assert op in ops;
      }
      TerminalNeverChanges(t, front, id);
    }
  }

  /** In every reachable state a transition goes through exactly when the transaction is tracked, has neither failed
      nor completed the chain, and is to take its next state there or to fail; a rejected one changes nothing. */
  lemma RejectedExactly(ops: seq<Operation>, id: string, to: LifecycleState, details: Option<Details>, now: int)
    ensures var t := Run(NOTHING, ops);
            var (next, reply) := Step(t, Transition(id, to, details, now));
            && (reply.Ok? <==>
                  && id in t.records && t.records[id].state != FAILED && |t.records[id].history| < CHAIN_LENGTH
                  && (to == FAILED || to == Chain(|t.records[id].history|)))
            && (!reply.Ok? ==> next == t)
  {
    var t := Run(NOTHING, ops);
    if id in t.records {
      HistoriesAreLives(ops, id);
      ChainMoves(|t.records[id].history| - 1, to);
    }
  }

  // ---------------------------------------------------------------------------
  // Who is tracked, and what operations do
  // ---------------------------------------------------------------------------

  /** The transaction was created by the i-th operation or was tracked then already, and has not been dropped since. */
  ghost predicate CreatedAndKept(ops: seq<Operation>, id: string, i: nat)
    requires i < |ops|
  {
    ops[i].Create? && ops[i].id == id && forall j :: i < j < |ops| ==> !Drops(ops[j], id)
  }

  ghost predicate IsTracked(ops: seq<Operation>, id: string) {
    exists i :: 0 <= i < |ops| && CreatedAndKept(ops, id, i)
  }

  lemma TrackedSnoc(front: seq<Operation>, last: Operation, id: string)
    ensures IsTracked(front + [last], id) <==> (last.Create? && last.id == id) || (IsTracked(front, id) && !Drops(last, id))
  {
    var ops := front + [last];
    if last.Create? && last.id == id {
      assert CreatedAndKept(ops, id, |front|);
    } else {
      if IsTracked(front, id) && !Drops(last, id) {
        var i :| 0 <= i < |front| && CreatedAndKept(front, id, i);
        assert CreatedAndKept(ops, id, i);
      }
      if IsTracked(ops, id) {
        var i :| 0 <= i < |ops| && CreatedAndKept(ops, id, i);
        assert !Drops(ops[|front|], id);
        assert forall j :: i < j < |front| ==> front[j] == ops[j];
        assert CreatedAndKept(front, id, i);
      }
    }
  }

  /** In every reachable state, exactly those transactions are tracked that were created and not dropped since. */
  lemma {:induction false} TrackedExactly(ops: seq<Operation>, id: string)
    ensures id in Run(NOTHING, ops).records <==> IsTracked(ops, id)
  {
    if ops == [] {
    } else {
      var front, last := ops[..|ops| - 1], ops[|ops| - 1];
      assert ops == front + [last];
      TrackedExactly(front, id);
      TrackedSnoc(front, last, id);
    }
  }

  /** The error that a record keeps: what the failing transition gave as its error, if anything. */
  ghost predicate KeepsError(r: Record)
    requires r.history != []
  {
    var last := r.history[|r.history| - 1];
    if last.to == FAILED && last.details.Some? && "error" in last.details.value && last.details.value["error"].Known?
    then r.error == Some(last.details.value["error"]) else r.error == None
  }

  /** In every reachable state, times and error of a record are those of its history. */
  lemma RecordsSummarize(ops: seq<Operation>, id: string)
    requires id in Run(NOTHING, ops).records
    ensures var r := Run(NOTHING, ops).records[id];
            && r.history != [] && r.id == id && r.createdAt == r.history[0].timestamp
            && r.updatedAt == r.history[|r.history| - 1].timestamp && KeepsError(r)
  {
    RunKeeps(ops, id);
    assert TrackedOk(Run(NOTHING, ops), id);
  }

  /** The event tells what it is about by its kind. */
  ghost predicate Announces(e: Event) {
    && (e.kind == Created <==> e.entry.from.None?) && (e.kind == Failed <==> e.entry.to == FAILED)
    && (e.kind == Completed <==> e.entry.to == COMPLETED)
    && (e.error.Some? ==> e.kind == Failed && e.entry.details.Some? && "error" in e.entry.details.value
                          && e.error.value == e.entry.details.value["error"])
  }

  /** A transaction that is created starts its life with this metadata. */
  ghost predicate Creates(t: Tracking, id: string, metadata: Details, now: int, next: Tracking) {
    && id in next.records && next.records[id].metadata == metadata
    && next.records[id].history == [Entry(None, CREATED, now, None)]
    && next.told == t.told + [Event(Created, id, Entry(None, CREATED, now, None), None)]
  }

  /** A transaction that moves gets one more entry, of which the listeners are told; a detail replaces an older one of
      its name and leaves the others. */
  ghost predicate Moves(t: Tracking, id: string, to: LifecycleState, details: Option<Details>, now: int, next: Tracking)
    requires id in t.records
  {
    var r, entry := t.records[id], Entry(Some(t.records[id].state), to, now, details);
    && id in next.records && next.records[id].history == r.history + [entry]
    && (forall name :: name in next.records[id].metadata <==>
          name in r.metadata || (details.Some? && name in details.value))
    && (forall name :: name in r.metadata && !(details.Some? && name in details.value) ==>
          next.records[id].metadata[name] == r.metadata[name])
    && |next.told| == |t.told| + 1 && next.told[..|t.told|] == t.told
    && next.told[|t.told|].id == id && next.told[|t.told|].entry == entry
    && next.told[|t.told|].error == next.records[id].error && Announces(next.told[|t.told|])
  }

  /** What each operation does in a reachable state, and what it replies; other transactions stay as they are. */
  lemma OperationsDo(ops: seq<Operation>, op: Operation)
    ensures var t := Run(NOTHING, ops);
            var (next, reply) := Step(t, op);
            match op
            case Create(id, metadata, now) =>
              && (forall other :: other != id ==> Same(t, next, other))
              && if id in t.records then reply == AlreadyTracked && next == t
                 else Creates(t, id, metadata, now, next) && reply == Ok(next.records[id])
            case Transition(id, to, details, now) =>
              && (forall other :: other != id ==> Same(t, next, other))
              && (reply == NotTracked <==> id !in t.records)
              && (reply.Ok? ==> Moves(t, id, to, details, now, next) && reply == Ok(next.records[id]))
              && (!reply.Ok? ==> reply in {NotTracked, InvalidTransition} && next == t)
            case Remove(id) =>
              && (forall other :: other != id ==> Same(t, next, other))
              && reply == Removed(id in t.records) && next.told == t.told
            case Clear => next.told == t.told && reply == Cleared
  {
    var t := Run(NOTHING, ops);
    match op
    case Transition(id, to, details, now) =>
      if id in t.records && CanTransition(t.records[id].state, to) {
        RunKeeps(ops, id);
        assert TrackedOk(t, id);
        MoveAnnounces(t, id, to, details, now);
      }
    case _ =>
  }

  ghost predicate Same(t: Tracking, next: Tracking, id: string) {
    (id in next.records <==> id in t.records) && (id in t.records ==> next.records[id] == t.records[id])
  }

  lemma MoveAnnounces(t: Tracking, id: string, to: LifecycleState, details: Option<Details>, now: int)
    requires id in t.records && RecordOk(t.records[id]) && CanTransition(t.records[id].state, to)
    ensures Moves(t, id, to, details, now, Step(t, Transition(id, to, details, now)).0)
  {
    MoveKeepsRecord(t.records[id], to, details, now);
    MoveKeepsShape(t.records[id].history, Entry(Some(t.records[id].state), to, now, details));
  }
}
