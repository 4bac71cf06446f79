/**
 * The registry of transactions being polled, with its export and import (src/client/stellarClient.ts). Each tracked
 * hash has one polling loop; a step of a loop is the synchronous stretch between two of its awaits.
 */
module PendingRegistry {
  import opened Common
  import opened DateCodec

  const HYDRATION_STATE_VERSION := 1
  const DEFAULT_INTERVAL_MS := 1000
  const DEFAULT_TIMEOUT_MS := 30000

  datatype Outcome = Confirmed(status: string) | RequestFailed | Cancelled | TimedOut
  datatype Phase = Requesting | Sleeping | Done(outcome: Outcome)
  datatype Loop = Loop(hash: string, deadline: Option<int>, intervalMs: int, cancelled: bool, phase: Phase)

  /** A registered transaction; `loop` is the number of the polling loop behind its promise. A deadline that is no
      valid date is None. */
  datatype Entry = Entry(hash: string, context: Value, submittedAt: int, intervalMs: int, deadline: Option<int>,
                         labelText: Option<string>, loop: nat)

  /** The registered entries in insertion order, and every polling loop ever started. */
  datatype State = State(pending: seq<Entry>, loops: seq<Loop>)

  const EMPTY := State([], [])

  datatype Options = Options(hash: string, context: Value, intervalMs: Option<int>, timeoutMs: Option<int>,
                             deadline: Option<Option<int>>, labelText: Option<string>)
  /** What a request for the transaction gives: a failure, or a response with or without a status. */
  datatype Reply = Failed | Response(status: Option<string>)

  datatype Serialized = Serialized(hash: string, context: Value, submittedAt: string, intervalMs: int, deadline: string,
                                   labelText: Option<string>)
  /** An element of an imported list; None stands for a field that is absent or not of its type. */
  datatype Candidate =
    | NotAnObject
    | Candidate(hash: Option<string>, context: Value, intervalMs: Option<int>, deadline: Option<string>, labelText: Option<string>)
  datatype Raw = NotAState | Raw(version: Option<int>, pending: Option<seq<Candidate>>)
  datatype ImportError = InvalidState | UnsupportedVersion | PendingNotAnArray
  datatype Imported = Restored(entries: seq<Entry>) | Rejected(error: ImportError)

  // ---------------------------------------------------------------------------
  // Entries by hash
  // ---------------------------------------------------------------------------

  function Find(pending: seq<Entry>, hash: string): (r: Option<Entry>)
    ensures r.Some? ==> r.value.hash == hash && r.value in pending
  {
    if pending == [] then None
    else if pending[0].hash == hash then Some(pending[0])
    else Find(pending[1..], hash)
  }

  function Remove(pending: seq<Entry>, hash: string): seq<Entry> {
    if pending == [] then []
    else (if pending[0].hash == hash then [] else [pending[0]]) + Remove(pending[1..], hash)
  }

  ghost predicate Distinct(pending: seq<Entry>) {
    pending == [] || (Find(pending[1..], pending[0].hash).None? && Distinct(pending[1..]))
  }

  lemma {:induction false} FindRemove(pending: seq<Entry>, hash: string, x: string)
    ensures Find(Remove(pending, hash), x) == if x == hash then None else Find(pending, x)
  {
    if pending == [] {
    } else {
      FindRemove(pending[1..], hash, x);
      var rest := Remove(pending[1..], hash);
      assert ([pending[0]] + rest)[1..] == rest;
      assert [] + rest == rest;
    }
  }

  lemma {:induction false} FindAppend(pending: seq<Entry>, e: Entry, x: string)
    ensures Find(pending + [e], x) == if Find(pending, x).Some? then Find(pending, x) else if e.hash == x then Some(e) else None
  {
    if pending == [] {
    } else {
      FindAppend(pending[1..], e, x);
      assert (pending + [e])[1..] == pending[1..] + [e];
    }
  }

  lemma {:induction false} RemoveDistinct(pending: seq<Entry>, hash: string)
    requires Distinct(pending)
    ensures Distinct(Remove(pending, hash))
  {
    if pending == [] {
    } else {
      var rest := Remove(pending[1..], hash);
      RemoveDistinct(pending[1..], hash);
      FindRemove(pending[1..], hash, pending[0].hash);
      assert ([pending[0]] + rest)[1..] == rest;
      assert [] + rest == rest;
    }
  }

  lemma {:induction false} AppendDistinct(pending: seq<Entry>, e: Entry)
    requires Distinct(pending) && Find(pending, e.hash).None?
    ensures Distinct(pending + [e])
  {
    if pending == [] {
    } else {
      AppendDistinct(pending[1..], e);
      FindAppend(pending[1..], e, pending[0].hash);
      assert (pending + [e])[1..] == pending[1..] + [e];
    }
  }

  // ---------------------------------------------------------------------------
  // Polling
  // ---------------------------------------------------------------------------

  /** `Date.now() < deadline.getTime()`, which is false for an invalid date. */
  predicate Earlier(now: int, deadline: Option<int>) {
    deadline.Some? && now < deadline.value
  }

  /** The test at the head of the polling loop, with what follows the loop. */
  function Turn(cancelled: bool, deadline: Option<int>, now: int): Phase {
    if !cancelled && Earlier(now, deadline) then Requesting
    else if cancelled then Done(Cancelled)
    else Done(TimedOut)
  }

  /** Loop `id` moves on; a loop that ends takes its hash out of the registry. */
  function Advance(s: State, id: nat, phase: Phase): State
    requires id < |s.loops|
  {
    State(if phase.Done? then Remove(s.pending, s.loops[id].hash) else s.pending,
          s.loops[id := s.loops[id].(phase := phase)])
  }

  function Deadline(o: Options, now: int): Option<int> {
    match o.deadline
    case Some(deadline) => deadline
    case None => Some(now + (match o.timeoutMs case Some(ms) => ms case None => DEFAULT_TIMEOUT_MS))
  }

  function Interval(o: Options): int {
    match o.intervalMs
    case Some(ms) => ms
    case None => DEFAULT_INTERVAL_MS
  }

  function NewEntry(o: Options, now: int, loop: nat): Entry {
    Entry(o.hash, o.context, now, Interval(o), Deadline(o, now), o.labelText, loop)
  }

  /** Registers the entry, then starts its loop, which may end at once. */
  function Track(s: State, o: Options, now: int): (State, Entry) {
    match Find(s.pending, o.hash)
    case Some(existing) => (s, existing)
    case None =>
      var e := NewEntry(o, now, |s.loops|);
      var started := State(s.pending + [e], s.loops + [Loop(o.hash, e.deadline, e.intervalMs, false, Requesting)]);
      (Advance(started, |s.loops|, Turn(false, e.deadline, now)), e)
  }

  function AfterReply(reply: Reply): Phase {
    match reply
    case Failed => Done(RequestFailed)
    case Response(status) =>
      if status.Some? && status.value != "" && status.value != "NOT_FOUND" then Done(Confirmed(status.value)) else Sleeping
  }

  datatype Event =
    | Tracks(options: Options, now: int)
    | Replies(id: nat, reply: Reply)
    | Wakes(id: nat, now: int)
    | Cancels(id: nat)
    | Imports(raw: Raw, now: int)

  function Step(c: Calendar, s: State, event: Event): State {
    match event
    case Tracks(options, now) => Track(s, options, now).0
    case Replies(id, reply) =>
      if id < |s.loops| && s.loops[id].phase == Requesting then Advance(s, id, AfterReply(reply)) else s
    case Wakes(id, now) =>
      if id < |s.loops| && s.loops[id].phase == Sleeping
      then Advance(s, id, Turn(s.loops[id].cancelled, s.loops[id].deadline, now)) else s
    case Cancels(id) =>
      if id < |s.loops| then s.(loops := s.loops[id := s.loops[id].(cancelled := true)]) else s
    case Imports(raw, now) => Import(c, s, raw, now).0
  }

  function Run(c: Calendar, s: State, events: seq<Event>): State
    decreases |events|
  {
    if events == [] then s else Run(c, Step(c, s, events[0]), events[1..])
  }

  // ---------------------------------------------------------------------------
  // Export and import
  // ---------------------------------------------------------------------------

  predicate Falsy(v: Value) {
    v.Undefined? || v.Null? || v == Bool(false) || v == Num(0.0) || v == Str("")
  }

  function FreezeContext(c: Calendar, v: Value): Option<Value> {
    if Falsy(v) then Some(Undefined) else Freeze(c, v)
  }

  function ThawContext(c: Calendar, v: Value): Value {
    if Falsy(v) then Undefined else Thaw(c, v)
  }

  /** None stands for the RangeError of an invalid date. */
  function Serialize(c: Calendar, e: Entry): Option<Serialized> {
    match (FreezeContext(c, e.context), e.deadline)
    case (Some(context), Some(deadline)) =>
      Some(Serialized(e.hash, context, c.iso(e.submittedAt), e.intervalMs, c.iso(deadline), e.labelText))
    case _ => None
  }

  function Export(c: Calendar, pending: seq<Entry>): Option<seq<Serialized>> {
    if pending == [] then Some([])
    else
      match (Serialize(c, pending[0]), Export(c, pending[1..]))
      case (Some(head), Some(tail)) => Some([head] + tail)
      case _ => None
  }

  predicate HasHash(candidate: Candidate) {
    candidate.Candidate? && candidate.hash.Some? && candidate.hash.value != ""
  }

  function CandidateDeadline(c: Calendar, candidate: Candidate): Option<int>
    requires candidate.Candidate?
  {
    if candidate.deadline.Some? then c.parse(candidate.deadline.value) else None
  }

  /** A candidate that is restored unless its hash is tracked already. */
  predicate Importable(c: Calendar, candidate: Candidate, now: int) {
    HasHash(candidate) && Earlier(now, CandidateDeadline(c, candidate))
  }

  function CandidateOptions(c: Calendar, candidate: Candidate): Options
    requires HasHash(candidate)
  {
    Options(candidate.hash.value, ThawContext(c, candidate.context),
            Some(if candidate.intervalMs.Some? && candidate.intervalMs.value > 0 then candidate.intervalMs.value
                 else DEFAULT_INTERVAL_MS),
            None, Some(CandidateDeadline(c, candidate)), candidate.labelText)
  }

  function ImportOne(c: Calendar, s: State, candidate: Candidate, now: int): (State, seq<Entry>) {
    if !HasHash(candidate) then (s, [])
    else
      match Find(s.pending, candidate.hash.value)
      case Some(existing) => (s, [existing])
      case None =>
        if !Earlier(now, CandidateDeadline(c, candidate)) then (s, [])
        else
          var (next, tracked) := Track(s, CandidateOptions(c, candidate), now);
          (next, [tracked])
  }

  function ImportAll(c: Calendar, s: State, candidates: seq<Candidate>, now: int): (State, seq<Entry>)
    decreases |candidates|
  {
    if candidates == [] then (s, [])
    else
      var (next, restored) := ImportOne(c, s, candidates[0], now);
      var (last, rest) := ImportAll(c, next, candidates[1..], now);
      (last, restored + rest)
  }

  function Import(c: Calendar, s: State, raw: Raw, now: int): (State, Imported) {
    if raw.NotAState? then (s, Rejected(InvalidState))
    else if raw.version != Some(HYDRATION_STATE_VERSION) then (s, Rejected(UnsupportedVersion))
    else if raw.pending.None? then (s, Rejected(PendingNotAnArray))
    else
      var (next, restored) := ImportAll(c, s, raw.pending.value, now);
      (next, Restored(restored))
  }

  // ---------------------------------------------------------------------------
  // One unfinished loop per registered hash
  // ---------------------------------------------------------------------------

  ghost predicate Backs(s: State, e: Entry) {
    && e.loop < |s.loops|
    && var l := s.loops[e.loop];
       !l.phase.Done? && l.hash == e.hash && l.deadline == e.deadline && l.intervalMs == e.intervalMs && l.deadline.Some?
  }

  ghost predicate BackedAt(s: State, hash: string) {
    Find(s.pending, hash).Some? ==> Backs(s, Find(s.pending, hash).value)
  }

  ghost predicate OwnedAt(s: State, id: nat)
    requires id < |s.loops|
  {
    s.loops[id].phase.Done? || (Find(s.pending, s.loops[id].hash).Some? && Find(s.pending, s.loops[id].hash).value.loop == id)
  }

  ghost predicate Inv(s: State) {
    && Distinct(s.pending)
    && (forall hash :: BackedAt(s, hash))
    && forall id: nat :: id < |s.loops| ==> OwnedAt(s, id)
  }

  lemma AdvanceKeeps(s: State, id: nat, phase: Phase)
    requires Inv(s) && id < |s.loops| && !s.loops[id].phase.Done?
    ensures Inv(Advance(s, id, phase))
  {
    var t, gone := Advance(s, id, phase), s.loops[id].hash;
    RemoveDistinct(s.pending, gone);
    assert OwnedAt(s, id);
    forall hash ensures BackedAt(t, hash) {
      FindRemove(s.pending, gone, hash);
      assert BackedAt(s, hash);
    }
    forall i: nat | i < |t.loops| ensures OwnedAt(t, i) {
      FindRemove(s.pending, gone, s.loops[i].hash);
      assert OwnedAt(s, i);
    }
  }

  lemma RegisterKeeps(s: State, e: Entry, l: Loop)
    requires Inv(s) && Find(s.pending, e.hash).None? && e.loop == |s.loops|
    requires l == Loop(e.hash, e.deadline, e.intervalMs, false, Requesting) && e.deadline.Some?
    ensures Inv(State(s.pending + [e], s.loops + [l]))
  {
    var t := State(s.pending + [e], s.loops + [l]);
    AppendDistinct(s.pending, e);
    forall hash ensures BackedAt(t, hash) {
      FindAppend(s.pending, e, hash);
      assert BackedAt(s, hash);
    }
    forall i: nat | i < |t.loops| ensures OwnedAt(t, i) {
      FindAppend(s.pending, e, t.loops[i].hash);
      if i < |s.loops| {
        assert OwnedAt(s, i);
      }
    }
  }

  lemma {:induction false} RemoveAppended(pending: seq<Entry>, e: Entry)
    requires Find(pending, e.hash).None?
    ensures Remove(pending + [e], e.hash) == pending
  {
    if pending == [] {
      assert pending + [e] == [e];
      assert Remove([e][1..], e.hash) == [];
    } else {
      RemoveAppended(pending[1..], e);
      assert (pending + [e])[1..] == pending[1..] + [e];
    }
  }

  /** A deadline that has passed ends the loop before its first request: the entry is returned but not registered. */
  lemma TrackOutcome(s: State, o: Options, now: int)
    requires Find(s.pending, o.hash).None?
    ensures var e := NewEntry(o, now, |s.loops|);
            Track(s, o, now) ==
            (if Earlier(now, e.deadline)
             then State(s.pending + [e], s.loops + [Loop(o.hash, e.deadline, e.intervalMs, false, Requesting)])
             else State(s.pending, s.loops + [Loop(o.hash, e.deadline, e.intervalMs, false, Done(TimedOut))]), e)
  {
    var e := NewEntry(o, now, |s.loops|);
    var l := Loop(o.hash, e.deadline, e.intervalMs, false, Requesting);
    var phase := Turn(false, e.deadline, now);
    assert (s.loops + [l])[|s.loops| := l.(phase := phase)] == s.loops + [l.(phase := phase)];
    RemoveAppended(s.pending, e);
  }

  lemma FinishedKeeps(s: State, l: Loop)
    requires Inv(s) && l.phase.Done?
    ensures Inv(s.(loops := s.loops + [l]))
  {
    var t := s.(loops := s.loops + [l]);
    forall hash ensures BackedAt(t, hash) {
      assert BackedAt(s, hash);
    }
    forall i: nat | i < |t.loops| ensures OwnedAt(t, i) {
      if i < |s.loops| {
        assert OwnedAt(s, i);
      }
    }
  }

  lemma TrackKeeps(s: State, o: Options, now: int)
    requires Inv(s)
    ensures Inv(Track(s, o, now).0)
  {
    if Find(s.pending, o.hash).None? {
      TrackOutcome(s, o, now);
      var e := NewEntry(o, now, |s.loops|);
      if Earlier(now, e.deadline) {
        RegisterKeeps(s, e, Loop(o.hash, e.deadline, e.intervalMs, false, Requesting));
      } else {
        FinishedKeeps(s, Loop(o.hash, e.deadline, e.intervalMs, false, Done(TimedOut)));
      }
    }
  }

  lemma {:induction false} ImportKeeps(c: Calendar, s: State, candidates: seq<Candidate>, now: int)
    requires Inv(s)
    ensures Inv(ImportAll(c, s, candidates, now).0)
    decreases |candidates|
  {
    if candidates == [] {
    } else {
      if HasHash(candidates[0]) {
        TrackKeeps(s, CandidateOptions(c, candidates[0]), now);
      }
      ImportKeeps(c, ImportOne(c, s, candidates[0], now).0, candidates[1..], now);
    }
  }

  lemma CancelKeeps(s: State, id: nat)
    requires Inv(s) && id < |s.loops|
    ensures Inv(s.(loops := s.loops[id := s.loops[id].(cancelled := true)]))
  {
    var t := s.(loops := s.loops[id := s.loops[id].(cancelled := true)]);
    forall hash ensures BackedAt(t, hash) {
      assert BackedAt(s, hash);
    }
    forall i: nat | i < |t.loops| ensures OwnedAt(t, i) {
      assert OwnedAt(s, i);
    }
  }

  lemma StepKeeps(c: Calendar, s: State, event: Event)
    requires Inv(s)
    ensures Inv(Step(c, s, event))
  {
    match event
    case Tracks(options, now) => TrackKeeps(s, options, now);
    case Replies(id, reply) =>
      if id < |s.loops| && s.loops[id].phase == Requesting {
        AdvanceKeeps(s, id, AfterReply(reply));
      }
    case Wakes(id, now) =>
      if id < |s.loops| && s.loops[id].phase == Sleeping {
        AdvanceKeeps(s, id, Turn(s.loops[id].cancelled, s.loops[id].deadline, now));
      }
    case Cancels(id) =>
      if id < |s.loops| {
        CancelKeeps(s, id);
      }
    case Imports(raw, now) =>
      if raw.Raw? && raw.pending.Some? {
        ImportKeeps(c, s, raw.pending.value, now);
      }
  }

  lemma {:induction false} RunKeeps(c: Calendar, s: State, events: seq<Event>)
    requires Inv(s)
    ensures Inv(Run(c, s, events))
    decreases |events|
  {
    if events == [] {
    } else {
      StepKeeps(c, s, events[0]);
      RunKeeps(c, Step(c, s, events[0]), events[1..]);
    }
  }

  ghost predicate Polling(s: State, id: nat, hash: string) {
    id < |s.loops| && s.loops[id].hash == hash && !s.loops[id].phase.Done?
  }

  /** In every reachable state a hash is registered exactly when a polling loop for it is unfinished, and there is
      never more than one. */
  lemma RegisteredExactly(c: Calendar, events: seq<Event>, hash: string)
    ensures var s := Run(c, EMPTY, events);
            && (Find(s.pending, hash).Some? <==> exists id: nat :: Polling(s, id, hash))
            && forall i: nat, j: nat :: Polling(s, i, hash) && Polling(s, j, hash) ==> i == j
  {
    assert Inv(EMPTY);
    RunKeeps(c, EMPTY, events);
    var s := Run(c, EMPTY, events);
    if Find(s.pending, hash).Some? {
      assert BackedAt(s, hash);
      assert Polling(s, Find(s.pending, hash).value.loop, hash);
    }
    forall i: nat | Polling(s, i, hash) ensures Find(s.pending, hash).Some? && Find(s.pending, hash).value.loop == i {
      assert OwnedAt(s, i);
    }
  }

  // ---------------------------------------------------------------------------
  // Loops end once
  // ---------------------------------------------------------------------------

  /** Loops are never forgotten or given to another hash, and an outcome never changes. */
  ghost predicate Extends(s: State, t: State) {
    && |s.loops| <= |t.loops|
    && forall id: nat :: id < |s.loops| ==> LoopGoesOn(s.loops[id], t.loops[id])
  }

  predicate LoopGoesOn(before: Loop, after: Loop) {
    && after.hash == before.hash && after.deadline == before.deadline && after.intervalMs == before.intervalMs
    && (before.phase.Done? ==> after.phase == before.phase)
    && (before.cancelled ==> after.cancelled)
  }

  lemma TrackExtends(s: State, o: Options, now: int)
    ensures Extends(s, Track(s, o, now).0)
  {
  }

  lemma {:induction false} ImportExtends(c: Calendar, s: State, candidates: seq<Candidate>, now: int)
    ensures Extends(s, ImportAll(c, s, candidates, now).0)
    decreases |candidates|
  {
    if candidates == [] {
    } else {
      if HasHash(candidates[0]) {
        TrackExtends(s, CandidateOptions(c, candidates[0]), now);
      }
      var next := ImportOne(c, s, candidates[0], now).0;
      ImportExtends(c, next, candidates[1..], now);
      ExtendsFurther(s, next, ImportAll(c, next, candidates[1..], now).0);
    }
  }

  lemma ExtendsFurther(s: State, t: State, u: State)
    requires Extends(s, t) && Extends(t, u)
    ensures Extends(s, u)
  {
  }

  lemma StepExtends(c: Calendar, s: State, event: Event)
    ensures Extends(s, Step(c, s, event))
  {
    match event
    case Tracks(options, now) => TrackExtends(s, options, now);
    case Imports(raw, now) =>
      if raw.Raw? && raw.pending.Some? {
        ImportExtends(c, s, raw.pending.value, now);
      }
    case _ =>
  }

  /** Over any run, each polling loop settles at most once. */
  lemma {:induction false} RunExtends(c: Calendar, s: State, events: seq<Event>)
    ensures Extends(s, Run(c, s, events))
    decreases |events|
  {
    if events == [] {
    } else {
      var next := Step(c, s, events[0]);
      StepExtends(c, s, events[0]);
      RunExtends(c, next, events[1..]);
      ExtendsFurther(s, next, Run(c, next, events[1..]));
    }
  }

  // ---------------------------------------------------------------------------
  // Import after export
  // ---------------------------------------------------------------------------

  function AsCandidate(e: Serialized): Candidate {
    Candidate(Some(e.hash), e.context, Some(e.intervalMs), Some(e.deadline), e.labelText)
  }

  function AsCandidates(s: seq<Serialized>): seq<Candidate> {
    if s == [] then [] else [AsCandidate(s[0])] + AsCandidates(s[1..])
  }

  predicate Survives(e: Entry, now: int) {
    e.hash != "" && Earlier(now, e.deadline)
  }

  /** A surviving entry after a reload at `now`, polled by loop `loop`. */
  function Reloaded(c: Calendar, e: Entry, now: int, loop: nat): Entry
    requires FreezeContext(c, e.context).Some?
  {
    Entry(e.hash, ThawContext(c, FreezeContext(c, e.context).value), now,
          if e.intervalMs > 0 then e.intervalMs else DEFAULT_INTERVAL_MS, e.deadline, e.labelText, loop)
  }

  /** The surviving entries in order, on consecutive loops. */
  function Survivors(c: Calendar, pending: seq<Entry>, now: int, loop: nat): seq<Entry>
    requires Export(c, pending).Some?
  {
    if pending == [] then []
    else if Survives(pending[0], now)
    then [Reloaded(c, pending[0], now, loop)] + Survivors(c, pending[1..], now, loop + 1)
    else Survivors(c, pending[1..], now, loop)
  }

  ghost predicate Untracked(tracked: seq<Entry>, pending: seq<Entry>) {
    pending == [] || (Find(tracked, pending[0].hash).None? && Untracked(tracked, pending[1..]))
  }

  lemma {:induction false} UntrackedAppend(tracked: seq<Entry>, e: Entry, pending: seq<Entry>)
    requires Untracked(tracked, pending) && Find(pending, e.hash).None?
    ensures Untracked(tracked + [e], pending)
  {
    if pending == [] {
    } else {
      FindAppend(tracked, e, pending[0].hash);
      UntrackedAppend(tracked, e, pending[1..]);
    }
  }

  lemma {:induction false} UntrackedByNone(pending: seq<Entry>)
    ensures Untracked([], pending)
  {
    if pending == [] {
    } else {
      UntrackedByNone(pending[1..]);
    }
  }

  lemma ExportCons(c: Calendar, pending: seq<Entry>)
    requires pending != [] && Export(c, pending).Some?
    ensures Serialize(c, pending[0]).Some? && Export(c, pending[1..]).Some?
    ensures AsCandidates(Export(c, pending).value)
         == [AsCandidate(Serialize(c, pending[0]).value)] + AsCandidates(Export(c, pending[1..]).value)
  {
  }

  lemma ImportCons(c: Calendar, s: State, candidate: Candidate, rest: seq<Candidate>, now: int)
    ensures var one := ImportOne(c, s, candidate, now);
            var others := ImportAll(c, one.0, rest, now);
            ImportAll(c, s, [candidate] + rest, now) == (others.0, one.1 + others.1)
  {
  }

  /** A candidate made from an untracked entry is registered when the entry survives, and else ignored. */
  lemma ImportOneExported(c: Calendar, s: State, e: Entry, now: int)
    requires c.Faithful() && Serialize(c, e).Some? && Find(s.pending, e.hash).None?
    ensures var one := ImportOne(c, s, AsCandidate(Serialize(c, e).value), now);
            if Survives(e, now)
            then one.0.pending == s.pending + one.1 && |one.0.loops| == |s.loops| + 1 && one.1 == [Reloaded(c, e, now, |s.loops|)]
            else one == (s, [])
  {
  }

  lemma {:induction false} SurvivorsImported(c: Calendar, s: State, pending: seq<Entry>, now: int)
    requires c.Faithful() && Export(c, pending).Some? && Distinct(pending) && Untracked(s.pending, pending)
    ensures var (next, restored) := ImportAll(c, s, AsCandidates(Export(c, pending).value), now);
            && restored == Survivors(c, pending, now, |s.loops|)
            && next.pending == s.pending + restored
    decreases |pending|
  {
    if pending == [] {
      assert s.pending + [] == s.pending;
    } else {
      var e, rest := pending[0], pending[1..];
      ExportCons(c, pending);
      var candidate, others := AsCandidate(Serialize(c, e).value), AsCandidates(Export(c, rest).value);
      ImportCons(c, s, candidate, others, now);
      ImportOneExported(c, s, e, now);
      var one := ImportOne(c, s, candidate, now);
      if Survives(e, now) {
        UntrackedAppend(s.pending, one.1[0], rest);
      }
      SurvivorsImported(c, one.0, rest, now);
      AppendAssoc(s.pending, one.1, ImportAll(c, one.0, others, now).1);
    }
  }

  lemma AppendAssoc(a: seq<Entry>, b: seq<Entry>, c: seq<Entry>)
    ensures (a + b) + c == a + (b + c)
    ensures b == [] ==> b + c == c
  {
  }

  function Snapshot(exported: seq<Serialized>): Raw {
    Raw(Some(HYDRATION_STATE_VERSION), Some(AsCandidates(exported)))
  }

  /** What any client exports, a fresh client restores: exactly the surviving entries, in order. */
  lemma ReloadRestoresSurvivors(c: Calendar, events: seq<Event>, now: int)
    requires c.Faithful() && Export(c, Run(c, EMPTY, events).pending).Some?
    ensures var pending := Run(c, EMPTY, events).pending;
            var (client, result) := Import(c, EMPTY, Snapshot(Export(c, pending).value), now);
            client.pending == Survivors(c, pending, now, 0) && result == Restored(client.pending)
  {
    assert Inv(EMPTY);
    RunKeeps(c, EMPTY, events);
    var pending := Run(c, EMPTY, events).pending;
    UntrackedByNone(pending);
    SurvivorsImported(c, EMPTY, pending, now);
    assert [] + Survivors(c, pending, now, 0) == Survivors(c, pending, now, 0);
  }

  ghost predicate Freezable(e: Entry) {
    Falsy(e.context) || Everywhere(NotInvalidDate, e.context)
  }

  lemma {:induction false} FindMember(pending: seq<Entry>, e: Entry)
    requires Distinct(pending) && e in pending
    ensures Find(pending, e.hash) == Some(e)
  {
    if pending[0] == e {
    } else {
      assert pending == [pending[0]] + pending[1..];
      FindMember(pending[1..], e);
    }
  }

  lemma {:induction false} ExportSucceeds(c: Calendar, pending: seq<Entry>)
    requires forall e :: e in pending ==> e.deadline.Some?
    ensures Export(c, pending).Some? <==> forall e :: e in pending ==> Freezable(e)
  {
    if pending == [] {
    } else {
      assert pending == [pending[0]] + pending[1..];
      FreezeLeavesNoDate(c, pending[0].context);
      ExportSucceeds(c, pending[1..]);
      assert Serialize(c, pending[0]).Some? <==> Freezable(pending[0]);
      assert forall e :: e in pending <==> e == pending[0] || e in pending[1..];
    }
  }

  /** In every reachable state, the export throws exactly when some pending context holds an invalid date. */
  lemma ExportSucceedsExactly(c: Calendar, events: seq<Event>)
    ensures var pending := Run(c, EMPTY, events).pending;
            Export(c, pending).Some? <==> forall e :: e in pending ==> Freezable(e)
  {
    assert Inv(EMPTY);
    RunKeeps(c, EMPTY, events);
    var s := Run(c, EMPTY, events);
    forall e | e in s.pending ensures e.deadline.Some? {
      FindMember(s.pending, e);
      assert BackedAt(s, e.hash);
    }
    ExportSucceeds(c, s.pending);
  }

  /** A survivor comes back unchanged but for the time of submission exactly when its interval is positive and its
      context is absent, or an object that freezing and thawing preserve. */
  lemma ReloadIsExact(c: Calendar, e: Entry, now: int, loop: nat)
    requires c.Faithful() && FreezeContext(c, e.context).Some?
    ensures Reloaded(c, e, now, loop) == e.(submittedAt := now, loop := loop) <==>
            e.intervalMs > 0 && (if Falsy(e.context) then e.context.Undefined? else Everywhere(NoLookalike(c), e.context))
  {
    if !Falsy(e.context) {
      ThawUndoesFreeze(c, e.context);
    }
  }

  // ---------------------------------------------------------------------------
  // Importing again
  // ---------------------------------------------------------------------------

  /** Each candidate that could be restored at `now` is registered already. */
  ghost predicate NothingNew(c: Calendar, s: State, candidates: seq<Candidate>, now: int) {
    candidates == []
    || ((Importable(c, candidates[0], now) ==> Find(s.pending, candidates[0].hash.value).Some?)
        && NothingNew(c, s, candidates[1..], now))
  }

  /** An import changes nothing exactly when nothing in it is new. */
  lemma {:induction false} ImportChangesExactly(c: Calendar, s: State, candidates: seq<Candidate>, now: int)
    ensures ImportAll(c, s, candidates, now).0 == s <==> NothingNew(c, s, candidates, now)
    decreases |candidates|
  {
    if candidates == [] {
    } else {
      var next := ImportOne(c, s, candidates[0], now).0;
      if Importable(c, candidates[0], now) && Find(s.pending, candidates[0].hash.value).None? {
        TrackOutcome(s, CandidateOptions(c, candidates[0]), now);
        assert |next.loops| > |s.loops|;
        ImportExtends(c, next, candidates[1..], now);
      } else {
        assert next == s;
        ImportChangesExactly(c, s, candidates[1..], now);
      }
    }
  }

  ghost predicate Keeps(s: State, t: State) {
    forall hash :: Find(s.pending, hash).Some? ==> Find(t.pending, hash).Some?
  }

  lemma {:induction false} ImportRegisters(c: Calendar, s: State, candidates: seq<Candidate>, now: int)
    ensures Keeps(s, ImportAll(c, s, candidates, now).0)
    ensures forall later :: later >= now ==> NothingNew(c, ImportAll(c, s, candidates, now).0, candidates, later)
    decreases |candidates|
  {
    if candidates == [] {
    } else {
      var candidate, rest := candidates[0], candidates[1..];
      var next := ImportOne(c, s, candidate, now).0;
      if Importable(c, candidate, now) && Find(s.pending, candidate.hash.value).None? {
        var o := CandidateOptions(c, candidate);
        TrackOutcome(s, o, now);
        var e := NewEntry(o, now, |s.loops|);
        forall hash ensures Find(s.pending, hash).Some? ==> Find(next.pending, hash).Some? {
          FindAppend(s.pending, e, hash);
        }
        FindAppend(s.pending, e, candidate.hash.value);
        assert Find(next.pending, candidate.hash.value).Some?;
      } else {
        assert next == s;
      }
      ImportRegisters(c, next, rest, now);
    }
  }

  /** Importing the same state again, at any later time, changes nothing while the entries are registered. */
  lemma ReimportAddsNothing(c: Calendar, s: State, raw: Raw, now: int, later: int)
    requires later >= now
    ensures var imported := Import(c, s, raw, now).0;
            Import(c, imported, raw, later).0 == imported
  {
    if raw.Raw? && raw.version == Some(HYDRATION_STATE_VERSION) && raw.pending.Some? {
      var imported := Import(c, s, raw, now).0;
      ImportRegisters(c, s, raw.pending.value, now);
      ImportChangesExactly(c, imported, raw.pending.value, later);
    }
  }
}
