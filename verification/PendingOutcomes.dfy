/**
 * How each polling loop of a client ended, and where each registered entry came from, told from the events of a run.
 */
module PendingOutcomes {
  import opened Common
  import opened DateCodec
  import opened PendingRegistry

  ghost predicate InPhase(s: State, id: nat, phase: Phase) {
    id < |s.loops| && s.loops[id].phase == phase
  }

  /** The clock is not before the deadline, or the deadline is no valid date. */
  ghost predicate Passed(deadline: Option<int>, now: int) {
    match deadline
    case None => true
    case Some(time) => time <= now
  }

  /** The deadline that the caller's options ask for. */
  ghost predicate AsksFor(o: Options, now: int, deadline: Option<int>) {
    if o.deadline.Some? then deadline == o.deadline.value
    else if o.timeoutMs.Some? then deadline == Some(now + o.timeoutMs.value)
    else deadline == Some(now + 30000)
  }

  /** `e` comes to a loop in state `s` that is waiting for it, and ends it in this way. */
  ghost predicate Ends(s: State, e: Event, id: nat, outcome: Outcome) {
    match outcome
    case Confirmed(status) =>
      InPhase(s, id, Requesting) && e == Replies(id, Response(Some(status))) && status != "" && status != "NOT_FOUND"
    case RequestFailed => InPhase(s, id, Requesting) && e == Replies(id, Failed)
    case Cancelled => InPhase(s, id, Sleeping) && e.Wakes? && e.id == id && s.loops[id].cancelled
    case TimedOut =>
      || (InPhase(s, id, Sleeping) && e.Wakes? && e.id == id && !s.loops[id].cancelled && Passed(s.loops[id].deadline, e.now))
      || (id == |s.loops| && e.Tracks? && Find(s.pending, e.options.hash).None?
          && exists deadline :: AsksFor(e.options, e.now, deadline) && Passed(deadline, e.now))
  }

  /** A loop that has been started and has not ended goes on as it was, unless the event is for it. */
  ghost predicate GoesOn(s: State, e: Event, id: nat, t: State)
    requires id < |s.loops| <= |t.loops|
  {
    var before, after := s.loops[id], t.loops[id];
    && after.cancelled == (before.cancelled || e == Cancels(id))
    && (e.Replies? && e.id == id && before.phase == Requesting
        && e.reply.Response? && (e.reply.status.None? || e.reply.status.value in {"", "NOT_FOUND"}) ==>
          after.phase == Sleeping && t.pending == s.pending)
    && (e.Wakes? && e.id == id && before.phase == Sleeping && !before.cancelled && !Passed(before.deadline, e.now) ==>
          after.phase == Requesting && t.pending == s.pending)
    && (!(e.Replies? && e.id == id) && !(e.Wakes? && e.id == id) ==> after.phase == before.phase)
  }

  // ---------------------------------------------------------------------------
  // One event
  // ---------------------------------------------------------------------------

  lemma TrackStarts(s: State, o: Options, now: int)
    requires Find(s.pending, o.hash).None?
    ensures var t := Track(s, o, now).0;
            && |t.loops| == |s.loops| + 1 && t.loops[..|s.loops|] == s.loops && !t.loops[|s.loops|].cancelled
            && exists deadline :: AsksFor(o, now, deadline) &&
                 t.loops[|s.loops|].phase == if Passed(deadline, now) then Done(TimedOut) else Requesting
  {
    TrackOutcome(s, o, now);
    assert AsksFor(o, now, Deadline(o, now));
  }

  /** An import leaves the loops alone that are there, and starts others, which have time. */
  ghost predicate StartsOthers(s: State, t: State) {
    && |s.loops| <= |t.loops| && t.loops[..|s.loops|] == s.loops
    && forall id :: |s.loops| <= id < |t.loops| ==> t.loops[id].phase == Requesting && !t.loops[id].cancelled
  }

  lemma ImportOneStarts(c: Calendar, s: State, candidate: Candidate, now: int)
    ensures StartsOthers(s, ImportOne(c, s, candidate, now).0)
  {
    if Importable(c, candidate, now) && Find(s.pending, candidate.hash.value).None? {
      TrackOutcome(s, CandidateOptions(c, candidate), now);
    }
  }

  lemma {:induction false} ImportStarts(c: Calendar, s: State, candidates: seq<Candidate>, now: int)
    ensures StartsOthers(s, ImportAll(c, s, candidates, now).0)
    decreases |candidates|
  {
    if candidates == [] {
    } else {
      var t := ImportOne(c, s, candidates[0], now).0;
      ImportOneStarts(c, s, candidates[0], now);
      ImportStarts(c, t, candidates[1..], now);
      var u := ImportAll(c, t, candidates[1..], now).0;
      assert u.loops[..|s.loops|] == u.loops[..|t.loops|][..|s.loops|];
      forall id | |s.loops| <= id < |u.loops| ensures u.loops[id].phase == Requesting && !u.loops[id].cancelled {
        assert id < |t.loops| ==> u.loops[..|t.loops|][id] == t.loops[id];
      }
    }
  }

  ghost predicate EndsExactly(s: State, e: Event, t: State) {
    && |s.loops| <= |t.loops|
    && (forall id: nat, outcome :: InPhase(t, id, Done(outcome)) <==> InPhase(s, id, Done(outcome)) || Ends(s, e, id, outcome))
    && (forall id: nat :: id < |s.loops| ==> GoesOn(s, e, id, t))
    && forall id: nat :: |s.loops| <= id < |t.loops| ==> !t.loops[id].cancelled
  }

  lemma TracksEnds(c: Calendar, s: State, o: Options, now: int)
    ensures EndsExactly(s, Tracks(o, now), Step(c, s, Tracks(o, now)))
  {
    var e, t := Tracks(o, now), Step(c, s, Tracks(o, now));
    if Find(s.pending, o.hash).None? {
      TrackStarts(s, o, now);
      var d :| AsksFor(o, now, d) && t.loops[|s.loops|].phase == if Passed(d, now) then Done(TimedOut) else Requesting;
      assert forall other :: AsksFor(o, now, other) ==> other == d;
      forall id: nat | id < |s.loops| ensures t.loops[id] == s.loops[id] {
        assert t.loops[..|s.loops|][id] == s.loops[id];
      }
    }
  }

  lemma ImportsEnds(c: Calendar, s: State, raw: Raw, now: int)
    ensures EndsExactly(s, Imports(raw, now), Step(c, s, Imports(raw, now)))
  {
    var t := Step(c, s, Imports(raw, now));
    if raw.Raw? && raw.pending.Some? {
      ImportStarts(c, s, raw.pending.value, now);
    }
    assert StartsOthers(s, t);
    forall id: nat | id < |s.loops| ensures t.loops[id] == s.loops[id] {
      assert t.loops[..|s.loops|][id] == s.loops[id];
    }
  }

  lemma StepEnds(c: Calendar, s: State, e: Event)
    ensures EndsExactly(s, e, Step(c, s, e))
  {
    match e
    case Tracks(options, now) => TracksEnds(c, s, options, now);
    case Imports(raw, now) => ImportsEnds(c, s, raw, now);
    case _ =>
  }

  // ---------------------------------------------------------------------------
  // Every run
  // ---------------------------------------------------------------------------

  lemma {:induction false} RunSnoc(c: Calendar, s: State, front: seq<Event>, last: Event)
    ensures Run(c, s, front + [last]) == Step(c, Run(c, s, front), last)
    decreases |front|
  {
    if front == [] {
      assert front + [last] == [last] && [last][1..] == [];
    } else {
      assert (front + [last])[1..] == front[1..] + [last];
      RunSnoc(c, Step(c, s, front[0]), front[1..], last);
    }
  }

  /** The i-th event of the run ended the loop in this way. */
  ghost predicate EndedAt(c: Calendar, events: seq<Event>, id: nat, outcome: Outcome, i: nat)
    requires i < |events|
  {
    Ends(Run(c, EMPTY, events[..i]), events[i], id, outcome)
  }

  ghost predicate Ended(c: Calendar, events: seq<Event>, id: nat, outcome: Outcome) {
    exists i :: 0 <= i < |events| && EndedAt(c, events, id, outcome, i)
  }

  /** Somebody cancelled the loop, after it was started. */
  ghost predicate WasCancelled(c: Calendar, events: seq<Event>, id: nat) {
    exists i :: 0 <= i < |events| && CancelledAt(c, events, id, i)
  }

  ghost predicate CancelledAt(c: Calendar, events: seq<Event>, id: nat, i: nat)
    requires i < |events|
  {
    events[i] == Cancels(id) && id < |Run(c, EMPTY, events[..i]).loops|
  }

  lemma EndedSnoc(c: Calendar, front: seq<Event>, last: Event, id: nat, outcome: Outcome)
    ensures Ended(c, front + [last], id, outcome)
       <==> Ended(c, front, id, outcome) || Ends(Run(c, EMPTY, front), last, id, outcome)
  {
    var events := front + [last];
    assert events[..|front|] == front;
    forall i | 0 <= i < |front| ensures EndedAt(c, events, id, outcome, i) <==> EndedAt(c, front, id, outcome, i) {
      assert events[..i] == front[..i];
    }
    if Ended(c, front, id, outcome) {
      var i :| 0 <= i < |front| && EndedAt(c, front, id, outcome, i);
      assert EndedAt(c, events, id, outcome, i);
    }
    if Ends(Run(c, EMPTY, front), last, id, outcome) {
      assert EndedAt(c, events, id, outcome, |front|);
    }
  }

  lemma CancelledSnoc(c: Calendar, front: seq<Event>, last: Event, id: nat)
    ensures WasCancelled(c, front + [last], id)
       <==> WasCancelled(c, front, id) || (last == Cancels(id) && id < |Run(c, EMPTY, front).loops|)
  {
    var events := front + [last];
    assert events[..|front|] == front;
    forall i | 0 <= i < |front| ensures CancelledAt(c, events, id, i) <==> CancelledAt(c, front, id, i) {
      assert events[..i] == front[..i];
    }
    if WasCancelled(c, front, id) {
      var i :| 0 <= i < |front| && CancelledAt(c, front, id, i);
      assert CancelledAt(c, events, id, i);
    }
    if last == Cancels(id) && id < |Run(c, EMPTY, front).loops| {
      assert CancelledAt(c, events, id, |front|);
    }
  }

  /** In every run, how each loop ended: it was confirmed with a status exactly when a reply with that status, neither
      empty nor NOT_FOUND, reached it while it was asking; its request failed exactly when a failed request reached it;
      it was cancelled or timed out exactly when it woke, or was started, with the flag set or else the deadline
      passed; and the flag is set exactly when somebody cancelled it. */
  lemma {:induction false} EndedExactly(c: Calendar, events: seq<Event>)
    ensures var s := Run(c, EMPTY, events);
            && (forall id: nat, outcome :: InPhase(s, id, Done(outcome)) <==> Ended(c, events, id, outcome))
            && (forall id: nat :: id < |s.loops| ==> (s.loops[id].cancelled <==> WasCancelled(c, events, id)))
            && forall id: nat :: WasCancelled(c, events, id) ==> id < |s.loops|
    decreases |events|
  {
    if events == [] {
    } else {
      var front, last := events[..|events| - 1], events[|events| - 1];
      assert events == front + [last];
      EndedExactly(c, front);
      var before, after := Run(c, EMPTY, front), Run(c, EMPTY, events);
      RunSnoc(c, EMPTY, front, last);
      StepEnds(c, before, last);
      forall id: nat, outcome ensures InPhase(after, id, Done(outcome)) <==> Ended(c, events, id, outcome) {
        EndedSnoc(c, front, last, id, outcome);
      }
      forall id: nat
        ensures WasCancelled(c, events, id) ==> id < |after.loops|
        ensures id < |after.loops| ==> (after.loops[id].cancelled <==> WasCancelled(c, events, id))
      {
        CancelledSnoc(c, front, last, id);
        if id < |before.loops| {
          assert GoesOn(before, last, id, after);
        } else if id < |after.loops| {
          assert !after.loops[id].cancelled;
        }
      }
    }
  }

  // ---------------------------------------------------------------------------
  // Where entries come from
  // ---------------------------------------------------------------------------

  ghost predicate TrackedWith(e: Entry, o: Options, now: int) {
    && e.hash == o.hash && e.context == o.context && e.labelText == o.labelText && e.submittedAt == now
    && e.intervalMs == (if o.intervalMs.Some? then o.intervalMs.value else 1000)
    && AsksFor(o, now, e.deadline)
  }

  /** What JavaScript takes for true in a test. */
  ghost predicate Truthy(v: Value) {
    match v
    case Undefined => false
    case Null => false
    case Bool(bit) => bit
    case Num(number) => number != 0.0
    case Str(text) => text != ""
    case _ => true
  }

  ghost predicate RestoredFrom(c: Calendar, e: Entry, candidate: Candidate, now: int) {
    && candidate.Candidate? && candidate.hash == Some(e.hash) && e.hash != ""
    && candidate.labelText == e.labelText && e.submittedAt == now
    && e.intervalMs == (if candidate.intervalMs.Some? && candidate.intervalMs.value > 0 then candidate.intervalMs.value else 1000)
    && candidate.deadline.Some? && e.deadline == c.parse(candidate.deadline.value) && !Passed(e.deadline, now)
    && e.context == (if Truthy(candidate.context) then Thaw(c, candidate.context) else Undefined)
  }

  ghost predicate CameFrom(c: Calendar, e: Entry, event: Event) {
    match event
    case Tracks(options, now) => TrackedWith(e, options, now) && !Passed(e.deadline, now)
    case Imports(raw, now) =>
      && raw.Raw? && raw.version == Some(1) && raw.pending.Some?
      && exists candidate :: candidate in raw.pending.value && RestoredFrom(c, e, candidate, now)
    case _ => false
  }

  lemma {:induction false} RemoveWithin(pending: seq<Entry>, hash: string)
    ensures forall e :: e in Remove(pending, hash) ==> e in pending
  {
    if pending == [] {
    } else {
      RemoveWithin(pending[1..], hash);
    }
  }

  /** A transaction that is tracked already is returned as it is, and any other one as the options say. */
  lemma TrackReturns(s: State, o: Options, now: int)
    ensures var (t, e) := Track(s, o, now);
            && (Find(s.pending, o.hash).Some? ==> t == s && e == Find(s.pending, o.hash).value)
            && (Find(s.pending, o.hash).None? ==>
                  TrackedWith(e, o, now) && t.pending == if Passed(e.deadline, now) then s.pending else s.pending + [e])
  {
    if Find(s.pending, o.hash).None? {
      TrackOutcome(s, o, now);
      assert AsksFor(o, now, Deadline(o, now));
    }
  }

  ghost predicate Source(c: Calendar, e: Entry, candidates: seq<Candidate>, now: int) {
    exists candidate :: candidate in candidates && RestoredFrom(c, e, candidate, now)
  }

  lemma ImportOneAdds(c: Calendar, s: State, candidate: Candidate, now: int)
    ensures forall e :: e in ImportOne(c, s, candidate, now).0.pending ==> e in s.pending || RestoredFrom(c, e, candidate, now)
  {
    if Importable(c, candidate, now) && Find(s.pending, candidate.hash.value).None? {
      TrackOutcome(s, CandidateOptions(c, candidate), now);
    }
  }

  lemma {:induction false} ImportAdds(c: Calendar, s: State, candidates: seq<Candidate>, now: int)
    ensures forall e :: e in ImportAll(c, s, candidates, now).0.pending ==> e in s.pending || Source(c, e, candidates, now)
    decreases |candidates|
  {
    if candidates == [] {
    } else {
      var next := ImportOne(c, s, candidates[0], now).0;
      ImportOneAdds(c, s, candidates[0], now);
      ImportAdds(c, next, candidates[1..], now);
      assert candidates[0] in candidates && forall other :: other in candidates[1..] ==> other in candidates;
    }
  }

  lemma StepAdds(c: Calendar, s: State, event: Event)
    ensures forall e :: e in Step(c, s, event).pending ==> e in s.pending || CameFrom(c, e, event)
  {
    match event
    case Tracks(options, now) => TrackReturns(s, options, now);
    case Imports(raw, now) =>
      if raw.Raw? && raw.pending.Some? {
        ImportAdds(c, s, raw.pending.value, now);
      }
    case Replies(id, reply) =>
      if id < |s.loops| {
        RemoveWithin(s.pending, s.loops[id].hash);
      }
    case Wakes(id, now) =>
      if id < |s.loops| {
        RemoveWithin(s.pending, s.loops[id].hash);
      }
    case Cancels(id) =>
  }

  /** Every registered entry is what some call asked for: its options, or a candidate of an imported state. */
  lemma {:induction false} EntriesComeFromCalls(c: Calendar, events: seq<Event>, e: Entry)
    requires e in Run(c, EMPTY, events).pending
    ensures exists event :: event in events && CameFrom(c, e, event)
    decreases |events|
  {
    if events == [] {
    } else {
      var front, last := events[..|events| - 1], events[|events| - 1];
      assert events == front + [last];
      RunSnoc(c, EMPTY, front, last);
      StepAdds(c, Run(c, EMPTY, front), last);
      if e in Run(c, EMPTY, front).pending {
        EntriesComeFromCalls(c, front, e);
        var event :| event in front && CameFrom(c, e, event);
        assert event in events;
      }
    }
  }

  // ---------------------------------------------------------------------------
  // What export and import return
  // ---------------------------------------------------------------------------

  ghost predicate Writes(c: Calendar, e: Entry, x: Serialized) {
    && x.hash == e.hash && x.labelText == e.labelText && x.intervalMs == e.intervalMs
    && x.submittedAt == c.iso(e.submittedAt) && e.deadline.Some? && x.deadline == c.iso(e.deadline.value)
    && if Truthy(e.context) then Freeze(c, e.context) == Some(x.context) else x.context.Undefined?
  }

  /** An export writes down each entry, in order. */
  lemma {:induction false} ExportWrites(c: Calendar, pending: seq<Entry>)
    requires Export(c, pending).Some?
    ensures |Export(c, pending).value| == |pending|
    ensures forall i :: 0 <= i < |pending| ==> Writes(c, pending[i], Export(c, pending).value[i])
  {
    if pending == [] {
    } else {
      ExportWrites(c, pending[1..]);
    }
  }

  /** The hashes that an import returns entries for: those registered, or made so by this import, with each candidate
      in its turn. */
  function Returned(c: Calendar, known: set<string>, candidates: seq<Candidate>, now: int): seq<string>
    decreases |candidates|
  {
    if candidates == [] then []
    else
      var first := candidates[0];
      if HasHash(first) && (first.hash.value in known || Importable(c, first, now))
      then [first.hash.value] + Returned(c, known + {first.hash.value}, candidates[1..], now)
      else Returned(c, known, candidates[1..], now)
  }

  ghost predicate Registers(s: State, known: set<string>) {
    forall hash :: hash in known <==> Find(s.pending, hash).Some?
  }

  function Hashes(entries: seq<Entry>): seq<string> {
    if entries == [] then [] else [entries[0].hash] + Hashes(entries[1..])
  }

  /** The entries that are registered in `s`, for candidates of the given hashes. */
  ghost predicate AllRegistered(s: State, entries: seq<Entry>) {
    forall e :: e in entries ==> Find(s.pending, e.hash) == Some(e)
  }

  ghost predicate Preserves(s: State, t: State) {
    forall hash :: Find(s.pending, hash).Some? ==> Find(t.pending, hash) == Find(s.pending, hash)
  }

  lemma ImportOneReturns(c: Calendar, s: State, candidate: Candidate, now: int, known: set<string>)
    requires Registers(s, known)
    ensures var (t, restored) := ImportOne(c, s, candidate, now);
            && Preserves(s, t) && AllRegistered(t, restored)
            && if HasHash(candidate) && (candidate.hash.value in known || Importable(c, candidate, now))
               then |restored| == 1 && restored[0].hash == candidate.hash.value && Registers(t, known + {candidate.hash.value})
               else restored == [] && t == s
  {
    if Importable(c, candidate, now) && Find(s.pending, candidate.hash.value).None? {
      var o := CandidateOptions(c, candidate);
      TrackOutcome(s, o, now);
      var e := NewEntry(o, now, |s.loops|);
      forall hash ensures Find(s.pending + [e], hash) == if hash == e.hash then Some(e) else Find(s.pending, hash) {
        FindAppend(s.pending, e, hash);
      }
    }
  }

  lemma HashesCons(one: seq<Entry>, rest: seq<Entry>)
    ensures |one| == 1 ==> Hashes(one + rest) == [one[0].hash] + Hashes(rest)
    ensures one == [] ==> one + rest == rest
  {
  }

  /** An import returns, for each such candidate in order, the entry that is registered for its hash afterwards, and
      keeps what was registered before. */
  lemma {:induction false} ImportReturns(c: Calendar, s: State, candidates: seq<Candidate>, now: int, known: set<string>)
    requires Registers(s, known)
    ensures var (t, restored) := ImportAll(c, s, candidates, now);
            && Hashes(restored) == Returned(c, known, candidates, now)
            && AllRegistered(t, restored) && Preserves(s, t)
    decreases |candidates|
  {
    if candidates == [] {
    } else {
      var first := candidates[0];
      var (t, one) := ImportOne(c, s, first, now);
      ImportOneReturns(c, s, first, now, known);
      var known' := if one == [] then known else known + {first.hash.value};
      ImportReturns(c, t, candidates[1..], now, known');
      HashesCons(one, ImportAll(c, t, candidates[1..], now).1);
    }
  }

  /** Which states are refused, and why; a refused state changes nothing. */
  lemma ImportRejectsExactly(c: Calendar, s: State, raw: Raw, now: int)
    ensures var (t, result) := Import(c, s, raw, now);
            && (result == Rejected(InvalidState) <==> raw.NotAState?)
            && (result == Rejected(UnsupportedVersion) <==> raw.Raw? && raw.version != Some(1))
            && (result == Rejected(PendingNotAnArray) <==> raw.Raw? && raw.version == Some(1) && raw.pending.None?)
            && (result.Rejected? ==> t == s)
  {
  }
}
