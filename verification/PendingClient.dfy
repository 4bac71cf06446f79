/**
 * The client object that holds the registry of PendingRegistry.dfy, with its methods as the source writes them.
 */
module PendingClient {
  import opened Common
  import opened DateCodec
  import opened PendingRegistry

  class Client {
    const calendar: Calendar
    var pending: seq<Entry>
    var loops: seq<Loop>

    ghost function Contents(): State
      reads this
    {
      State(pending, loops)
    }

    ghost predicate Valid()
      reads this
    {
      Inv(Contents())
    }

    constructor (calendar: Calendar)
      ensures Valid() && Contents() == EMPTY && this.calendar == calendar
    {
      this.calendar := calendar;
      pending, loops := [], [];
    }

    method TrackTransaction(o: Options, now: int) returns (tracked: Entry)
      requires Valid()
      modifies this
      ensures Valid() && (Contents(), tracked) == Track(old(Contents()), o, now)
    {
      TrackKeeps(Contents(), o, now);
      var existing := Find(pending, o.hash);
      if existing.Some? {
        return existing.value;
      }
      tracked := Entry(o.hash, o.context, now, Interval(o), Deadline(o, now), o.labelText, |loops|);
      pending := pending + [tracked];
      loops := loops + [Loop(o.hash, tracked.deadline, tracked.intervalMs, false, Requesting)];
      Continue(tracked.loop, now);
    }

    /** The head of the polling loop and, when the loop is over, the code that follows it. */
    method Continue(id: nat, now: int)
      requires id < |loops|
      modifies this
      ensures var before := old(Contents());
              Contents() == Advance(before, id, Turn(before.loops[id].cancelled, before.loops[id].deadline, now))
    {
      var l := loops[id];
      if !l.cancelled && Earlier(now, l.deadline) {
        loops := loops[id := l.(phase := Requesting)];
        return;
      }
      var outcome := if l.cancelled then Cancelled else TimedOut;
      loops := loops[id := l.(phase := Done(outcome))];
      pending := Remove(pending, l.hash);
    }

    method OnReply(id: nat, reply: Reply)
      requires Valid() && id < |loops| && loops[id].phase == Requesting
      modifies this
      ensures Valid() && Contents() == Step(calendar, old(Contents()), Replies(id, reply))
    {
      StepKeeps(calendar, Contents(), Replies(id, reply));
      var l := loops[id];
      if reply.Response? && (reply.status.None? || reply.status.value == "" || reply.status.value == "NOT_FOUND") {
        loops := loops[id := l.(phase := Sleeping)];
        return;
      }
      var outcome := if reply.Failed? then RequestFailed else Confirmed(reply.status.value);
      loops := loops[id := l.(phase := Done(outcome))];
      pending := Remove(pending, l.hash);
    }

    method OnWake(id: nat, now: int)
      requires Valid() && id < |loops| && loops[id].phase == Sleeping
      modifies this
      ensures Valid() && Contents() == Step(calendar, old(Contents()), Wakes(id, now))
    {
      StepKeeps(calendar, Contents(), Wakes(id, now));
      Continue(id, now);
    }

    /** Sets a flag that the loop reads when it wakes. */
    method Cancel(id: nat)
      requires Valid() && id < |loops|
      modifies this
      ensures Valid() && Contents() == Step(calendar, old(Contents()), Cancels(id))
    {
      StepKeeps(calendar, Contents(), Cancels(id));
      loops := loops[id := loops[id].(cancelled := true)];
    }

    method ExportState() returns (exported: Option<seq<Serialized>>)
      ensures exported == Export(calendar, pending)
    {
      var out: seq<Serialized> := [];
      BeforeNothing(Export(calendar, pending));
      assert pending[0..] == pending;
      for i := 0 to |pending|
        invariant Export(calendar, pending) == Before(out, Export(calendar, pending[i..]))
      {
        assert pending[i..][1..] == pending[i + 1..];
        var serialized := Serialize(calendar, pending[i]);
        if serialized.None? {
          return None;
        }
        BeforeAssoc(out, serialized.value, Export(calendar, pending[i + 1..]));
        out := out + [serialized.value];
      }
      BeforeEnd(out);
      return Some(out);
    }

    method ImportState(raw: Raw, now: int) returns (result: Imported)
      requires Valid()
      modifies this
      ensures Valid() && (Contents(), result) == Import(calendar, old(Contents()), raw, now)
    {
      if raw.NotAState? {
        return Rejected(InvalidState);
      }
      if raw.version != Some(HYDRATION_STATE_VERSION) {
        return Rejected(UnsupportedVersion);
      }
      if raw.pending.None? {
        return Rejected(PendingNotAnArray);
      }
      var candidates := raw.pending.value;
      var restored: seq<Entry> := [];
      ghost var start := Contents();
      ghost var whole := ImportAll(calendar, start, candidates, now);
      assert candidates[0..] == candidates && [] + whole.1 == whole.1;
      for i := 0 to |candidates|
        invariant Valid()
        invariant whole.0 == ImportAll(calendar, Contents(), candidates[i..], now).0
        invariant whole.1 == restored + ImportAll(calendar, Contents(), candidates[i..], now).1
      {
        ghost var before := Contents();
        var entries := ImportCandidate(candidates[i], now);
        ImportUnrolls(calendar, before, candidates, i, now);
        AppendAssoc(restored, entries, ImportAll(calendar, Contents(), candidates[i + 1..], now).1);
        restored := restored + entries;
      }
      assert restored + [] == restored;
      return Restored(restored);
    }

    /** One round of the import: what it adds to the result. */
    method ImportCandidate(candidate: Candidate, now: int) returns (entries: seq<Entry>)
      requires Valid()
      modifies this
      ensures Valid() && (Contents(), entries) == ImportOne(calendar, old(Contents()), candidate, now)
    {
      if !HasHash(candidate) {
        return [];
      }
      var existing := Find(pending, candidate.hash.value);
      if existing.Some? {
        return [existing.value];
      }
      var deadline := CandidateDeadline(calendar, candidate);
      if !Earlier(now, deadline) {
        return [];
      }
      var intervalMs := DEFAULT_INTERVAL_MS;
      if candidate.intervalMs.Some? && candidate.intervalMs.value > 0 {
        intervalMs := candidate.intervalMs.value;
      }
      var tracked := TrackTransaction(Options(candidate.hash.value, ThawContext(calendar, candidate.context),
                                              Some(intervalMs), None, Some(deadline), candidate.labelText), now);
      return [tracked];
    }
  }

  lemma ImportUnrolls(c: Calendar, s: State, candidates: seq<Candidate>, i: nat, now: int)
    requires i < |candidates|
    ensures var one := ImportOne(c, s, candidates[i], now);
            var others := ImportAll(c, one.0, candidates[i + 1..], now);
            ImportAll(c, s, candidates[i..], now) == (others.0, one.1 + others.1)
  {
  }
}
