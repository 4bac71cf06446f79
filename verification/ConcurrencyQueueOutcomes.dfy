/**
 * How the request scheduler settles the promises of its callers, told from the events of a run.
 */
module ConcurrencyQueueOutcomes {
  import opened Common
  import opened ConcurrencyQueue
  import opened ConcurrencyQueueProofs

  ghost predicate Completed(events: seq<Event>, id: Id, ok: bool) {
    exists now :: Complete(id, ok, now) in events
  }

  /** The queue was cleared while the request was in it. */
  ghost predicate ClearedWhileQueued(c: Config, s: State, events: seq<Event>, id: Id) {
    exists i :: 0 <= i < |events| && ClearedAt(c, s, events, id, i)
  }

  ghost predicate ClearedAt(c: Config, s: State, events: seq<Event>, id: Id, i: nat)
    requires i < |events|
  {
    events[i].Clear? && id in After(c, s, events[..i]).queue
  }

  /** What must have happened for a promise to be settled in this way. */
  ghost predicate Explains(c: Config, start: int, events: seq<Event>, started: seq<Id>, x: Settlement) {
    match x.outcome
    case Resolved => Completed(events, x.id, true)
    case Rejected => Completed(events, x.id, false) || (c.throwsSync(x.id) && x.id in started)
    case TimedOut => QueueTimeout(x.id) in events
    case Cancelled => ClearedWhileQueued(c, Init(start), events, x.id)
  }

  // ---------------------------------------------------------------------------
  // One event
  // ---------------------------------------------------------------------------

  /** `r` comes from `s` by starting requests, and by rejecting those of them that throw synchronously. */
  ghost predicate RejectsThrowers(c: Config, s: State, r: State) {
    && s.started <= r.started
    && forall x :: x in r.settlements <==>
         x in s.settlements || (x.outcome == Rejected && c.throwsSync(x.id) && x.id in r.started[|s.started|..])
  }

  lemma RejectsThenRejects(c: Config, s: State, t: State, r: State)
    requires RejectsThrowers(c, s, t) && RejectsThrowers(c, t, r)
    ensures RejectsThrowers(c, s, r)
  {
    assert r.started[|s.started|..] == t.started[|s.started|..] + r.started[|t.started|..];
  }

  lemma StartRejects(c: Config, s: State)
    requires s.queue != []
    ensures var id, s' := s.queue[0], Start(s);
            if c.throwsSync(id) then RejectsThrowers(c, s, Finish(s', id, false)) else RejectsThrowers(c, s, s')
  {
    var id := s.queue[0];
    assert (s.started + [id])[|s.started|..] == [id];
  }

  lemma {:induction false} ProcessRejects(c: Config, s: State, now: int)
    ensures RejectsThrowers(c, s, ProcessQueue(c, s, now))
    decreases |s.queue|, 1
  {
    var t := if c.enableThrottling then IsThrottled(c, s, now).1 else s;
    assert RejectsThrowers(c, s, t);
    if !c.enableThrottling || !IsThrottled(c, s, now).0 {
      DrainRejects(c, t, now);
      RejectsThenRejects(c, s, t, Drain(c, t, now));
    }
  }

  lemma {:induction false} DrainRejects(c: Config, s: State, now: int)
    ensures RejectsThrowers(c, s, Drain(c, s, now))
    decreases |s.queue|, 0
  {
    if s.activeRequests < c.maxConcurrentRequests && s.queue != [] {
      var id, s', r := s.queue[0], Start(s), Drain(c, s, now);
      StartRejects(c, s);
      if c.throwsSync(id) {
        var done := Finish(s', id, false);
        var t := ProcessQueue(c, done, now);
        ProcessRejects(c, done, now);
        DrainRejects(c, t, now);
        RejectsThenRejects(c, s, done, t);
        RejectsThenRejects(c, s, t, r);
      } else {
        DrainRejects(c, s', now);
        RejectsThenRejects(c, s, s', r);
      }
    }
  }

  /** The settlements that one event adds. */
  ghost predicate Adds(c: Config, s: State, e: Event, r: State, x: Settlement)
    requires s.started <= r.started
  {
    match x.outcome
    case Resolved => e.Complete? && e.id == x.id && e.ok
    case Rejected =>
      (e.Complete? && e.id == x.id && !e.ok) || (c.throwsSync(x.id) && x.id in r.started[|s.started|..])
    case TimedOut => e == QueueTimeout(x.id)
    case Cancelled => e.Clear? && x.id in s.queue
  }

  ghost predicate AddsExactly(c: Config, s: State, e: Event, r: State) {
    && s.started <= r.started
    && forall x :: x in r.settlements <==> x in s.settlements || Adds(c, s, e, r, x)
  }

  lemma CompleteAdds(c: Config, s: State, id: Id, ok: bool, now: int)
    ensures AddsExactly(c, s, Complete(id, ok, now), Step(c, s, Complete(id, ok, now)))
  {
    ProcessRejects(c, Finish(s, id, ok), now);
  }

  lemma ClearAdds(c: Config, s: State)
    ensures AddsExactly(c, s, Clear, Step(c, s, Clear))
  {
    var cancelled := CancelAll(s.queue);
    forall x ensures x in cancelled <==> x.outcome == Cancelled && x.id in s.queue {
      if x.outcome == Cancelled && x.id in s.queue {
        var i :| 0 <= i < |s.queue| && s.queue[i] == x.id;
        assert cancelled[i] == x;
      }
    }
  }

  lemma StepAdds(c: Config, s: State, e: Event)
    ensures AddsExactly(c, s, e, Step(c, s, e))
  {
    match e
    case Submit(id, now) =>
      ProcessRejects(c, s.(queue := s.queue + [id], submitted := s.submitted + [id],
                           armed := if c.queueTimeout != 0 then s.armed + {id} else s.armed), now);
    case Complete(id, ok, now) => CompleteAdds(c, s, id, ok, now);
    case QueueTimeout(id) =>
    case TimerFires(now) => ProcessRejects(c, s.(throttleTimer := None), now);
    case Clear => ClearAdds(c, s);
    case ReadStatus(now) =>
  }

  // ---------------------------------------------------------------------------
  // Every run
  // ---------------------------------------------------------------------------

  lemma {:induction false} LastStep(c: Config, s: State, events: seq<Event>)
    requires Legal(c, s, events) && events != []
    ensures var front, last := events[..|events| - 1], events[|events| - 1];
            && Legal(c, s, front) && Enabled(After(c, s, front), last)
            && After(c, s, events) == Step(c, After(c, s, front), last)
    decreases |events|
  {
    if |events| == 1 {
      assert events[1..] == [];
    } else {
      LastStep(c, Step(c, s, events[0]), events[1..]);
      assert events[1..][..|events| - 2] == events[..|events| - 1][1..];
    }
  }

  lemma ClearedSnoc(c: Config, s: State, front: seq<Event>, last: Event, id: Id)
    ensures ClearedWhileQueued(c, s, front + [last], id)
       <==> ClearedWhileQueued(c, s, front, id) || (last.Clear? && id in After(c, s, front).queue)
  {
    var events := front + [last];
    assert events[..|front|] == front;
    forall i | 0 <= i < |front| ensures ClearedAt(c, s, events, id, i) <==> ClearedAt(c, s, front, id, i) {
      assert events[..i] == front[..i];
    }
    if ClearedWhileQueued(c, s, front, id) {
      var i :| 0 <= i < |front| && ClearedAt(c, s, front, id, i);
      assert ClearedAt(c, s, events, id, i);
    }
    if last.Clear? && id in After(c, s, front).queue {
      assert ClearedAt(c, s, events, id, |front|);
    }
  }

  lemma ExplainsSnoc(c: Config, start: int, front: seq<Event>, last: Event, before: State, after: State, x: Settlement)
    requires before == After(c, Init(start), front) && before.started <= after.started
    ensures Explains(c, start, front + [last], after.started, x)
       <==> Explains(c, start, front, before.started, x) || Adds(c, before, last, after, x)
  {
    ClearedSnoc(c, Init(start), front, last, x.id);
    assert after.started == before.started + after.started[|before.started|..];
    if last.Complete? {
      assert last in front + [last] && last == Complete(last.id, last.ok, last.now);
    }
  }

  /** In every run, how each promise was settled: it resolved exactly when its request completed well; it was rejected
      exactly when its request failed, or started and threw synchronously; it timed out exactly when its queue timeout
      fired; and it was cancelled exactly when the queue was cleared with the request in it. */
  lemma {:induction false} SettledExactly(c: Config, start: int, events: seq<Event>)
    requires Legal(c, Init(start), events)
    ensures var s := After(c, Init(start), events);
            forall x :: x in s.settlements <==> Explains(c, start, events, s.started, x)
    decreases |events|
  {
    if events == [] {
    } else {
      var front, last := events[..|events| - 1], events[|events| - 1];
      LastStep(c, Init(start), events);
      SettledExactly(c, start, front);
      var before, after := After(c, Init(start), front), After(c, Init(start), events);
      StepAdds(c, before, last);
      assert events == front + [last];
      forall x ensures x in after.settlements <==> Explains(c, start, events, after.started, x) {
        ExplainsSnoc(c, start, front, last, before, after, x);
      }
    }
  }

  // ---------------------------------------------------------------------------
  // Timers
  // ---------------------------------------------------------------------------

  /** Processing while the limit of a running interval is used up starts nothing, and sets the timer to the end of that
      interval. */
  lemma ThrottledProcessWaits(c: Config, s: State, now: int)
    requires c.enableThrottling && now < s.lastThrottleReset + c.throttleInterval
    requires s.requestsInCurrentInterval >= c.throttleRate
    ensures var r := ProcessQueue(c, s, now);
            && r.throttleTimer == Some(s.lastThrottleReset + c.throttleInterval)
            && r == s.(throttleTimer := r.throttleTimer)
  {
  }

  /** Reading the status changes nothing, unless throttling is on and the interval has passed: then a new one starts, in
      which nothing has been counted. */
  lemma StatusReading(c: Config, s: State, now: int)
    ensures var r := Step(c, s, ReadStatus(now));
            && r.queue == s.queue && r.active == s.active && r.started == s.started && r.settlements == s.settlements
            && r.throttleTimer == s.throttleTimer && r.armed == s.armed
            && if c.enableThrottling && now >= s.lastThrottleReset + c.throttleInterval
               then r.requestsInCurrentInterval == 0 && r.lastThrottleReset == now
               else r == s
  {
  }

  /** Whenever the queue is cleared, nothing is left in it and no timer is left that could fire; running requests go on. */
  lemma ClearLeavesNoTimer(c: Config, start: int, events: seq<Event>)
    requires Legal(c, Init(start), events)
    ensures var before := After(c, Init(start), events);
            var after := Step(c, before, Clear);
            && after.queue == [] && after.active == before.active && after.activeRequests == before.activeRequests
            && forall e :: Enabled(after, e) ==> !e.QueueTimeout? && !e.TimerFires?
  {
    RunKeeps(c, Init(start), events);
    var before := After(c, Init(start), events);
    assert forall id :: id in before.armed ==> id in before.queue;
  }
}
